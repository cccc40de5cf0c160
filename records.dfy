/** The record-store operations every page repeats on its arrays of records:
    `find`/`findIndex` by id (first match), `filter` out an id, `map` an id to a
    replacement, create-or-update ("upsert"), and the de-duplication that
    `[...new Set(xs)]` performs. Records are any values with an integer id,
    read through `key`. */
module Records {

  datatype Option<T> = None | Some(value: T)

  /** JavaScript truthiness of a variable holding `null` or a numeric id:
      `null` and `0` are falsy, every other number is truthy. */
  predicate Truthy(id: Option<int>) {
    id.Some? && id.value != 0
  }

  /** `editingId ?? fresh`: the held id, even `0`, or `now` when it is `null`. */
  function IdOr(editing: Option<int>, now: int): int {
    if editing.Some? then editing.value else now
  }

  /** Some record of `s` has id `id`. */
  predicate HasId<T>(s: seq<T>, key: T -> int, id: int) {
    exists i :: 0 <= i < |s| && key(s[i]) == id
  }

  /** No two records of `s` share an id. */
  predicate UniqueIds<T>(s: seq<T>, key: T -> int) {
    forall i, j :: 0 <= i < j < |s| ==> key(s[i]) != key(s[j])
  }

  /** `s.findIndex(x => x.id === id)`, with `None` for `-1`: the position of
      the FIRST record with that id. */
  function FindIndex<T>(s: seq<T>, key: T -> int, id: int): (r: Option<nat>)
    ensures r.Some? ==> r.value < |s| && key(s[r.value]) == id
    ensures r.Some? ==> forall j :: 0 <= j < r.value ==> key(s[j]) != id
    ensures r.None? <==> !HasId(s, key, id)
  {
    if |s| == 0 then None
    else if key(s[0]) == id then Some(0)
    else match FindIndex(s[1..], key, id)
      case None =>
        assert forall j :: 1 <= j < |s| ==> s[j] == s[1..][j - 1];
        None
      case Some(i) => Some(i + 1)
  }

  /** `s.find(x => x.id === id)`: the first record with that id, if any. */
  function Find<T>(s: seq<T>, key: T -> int, id: int): (r: Option<T>)
    ensures r.Some? <==> HasId(s, key, id)
    ensures r.Some? ==> key(r.value) == id && r.value in s
    ensures r.Some? ==> FindIndex(s, key, id).Some? && r.value == s[FindIndex(s, key, id).value]
  {
    match FindIndex(s, key, id)
    case None => None
    case Some(i) => Some(s[i])
  }

  /** `s.filter(x => x.id !== id)`. */
  function FilterOut<T(!new)>(s: seq<T>, key: T -> int, id: int): (r: seq<T>)
    ensures |r| <= |s|
    ensures forall x :: x in r <==> x in s && key(x) != id
  {
    if |s| == 0 then []
    else
      var rest := FilterOut(s[1..], key, id);
      assert forall x :: x in s <==> x == s[0] || x in s[1..];
      if key(s[0]) == id then rest else [s[0]] + rest
  }

  /** Filtering out an id no record carries changes nothing. */
  lemma {:induction false} FilterOutAbsent<T(!new)>(s: seq<T>, key: T -> int, id: int)
    requires !HasId(s, key, id)
    ensures FilterOut(s, key, id) == s
  {
    if |s| > 0 {
      assert !HasId(s[1..], key, id) by {
        forall j | 0 <= j < |s| - 1 ensures key(s[1..][j]) != id {
          assert s[1..][j] == s[j + 1];
        }
      }
      FilterOutAbsent(s[1..], key, id);
    }
  }

  /** Filtering keeps the surviving records in their order: it distributes
      over concatenation. */
  lemma {:induction false} FilterOutAppend<T(!new)>(s: seq<T>, t: seq<T>, key: T -> int, id: int)
    ensures FilterOut(s + t, key, id) == FilterOut(s, key, id) + FilterOut(t, key, id)
  {
    if |s| > 0 {
      assert (s + t)[1..] == s[1..] + t;
      FilterOutAppend(s[1..], t, key, id);
    } else {
      assert s + t == t;
    }
  }

  /** Deleting an id twice is deleting it once. */
  lemma FilterOutIdempotent<T(!new)>(s: seq<T>, key: T -> int, id: int)
    ensures FilterOut(FilterOut(s, key, id), key, id) == FilterOut(s, key, id)
  {
    var r := FilterOut(s, key, id);
    assert !HasId(r, key, id) by {
      forall j | 0 <= j < |r| ensures key(r[j]) != id {
        assert r[j] in r;
      }
    }
    FilterOutAbsent(r, key, id);
  }

  /** `s.map(x => x.id === id ? y : x)`. */
  function ReplaceWhere<T>(s: seq<T>, key: T -> int, id: int, y: T): (r: seq<T>)
    ensures |r| == |s|
  {
    seq(|s|, i requires 0 <= i < |s| => if key(s[i]) == id then y else s[i])
  }

  /** The edit path of every form: with an editing id, replace the records
      carrying it; without one, append the new record. The JavaScript tests
      `if (editingId)`, so an id of `0` takes the append path. In edit mode
      the store keeps its length and its positions: the records with the
      editing id become `y` and every other record stays where it was. */
  function Upsert<T>(s: seq<T>, key: T -> int, editing: Option<int>, y: T): (r: seq<T>)
    ensures Truthy(editing) ==> |r| == |s|
    ensures Truthy(editing) ==> forall i :: 0 <= i < |s| && key(s[i]) != editing.value ==> r[i] == s[i]
    ensures Truthy(editing) ==> forall i :: 0 <= i < |s| && key(s[i]) == editing.value ==> r[i] == y
    ensures !Truthy(editing) ==> |r| == |s| + 1 && r[..|s|] == s && r[|s|] == y
  {
    if Truthy(editing) then ReplaceWhere(s, key, editing.value, y) else s + [y]
  }

  /** After an edit with a matching id, the first record with that id is the
      new one, and ids stay unique. Without any record carrying the id the
      edit changes nothing. */
  lemma {:induction false} ReplaceWhereFound<T>(s: seq<T>, key: T -> int, id: int, y: T)
    requires key(y) == id
    ensures HasId(s, key, id) ==> Find(ReplaceWhere(s, key, id, y), key, id) == Some(y)
    ensures !HasId(s, key, id) ==> ReplaceWhere(s, key, id, y) == s
    ensures UniqueIds(s, key) ==> UniqueIds(ReplaceWhere(s, key, id, y), key)
  {
    var r := ReplaceWhere(s, key, id, y);
    if HasId(s, key, id) {
      var k :| 0 <= k < |s| && key(s[k]) == id;
      assert key(r[k]) == id;
      match FindIndex(r, key, id)
      case Some(i) => assert r[i] == y;
    }
  }

  /** Appending a record whose id is new keeps ids unique; this is the
      property a clock-based id relies on. */
  lemma AppendFreshId<T>(s: seq<T>, key: T -> int, y: T)
    requires UniqueIds(s, key) && !HasId(s, key, key(y))
    ensures UniqueIds(s + [y], key)
  {
    var r := s + [y];
    forall i, j | 0 <= i < j < |r| ensures key(r[i]) != key(r[j]) {
      if j == |s| {
        assert r[i] == s[i];
      } else {
        assert r[i] == s[i] && r[j] == s[j];
      }
    }
  }

  /** `s[i] = f(s[i])` at `i = s.findIndex(x => x.id === id)`, or `s` as it
      is when no record has the id. `f` keeps ids. Only the first record with
      the id changes, and it becomes `f` of what it was. */
  function UpdateFirst<T(!new)>(s: seq<T>, key: T -> int, id: int, f: T -> T): (r: seq<T>)
    requires forall x :: key(f(x)) == key(x)
    ensures |r| == |s|
    ensures forall k :: 0 <= k < |s| ==> key(r[k]) == key(s[k])
    ensures !HasId(s, key, id) ==> r == s
    ensures HasId(s, key, id) ==> Find(r, key, id) == Some(f(Find(s, key, id).value))
    ensures forall k :: 0 <= k < |s| && r[k] != s[k] ==> FindIndex(s, key, id) == Some(k)
  {
    match FindIndex(s, key, id)
    case None => s
    case Some(i) =>
      var r := s[i := f(s[i])];
      assert forall j :: 0 <= j < i ==> key(r[j]) != id;
      assert key(r[i]) == id;
      assert FindIndex(r, key, id) == Some(i);
      r
  }

  /** Applying an idempotent update twice to the first record with an id is
      applying it once: submitting the same edit again changes nothing. */
  lemma UpdateFirstIdempotent<T(!new)>(s: seq<T>, key: T -> int, id: int, f: T -> T)
    requires forall x :: key(f(x)) == key(x)
    requires forall x :: f(f(x)) == f(x)
    ensures UpdateFirst(UpdateFirst(s, key, id, f), key, id, f) == UpdateFirst(s, key, id, f)
  {
    match FindIndex(s, key, id)
    case None =>
    case Some(i) =>
      var r := UpdateFirst(s, key, id, f);
      assert r == s[i := f(s[i])];
      assert key(r[i]) == id;
      match FindIndex(r, key, id)
      case Some(j) =>
        assert key(s[j]) == id && key(r[i]) == id;
        assert j == i;
  }

  /** Two stores that differ only in records carrying `id`, at the same
      positions and with the same ids, agree once `id` is filtered out. */
  lemma {:induction false} FilterOutAgreesOffId<T(!new)>(s: seq<T>, r: seq<T>, key: T -> int, id: int)
    requires |r| == |s|
    requires forall k :: 0 <= k < |s| ==> key(r[k]) == key(s[k])
    requires forall k :: 0 <= k < |s| && r[k] != s[k] ==> key(s[k]) == id
    ensures FilterOut(r, key, id) == FilterOut(s, key, id)
  {
    if |s| > 0 {
      forall k | 0 <= k < |s| - 1
        ensures key(r[1..][k]) == key(s[1..][k])
        ensures r[1..][k] != s[1..][k] ==> key(s[1..][k]) == id
      {
        assert r[1..][k] == r[k + 1] && s[1..][k] == s[k + 1];
      }
      FilterOutAgreesOffId(s[1..], r[1..], key, id);
    }
  }

  /** Updating the first record with an id and then deleting the id leaves
      what deleting it alone leaves. */
  lemma UpdateFirstThenFilterOut<T(!new)>(s: seq<T>, key: T -> int, id: int, f: T -> T)
    requires forall x :: key(f(x)) == key(x)
    ensures FilterOut(UpdateFirst(s, key, id, f), key, id) == FilterOut(s, key, id)
  {
    var r := UpdateFirst(s, key, id, f);
    forall k | 0 <= k < |s| && r[k] != s[k] ensures key(s[k]) == id {
      assert FindIndex(s, key, id) == Some(k);
    }
    FilterOutAgreesOffId(s, r, key, id);
  }

  /** Replacing and then deleting an id is the same as deleting it. */
  lemma {:induction false} FilterOutAfterReplace<T(!new)>(s: seq<T>, key: T -> int, id: int, y: T)
    requires key(y) == id
    ensures FilterOut(ReplaceWhere(s, key, id, y), key, id) == FilterOut(s, key, id)
  {
    if |s| > 0 {
      var r := ReplaceWhere(s, key, id, y);
      assert r[1..] == ReplaceWhere(s[1..], key, id, y);
      FilterOutAfterReplace(s[1..], key, id, y);
    }
  }

  /** `[...new Set(s)]`: the distinct values of `s` in the order of their first
      occurrence (a `Set` iterates in insertion order). */
  function Distinct<T(==,!new)>(s: seq<T>): (r: seq<T>)
    ensures forall x :: x in r <==> x in s
    ensures forall i, j :: 0 <= i < j < |r| ==> r[i] != r[j]
  {
    if |s| == 0 then []
    else
      var d := Distinct(s[..|s| - 1]);
      assert forall x :: x in s <==> x in s[..|s| - 1] || x == s[|s| - 1];
      if s[|s| - 1] in d then d else d + [s[|s| - 1]]
  }

  /** The index of the first occurrence of `x` in `s`. */
  function FirstIndex<T(==,!new)>(s: seq<T>, x: T): (i: nat)
    requires x in s
    ensures i < |s| && s[i] == x && x !in s[..i]
  {
    if s[0] == x then 0 else FirstIndex(s[1..], x) + 1
  }

  /** `Distinct` lists values in the order in which they first occur in `s`. */
  lemma {:induction false} DistinctFirstOccurrenceOrder<T(!new)>(s: seq<T>, i: nat, j: nat)
    requires i < j < |Distinct(s)|
    ensures FirstIndex(s, Distinct(s)[i]) < FirstIndex(s, Distinct(s)[j])
  {
    var p := s[..|s| - 1];
    var d := Distinct(p);
    var r := Distinct(s);
    assert forall x :: x in p ==> FirstIndex(s, x) == FirstIndex(p, x) by {
      forall x | x in p ensures FirstIndex(s, x) == FirstIndex(p, x) {
        FirstIndexOfPrefix(s, p, x);
      }
    }
    if j < |d| {
      assert r[i] == d[i] && r[j] == d[j];
      DistinctFirstOccurrenceOrder(p, i, j);
    } else {
      // r[j] is the last value of s, which does not occur earlier
      assert r[j] == s[|s| - 1] && r[j] !in d;
      assert r[i] == d[i] && r[i] in p;
      var fi := FirstIndex(s, r[i]);
      assert fi < |p|;
      assert r[j] !in p;
    }
  }

  /** The first occurrence of a value in a prefix is its first occurrence in
      the whole sequence. */
  lemma {:induction false} FirstIndexOfPrefix<T(!new)>(s: seq<T>, p: seq<T>, x: T)
    requires |p| <= |s| && p == s[..|p|] && x in p
    ensures FirstIndex(s, x) == FirstIndex(p, x)
  {
    var k := FirstIndex(p, x);
    assert s[k] == x && s[..k] == p[..k];
  }
}
