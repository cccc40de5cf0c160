/** The pages screen (pages-script.js): rich-text pages kept newest first, an
    editor modal with a title, a content area and a clickable icon, and the
    create/edit/delete handlers. The clock (`Date.now()` and `new Date()`) and
    the answers to `confirm` are parameters. */
module Pages {
  import opened Records
  import opened Text

  /** A page: `createdAt` is in epoch milliseconds, `date` is the ISO date of
      its last save. */
  datatype Page = Page(id: int, title: string, content: string, icon: string, date: string, createdAt: int)

  function PageId(p: Page): int { p.id }

  /** What `new Date()` yields as far as `savePage` reads it: `getTime()` and
      the local `getFullYear()`, `getMonth()` (0 to 11) and `getDate()`
      (1 to 31). */
  datatype Instant = Instant(millis: int, year: int, month: int, day: int)

  predicate ValidInstant(t: Instant) {
    0 <= t.month <= 11 && 1 <= t.day <= 31
  }

  // ---------------------------------------------------------------- dates

  /** A two-digit field as `String(n).padStart(2, "0")` writes it, read back. */
  lemma TwoDigitField(n: nat)
    requires n < 100
    ensures |PadStart2(NatToString(n))| == 2 && IsDigits(PadStart2(NatToString(n)))
    ensures DigitsValue(PadStart2(NatToString(n))) == n
  {
    var s := NatToString(n);
    NatToStringLength(n);
    NatToStringRoundTrip(n);
    if n < 10 {
      var p := PadStart2(s);
      assert p == "0" + s;
      assert p[..1] == "0";
    }
  }

  /** Reads `YYYY-MM-DD` back into (year, month 1-12, day). */
  function ParseDateISO(s: string): Option<(int, int, int)> {
    if |s| == 10 && s[4] == '-' && s[7] == '-' && IsDigits(s[..4]) && IsDigits(s[5..7]) && IsDigits(s[8..])
    then Some((DigitsValue(s[..4]), DigitsValue(s[5..7]), DigitsValue(s[8..])))
    else None
  }

  /** Four digits, two digits and two digits joined by dashes read back as
      their three values. */
  lemma JoinedDateParses(y: string, m: string, d: string)
    requires |y| == 4 && |m| == 2 && |d| == 2 && IsDigits(y) && IsDigits(m) && IsDigits(d)
    ensures ParseDateISO(y + "-" + m + "-" + d) == Some((DigitsValue(y), DigitsValue(m), DigitsValue(d)))
  {
    var r := y + "-" + m + "-" + d;
    assert |r| == 10;
    assert r[4] == '-' && r[7] == '-';
    assert r[..4] == y;
    assert r[5] == m[0] && r[6] == m[1];
    assert r[5..7] == m;
    assert r[8..] == d;
  }

  /** `formatDateISO`: year, then the 1-based month and the day of the month,
      each padded to two digits. For a four-digit year the result is a
      `YYYY-MM-DD` date of ISO 8601 that reads back as the year, month and
      day it was written from, so the month field is 01 to 12. */
  function FormatDateISO(year: int, month: int, day: int): (r: string)
    requires 0 <= month <= 11 && 1 <= day <= 31
    ensures 1000 <= year <= 9999 ==> |r| == 10 && ParseDateISO(r) == Some((year, month + 1, day))
  {
    var y := IntToString(year);
    var m := PadStart2(NatToString(month + 1));
    var d := PadStart2(NatToString(day));
    var r := y + "-" + m + "-" + d;
    if 1000 <= year <= 9999 then
      NatToStringLength(year);
      NatToStringRoundTrip(year);
      TwoDigitField(month + 1);
      TwoDigitField(day);
      JoinedDateParses(y, m, d);
      r
    else r
  }

  // ---------------------------------------------------------------- icons

  /** The emoji cycle of `changePageIcon`. */
  const PageIcons: seq<string> := ["📄", "📝", "📚", "🧪", "📊", "💡", "🎯", "📖", "✏️", "🎨", "🔬", "📋"]

  /** `emojis.indexOf(x)`: the first index of `x`, or -1. */
  function IndexOf(s: seq<string>, x: string): (i: int)
    ensures -1 <= i < |s|
    ensures i >= 0 ==> s[i] == x && forall j :: 0 <= j < i ==> s[j] != x
    ensures i == -1 ==> x !in s
  {
    if s == [] then -1
    else if s[0] == x then 0
    else
      var k := IndexOf(s[1..], x);
      if k == -1 then -1 else k + 1
  }

  /** No emoji occurs twice in the cycle: their first characters differ. */
  lemma PageIconsDistinct()
    ensures forall i, j :: 0 <= i < j < |PageIcons| ==> PageIcons[i] != PageIcons[j]
  {
    forall i, j | 0 <= i < j < |PageIcons| ensures PageIcons[i] != PageIcons[j] {
      assert PageIcons[i][0] != PageIcons[j][0];
    }
  }

  /** One step along `cycle`: the entry after the first occurrence of `x`,
      the last entry followed by the first; a value that does not occur has
      index -1 and steps to the first entry. */
  function Step(cycle: seq<string>, x: string): (r: string)
    requires |cycle| > 0
    ensures r in cycle
    ensures x !in cycle ==> r == cycle[0]
  {
    cycle[(IndexOf(cycle, x) + 1) % |cycle|]
  }

  /** `changePageIcon`: the next emoji of the cycle; an icon that is not in
      the list moves to the first emoji. */
  function NextIcon(icon: string): (r: string)
    ensures r in PageIcons
    ensures icon !in PageIcons ==> r == PageIcons[0]
  {
    Step(PageIcons, icon)
  }

  /** The value after `n` steps. */
  function Clicks(cycle: seq<string>, x: string, n: nat): string
    requires |cycle| > 0
  {
    if n == 0 then x else Step(cycle, Clicks(cycle, x, n - 1))
  }

  lemma {:induction false} MulAtLeast(x: int, m: int)
    requires x >= 1 && m > 0
    ensures x * m >= m
  {
    if x > 1 {
      MulAtLeast(x - 1, m);
      assert x * m == (x - 1) * m + m;
    }
  }
  lemma ModUnique(a: int, m: int, q: int, r: int)
    requires m > 0 && a == q * m + r && 0 <= r < m
    ensures a % m == r
  {
    var q0, r0 := a / m, a % m;
    assert q0 * m + r0 == a;
    assert (q0 - q) * m == r - r0;
    if q0 > q {
      MulAtLeast(q0 - q, m);
    } else if q0 < q {
      MulAtLeast(q - q0, m);
    }
  }
  lemma ModSucc(a: nat, m: nat)
    requires m > 0
    ensures ((a % m) + 1) % m == (a + 1) % m
  {
    var q, r := a / m, a % m;
    assert a == q * m + r;
    if r + 1 == m {
      assert a + 1 == (q + 1) * m + 0;
      ModUnique(a + 1, m, q + 1, 0);
      ModUnique(r + 1, m, 1, 0);
    } else {
      ModUnique(a + 1, m, q, r + 1);
      ModUnique(r + 1, m, 0, r + 1);
    }
  }

  /** In a cycle without repeated entries, the `j`-th entry steps to the
      next one, the last to the first. */
  lemma StepAt(cycle: seq<string>, j: nat)
    requires j < |cycle|
    requires forall i, j :: 0 <= i < j < |cycle| ==> cycle[i] != cycle[j]
    ensures Step(cycle, cycle[j]) == cycle[(j + 1) % |cycle|]
  {
    assert IndexOf(cycle, cycle[j]) == j;
  }

  /** In a cycle without repeated entries, `n` steps from the `k`-th entry
      reach the `(k + n) mod |cycle|`-th. */
  lemma {:induction false} ClicksAt(cycle: seq<string>, k: nat, n: nat)
    requires k < |cycle|
    requires forall i, j :: 0 <= i < j < |cycle| ==> cycle[i] != cycle[j]
    ensures Clicks(cycle, cycle[k], n) == cycle[(k + n) % |cycle|]
  {
    if n == 0 {
      ModUnique(k, |cycle|, 0, k);
    } else {
      ClicksAt(cycle, k, n - 1);
      var m := |cycle|;
      var j := (k + n - 1) % m;
      var before := Clicks(cycle, cycle[k], n - 1);
      assert before == cycle[j];
      StepAt(cycle, j);
      ModStep(k, n, m);
      assert Clicks(cycle, cycle[k], n) == Step(cycle, before);
    }
  }

  lemma ModStep(k: nat, n: nat, m: nat)
    requires n > 0 && m > 0
    ensures ((k + n - 1) % m + 1) % m == (k + n) % m
  {
    ModSucc(k + n - 1, m);
    assert k + n - 1 + 1 == k + n;
  }

  /** Each emoji of the cycle is followed by the next one, the last by the
      first. */
  lemma NextIconAt(k: nat)
    requires k < |PageIcons|
    ensures NextIcon(PageIcons[k]) == PageIcons[(k + 1) % |PageIcons|]
  {
    PageIconsDistinct();
    StepAt(PageIcons, k);
  }

  /** Going once round a cycle without repeated entries returns to the
      start; for the page icons, twelve clicks. */
  lemma FullCycleReturns(cycle: seq<string>, x: string)
    requires x in cycle
    requires forall i, j :: 0 <= i < j < |cycle| ==> cycle[i] != cycle[j]
    ensures Clicks(cycle, x, |cycle|) == x
  {
    var k :| 0 <= k < |cycle| && cycle[k] == x;
    ClicksAt(cycle, k, |cycle|);
    ModUnique(k + |cycle|, |cycle|, 1, k);
  }

  // ---------------------------------------------------------------- order

  /** Newest first: `createdAt` never increases along the list. */
  predicate SortedByRecency(ps: seq<Page>) {
    forall i, j :: 0 <= i < j < |ps| ==> ps[i].createdAt >= ps[j].createdAt
  }

  /** Puts `p` before the first page that is not newer than it. */
  function InsertByRecency(p: Page, ps: seq<Page>): (r: seq<Page>)
    requires SortedByRecency(ps)
    ensures SortedByRecency(r)
    ensures multiset(r) == multiset(ps) + multiset{p}
  {
    if ps == [] then [p]
    else if ps[0].createdAt <= p.createdAt then [p] + ps
    else
      var rest := InsertByRecency(p, ps[1..]);
      assert ps == [ps[0]] + ps[1..];
      NotNewerThanHead(ps[0], p, ps[1..], rest);
      [ps[0]] + rest
  }

  /** Every page of `rest`, which holds `p` and the pages of `tail`, is not
      newer than `head`, so `head` may lead them. */
  lemma NotNewerThanHead(head: Page, p: Page, tail: seq<Page>, rest: seq<Page>)
    requires p.createdAt < head.createdAt
    requires forall q :: q in tail ==> q.createdAt <= head.createdAt
    requires SortedByRecency(rest) && multiset(rest) == multiset(tail) + multiset{p}
    ensures SortedByRecency([head] + rest)
  {
    forall j | 0 <= j < |rest| ensures rest[j].createdAt <= head.createdAt {
      assert rest[j] in multiset(rest);
    }
  }

  /** `pages.sort((a, b) => b.createdAt - a.createdAt)`: the same pages,
      newest first. */
  function SortByRecency(ps: seq<Page>): (r: seq<Page>)
    ensures SortedByRecency(r)
    ensures multiset(r) == multiset(ps)
    ensures |r| == |ps|
  {
    if ps == [] then []
    else
      assert ps == [ps[0]] + ps[1..];
      var r := InsertByRecency(ps[0], SortByRecency(ps[1..]));
      assert |r| == |multiset(r)|;
      r
  }

  /** Deleting pages keeps the remaining ones newest first. */
  lemma {:induction false} FilterOutKeepsOrder(ps: seq<Page>, id: int)
    requires SortedByRecency(ps)
    ensures SortedByRecency(FilterOut(ps, PageId, id))
  {
    if ps != [] {
      FilterOutKeepsOrder(ps[1..], id);
      var rest := FilterOut(ps[1..], PageId, id);
      forall j | 0 <= j < |rest| ensures rest[j].createdAt <= ps[0].createdAt {
        assert rest[j] in ps[1..];
        var m :| 0 <= m < |ps[1..]| && ps[1..][m] == rest[j];
        assert ps[m + 1] == rest[j];
      }
    }
  }

  // ---------------------------------------------------------------- saving

  /** The page `savePage` builds from the editor, or `None` when the trimmed
      title is empty. The id is the editing id (even 0) or the clock's. In
      edit mode the original page's `createdAt` is kept when the page is found
      and its `createdAt` is not 0; otherwise it is the current time. An empty
      icon becomes "📄". */
  function PageForm(pages: seq<Page>, editing: Option<int>, title: string, content: string,
                    icon: string, idNow: int, today: Instant): (r: Option<Page>)
    requires ValidInstant(today)
    ensures r.None? <==> IsBlank(title)
    ensures r.Some? ==> r.value.id == IdOr(editing, idNow) && r.value.title == Trim(title) && r.value.content == Trim(content)
    ensures r.Some? ==> r.value.icon == (if icon == "" then "📄" else icon)
    ensures r.Some? ==> r.value.date == FormatDateISO(today.year, today.month, today.day)
    ensures r.Some? && !Truthy(editing) ==> r.value.createdAt == today.millis
    ensures r.Some? && Truthy(editing) ==>
      r.value.createdAt == (match Find(pages, PageId, editing.value)
                            case Some(p) => if p.createdAt != 0 then p.createdAt else today.millis
                            case None => today.millis)
  {
    var t := Trim(title);
    if t == [] then None
    else
      var createdAt :=
        if Truthy(editing) then
          match Find(pages, PageId, editing.value)
          case Some(p) => if p.createdAt != 0 then p.createdAt else today.millis
          case None => today.millis
        else today.millis;
      Some(Page(IdOr(editing, idNow), t, Trim(content), if icon == "" then "📄" else icon,
                FormatDateISO(today.year, today.month, today.day), createdAt))
  }

  /** The store after saving `p`: replaced or appended, then sorted. */
  function SavedPages(pages: seq<Page>, editing: Option<int>, p: Page): seq<Page> {
    SortByRecency(Upsert(pages, PageId, editing, p))
  }

  /** The pages after `savePage` with the editor holding `title`, `content`
      and `icon`: unchanged when the title is blank. */
  function AfterSave(pages: seq<Page>, editing: Option<int>, title: string, content: string,
                     icon: string, idNow: int, today: Instant): seq<Page>
    requires ValidInstant(today)
  {
    match PageForm(pages, editing, title, content, icon, idNow, today)
    case None => pages
    case Some(p) => SavedPages(pages, editing, p)
  }

  /** A save leaves the pages newest first, holding the saved page; creating
      adds exactly one page and editing keeps the count. */
  lemma {:induction false} SaveProperties(pages: seq<Page>, editing: Option<int>, p: Page)
    ensures SortedByRecency(SavedPages(pages, editing, p))
    ensures multiset(SavedPages(pages, editing, p)) == multiset(Upsert(pages, PageId, editing, p))
    ensures !Truthy(editing) ==> |SavedPages(pages, editing, p)| == |pages| + 1 && p in SavedPages(pages, editing, p)
    ensures Truthy(editing) ==> |SavedPages(pages, editing, p)| == |pages|
    ensures Truthy(editing) && HasId(pages, PageId, editing.value) && p.id == editing.value ==> p in SavedPages(pages, editing, p)
  {
    var u := Upsert(pages, PageId, editing, p);
    var r := SavedPages(pages, editing, p);
    assert multiset(r) == multiset(u);
    if !Truthy(editing) {
      assert p in multiset(u);
    } else if HasId(pages, PageId, editing.value) && p.id == editing.value {
      var k :| 0 <= k < |pages| && pages[k].id == editing.value;
      assert u[k] == p;
      assert p in multiset(u);
    }
  }

  /** The module state of pages-script.js: the pages, the page being edited,
      and the editor modal with its fields. */
  class PageEditor {
    var pages: seq<Page>
    var editingPageId: Option<int>
    var editorOpen: bool
    var titleText: string
    var contentHtml: string
    var iconText: string

    constructor (pages0: seq<Page>)
      ensures pages == pages0 && editingPageId.None? && !editorOpen
      ensures titleText == "" && contentHtml == "" && iconText == "📄"
    {
      pages := pages0;
      editingPageId := None;
      editorOpen := false;
      titleText, contentHtml, iconText := "", "", "📄";
    }

    /** The condition under which closing the editor asks to discard: create
        mode with a non-blank title or content. */
    predicate HasUnsavedDraft()
      reads this
    {
      editingPageId.None? && (!IsBlank(titleText) || !IsBlank(contentHtml))
    }

    /** `createNewPage`: an empty editor in create mode. */
    method CreateNewPage()
      modifies this`editingPageId, this`titleText, this`contentHtml, this`iconText, this`editorOpen
      ensures editingPageId.None? && titleText == "" && contentHtml == "" && iconText == "📄" && editorOpen
    {
      editingPageId := None;
      titleText, contentHtml, iconText := "", "", "📄";
      editorOpen := true;
    }

    /** `editPage`: load the first page with that id into the editor; an
        unknown id changes nothing. */
    method EditPage(pageId: int)
      modifies this`editingPageId, this`titleText, this`contentHtml, this`iconText, this`editorOpen
      ensures Find(pages, PageId, pageId).None? ==>
        editingPageId == old(editingPageId) && titleText == old(titleText) && contentHtml == old(contentHtml)
        && iconText == old(iconText) && editorOpen == old(editorOpen)
      ensures Find(pages, PageId, pageId).Some? ==>
        var p := Find(pages, PageId, pageId).value;
        editingPageId == Some(pageId) && titleText == p.title && contentHtml == p.content && iconText == p.icon && editorOpen
    {
      var page := Find(pages, PageId, pageId);
      if page.Some? {
        editingPageId := Some(pageId);
        titleText, contentHtml, iconText := page.value.title, page.value.content, page.value.icon;
        editorOpen := true;
      }
    }

    /** `closePageEditor`: with an unsaved draft it asks `confirm`
        (`discard` is the answer) and stays open when declined; in every other
        case it closes and leaves create mode set. */
    method ClosePageEditor(discard: bool)
      modifies this`editorOpen, this`editingPageId
      ensures old(HasUnsavedDraft()) && !discard ==> editorOpen == old(editorOpen) && editingPageId == old(editingPageId)
      ensures !(old(HasUnsavedDraft()) && !discard) ==> !editorOpen && editingPageId.None?
    {
      if editingPageId.None? && (Trim(titleText) != "" || Trim(contentHtml) != "") {
        if discard {
          editorOpen := false;
          editingPageId := None;
        }
      } else {
        editorOpen := false;
        editingPageId := None;
      }
    }

    /** `savePage` as written: a blank title changes nothing; otherwise the
        page is stored, the pages are sorted newest first, and then
        `closePageEditor` runs. After a create-mode save the title is still
        in the editor, so that asks whether to discard "unsaved changes" and,
        when declined, leaves the editor open in create mode. */
    method SavePageAsWritten(idNow: int, today: Instant, discard: bool)
      requires ValidInstant(today)
      modifies this`pages, this`editorOpen, this`editingPageId
      ensures pages == AfterSave(old(pages), old(editingPageId), old(titleText), old(contentHtml), old(iconText), idNow, today)
      ensures (editorOpen, editingPageId) ==
        if IsBlank(old(titleText)) then (old(editorOpen), old(editingPageId))
        else if old(editingPageId).None? && !discard then (old(editorOpen), None)
        else (false, None)
    {
      if Trim(titleText) == [] {
        return;
      }
      pages := AfterSave(pages, editingPageId, titleText, contentHtml, iconText, idNow, today);
      assert HasUnsavedDraft() <==> editingPageId.None?;
      ClosePageEditor(discard);
    }

    /** `savePage` with the evidently intended ending: a successful save
        closes the editor and returns to create mode without asking about
        changes that were just saved. */
    method SavePage(idNow: int, today: Instant)
      requires ValidInstant(today)
      modifies this`pages, this`editorOpen, this`editingPageId
      ensures pages == AfterSave(old(pages), old(editingPageId), old(titleText), old(contentHtml), old(iconText), idNow, today)
      ensures IsBlank(old(titleText)) ==> editorOpen == old(editorOpen) && editingPageId == old(editingPageId)
      ensures !IsBlank(old(titleText)) ==> !editorOpen && editingPageId.None?
    {
      if IsBlank(titleText) {
        return;
      }
      pages := AfterSave(pages, editingPageId, titleText, contentHtml, iconText, idNow, today);
      editorOpen, editingPageId := false, None;
    }

    /** `deletePage`: when confirmed, drop every page with that id. */
    method DeletePage(pageId: int, confirmed: bool)
      modifies this`pages
      ensures pages == if confirmed then FilterOut(old(pages), PageId, pageId) else old(pages)
      ensures SortedByRecency(old(pages)) ==> SortedByRecency(pages)
    {
      if confirmed {
        if SortedByRecency(pages) {
          FilterOutKeepsOrder(pages, pageId);
        }
        pages := FilterOut(pages, PageId, pageId);
      }
    }

    /** `changePageIcon`. */
    method ChangePageIcon()
      modifies this`iconText
      ensures iconText == NextIcon(old(iconText))
    {
      var currentIndex := IndexOf(PageIcons, iconText);
      currentIndex := (currentIndex + 1) % |PageIcons|;
      iconText := PageIcons[currentIndex];
    }
  }

  /** Saving the same create-mode draft twice, at `t1` and then at `t2`,
      stores two pages with the same title, content and icon: the first under
      `id1` stamped with `t1`, the second under `id2` stamped with `t2`. */
  lemma SavingDraftTwice(pages: seq<Page>, title: string, content: string, icon: string,
                         id1: int, id2: int, t1: Instant, t2: Instant)
    requires ValidInstant(t1) && ValidInstant(t2) && !IsBlank(title)
    ensures var s2 := AfterSave(AfterSave(pages, None, title, content, icon, id1, t1), None, title, content, icon, id2, t2);
            var p := PageForm(pages, None, title, content, icon, id1, t1).value;
            |s2| == |pages| + 2 && p in s2
            && p.(id := id2, date := FormatDateISO(t2.year, t2.month, t2.day), createdAt := t2.millis) in s2
  {
    var p1 := PageForm(pages, None, title, content, icon, id1, t1).value;
    var s1 := SavedPages(pages, None, p1);
    var p2 := PageForm(s1, None, title, content, icon, id2, t2).value;
    var s2 := SavedPages(s1, None, p2);
    assert p2 == p1.(id := id2, date := FormatDateISO(t2.year, t2.month, t2.day), createdAt := t2.millis);
    SaveProperties(pages, None, p1);
    SaveProperties(s1, None, p2);
    assert p1 in multiset(s1);
    assert p1 in multiset(s2);
  }

  /** The discrepancy in `savePage`, played out: a new page is saved at `t1`,
      the "discard unsaved changes?" question that follows is declined, the
      editor stays open in create mode, and saving again at `t2` stores a
      second page with the same title, content and icon. */
  method DeclinedDiscardDuplicatesPage(editor: PageEditor, t1: Instant, t2: Instant, id1: int, id2: int)
    requires ValidInstant(t1) && ValidInstant(t2) && editor.editingPageId.None? && !IsBlank(editor.titleText)
    modifies editor`pages, editor`editorOpen, editor`editingPageId
    ensures editor.editorOpen == old(editor.editorOpen) && editor.editingPageId.None?
    ensures |editor.pages| == |old(editor.pages)| + 2
    ensures var p := PageForm(old(editor.pages), None, old(editor.titleText), old(editor.contentHtml), old(editor.iconText), id1, t1).value;
            p in editor.pages
            && p.(id := id2, date := FormatDateISO(t2.year, t2.month, t2.day), createdAt := t2.millis) in editor.pages
  {
    editor.SavePageAsWritten(id1, t1, false);
    editor.SavePageAsWritten(id2, t2, false);
    SavingDraftTwice(old(editor.pages), old(editor.titleText), old(editor.contentHtml), old(editor.iconText), id1, id2, t1, t2);
  }

  /** With the corrected save the same first step stores the page once and
      closes the editor, so there is no second save from the same draft. */
  method SaveClosesEditor(editor: PageEditor, today: Instant, id1: int)
    requires ValidInstant(today) && editor.editingPageId.None? && !IsBlank(editor.titleText)
    modifies editor`pages, editor`editorOpen, editor`editingPageId
    ensures !editor.editorOpen && editor.editingPageId.None?
    ensures |editor.pages| == |old(editor.pages)| + 1
    ensures PageForm(old(editor.pages), None, old(editor.titleText), old(editor.contentHtml), old(editor.iconText), id1, today).value in editor.pages
  {
    ghost var p1 := PageForm(editor.pages, None, editor.titleText, editor.contentHtml, editor.iconText, id1, today).value;
    SaveProperties(editor.pages, None, p1);
    editor.SavePage(id1, today);
  }
}
