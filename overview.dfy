/** The list of study spaces (spaces-overview.js): adding, renaming and
    deleting spaces, the dialogs' targets, the total shown in the header and
    the colour band of each card. `Date.now()` (new ids) and the locale date
    label of a new space are parameters. */
module SpacesOverview {
  import opened Records
  import opened Text

  /** A space; `createdAt` is the date label written when it was added. */
  datatype Space = Space(id: int, name: string, createdAt: string)

  function SpaceId(s: Space): int { s.id }

  // ---------------------------------------------------------------- cards

  /** The header classes the cards cycle through. */
  const GradientColors: seq<string> :=
    ["gradient-blue", "gradient-purple", "gradient-green", "gradient-orange", "gradient-pink", "gradient-indigo"]

  /** The header class of the card at position `index`:
      `gradientColors[index % gradientColors.length]`, always one of the six. */
  function CardGradient(index: nat): (r: string)
    ensures r in GradientColors
    ensures r == GradientColors[index % 6]
  {
    GradientColors[index % |GradientColors|]
  }

  /** No two header classes are the same: they differ in length or in their
      eleventh character. */
  lemma GradientColorsDistinct()
    ensures forall i, j :: 0 <= i < j < |GradientColors| ==> GradientColors[i] != GradientColors[j]
  {
    var g := GradientColors;
    assert |g[0]| == 13 && g[0][10] == 'l';
    assert |g[1]| == 15 && g[1][10] == 'u';
    assert |g[2]| == 14;
    assert |g[3]| == 15 && g[3][10] == 'r';
    assert |g[4]| == 13 && g[4][10] == 'i';
    assert |g[5]| == 15 && g[5][10] == 'n';
  }

  /** The colours repeat every six cards. */
  lemma GradientRepeats(index: nat)
    ensures CardGradient(index + 6) == CardGradient(index)
  {
    assert (index + 6) % 6 == index % 6;
  }

  /** Neighbouring cards never share a colour, the last of a round of six and
      the first of the next included. */
  lemma NeighbouringCardsDiffer(index: nat)
    ensures CardGradient(index) != CardGradient(index + 1)
  {
    GradientColorsDistinct();
    assert (index + 1) % 6 == if index % 6 == 5 then 0 else index % 6 + 1;
  }

  /** The card colours of a list of `n` spaces, in order: the first six
      cards take the six classes in turn, from then on the colours repeat
      every six cards, and no two neighbouring cards share a colour. */
  function CardGradients(n: nat): (r: seq<string>)
    ensures |r| == n
    ensures forall i :: 0 <= i < n && i < |GradientColors| ==> r[i] == GradientColors[i]
    ensures forall i :: 0 <= i && i + 6 < n ==> r[i + 6] == r[i]
    ensures forall i :: 0 <= i && i + 1 < n ==> r[i] != r[i + 1]
  {
    var r := seq(n, i requires 0 <= i => CardGradient(i));
    forall i | 0 <= i && i + 6 < n ensures r[i + 6] == r[i] {
      GradientRepeats(i);
    }
    forall i | 0 <= i && i + 1 < n ensures r[i] != r[i + 1] {
      NeighbouringCardsDiffer(i);
    }
    r
  }

  // ---------------------------------------------------------------- edits

  /** The spaces after a rename: the first space with that id gets the new
      name and keeps its id and its `createdAt`; every other space, and the
      length, stay as they were. */
  function Renamed(spaces: seq<Space>, id: int, name: string): (r: seq<Space>)
    ensures |r| == |spaces| && forall k :: 0 <= k < |spaces| ==> r[k].id == spaces[k].id
    ensures HasId(spaces, SpaceId, id) ==>
      Find(r, SpaceId, id) == Some(Space(id, name, Find(spaces, SpaceId, id).value.createdAt))
    ensures !HasId(spaces, SpaceId, id) ==> r == spaces
    ensures forall k :: 0 <= k < |spaces| && r[k] != spaces[k] ==> FindIndex(spaces, SpaceId, id) == Some(k)
  {
    UpdateFirst(spaces, SpaceId, id, (s: Space) => s.(name := name))
  }

  /** Submitting the same rename twice is submitting it once. */
  lemma RenameTwice(spaces: seq<Space>, id: int, name: string)
    ensures Renamed(Renamed(spaces, id, name), id, name) == Renamed(spaces, id, name)
  {
    UpdateFirstIdempotent(spaces, SpaceId, id, (s: Space) => s.(name := name));
  }

  /** Renaming a space and then deleting it leaves what deleting it alone
      leaves. */
  lemma RenameThenDelete(spaces: seq<Space>, id: int, name: string)
    ensures FilterOut(Renamed(spaces, id, name), SpaceId, id) == FilterOut(spaces, SpaceId, id)
  {
    UpdateFirstThenFilterOut(spaces, SpaceId, id, (s: Space) => s.(name := name));
  }

  // ---------------------------------------------------------------- state

  /** The module state of spaces-overview.js. `currentSpace` is the id of the
      space the rename dialog acts on (`null` is `None`; a space object is
      always truthy); `spaceToDelete` is the id the delete dialog holds. */
  class Overview {
    var spaces: seq<Space>
    var currentSpace: Option<int>
    var spaceToDelete: Option<int>

    constructor (spaces0: seq<Space>)
      ensures spaces == spaces0 && currentSpace.None? && spaceToDelete.None?
    {
      spaces := spaces0;
      currentSpace, spaceToDelete := None, None;
    }

    /** `updateTotalCount`: the number in the header. */
    function TotalCount(): nat
      reads this
    {
      |spaces|
    }

    /** `handleAddSpace`: a name that trims to nothing changes nothing;
        otherwise one space with the trimmed name, the clock's id and today's
        label is appended, and the total goes up by one. The dialog targets
        are not touched. */
    method HandleAddSpace(name: string, now: int, dateLabel: string)
      modifies this`spaces
      ensures IsBlank(name) ==> spaces == old(spaces)
      ensures !IsBlank(name) ==> spaces == old(spaces) + [Space(now, Trim(name), dateLabel)]
      ensures !IsBlank(name) ==> TotalCount() == old(TotalCount()) + 1
    {
      var spaceName := Trim(name);
      if spaceName == [] {
        return;
      }
      var newSpace := Space(now, spaceName, dateLabel);
      spaces := spaces + [newSpace];
    }

    /** `openRenameModal`: target an existing space; an unknown id changes
        nothing. */
    method OpenRenameModal(id: int)
      modifies this`currentSpace
      ensures HasId(spaces, SpaceId, id) ==> currentSpace == Some(id)
      ensures !HasId(spaces, SpaceId, id) ==> currentSpace == old(currentSpace)
    {
      var space := Find(spaces, SpaceId, id);
      if space.None? {
        return;
      }
      currentSpace := Some(space.value.id);
    }

    /** `handleRenameSpace`: without a target nothing changes; with a name
        that trims to nothing nothing changes and the target stays; otherwise
        the first space with the target's id gets the trimmed name (nothing
        happens when it is gone) and the target is cleared. */
    method HandleRenameSpace(newName: string)
      modifies this`spaces, this`currentSpace
      ensures old(currentSpace).None? || IsBlank(newName) ==>
        spaces == old(spaces) && currentSpace == old(currentSpace)
      ensures old(currentSpace).Some? && !IsBlank(newName) ==>
        spaces == Renamed(old(spaces), old(currentSpace).value, Trim(newName)) && currentSpace.None?
    {
      if currentSpace.None? {
        return;
      }
      var name := Trim(newName);
      if name == [] {
        return;
      }
      var spaceIndex := FindIndex(spaces, SpaceId, currentSpace.value);
      if spaceIndex.Some? {
        spaces := spaces[spaceIndex.value := spaces[spaceIndex.value].(name := name)];
      }
      CloseRenameModal();
    }

    /** `openDeleteDialog`: hold the id, whether or not a space carries it. */
    method OpenDeleteDialog(id: int)
      modifies this`spaceToDelete
      ensures spaceToDelete == Some(id)
    {
      spaceToDelete := Some(id);
    }

    /** `confirmDelete`: a falsy target (none, or the id `0`) changes nothing;
        otherwise exactly the spaces with the target's id are removed, the
        others keep their order, and the target is cleared. */
    method ConfirmDelete()
      modifies this`spaces, this`spaceToDelete
      ensures !Truthy(old(spaceToDelete)) ==> spaces == old(spaces) && spaceToDelete == old(spaceToDelete)
      ensures Truthy(old(spaceToDelete)) ==>
        spaces == FilterOut(old(spaces), SpaceId, old(spaceToDelete).value) && spaceToDelete.None?
    {
      if !Truthy(spaceToDelete) {
        return;
      }
      spaces := FilterOut(spaces, SpaceId, spaceToDelete.value);
      CloseDeleteDialog();
    }

    /** `closeRenameModal`: the rename target is cleared. */
    method CloseRenameModal()
      modifies this`currentSpace
      ensures currentSpace.None?
    {
      currentSpace := None;
    }

    /** `closeDeleteDialog`: the delete target is cleared. */
    method CloseDeleteDialog()
      modifies this`spaceToDelete
      ensures spaceToDelete.None?
    {
      spaceToDelete := None;
    }

    /** `closeAllModals`: both targets are cleared. */
    method CloseAllModals()
      modifies this`currentSpace, this`spaceToDelete
      ensures currentSpace.None? && spaceToDelete.None?
    {
      currentSpace, spaceToDelete := None, None;
    }
  }

  /** Asking to delete a space and confirming removes exactly the spaces with
      that id, unless the id is `0`, which the truthiness test reads as "no
      target" so that nothing is removed. */
  method DeleteAndConfirm(o: Overview, id: int)
    modifies o`spaces, o`spaceToDelete
    ensures id != 0 ==> forall s :: s in o.spaces <==> s in old(o.spaces) && s.id != id
    ensures id != 0 ==> o.spaceToDelete.None?
    ensures id == 0 ==> o.spaces == old(o.spaces)
  {
    o.OpenDeleteDialog(id);
    o.ConfirmDelete();
  }

  /** Cancelling the dialogs and then confirming a delete removes nothing. */
  method CancelThenConfirm(o: Overview)
    modifies o`spaces, o`currentSpace, o`spaceToDelete
    ensures o.spaces == old(o.spaces)
    ensures o.currentSpace.None? && o.spaceToDelete.None?
  {
    o.CloseAllModals();
    o.ConfirmDelete();
  }
}
