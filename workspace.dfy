/** One study space (spaces.js): its files, notes and links, the dialogs that
    add, edit, rename and delete them, and the file-type icons. The module
    keeps one "current item" for whichever dialog is open; the model holds its
    id and its type. `Date.now()` (new ids), the locale date label of a new
    link, the picked file and the answers to dialogs are parameters. */
module Workspace {
  import opened Records
  import opened Text

  /** A file record; `mime` is the browser's MIME type string. */
  datatype FileRec = FileRec(id: int, name: string, mime: string, size: int)
  datatype Note = Note(id: int, title: string, content: string)
  /** A link; `createdAt` is the date label written when it was added. */
  datatype Link = Link(id: int, title: string, url: string, createdAt: string)

  function FileId(f: FileRec): int { f.id }
  function NoteId(n: Note): int { n.id }
  function LinkId(l: Link): int { l.id }

  /** What the file input yields: a name, a MIME type ("" when the browser
      does not know it) and a size in bytes. */
  datatype Picked = Picked(name: string, mime: string, size: int)

  const OctetStream := "application/octet-stream"

  /** The three numbers `updateCounts` shows. */
  datatype Counts = Counts(files: nat, notes: nat, links: nat)

  // ---------------------------------------------------------------- icons

  /** The tests of `getFileIcon` in the order they are tried: a type that
      contains any of the words of a rule gets its icon. */
  const IconRules: seq<(seq<string>, string)> :=
    [(["pdf"], "📄"), (["word", "document"], "📝"), (["powerpoint", "presentation"], "📊"),
     (["image", "jpeg", "png"], "🖼️")]

  const FallbackIcon := "📎"

  predicate ContainsAny(t: string, words: seq<string>) {
    exists i :: 0 <= i < |words| && Contains(t, words[i])
  }

  /** The icon of the first rule that matches `t`, or the fallback. */
  function FirstMatch(rules: seq<(seq<string>, string)>, t: string): string {
    if rules == [] then FallbackIcon
    else if ContainsAny(t, rules[0].0) then rules[0].1
    else FirstMatch(rules[1..], t)
  }

  /** The icon of rule `i` is chosen exactly when rule `i` matches and no
      earlier rule does. */
  lemma {:induction false} FirstMatchPicksFirst(rules: seq<(seq<string>, string)>, t: string, i: nat)
    requires i < |rules|
    requires ContainsAny(t, rules[i].0)
    requires forall j :: 0 <= j < i ==> !ContainsAny(t, rules[j].0)
    ensures FirstMatch(rules, t) == rules[i].1
  {
    if i > 0 {
      assert !ContainsAny(t, rules[0].0);
      FirstMatchPicksFirst(rules[1..], t, i - 1);
    }
  }

  /** `getFileIcon`: pdf, then word or document, then powerpoint or
      presentation, then image, jpeg or png; otherwise a paper clip. */
  function FileIcon(mime: string): (r: string)
    ensures r in ["📄", "📝", "📊", "🖼️", FallbackIcon]
  {
    if Contains(mime, "pdf") then "📄"
    else if Contains(mime, "word") || Contains(mime, "document") then "📝"
    else if Contains(mime, "powerpoint") || Contains(mime, "presentation") then "📊"
    else if Contains(mime, "image") || Contains(mime, "jpeg") || Contains(mime, "png") then "🖼️"
    else FallbackIcon
  }

  /** `getFileIcon` is the first-match reading of the rule table. */
  lemma FileIconFollowsRules(mime: string)
    ensures FileIcon(mime) == FirstMatch(IconRules, mime)
  {
    var r0 := IconRules;
    var r1, r2, r3, r4 := r0[1..], r0[2..], r0[3..], r0[4..];
    AnyOfOne(mime, "pdf");
    AnyOfTwo(mime, "word", "document");
    AnyOfTwo(mime, "powerpoint", "presentation");
    AnyOfThree(mime, "image", "jpeg", "png");
    assert r1[1..] == r2 && r2[1..] == r3 && r3[1..] == r4 && r4 == [];
    assert FirstMatch(r3, mime) == if ContainsAny(mime, r3[0].0) then r3[0].1 else FallbackIcon;
    assert FirstMatch(r2, mime) == if ContainsAny(mime, r2[0].0) then r2[0].1 else FirstMatch(r3, mime);
    assert FirstMatch(r1, mime) == if ContainsAny(mime, r1[0].0) then r1[0].1 else FirstMatch(r2, mime);
  }

  lemma AnyOfOne(t: string, a: string)
    ensures ContainsAny(t, [a]) <==> Contains(t, a)
  {
    assert [a][0] == a;
  }

  lemma AnyOfTwo(t: string, a: string, b: string)
    ensures ContainsAny(t, [a, b]) <==> Contains(t, a) || Contains(t, b)
  {
    assert [a, b][0] == a && [a, b][1] == b;
  }

  lemma AnyOfThree(t: string, a: string, b: string, c: string)
    ensures ContainsAny(t, [a, b, c]) <==> Contains(t, a) || Contains(t, b) || Contains(t, c)
  {
    assert [a, b, c][0] == a && [a, b, c][1] == b && [a, b, c][2] == c;
  }

  /** A type that mentions "document" never gets the presentation icon: the
      Office presentation type (`…officedocument.presentationml…`) contains
      both words, and the word-processor rule is tried first. */
  lemma DocumentBeatsPresentation(mime: string)
    requires Contains(mime, "document")
    ensures FileIcon(mime) != "📊"
    ensures !Contains(mime, "pdf") ==> FileIcon(mime) == "📝"
  {
  }

  /** The type of the sample file "Presentation.pptx", written as the pieces
      the proofs below reason about. */
  const SamplePresentationType :=
    ("application/" + "vnd." + "openxmlformats-office") + "document" + ("." + "presentationml.presentation")

  /** The sample presentation gets the document icon, not the presentation
      icon: its type mentions "document" and no "pdf". */
  lemma SamplePresentationIcon()
    ensures FileIcon(SamplePresentationType) == "📝"
  {
    ContainsMiddle("application/" + "vnd." + "openxmlformats-office", "document", "." + "presentationml.presentation");
    SampleHasNoPdf();
    DocumentBeatsPresentation(SamplePresentationType);
  }

  /** No piece of the sample type holds both "p" and "d", and no joint lies
      after a "p" or a "d", so "pdf" does not occur in it. */
  lemma SampleHasNoPdf()
    ensures !Contains(SamplePresentationType, "pdf")
  {
    var t := "pdf";
    assert 'd' in t && 'p' in t;
    var a := "application/" + "vnd." + "openxmlformats-office";
    var b := "." + "presentationml.presentation";
    MissingCharBlocks("application/", t, 'd');
    MissingCharBlocks("vnd.", t, 'p');
    MissingCharBlocks("openxmlformats-office", t, 'd');
    MissingCharBlocks("document", t, 'p');
    MissingCharBlocks(".", t, 'p');
    MissingCharBlocks("presentationml.presentation", t, 'd');
    NoStraddle("application/", "vnd.", t);
    NoStraddle("application/" + "vnd.", "openxmlformats-office", t);
    NoStraddle(a, "document", t);
    NoStraddle(".", "presentationml.presentation", t);
    NoStraddle(a + "document", b, t);
  }

  // ---------------------------------------------------------------- edits

  /** The note with id `id` after the note form is submitted in edit mode:
      the first note with that id gets the new title and content and keeps
      its id; every other note, and the length, stay as they were. */
  function NoteEdited(notes: seq<Note>, id: int, title: string, content: string): (r: seq<Note>)
    ensures |r| == |notes| && forall k :: 0 <= k < |notes| ==> r[k].id == notes[k].id
    ensures HasId(notes, NoteId, id) ==> Find(r, NoteId, id) == Some(Note(id, title, content))
    ensures !HasId(notes, NoteId, id) ==> r == notes
    ensures forall k :: 0 <= k < |notes| && r[k] != notes[k] ==> FindIndex(notes, NoteId, id) == Some(k)
  {
    UpdateFirst(notes, NoteId, id, (n: Note) => n.(title := title, content := content))
  }

  /** The links after the link form is submitted in edit mode: the first link
      with that id gets the new title and url and keeps its id and its
      `createdAt`; every other link stays as it was. */
  function LinkEdited(links: seq<Link>, id: int, title: string, url: string): (r: seq<Link>)
    ensures |r| == |links| && forall k :: 0 <= k < |links| ==> r[k].id == links[k].id
    ensures HasId(links, LinkId, id) ==>
      Find(r, LinkId, id) == Some(Link(id, title, url, Find(links, LinkId, id).value.createdAt))
    ensures !HasId(links, LinkId, id) ==> r == links
    ensures forall k :: 0 <= k < |links| && r[k] != links[k] ==> FindIndex(links, LinkId, id) == Some(k)
  {
    UpdateFirst(links, LinkId, id, (l: Link) => l.(title := title, url := url))
  }

  /** The files after a rename: the first file with that id gets the new name
      and keeps its id, type and size; every other file stays as it was. */
  function FileRenamed(files: seq<FileRec>, id: int, name: string): (r: seq<FileRec>)
    ensures |r| == |files| && forall k :: 0 <= k < |files| ==> r[k].id == files[k].id
    ensures HasId(files, FileId, id) ==>
      var f := Find(files, FileId, id).value;
      Find(r, FileId, id) == Some(FileRec(id, name, f.mime, f.size))
    ensures !HasId(files, FileId, id) ==> r == files
    ensures forall k :: 0 <= k < |files| && r[k] != files[k] ==> FindIndex(files, FileId, id) == Some(k)
  {
    UpdateFirst(files, FileId, id, (f: FileRec) => f.(name := name))
  }

  /** Editing or renaming a record and then deleting it leaves what deleting
      it alone leaves. */
  lemma EditThenDelete(files: seq<FileRec>, notes: seq<Note>, links: seq<Link>, id: int, text1: string, text2: string)
    ensures FilterOut(NoteEdited(notes, id, text1, text2), NoteId, id) == FilterOut(notes, NoteId, id)
    ensures FilterOut(LinkEdited(links, id, text1, text2), LinkId, id) == FilterOut(links, LinkId, id)
    ensures FilterOut(FileRenamed(files, id, text1), FileId, id) == FilterOut(files, FileId, id)
  {
    UpdateFirstThenFilterOut(notes, NoteId, id, (n: Note) => n.(title := text1, content := text2));
    UpdateFirstThenFilterOut(links, LinkId, id, (l: Link) => l.(title := text1, url := text2));
    UpdateFirstThenFilterOut(files, FileId, id, (f: FileRec) => f.(name := text1));
  }

  /** `confirmDelete` on one collection: filtered when the current item's
      type names it, untouched otherwise. */
  function Purge<T(!new)>(s: seq<T>, key: T -> int, kind: Option<string>, name: string, id: int): (r: seq<T>)
    ensures kind != Some(name) ==> r == s
    ensures kind == Some(name) ==> forall x :: x in r <==> x in s && key(x) != id
  {
    if kind == Some(name) then FilterOut(s, key, id) else s
  }

  /** A confirmed delete touches at most one collection: the three type names
      differ, so for any type at least two collections stay as they were, and
      for a type that is none of them all three do. */
  lemma DeleteTouchesOneCollection(files: seq<FileRec>, notes: seq<Note>, links: seq<Link>, kind: Option<string>, id: int)
    ensures (Purge(files, FileId, kind, "file", id) != files ==> kind == Some("file")) &&
            (Purge(notes, NoteId, kind, "note", id) != notes ==> kind == Some("note")) &&
            (Purge(links, LinkId, kind, "link", id) != links ==> kind == Some("link"))
    ensures kind !in {Some("file"), Some("note"), Some("link")} ==>
      Purge(files, FileId, kind, "file", id) == files && Purge(notes, NoteId, kind, "note", id) == notes &&
      Purge(links, LinkId, kind, "link", id) == links
  {
  }

  // ---------------------------------------------------------------- state

  /** The module state of spaces.js. `currentItem` is the id of the record
      the open dialog acts on (`null` is `None`; a record object is always
      truthy), `currentItemType` the kind the handler recorded. */
  class Workspace {
    var files: seq<FileRec>
    var notes: seq<Note>
    var links: seq<Link>
    var currentItem: Option<int>
    var currentItemType: Option<string>

    constructor (files0: seq<FileRec>, notes0: seq<Note>, links0: seq<Link>)
      ensures files == files0 && notes == notes0 && links == links0
      ensures currentItem.None? && currentItemType.None?
    {
      files, notes, links := files0, notes0, links0;
      currentItem, currentItemType := None, None;
    }

    /** `updateCounts`. */
    function ShownCounts(): Counts
      reads this
    {
      Counts(|files|, |notes|, |links|)
    }

    /** `handleFileUpload`: no file picked changes nothing; otherwise one
        record is appended, with the clock's id and `application/octet-stream`
        for an unknown type, and the files count goes up by one. */
    method HandleFileUpload(picked: Option<Picked>, now: int)
      modifies this`files
      ensures picked.None? ==> files == old(files)
      ensures picked.Some? ==>
        files == old(files) + [FileRec(now, picked.value.name,
                                       if picked.value.mime == "" then OctetStream else picked.value.mime,
                                       picked.value.size)]
      ensures picked.Some? ==> ShownCounts() == old(ShownCounts()).(files := old(ShownCounts()).files + 1)
    {
      if picked.None? {
        return;
      }
      var file := picked.value;
      var newFile := FileRec(now, file.name, if file.mime == "" then OctetStream else file.mime, file.size);
      files := files + [newFile];
    }

    /** `editNote`: target an existing note; an unknown id changes nothing. */
    method EditNote(id: int)
      modifies this`currentItem, this`currentItemType
      ensures HasId(notes, NoteId, id) ==> currentItem == Some(id) && currentItemType == Some("note")
      ensures !HasId(notes, NoteId, id) ==> currentItem == old(currentItem) && currentItemType == old(currentItemType)
    {
      var note := Find(notes, NoteId, id);
      if note.Some? {
        currentItem, currentItemType := Some(note.value.id), Some("note");
      }
    }

    /** `viewNote`: target an existing note for the view dialog; an unknown
        id changes nothing. */
    method ViewNote(id: int)
      modifies this`currentItem, this`currentItemType
      ensures HasId(notes, NoteId, id) ==> currentItem == Some(id) && currentItemType == Some("note")
      ensures !HasId(notes, NoteId, id) ==> currentItem == old(currentItem) && currentItemType == old(currentItemType)
    {
      var note := Find(notes, NoteId, id);
      if note.Some? {
        currentItem, currentItemType := Some(note.value.id), Some("note");
      }
    }

    /** `closeViewNoteModal`: the target is cleared. */
    method CloseViewNoteModal()
      modifies this`currentItem, this`currentItemType
      ensures currentItem.None? && currentItemType.None?
    {
      currentItem, currentItemType := None, None;
    }

    /** `editCurrentNote` as written: with a target, it closes the view
        dialog, which clears the target, and then reads the id of the cleared
        target. That read of `null.id` throws a TypeError (`thrown`), so the
        edit dialog is never targeted. */
    method EditCurrentNoteAsWritten() returns (thrown: bool)
      modifies this`currentItem, this`currentItemType
      ensures thrown <==> old(currentItem).Some?
      ensures old(currentItem).None? ==> currentItem.None? && currentItemType == old(currentItemType)
      ensures old(currentItem).Some? ==> currentItem.None? && currentItemType.None?
    {
      thrown := false;
      if currentItem.None? {
        return;
      }
      CloseViewNoteModal();
      match currentItem
      case None =>
        thrown := true;
      case Some(_) =>
        // `editNote(currentItem.id)`: never reached, the target was just cleared
        assert false;
    }

    /** `editCurrentNote` as evidently intended: the id is read before the
        view dialog is closed, and the note is then targeted for editing. */
    method EditCurrentNote()
      modifies this`currentItem, this`currentItemType
      ensures old(currentItem).None? ==> currentItem.None? && currentItemType == old(currentItemType)
      ensures old(currentItem).Some? && HasId(notes, NoteId, old(currentItem).value) ==>
        currentItem == old(currentItem) && currentItemType == Some("note")
      ensures old(currentItem).Some? && !HasId(notes, NoteId, old(currentItem).value) ==>
        currentItem.None? && currentItemType.None?
    {
      if currentItem.None? {
        return;
      }
      var id := currentItem.value;
      CloseViewNoteModal();
      EditNote(id);
    }

    /** `handleNoteSubmit`: with a note targeted, the first note with the
        target's id gets the new title and content (nothing happens when it is
        gone); otherwise a note with the clock's id is appended. The fields
        are not validated. Either way the target is cleared. */
    method HandleNoteSubmit(title: string, content: string, now: int)
      modifies this`notes, this`currentItem, this`currentItemType
      ensures old(currentItem).Some? && old(currentItemType) == Some("note") ==>
        notes == NoteEdited(old(notes), old(currentItem).value, title, content)
      ensures !(old(currentItem).Some? && old(currentItemType) == Some("note")) ==>
        notes == old(notes) + [Note(now, title, content)]
      ensures currentItem.None? && currentItemType.None?
    {
      if currentItem.Some? && currentItemType == Some("note") {
        var noteIndex := FindIndex(notes, NoteId, currentItem.value);
        if noteIndex.Some? {
          notes := notes[noteIndex.value := notes[noteIndex.value].(title := title, content := content)];
        }
      } else {
        var newNote := Note(now, title, content);
        notes := notes + [newNote];
      }
      currentItem, currentItemType := None, None;
    }

    /** `editLink`: target an existing link; an unknown id changes nothing. */
    method EditLink(id: int)
      modifies this`currentItem, this`currentItemType
      ensures HasId(links, LinkId, id) ==> currentItem == Some(id) && currentItemType == Some("link")
      ensures !HasId(links, LinkId, id) ==> currentItem == old(currentItem) && currentItemType == old(currentItemType)
    {
      var link := Find(links, LinkId, id);
      if link.Some? {
        currentItem, currentItemType := Some(link.value.id), Some("link");
      }
    }

    /** `handleLinkSubmit`: with a link targeted, the first link with the
        target's id gets the new title and url and keeps its `createdAt`;
        otherwise a link with the clock's id and today's label `dateLabel` is
        appended. Either way the target is cleared. */
    method HandleLinkSubmit(title: string, url: string, now: int, dateLabel: string)
      modifies this`links, this`currentItem, this`currentItemType
      ensures old(currentItem).Some? && old(currentItemType) == Some("link") ==>
        links == LinkEdited(old(links), old(currentItem).value, title, url)
      ensures !(old(currentItem).Some? && old(currentItemType) == Some("link")) ==>
        links == old(links) + [Link(now, title, url, dateLabel)]
      ensures currentItem.None? && currentItemType.None?
    {
      if currentItem.Some? && currentItemType == Some("link") {
        var linkIndex := FindIndex(links, LinkId, currentItem.value);
        if linkIndex.Some? {
          links := links[linkIndex.value := links[linkIndex.value].(title := title, url := url)];
        }
      } else {
        var newLink := Link(now, title, url, dateLabel);
        links := links + [newLink];
      }
      currentItem, currentItemType := None, None;
    }

    /** `renameFile`: target an existing file; an unknown id changes
        nothing. */
    method RenameFile(id: int)
      modifies this`currentItem, this`currentItemType
      ensures HasId(files, FileId, id) ==> currentItem == Some(id) && currentItemType == Some("file")
      ensures !HasId(files, FileId, id) ==> currentItem == old(currentItem) && currentItemType == old(currentItemType)
    {
      var file := Find(files, FileId, id);
      if file.Some? {
        currentItem, currentItemType := Some(file.value.id), Some("file");
      }
    }

    /** `handleRenameSubmit`: without a target nothing changes; otherwise the
        first file with the target's id is renamed, whatever type was
        recorded, and the target is cleared. */
    method HandleRenameSubmit(newName: string)
      modifies this`files, this`currentItem, this`currentItemType
      ensures old(currentItem).None? ==>
        files == old(files) && currentItem == old(currentItem) && currentItemType == old(currentItemType)
      ensures old(currentItem).Some? ==>
        files == FileRenamed(old(files), old(currentItem).value, newName)
        && currentItem.None? && currentItemType.None?
    {
      if currentItem.None? {
        return;
      }
      var fileIndex := FindIndex(files, FileId, currentItem.value);
      if fileIndex.Some? {
        files := files[fileIndex.value := files[fileIndex.value].(name := newName)];
      }
      currentItem, currentItemType := None, None;
    }

    /** `deleteItem`: record the type and id and open the dialog. */
    method DeleteItem(kind: string, id: int)
      modifies this`currentItem, this`currentItemType
      ensures currentItem == Some(id) && currentItemType == Some(kind)
    {
      currentItemType := Some(kind);
      currentItem := Some(id);
    }

    /** `confirmDelete`: without a target nothing changes; otherwise only the
        collection named by the recorded type loses the records with the
        target's id (an unknown type removes nothing), and the target is
        cleared. */
    method ConfirmDelete()
      modifies this`files, this`notes, this`links, this`currentItem, this`currentItemType
      ensures old(currentItem).None? ==>
        files == old(files) && notes == old(notes) && links == old(links)
        && currentItem == old(currentItem) && currentItemType == old(currentItemType)
      ensures old(currentItem).Some? ==>
        && files == Purge(old(files), FileId, old(currentItemType), "file", old(currentItem).value)
        && notes == Purge(old(notes), NoteId, old(currentItemType), "note", old(currentItem).value)
        && links == Purge(old(links), LinkId, old(currentItemType), "link", old(currentItem).value)
        && currentItem.None? && currentItemType.None?
    {
      if currentItem.None? {
        return;
      }
      var id := currentItem.value;
      if currentItemType == Some("file") {
        files := FilterOut(files, FileId, id);
      } else if currentItemType == Some("note") {
        notes := FilterOut(notes, NoteId, id);
      } else if currentItemType == Some("link") {
        links := FilterOut(links, LinkId, id);
      }
      currentItem, currentItemType := None, None;
    }

    /** `closeAllModals`: the target is cleared. */
    method CloseAllModals()
      modifies this`currentItem, this`currentItemType
      ensures currentItem.None? && currentItemType.None?
    {
      currentItem, currentItemType := None, None;
    }
  }

  /** Asking to delete and then confirming removes exactly the records of the
      named collection that carry the id, and leaves nothing targeted. */
  method DeleteAndConfirm(w: Workspace, kind: string, id: int)
    modifies w`files, w`notes, w`links, w`currentItem, w`currentItemType
    ensures kind == "file" ==> forall f :: f in w.files <==> f in old(w.files) && f.id != id
    ensures kind == "note" ==> forall n :: n in w.notes <==> n in old(w.notes) && n.id != id
    ensures kind == "link" ==> forall l :: l in w.links <==> l in old(w.links) && l.id != id
    ensures kind != "file" ==> w.files == old(w.files)
    ensures kind != "note" ==> w.notes == old(w.notes)
    ensures kind != "link" ==> w.links == old(w.links)
    ensures w.currentItem.None? && w.currentItemType.None?
  {
    w.DeleteItem(kind, id);
    w.ConfirmDelete();
  }

  /** Viewing an existing note and pressing its edit button, as written,
      throws and leaves no note targeted for editing. */
  method ViewThenEditAsWritten(w: Workspace, id: int) returns (thrown: bool)
    requires HasId(w.notes, NoteId, id)
    modifies w`currentItem, w`currentItemType
    ensures thrown && w.currentItem.None?
  {
    w.ViewNote(id);
    thrown := w.EditCurrentNoteAsWritten();
  }

  /** With the id read first, viewing an existing note and pressing its edit
      button targets that note for editing. */
  method ViewThenEdit(w: Workspace, id: int)
    requires HasId(w.notes, NoteId, id)
    modifies w`currentItem, w`currentItemType
    ensures w.currentItem == Some(id) && w.currentItemType == Some("note")
  {
    w.ViewNote(id);
    w.EditCurrentNote();
  }

  /** Closing the dialogs and then confirming a delete removes nothing. */
  method CloseThenConfirm(w: Workspace)
    modifies w`files, w`notes, w`links, w`currentItem, w`currentItemType
    ensures w.files == old(w.files) && w.notes == old(w.notes) && w.links == old(w.links)
    ensures w.currentItem.None? && w.currentItemType.None?
  {
    w.CloseAllModals();
    w.ConfirmDelete();
  }
}
