/** The undo store of the storage server: one saved content per file, handed out once
    (storage_server/storage_server.c: save_undo, get_undo). */
module UndoTables {
  import opened Options
  import opened Lists

  const MAX_UNDO := 1000

  datatype Image = Image(file: string, content: Option<string>)

  // -------------------------------------------------------------------- the table as a value

  function FindFile(t: seq<Image>, file: string): (i: nat)
    ensures i <= |t| && (i < |t| ==> t[i].file == file)
    ensures forall j :: 0 <= j < i ==> t[j].file != file
  {
    FirstIndex(t, (x: Image) => x.file == file)
  }

  /** The content a file would be restored to. */
  function ImageOf(t: seq<Image>, file: string): Option<string> {
    var i := FindFile(t, file);
    if i < |t| then t[i].content else None
  }

  function Save(t: seq<Image>, file: string, content: string): seq<Image> {
    var i := FindFile(t, file);
    if i < |t| then t[i := Image(file, Some(content))]
    else if |t| < MAX_UNDO then t + [Image(file, Some(content))]
    else t
  }

  function Take(t: seq<Image>, file: string): seq<Image> {
    var i := FindFile(t, file);
    if i < |t| then t[i := Image(file, None)] else t
  }

  /** The table has, or can still open, an entry for the file. */
  predicate HasRoom(t: seq<Image>, file: string) {
    FindFile(t, file) < |t| || |t| < MAX_UNDO
  }

  // ------------------------------------------------------------------------- the table laws

  lemma FindFileAfterUpdate(t: seq<Image>, i: nat, c: Option<string>, f: string)
    requires i < |t|
    ensures FindFile(t[i := Image(t[i].file, c)], f) == FindFile(t, f)
  {
    hide FindFile;
    var u := t[i := Image(t[i].file, c)];
    var k, l := FindFile(t, f), FindFile(u, f);
    assert forall j :: 0 <= j < |t| ==> u[j].file == t[j].file;
    assert !(l < k) && !(k < l);
  }

  lemma FindFileAfterAppend(t: seq<Image>, x: Image, f: string)
    ensures FindFile(t + [x], f) == if FindFile(t, f) < |t| || x.file == f then FindFile(t, f) else |t| + 1
  {
    hide FindFile;
    var u := t + [x];
    var k, l := FindFile(t, f), FindFile(u, f);
    assert u[|t|] == x && forall j :: 0 <= j < |t| ==> u[j] == t[j];
    assert !(l < k) && (k < |t| ==> !(k < l));
  }

  /** Room for a file: an entry it had before, or one that is still free. */
  lemma HasRoomIff(t: seq<Image>, file: string)
    ensures HasRoom(t, file) <==> |t| < MAX_UNDO || exists i :: 0 <= i < |t| && t[i].file == file
  {
    hide FindFile;
    if i: nat :| i < |t| && t[i].file == file {
      assert !(i < FindFile(t, file));
    }
  }

  /** Saving sets this file's image if there is room for it, and no other file's. */
  lemma SaveLaws(t: seq<Image>, file: string, content: string, f: string)
    ensures ImageOf(Save(t, file, content), f)
            == if f == file && HasRoom(t, file) then Some(content) else ImageOf(t, f)
    ensures HasRoom(t, file) ==> FindFile(Save(t, file, content), file) < |Save(t, file, content)|
  {
    var i := FindFile(t, file);
    if i < |t| {
      FindFileAfterUpdate(t, i, Some(content), f);
      FindFileAfterUpdate(t, i, Some(content), file);
    } else if |t| < MAX_UNDO {
      FindFileAfterAppend(t, Image(file, Some(content)), f);
      FindFileAfterAppend(t, Image(file, Some(content)), file);
    }
  }

  /** Taking an image leaves none behind for the file, and every other file's as it was. */
  lemma TakeLaws(t: seq<Image>, file: string, f: string)
    ensures ImageOf(Take(t, file), f) == if f == file then None else ImageOf(t, f)
  {
    var i := FindFile(t, file);
    if i < |t| {
      FindFileAfterUpdate(t, i, None, f);
    }
  }

  // ------------------------------------------------------------------------ the array itself

  class UndoStore {
    const images: array<Image>
    var count: nat

    ghost predicate Valid()
      reads this
    {
      images.Length == MAX_UNDO && count <= images.Length
    }

    ghost function Contents(): seq<Image>
      requires Valid()
      reads this, images
    {
      images[..count]
    }

    constructor ()
      ensures Valid() && fresh(images) && Contents() == []
    {
      images := new Image[MAX_UNDO](_ => Image("", None));
      count := 0;
    }

    method IndexOf(filename: string) returns (idx: int)
      requires Valid()
      ensures var i := FindFile(Contents(), filename); idx == if i < count then i else -1
    {
      hide FindFile;
      ghost var t := Contents();
      var i := 0;
      while i < count
        invariant 0 <= i <= count && FindFile(t, filename) >= i
      {
        assert t[i] == images[i];
        if images[i].file == filename {
          return i;
        }
        i := i + 1;
      }
      return -1;
    }

    method SaveUndo(filename: string, content: string)
      requires Valid()
      modifies this, images
      ensures Valid() && Contents() == Save(old(Contents()), filename, content)
    {
      ghost var t := Contents();
      var idx := IndexOf(filename);
      if idx == -1 && count < MAX_UNDO {
        idx := count;
        count := count + 1;
        images[idx] := Image(filename, None);
      }
      if idx >= 0 {
        images[idx] := images[idx].(content := Some(content));
        assert Contents() == Save(t, filename, content);
      }
    }

    method GetUndo(filename: string) returns (content: Option<string>)
      requires Valid()
      modifies images
      ensures Valid() && content == ImageOf(old(Contents()), filename)
      ensures Contents() == Take(old(Contents()), filename)
    {
      var idx := IndexOf(filename);
      if idx < 0 {
        return None;
      }
      content := images[idx].content;
      images[idx] := images[idx].(content := None);
    }
  }
}
