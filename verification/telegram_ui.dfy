/**
 * The Telegram mini-app client (telegram_style/app.js): the server stores the
 * tree itself as `{files: [...], folders: {name: folder}}`. One folder is shown
 * at a time (`currentPath`); files are uploaded into it, cut from one folder and
 * pasted into another, renamed and deleted. A path that no longer resolves
 * falls back to the root.
 */
module TelegramUi {
  import opened Wrappers
  import opened Text
  import opened FileTree
  import opened Edits
  import Codec

  // ---------------------------------------------------------------------------
  // Finding folders
  // ---------------------------------------------------------------------------

  /** `getfolderByPath`: follows `folders[segment]` and gives up on a missing key. */
  method GetFolderByPath(t: Node, path: Path) returns (r: Option<Node>)
    ensures r == Lookup(t, path)
  {
    var folder := t;
    var i := 0;
    while i < |path|
      invariant 0 <= i <= |path|
      invariant Lookup(t, path[..i]) == Some(folder)
    {
      LookupConcat(t, path[..i], path[i..]);
      assert path[..i] + path[i..] == path;
      match Child(folder.folders, path[i]) {
        case None =>
          assert path[i..][0] == path[i];
          return None;
        case Some(c) =>
          LookupConcat(t, path[..i], [path[i]]);
          assert path[..i] + [path[i]] == path[..i + 1];
          folder := c;
      }
      i := i + 1;
    }
    assert path[..i] == path;
    return Some(folder);
  }

  /** `getfolderByPath(p) || fileTree`: the folder at `p`, or the root when it is gone. */
  function Target(t: Node, p: Path): (q: Path)
    ensures Lookup(t, q).Some?
    ensures Lookup(t, p).Some? ==> q == p
    ensures Lookup(t, p).None? ==> q == []
  {
    if Lookup(t, p).Some? then p else []
  }

  // ---------------------------------------------------------------------------
  // File types
  // ---------------------------------------------------------------------------

  /** `typeMap`: extension to category. */
  const TypeTable: map<string, string> := map[
    "jpg" := "photo", "jpeg" := "photo", "png" := "photo", "gif" := "photo", "webp" := "photo",
    "mp4" := "video", "avi" := "video", "mov" := "video", "mkv" := "video",
    "mp3" := "audio", "wav" := "audio", "aac" := "audio", "flac" := "audio",
    "pdf" := "document", "doc" := "document", "docx" := "document", "txt" := "document"]

  const Categories: set<string> := {"photo", "video", "audio", "document", "default"}

  /** `typeMap[ext] || 'default'`. */
  function Category(ext: string): (c: string)
    ensures c in Categories
    ensures ext in TypeTable <==> c != "default"
  {
    if ext in TypeTable then TypeTable[ext] else "default"
  }

  /** `getFileTypeFromName`: the category of the lowercased text after the last dot. */
  function FileTypeFromName(name: string): string {
    Category(ToLower(Last(Split(name, '.'))))
  }

  /**
   * With a dot, the category is that of the extension the flat-list clients
   * report; without one, the whole lowercased name is looked up.
   */
  lemma FileTypeOfExtension(name: string)
    ensures FileTypeFromName(name) in Categories
    ensures '.' in name ==> FileTypeFromName(name) == Category(Codec.Extension(name))
    ensures '.' !in name ==> FileTypeFromName(name) == Category(ToLower(name))
  {
    SplitLength(name, '.');
    LastPieceIsTail(name, '.');
  }

  lemma ExampleSplit()
    ensures Split("Song.MP3", '.') == ["Song", "MP3"]
  {
    assert "Song.MP3" == "Song" + ['.'] + "MP3";
    SplitConcat("Song", "MP3", '.');
    ExamplePieces();
  }

  lemma ExamplePieces()
    ensures Split("Song", '.') == ["Song"] && Split("MP3", '.') == ["MP3"]
  {
    SplitNoSeparator("Song", '.');
    SplitNoSeparator("MP3", '.');
  }

  lemma LowerMp3()
    ensures ToLower("MP3") == "mp3" && ToLower("mp3") == "mp3"
  {
    assert LowerChar('M') == 'm' && LowerChar('P') == 'p' && LowerChar('3') == '3';
    assert LowerChar('m') == 'm' && LowerChar('p') == 'p';
  }

  lemma ExampleSong()
    ensures FileTypeFromName("Song.MP3") == "audio"
  {
    ExampleSplit();
    assert Last(["Song", "MP3"]) == "MP3";
    LowerMp3();
    assert "mp3" in TypeTable;
  }

  /** A dotless name that happens to be an extension gets that extension's category. */
  lemma ExampleBareExtension()
    ensures FileTypeFromName("mp3") == "audio"
    ensures FileTypeFromName("notes") == "default"
  {
    BareName("mp3");
    BareName("notes");
    LowerMp3();
    assert "mp3" in TypeTable;
    NotesDefault();
  }

  lemma BareName(name: string)
    requires '.' !in name
    ensures FileTypeFromName(name) == Category(ToLower(name))
  {
    SplitNoSeparator(name, '.');
  }

  lemma NotesDefault()
    ensures Category(ToLower("notes")) == "default"
  {
    assert ToLower("notes") == "notes";
    assert "notes" !in TypeTable;
  }

  // ---------------------------------------------------------------------------
  // The edits, as functions of the tree
  // ---------------------------------------------------------------------------

  /** The entry `uploadFile` stores: name, fresh id, size, and the category of the name. */
  function Uploaded(name: string, size: nat, freshId: string): FileEntry {
    FileEntry(name, freshId, Some(FileTypeFromName(name)), Some(size))
  }

  /** The source folder of a cut with every entry carrying the cut id filtered out. */
  function Cleared(t: Node, e: FileEntry, source: Path): Node {
    if Lookup(t, source).Some? then WithFiles(t, source, RemoveAllId(FolderAt(t, source).files, e.fileId)) else t
  }

  /** The entries `Cleared` takes out of the source folder. */
  function CutAway(t: Node, e: FileEntry, source: Path): seq<FileEntry> {
    if Lookup(t, source).Some? then Matching(FolderAt(t, source).files, e.fileId) else []
  }

  /**
   * `handlePaste`: every entry with the cut id leaves the source folder (when it
   * still resolves); the cut entry is then appended to the folder shown, or to
   * the root when that does not resolve.
   */
  function PasteCut(t: Node, current: Path, e: FileEntry, source: Path): Node {
    var cleared := Cleared(t, e, source);
    var dest := Target(cleared, current);
    WithFiles(cleared, dest, FolderAt(cleared, dest).files + [e])
  }

  /** Clearing keeps every folder and its names, and leaves no entry with the id in the source. */
  lemma ClearedFolders(t: Node, e: FileEntry, source: Path, q: Path)
    ensures Lookup(Cleared(t, e, source), q).Some? <==> Lookup(t, q).Some?
    ensures Lookup(t, q).Some? && q != source ==>
      Lookup(Cleared(t, e, source), q).value.files == Lookup(t, q).value.files
    ensures Lookup(t, source).Some? && q == source ==>
      forall j :: 0 <= j < |FolderAt(Cleared(t, e, source), source).files| ==>
        FolderAt(Cleared(t, e, source), source).files[j].fileId != e.fileId
    ensures WellFormed(t) ==> WellFormed(Cleared(t, e, source))
  {
    if Lookup(t, source).Some? {
      var files := RemoveAllId(FolderAt(t, source).files, e.fileId);
      RemoveAllIdSpec(FolderAt(t, source).files, e.fileId);
      WithFilesWellFormed(t, source, files, Codec.SlashFree);
      WithFilesAt(t, source, files, q);
    }
  }

  /** A paste trades the source folder's entries with the cut id for the cut entry. */
  lemma PasteCutFiles(t: Node, current: Path, e: FileEntry, source: Path)
    ensures multiset(AllFiles(PasteCut(t, current, e, source))) + multiset(CutAway(t, e, source))
      == multiset(AllFiles(t)) + multiset{e}
  {
    var cleared := Cleared(t, e, source);
    if Lookup(t, source).Some? {
      RemoveAllFiles(t, source, e.fileId);
    }
    assert multiset(AllFiles(cleared)) + multiset(CutAway(t, e, source)) == multiset(AllFiles(t));
    var dest := Target(cleared, current);
    AppendFresh(cleared, dest, e);
  }

  /**
   * The cut entry lands last in the folder shown (or the root), every folder is
   * kept, and the source folder, when it is another one, holds no entry with the id.
   */
  lemma PasteCutPlaces(t: Node, current: Path, e: FileEntry, source: Path, q: Path)
    ensures Lookup(PasteCut(t, current, e, source), q).Some? <==> Lookup(t, q).Some?
    ensures var dest := Target(t, current);
      && Lookup(PasteCut(t, current, e, source), dest).Some?
      && FolderAt(PasteCut(t, current, e, source), dest).files != []
      && FolderAt(PasteCut(t, current, e, source), dest).files[|FolderAt(PasteCut(t, current, e, source), dest).files| - 1] == e
    ensures Lookup(t, source).Some? && source != Target(t, current) ==>
      && Lookup(PasteCut(t, current, e, source), source).Some?
      && forall j :: 0 <= j < |FolderAt(PasteCut(t, current, e, source), source).files| ==>
           FolderAt(PasteCut(t, current, e, source), source).files[j].fileId != e.fileId
    ensures WellFormed(t) ==> WellFormed(PasteCut(t, current, e, source))
  {
    var cleared := Cleared(t, e, source);
    ClearedFolders(t, e, source, q);
    ClearedFolders(t, e, source, current);
    ClearedFolders(t, e, source, source);
    var dest := Target(cleared, current);
    assert dest == Target(t, current);
    var files := FolderAt(cleared, dest).files + [e];
    WithFilesWellFormed(cleared, dest, files, Codec.SlashFree);
    WithFilesAt(cleared, dest, files, q);
    WithFilesAt(cleared, dest, files, dest);
    if Lookup(t, source).Some? && source != dest {
      WithFilesAt(cleared, dest, files, source);
      assert FolderAt(PasteCut(t, current, e, source), source).files == FolderAt(cleared, source).files;
    }
  }

  /** With unique ids, the cut entry is the only entry of its folder that carries its id. */
  lemma OnlyEntryWithId(t: Node, e: FileEntry, source: Path)
    requires Lookup(t, source).Some? && e in FolderAt(t, source).files && UniqueIds(t)
    ensures multiset(CutAway(t, e, source)) == multiset{e}
  {
    var files := FolderAt(t, source).files;
    FolderFilesIn(t, source);
    assert e in multiset(AllFiles(t));
    forall x ensures multiset(Matching(files, e.fileId))[x] == multiset{e}[x] {
      MatchingCount(files, e.fileId, x);
      if x.fileId == e.fileId && x in files {
        assert x in multiset(AllFiles(t));
        assert x == e;
        assert multiset(AllFiles(t))[e] <= 1;
      }
    }
  }

  /**
   * When the cut entry is still in its source folder and ids are unique, the
   * paste moves it: the tree holds the same entries as before, ids still unique.
   */
  lemma PasteIsMove(t: Node, current: Path, e: FileEntry, source: Path)
    requires Lookup(t, source).Some? && e in FolderAt(t, source).files && UniqueIds(t)
    ensures multiset(AllFiles(PasteCut(t, current, e, source))) == multiset(AllFiles(t))
    ensures UniqueIds(PasteCut(t, current, e, source))
  {
    OnlyEntryWithId(t, e, source);
    PasteCutFiles(t, current, e, source);
    var R, T := multiset(AllFiles(PasteCut(t, current, e, source))), multiset(AllFiles(t));
    assert R + multiset{e} == T + multiset{e};
    Cancel(R, T, multiset{e});
    UniqueIdsShrink(t, PasteCut(t, current, e, source));
  }

  /** The confirm button of the rename dialog, on the entry at `index` of the folder at `path`. */
  function RenamedFile(t: Node, path: Path, index: nat, newName: string): Node
    requires Lookup(t, path).Some? && index < |FolderAt(t, path).files|
  {
    var files := FolderAt(t, path).files;
    WithFiles(t, path, files[index := files[index].(name := newName)])
  }

  /** Renaming a file changes only that entry's name: every folder stays, names stay distinct. */
  lemma RenamedFileFolders(t: Node, path: Path, index: nat, newName: string, q: Path)
    requires Lookup(t, path).Some? && index < |FolderAt(t, path).files|
    ensures Lookup(RenamedFile(t, path, index, newName), q).Some? <==> Lookup(t, q).Some?
    ensures Lookup(RenamedFile(t, path, index, newName), path).Some?
    ensures FolderAt(RenamedFile(t, path, index, newName), path).files
      == FolderAt(t, path).files[index := FolderAt(t, path).files[index].(name := newName)]
    ensures Lookup(t, q).Some? && q != path ==>
      Lookup(RenamedFile(t, path, index, newName), q).value.files == Lookup(t, q).value.files
    ensures WellFormed(t) ==> WellFormed(RenamedFile(t, path, index, newName))
  {
    var files := FolderAt(t, path).files;
    var files' := files[index := files[index].(name := newName)];
    WithFilesAt(t, path, files', path);
    WithFilesAt(t, path, files', q);
    WithFilesWellFormed(t, path, files', Codec.SlashFree);
  }

  /**
   * Renaming a file swaps one entry for the same entry under the new name (same
   * id, type and size), and ids stay unique.
   */
  lemma RenamedFileEntries(t: Node, path: Path, index: nat, newName: string)
    requires Lookup(t, path).Some? && index < |FolderAt(t, path).files|
    ensures var x := FolderAt(t, path).files[index];
      multiset(AllFiles(RenamedFile(t, path, index, newName))) + multiset{x}
        == multiset(AllFiles(t)) + multiset{x.(name := newName)}
    ensures UniqueIds(t) ==> UniqueIds(RenamedFile(t, path, index, newName))
  {
    var files := FolderAt(t, path).files;
    var x := files[index];
    var x' := x.(name := newName);
    var files' := files[index := x'];
    WithFilesFiles(t, path, files');
    SwapCount(files, index, x');
    var W, P, P', T := multiset(AllFiles(RenamedFile(t, path, index, newName))), multiset(files), multiset(files'), multiset(AllFiles(t));
    assert W + P == T + P';
    forall y ensures ((W + multiset{x}) + P)[y] == ((T + multiset{x'}) + P)[y] {
      assert (W + P)[y] == (T + P')[y];
      assert (P' + multiset{x})[y] == (P + multiset{x'})[y];
    }
    assert (W + multiset{x}) + P == (T + multiset{x'}) + P;
    Cancel(W + multiset{x}, T + multiset{x'}, P);
    if UniqueIds(t) {
      FolderFilesIn(t, path);
      assert x in multiset(AllFiles(t));
      UniqueIdsSwap(t, RenamedFile(t, path, index, newName), x, x');
    }
  }

  lemma SwapCount(files: seq<FileEntry>, index: nat, x': FileEntry)
    requires index < |files|
    ensures multiset(files[index := x']) + multiset{files[index]} == multiset(files) + multiset{x'}
  {
    assert files == files[..index] + [files[index]] + files[index + 1..];
    assert files[index := x'] == files[..index] + [x'] + files[index + 1..];
  }

  // ---------------------------------------------------------------------------
  // The client's state and its handlers
  // ---------------------------------------------------------------------------

  class Drive {
    /** `fileTree` */
    var tree: Node
    /** `currentPath`: the keys leading from the root to the folder shown. */
    var currentPath: Path
    /** `cutFileObj` */
    var cutFile: Option<FileEntry>
    /** `cutParentPath`: a copy of the path of the folder the entry was cut from. */
    var cutParentPath: Option<Path>

    /** Sibling names are distinct; a cut entry and its source folder are set and cleared together. */
    ghost predicate Valid()
      reads this
    {
      WellFormed(tree) && (cutFile.Some? <==> cutParentPath.Some?)
    }

    /**
     * `loadFileTree`: the tree the server stored (a JSON object, so its keys are
     * distinct), or an empty root when there is none or the request failed.
     */
    constructor (loaded: Option<Node>)
      requires loaded.Some? ==> WellFormed(loaded.value)
      ensures tree == (if loaded.Some? then loaded.value else Empty)
      ensures currentPath == [] && cutFile == None && cutParentPath == None
      ensures Valid()
    {
      tree := if loaded.Some? then loaded.value else Empty;
      currentPath := [];
      cutFile := None;
      cutParentPath := None;
    }

    /** `getCurrentFolder`: the folder shown, None when the path no longer resolves. */
    method CurrentFolder() returns (r: Option<Node>)
      ensures r == Lookup(tree, currentPath)
    {
      r := GetFolderByPath(tree, currentPath);
    }

    /** A tap on the folder row `name`. */
    method OpenFolder(name: string)
      modifies this
      ensures currentPath == old(currentPath) + [name]
      ensures tree == old(tree) && cutFile == old(cutFile) && cutParentPath == old(cutParentPath)
    {
      currentPath := currentPath + [name];
    }

    /** `navigateBack` below the root: shows the parent folder. */
    method NavigateBack()
      modifies this
      ensures currentPath == if old(currentPath) == [] then [] else old(currentPath)[..|old(currentPath)| - 1]
      ensures tree == old(tree) && cutFile == old(cutFile) && cutParentPath == old(cutParentPath)
    {
      if |currentPath| > 0 {
        currentPath := currentPath[..|currentPath| - 1];
      }
    }

    /** `handleCut`: remembers the entry and a copy of the path it sits in. */
    method Cut(e: FileEntry, parentPath: Path)
      modifies this
      ensures cutFile == Some(e) && cutParentPath == Some(parentPath)
      ensures tree == old(tree) && currentPath == old(currentPath)
      ensures Valid() <==> WellFormed(tree)
    {
      cutFile := Some(e);
      cutParentPath := Some(parentPath);
    }

    /** `cancelCutOperation` */
    method CancelCut()
      modifies this
      ensures cutFile == None && cutParentPath == None
      ensures tree == old(tree) && currentPath == old(currentPath)
      ensures Valid() <==> WellFormed(tree)
    {
      cutFile := None;
      cutParentPath := None;
    }

    /**
     * `handlePaste`: with an entry cut, moves it from its source folder to the
     * folder shown (the root when that is gone) and forgets the cut.
     */
    method Paste()
      requires Valid()
      modifies this
      ensures old(cutFile).None? ==> tree == old(tree) && cutFile == None && cutParentPath == None
      ensures old(cutFile).Some? ==>
        && tree == PasteCut(old(tree), currentPath, old(cutFile).value, old(cutParentPath).value)
        && multiset(AllFiles(tree)) + multiset(CutAway(old(tree), old(cutFile).value, old(cutParentPath).value))
             == multiset(AllFiles(old(tree))) + multiset{old(cutFile).value}
        && cutFile == None && cutParentPath == None
      ensures currentPath == old(currentPath)
      ensures Valid()
    {
      if cutFile.None? || cutParentPath.None? {
        return;
      }
      var e, source := cutFile.value, cutParentPath.value;
      PasteCutFiles(tree, currentPath, e, source);
      PasteCutPlaces(tree, currentPath, e, source, []);
      var oldFolder := GetFolderByPath(tree, source);
      if oldFolder.Some? {
        tree := WithFiles(tree, source, RemoveAllId(oldFolder.value.files, e.fileId));
      }
      var current := GetFolderByPath(tree, currentPath);
      var dest := if current.Some? then currentPath else [];
      var destFolder := if current.Some? then current.value else tree;
      tree := WithFiles(tree, dest, destFolder.files + [e]);
      cutFile := None;
      cutParentPath := None;
    }

    /** `uploadFile`: appends the entry for the picked file to the folder shown, or to the root. */
    method Upload(name: string, size: nat, freshId: string)
      requires Valid()
      modifies this
      ensures var dest := Target(old(tree), currentPath);
        tree == WithFiles(old(tree), dest, FolderAt(old(tree), dest).files + [Uploaded(name, size, freshId)])
      ensures multiset(AllFiles(tree)) == multiset(AllFiles(old(tree))) + multiset{Uploaded(name, size, freshId)}
      ensures UniqueIds(old(tree)) && !HasFileId(old(tree), freshId) ==> UniqueIds(tree)
      ensures currentPath == old(currentPath) && cutFile == old(cutFile) && cutParentPath == old(cutParentPath)
      ensures Valid()
    {
      var e := Uploaded(name, size, freshId);
      var current := GetFolderByPath(tree, currentPath);
      var dest := if current.Some? then currentPath else [];
      var destFolder := if current.Some? then current.value else tree;
      AppendFresh(tree, dest, e);
      WithFilesWellFormed(tree, dest, destFolder.files + [e], Codec.SlashFree);
      tree := WithFiles(tree, dest, destFolder.files + [e]);
    }

    /**
     * The rename dialog's confirm on the entry at `index` of the folder at
     * `path`: a trimmed, non-empty, different name replaces the entry's name.
     */
    method RenameFile(path: Path, index: nat, input: string)
      requires Valid() && Lookup(tree, path).Some? && index < |FolderAt(tree, path).files|
      modifies this
      ensures var newName := Trim(input);
        tree == if newName != "" && newName != FolderAt(old(tree), path).files[index].name
          then RenamedFile(old(tree), path, index, newName)
          else old(tree)
      ensures UniqueIds(old(tree)) ==> UniqueIds(tree)
      ensures currentPath == old(currentPath) && cutFile == old(cutFile) && cutParentPath == old(cutParentPath)
      ensures Valid()
    {
      var newName := Trim(input);
      var folder := GetNodeFromPath(tree, path);
      if newName != "" && newName != folder.files[index].name {
        RenamedFileFolders(tree, path, index, newName, path);
        RenamedFileEntries(tree, path, index, newName);
        tree := RenamedFile(tree, path, index, newName);
      }
    }

    /**
     * The delete dialog's confirm: every entry with the id leaves the folder at
     * `parentPath`, or the root when that path no longer resolves.
     */
    method DeleteFile(parentPath: Path, fileId: string)
      requires Valid()
      modifies this
      ensures var dest := Target(old(tree), parentPath);
        && tree == WithFiles(old(tree), dest, RemoveAllId(FolderAt(old(tree), dest).files, fileId))
        && multiset(AllFiles(tree)) + multiset(Matching(FolderAt(old(tree), dest).files, fileId))
             == multiset(AllFiles(old(tree)))
      ensures UniqueIds(old(tree)) ==> UniqueIds(tree)
      ensures currentPath == old(currentPath) && cutFile == old(cutFile) && cutParentPath == old(cutParentPath)
      ensures Valid()
    {
      var found := GetFolderByPath(tree, parentPath);
      var dest := if found.Some? then parentPath else [];
      var folder := if found.Some? then found.value else tree;
      RemoveAllFiles(tree, dest, fileId);
      WithFilesWellFormed(tree, dest, RemoveAllId(folder.files, fileId), Codec.SlashFree);
      tree := WithFiles(tree, dest, RemoveAllId(folder.files, fileId));
    }
  }
}
