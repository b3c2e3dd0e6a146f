/**
 * The flat-list wire format of the two object-tree clients and its two
 * directions: `buildTree` turns `{file_id, file_path}` records into a folder
 * tree, and the `recurse` walk of `updateBackend` turns the tree back into
 * `{file_id, file_type, file_path}` records.
 */
module Codec {
  import opened Wrappers
  import opened Text
  import opened FileTree

  /** One element of the server's flat list. */
  datatype WireRecord = WireRecord(fileId: string, fileType: string, filePath: string)

  /**
   * How `buildTree` names a file: app.js uses the last path segment,
   * not_bad_1/app.js the last raw `/`-piece of `file_path`.
   */
  datatype Naming = LastSegment | LastRawPiece

  // ---------------------------------------------------------------------------
  // buildTree
  // ---------------------------------------------------------------------------

  /** The segments of a path: leading slashes stripped, split on `/`, empty pieces dropped. */
  function PathParts(path: string): (parts: seq<string>)
    ensures forall i :: 0 <= i < |parts| ==> parts[i] != "" && '/' !in parts[i]
  {
    NonEmpty(Split(StripLeading(path, '/'), '/'))
  }

  /** The folders a record's file goes into: every segment but the last. */
  function DirsOf(r: WireRecord): Path
    requires PathParts(r.filePath) != []
  {
    var parts := PathParts(r.filePath);
    parts[..|parts| - 1]
  }

  /** The entry `buildTree` pushes for a record: its name and its id. */
  function EntryOf(r: WireRecord, naming: Naming): FileEntry
    requires PathParts(r.filePath) != []
  {
    var name := match naming
      case LastSegment => Last(PathParts(r.filePath))
      case LastRawPiece => Last(Split(r.filePath, '/'));
    FileEntry(name, r.fileId, None, None)
  }

  /**
   * Walks down `dirs`, creating each folder that is missing and reusing each
   * that exists, and appends `e` to the files of the folder reached.
   */
  function AddFile(n: Node, dirs: Path, e: FileEntry): Node
    decreases dirs
  {
    if dirs == [] then n.(files := n.files + [e])
    else
      var c := match Child(n.folders, dirs[0]) case None => Empty case Some(c) => c;
      n.(folders := Put(n.folders, dirs[0], AddFile(c, dirs[1..], e)))
  }

  /** One iteration of `files.forEach`: a record with no segment adds nothing. */
  function Insert(n: Node, r: WireRecord, naming: Naming): Node {
    if PathParts(r.filePath) == [] then n else AddFile(n, DirsOf(r), EntryOf(r, naming))
  }

  /** The tree `buildTree` returns for `rs`, the records inserted in order. */
  function Build(rs: seq<WireRecord>, naming: Naming): Node
    decreases |rs|
  {
    if rs == [] then Empty else Insert(Build(rs[..|rs| - 1], naming), rs[|rs| - 1], naming)
  }

  method BuildTree(files: seq<WireRecord>, naming: Naming) returns (tree: Node)
    ensures tree == Build(files, naming)
  {
    tree := Empty;
    var i := 0;
    while i < |files|
      invariant 0 <= i <= |files|
      invariant tree == Build(files[..i], naming)
    {
      assert files[..i + 1][..i] == files[..i];
      tree := Insert(tree, files[i], naming);
      i := i + 1;
    }
    assert files[..|files|] == files;
  }

  /** The records that have at least one segment, in order. */
  function WithSegments(rs: seq<WireRecord>): seq<WireRecord>
    decreases |rs|
  {
    if rs == [] then []
    else
      var r := rs[|rs| - 1];
      WithSegments(rs[..|rs| - 1]) + if PathParts(r.filePath) == [] then [] else [r]
  }

  /** The files of the folder at `p`, none when it does not exist. */
  function FilesAt(n: Node, p: Path): seq<FileEntry> {
    match Lookup(n, p)
    case None => []
    case Some(m) => m.files
  }

  // ---------------------------------------------------------------------------
  // Flatten
  // ---------------------------------------------------------------------------

  /** The text after the last `.` of a name with its ASCII capitals lowercased, `""` when it has no dot. */
  function Extension(name: string): string {
    var parts := Split(name, '.');
    if |parts| > 1 then ToLower(Last(parts)) else ""
  }

  /** The record flatten emits for a file entry in folder `dir`. */
  function FileRecord(e: FileEntry, dir: Path): WireRecord {
    WireRecord(e.fileId, Extension(e.name), "/" + Join(dir + [e.name], '/'))
  }

  function FileRecords(files: seq<FileEntry>, dir: Path): seq<WireRecord> {
    seq(|files|, i requires 0 <= i < |files| => FileRecord(files[i], dir))
  }

  /** `recurse(node, dir)`: the folder's own files, then each child folder in key order. */
  function Flatten(n: Node, dir: Path): seq<WireRecord> {
    FileRecords(n.files, dir) + FlattenFolders(n.folders, dir)
  }

  function FlattenFolders(fs: seq<Subfolder>, dir: Path): seq<WireRecord> {
    if fs == [] then [] else Flatten(fs[0].node, dir + [fs[0].name]) + FlattenFolders(fs[1..], dir)
  }

  // ---------------------------------------------------------------------------
  // Properties of buildTree
  // ---------------------------------------------------------------------------

  /** The folder at `dirs` exists afterwards and its file list gained `e` at the end. */
  lemma {:induction false} AddFileTarget(n: Node, dirs: Path, e: FileEntry)
    ensures Lookup(AddFile(n, dirs, e), dirs).Some?
    ensures Lookup(AddFile(n, dirs, e), dirs).value.files == FilesAt(n, dirs) + [e]
    decreases dirs
  {
    if dirs != [] {
      var c := match Child(n.folders, dirs[0]) case None => Empty case Some(c) => c;
      ChildPut(n.folders, dirs[0], AddFile(c, dirs[1..], e), dirs[0]);
      AddFileTarget(c, dirs[1..], e);
      assert FilesAt(c, dirs[1..]) == FilesAt(n, dirs);
    }
  }

  /**
   * Every folder that existed still exists, keeps its files (the target folder
   * gains `e` at the end) and keeps its child folders, in order, as a prefix.
   */
  lemma {:induction false} AddFileKeeps(n: Node, dirs: Path, e: FileEntry, q: Path)
    requires Lookup(n, q).Some?
    ensures Lookup(AddFile(n, dirs, e), q).Some?
    ensures Lookup(AddFile(n, dirs, e), q).value.files
         == Lookup(n, q).value.files + (if q == dirs then [e] else [])
    ensures Names(Lookup(n, q).value.folders) <= Names(Lookup(AddFile(n, dirs, e), q).value.folders)
    decreases dirs
  {
    if dirs == [] {
      if q != [] {
        assert AddFile(n, dirs, e).folders == n.folders;
      }
    } else {
      var c := match Child(n.folders, dirs[0]) case None => Empty case Some(c) => c;
      var v := AddFile(c, dirs[1..], e);
      PutNames(n.folders, dirs[0], v);
      if q != [] {
        ChildPut(n.folders, dirs[0], v, q[0]);
        if q[0] == dirs[0] {
          AddFileKeeps(c, dirs[1..], e, q[1..]);
          assert q == dirs <==> q[1..] == dirs[1..] by {
            if q[1..] == dirs[1..] { assert q == [q[0]] + q[1..] && dirs == [dirs[0]] + dirs[1..]; }
          }
        }
      }
    }
  }

  /** Adding a file adds exactly that entry to the tree's files. */
  lemma {:induction false} AddFileFiles(n: Node, dirs: Path, e: FileEntry)
    ensures multiset(AllFiles(AddFile(n, dirs, e))) == multiset(AllFiles(n)) + multiset{e}
    decreases dirs
  {
    if dirs != [] {
      var c := match Child(n.folders, dirs[0]) case None => Empty case Some(c) => c;
      var v := AddFile(c, dirs[1..], e);
      AddFileFiles(c, dirs[1..], e);
      PutFiles(n.folders, dirs[0], v);
      var A, F, C := multiset(AllFilesIn(Put(n.folders, dirs[0], v))), multiset(AllFilesIn(n.folders)), multiset(AllFiles(c));
      assert A + C == (F + multiset{e}) + C;
      Cancel(A, F + multiset{e}, C);
    }
  }

  /** buildTree's per-record step: a record with segments appends its entry to folder `DirsOf(r)`. */
  lemma InsertAppends(n: Node, r: WireRecord, naming: Naming)
    ensures PathParts(r.filePath) == [] ==> Insert(n, r, naming) == n
    ensures PathParts(r.filePath) != [] ==>
      && Lookup(Insert(n, r, naming), DirsOf(r)).Some?
      && Lookup(Insert(n, r, naming), DirsOf(r)).value.files == FilesAt(n, DirsOf(r)) + [EntryOf(r, naming)]
  {
    if PathParts(r.filePath) != [] {
      AddFileTarget(n, DirsOf(r), EntryOf(r, naming));
    }
  }

  /** buildTree's per-record step reuses folders: nothing that was there is lost. */
  lemma InsertKeeps(n: Node, r: WireRecord, naming: Naming, q: Path)
    requires Lookup(n, q).Some?
    ensures Lookup(Insert(n, r, naming), q).Some?
    ensures Lookup(n, q).value.files <= Lookup(Insert(n, r, naming), q).value.files
    ensures Names(Lookup(n, q).value.folders) <= Names(Lookup(Insert(n, r, naming), q).value.folders)
  {
    if PathParts(r.filePath) != [] {
      AddFileKeeps(n, DirsOf(r), EntryOf(r, naming), q);
    }
  }

  /** The tree holds one file per record that has at least one segment. */
  lemma {:induction false} BuildCount(rs: seq<WireRecord>, naming: Naming)
    ensures |AllFiles(Build(rs, naming))| == |WithSegments(rs)|
    decreases |rs|
  {
    if rs != [] {
      var prefix, r := rs[..|rs| - 1], rs[|rs| - 1];
      BuildCount(prefix, naming);
      if PathParts(r.filePath) != [] {
        AddFileFiles(Build(prefix, naming), DirsOf(r), EntryOf(r, naming));
        assert |multiset(AllFiles(Build(rs, naming)))| == |multiset(AllFiles(Build(prefix, naming)))| + 1;
      }
    }
  }

  /** A path segment never contains the separator. */
  predicate SlashFree(name: string) {
    '/' !in name
  }

  /**
   * Creating the missing folders on the way keeps sibling names distinct, and
   * adds only names taken from `dirs`.
   */
  lemma {:induction false} AddFileWellFormed(n: Node, dirs: Path, e: FileEntry)
    ensures WellFormed(n) ==> WellFormed(AddFile(n, dirs, e))
    ensures AllNames(n, SlashFree) && (forall i :: 0 <= i < |dirs| ==> SlashFree(dirs[i])) ==>
      AllNames(AddFile(n, dirs, e), SlashFree)
    decreases dirs
  {
    if dirs != [] {
      var c := match Child(n.folders, dirs[0]) case None => Empty case Some(c) => c;
      match IndexOfName(n.folders, dirs[0]) {
        case None =>
        case Some(i) => assert c == n.folders[i].node;
      }
      AddFileWellFormed(c, dirs[1..], e);
      assert forall i :: 1 <= i < |dirs| ==> dirs[i] == dirs[1..][i - 1];
    }
  }

  /** buildTree always yields distinct sibling names, and no folder name holds a slash. */
  lemma {:induction false} BuildWellFormed(rs: seq<WireRecord>, naming: Naming)
    ensures WellFormed(Build(rs, naming)) && AllNames(Build(rs, naming), SlashFree)
    decreases |rs|
  {
    if rs != [] {
      var prefix, r := rs[..|rs| - 1], rs[|rs| - 1];
      BuildWellFormed(prefix, naming);
      if PathParts(r.filePath) != [] {
        AddFileWellFormed(Build(prefix, naming), DirsOf(r), EntryOf(r, naming));
      }
    }
  }

  // ---------------------------------------------------------------------------
  // Properties of flatten
  // ---------------------------------------------------------------------------

  /** A name without a dot has no extension; otherwise it is the lowercased text after the last dot. */
  lemma ExtensionOf(name: string)
    ensures '.' !in name ==> Extension(name) == ""
    ensures '.' in name ==>
      exists k :: 0 <= k < |name| && name[k] == '.' && '.' !in name[k + 1..] && Extension(name) == ToLower(name[k + 1..])
  {
    SplitLength(name, '.');
    LastPieceIsTail(name, '.');
  }

  /** `ws` are the records of `es`, one each, in order: same ids, types from the names. */
  predicate RecordsOf(ws: seq<WireRecord>, es: seq<FileEntry>) {
    && |ws| == |es|
    && forall i :: 0 <= i < |ws| ==> ws[i].fileId == es[i].fileId && ws[i].fileType == Extension(es[i].name)
  }

  lemma RecordsOfConcat(ws: seq<WireRecord>, es: seq<FileEntry>, ws': seq<WireRecord>, es': seq<FileEntry>)
    requires RecordsOf(ws, es) && RecordsOf(ws', es')
    ensures RecordsOf(ws + ws', es + es')
  {
    forall i | 0 <= i < |ws + ws'|
      ensures (ws + ws')[i].fileId == (es + es')[i].fileId && (ws + ws')[i].fileType == Extension((es + es')[i].name)
    {
      if i >= |ws| {
        assert (ws + ws')[i] == ws'[i - |ws|] && (es + es')[i] == es'[i - |ws|];
      }
    }
  }

  /** Flatten emits exactly one record per file of the tree, in the tree's order; an empty subtree emits nothing. */
  lemma {:induction false} FlattenOnePerFile(n: Node, dir: Path)
    ensures RecordsOf(Flatten(n, dir), AllFiles(n))
    decreases n, 1
  {
    FlattenFoldersOnePerFile(n.folders, dir);
    RecordsOfConcat(FileRecords(n.files, dir), n.files, FlattenFolders(n.folders, dir), AllFilesIn(n.folders));
  }

  lemma {:induction false} FlattenFoldersOnePerFile(fs: seq<Subfolder>, dir: Path)
    ensures RecordsOf(FlattenFolders(fs, dir), AllFilesIn(fs))
    decreases fs, 0
  {
    if fs != [] {
      FlattenOnePerFile(fs[0].node, dir + [fs[0].name]);
      FlattenFoldersOnePerFile(fs[1..], dir);
      RecordsOfConcat(Flatten(fs[0].node, dir + [fs[0].name]), AllFiles(fs[0].node),
                      FlattenFolders(fs[1..], dir), AllFilesIn(fs[1..]));
    }
  }

  lemma {:induction false} FlattenFoldersConcat(a: seq<Subfolder>, b: seq<Subfolder>, dir: Path)
    ensures FlattenFolders(a + b, dir) == FlattenFolders(a, dir) + FlattenFolders(b, dir)
  {
    if a == [] {
      assert a + b == b;
    } else {
      assert (a + b)[0] == a[0] && (a + b)[1..] == a[1..] + b;
      FlattenFoldersConcat(a[1..], b, dir);
    }
  }

  lemma {:induction false} FlattenFoldersAt(fs: seq<Subfolder>, i: nat, dir: Path)
    requires i < |fs|
    ensures FlattenFolders(fs, dir)
         == FlattenFolders(fs[..i], dir) + Flatten(fs[i].node, dir + [fs[i].name]) + FlattenFolders(fs[i + 1..], dir)
  {
    var tail := fs[i..];
    assert fs == fs[..i] + tail;
    FlattenFoldersConcat(fs[..i], tail, dir);
    assert tail[0] == fs[i] && tail[1..] == fs[i + 1..];
  }

  lemma PutFlatten(fs: seq<Subfolder>, x: string, v: Node, dir: Path)
    ensures multiset(FlattenFolders(Put(fs, x, v), dir))
          + multiset(match Child(fs, x) case None => [] case Some(c) => Flatten(c, dir + [x]))
         == multiset(FlattenFolders(fs, dir)) + multiset(Flatten(v, dir + [x]))
  {
    match IndexOfName(fs, x)
    case None =>
      FlattenFoldersConcat(fs, [Subfolder(x, v)], dir);
    case Some(i) =>
      var r := fs[i := Subfolder(x, v)];
      FlattenFoldersAt(fs, i, dir);
      FlattenFoldersAt(r, i, dir);
      assert r[..i] == fs[..i] && r[i + 1..] == fs[i + 1..];
  }

  lemma FileRecordsAppend(files: seq<FileEntry>, e: FileEntry, dir: Path)
    ensures FileRecords(files + [e], dir) == FileRecords(files, dir) + [FileRecord(e, dir)]
  {
  }

  lemma Shift<T>(a: multiset<T>, b: multiset<T>, c: multiset<T>, d: multiset<T>, e: multiset<T>)
    requires a + c == b + d && d == c + e
    ensures a == b + e
  {
    assert a + c == (b + e) + c;
    Cancel(a, b + e, c);
  }

  lemma Combine<T>(r: multiset<T>, a: multiset<T>, f: multiset<T>, e: multiset<T>, x: multiset<T>, y: multiset<T>)
    requires x == r + a && y == r + f && a == f + e
    ensures x == y + e
  {
    forall t ensures x[t] == (y + e)[t] {
    }
  }

  lemma ChildFlatten(fs: seq<Subfolder>, x: string, c: Node, dir: Path)
    requires c == match Child(fs, x) case None => Empty case Some(c) => c
    ensures multiset(match Child(fs, x) case None => [] case Some(c) => Flatten(c, dir + [x]))
         == multiset(Flatten(c, dir + [x]))
  {
    match Child(fs, x) {
      case None =>
        assert Flatten(Empty, dir + [x]) == [];
      case Some(_) =>
    }
  }

  lemma FlattenSplit(n: Node, dir: Path)
    ensures multiset(Flatten(n, dir)) == multiset(FileRecords(n.files, dir)) + multiset(FlattenFolders(n.folders, dir))
  {
  }

  /** Storing a child whose records gained `E` under `x` adds `E` to the folder's records. */
  lemma FlattenPutStep(n: Node, x: string, c: Node, v: Node, dir: Path, E: multiset<WireRecord>)
    requires c == match Child(n.folders, x) case None => Empty case Some(c) => c
    requires multiset(Flatten(v, dir + [x])) == multiset(Flatten(c, dir + [x])) + E
    ensures multiset(Flatten(n.(folders := Put(n.folders, x, v)), dir)) == multiset(Flatten(n, dir)) + E
  {
    var A := multiset(FlattenFolders(Put(n.folders, x, v), dir));
    var F := multiset(FlattenFolders(n.folders, dir));
    var C := multiset(Flatten(c, dir + [x]));
    PutFlatten(n.folders, x, v, dir);
    ChildFlatten(n.folders, x, c, dir);
    Shift(A, F, C, multiset(Flatten(v, dir + [x])), E);
    FlattenSplit(n.(folders := Put(n.folders, x, v)), dir);
    FlattenSplit(n, dir);
    Combine(multiset(FileRecords(n.files, dir)), A, F, E,
            multiset(Flatten(n.(folders := Put(n.folders, x, v)), dir)), multiset(Flatten(n, dir)));
  }

  /** Adding a file to the tree adds exactly its record to the flattened list. */
  lemma {:induction false} AddFileFlatten(n: Node, dirs: Path, e: FileEntry, dir: Path)
    ensures multiset(Flatten(AddFile(n, dirs, e), dir)) == multiset(Flatten(n, dir)) + multiset{FileRecord(e, dir + dirs)}
    decreases dirs
  {
    if dirs == [] {
      assert dir + dirs == dir;
      FileRecordsAppend(n.files, e, dir);
    } else {
      var x := dirs[0];
      var c := match Child(n.folders, x) case None => Empty case Some(c) => c;
      var v := AddFile(c, dirs[1..], e);
      AddFileFlatten(c, dirs[1..], e, dir + [x]);
      assert dir + [x] + dirs[1..] == dir + dirs;
      FlattenPutStep(n, x, c, v, dir, multiset{FileRecord(e, dir + dirs)});
      assert AddFile(n, dirs, e) == n.(folders := Put(n.folders, x, v));
    }
  }

  // ---------------------------------------------------------------------------
  // Round trip
  // ---------------------------------------------------------------------------

  /**
   * A record whose path is `/` followed by its segments joined with `/` (no
   * doubled, leading-extra or trailing slash) and whose folder segments avoid
   * the key `files` that the object encoding reserves for the file list.
   */
  predicate Canonical(r: WireRecord) {
    var parts := PathParts(r.filePath);
    && parts != []
    && r.filePath == "/" + Join(parts, '/')
    && forall i :: 0 <= i < |parts| - 1 ==> parts[i] != "files"
  }

  /** The record as flatten writes it back: `file_type` recomputed from the name. */
  function Normalized(r: WireRecord): WireRecord {
    var parts := PathParts(r.filePath);
    if parts == [] then r else r.(fileType := Extension(Last(parts)))
  }

  function NormalizeAll(rs: seq<WireRecord>): seq<WireRecord>
    decreases |rs|
  {
    if rs == [] then [] else NormalizeAll(rs[..|rs| - 1]) + [Normalized(rs[|rs| - 1])]
  }

  lemma {:induction false} JoinEndsWithLast(parts: seq<string>, sep: char)
    requires parts != [] && Last(parts) != ""
    ensures Join(parts, sep) != [] && Join(parts, sep)[|Join(parts, sep)| - 1] == Last(parts)[|Last(parts)| - 1]
  {
    if |parts| > 1 {
      JoinEndsWithLast(parts[1..], sep);
      assert Last(parts[1..]) == Last(parts);
    }
  }

  /** The two namings agree unless the path ends with `/`. */
  lemma NamingsAgree(r: WireRecord)
    requires PathParts(r.filePath) != []
    requires r.filePath[|r.filePath| - 1] != '/'
    ensures EntryOf(r, LastRawPiece) == EntryOf(r, LastSegment)
  {
    var s := r.filePath;
    LastPieceEmpty(s, '/');
    LastPieceAfterStrip(s, '/');
    LastOfNonEmpty(Split(StripLeading(s, '/'), '/'));
  }

  /** not_bad_1/app.js: a path ending with `/` yields a file named `""`. */
  lemma TrailingSlashName(r: WireRecord)
    requires PathParts(r.filePath) != []
    requires r.filePath[|r.filePath| - 1] == '/'
    ensures EntryOf(r, LastRawPiece).name == ""
  {
    LastPieceEmpty(r.filePath, '/');
  }

  /** A canonical record's path does not end with `/`, so both namings build the same tree. */
  lemma CanonicalNaming(r: WireRecord)
    requires Canonical(r)
    ensures EntryOf(r, LastRawPiece) == EntryOf(r, LastSegment)
  {
    var parts := PathParts(r.filePath);
    JoinEndsWithLast(parts, '/');
    NamingsAgree(r);
  }

  /** Flattening the entry buildTree makes for a canonical record gives the record back. */
  lemma RecordBack(r: WireRecord, naming: Naming)
    requires Canonical(r)
    ensures FileRecord(EntryOf(r, naming), DirsOf(r)) == Normalized(r)
  {
    var parts := PathParts(r.filePath);
    CanonicalNaming(r);
    assert DirsOf(r) + [Last(parts)] == parts;
  }

  /**
   * Round trip: flattening the tree built from canonical records gives back
   * the same records, as a multiset, with `file_type` recomputed.
   */
  lemma {:induction false} RoundTrip(rs: seq<WireRecord>, naming: Naming)
    requires forall i :: 0 <= i < |rs| ==> Canonical(rs[i])
    ensures multiset(Flatten(Build(rs, naming), [])) == multiset(NormalizeAll(rs))
    decreases |rs|
  {
    if rs != [] {
      var prefix, r := rs[..|rs| - 1], rs[|rs| - 1];
      assert forall i :: 0 <= i < |prefix| ==> Canonical(prefix[i]) by {
        forall i | 0 <= i < |prefix| ensures Canonical(prefix[i]) { assert prefix[i] == rs[i]; }
      }
      RoundTrip(prefix, naming);
      var before := Build(prefix, naming);
      assert Build(rs, naming) == AddFile(before, DirsOf(r), EntryOf(r, naming));
      AddFileFlatten(before, DirsOf(r), EntryOf(r, naming), []);
      assert [] + DirsOf(r) == DirsOf(r);
      RecordBack(r, naming);
    }
  }

  /** When the records already carry the types flatten computes, the round trip is exact. */
  lemma {:induction false} RoundTripExact(rs: seq<WireRecord>, naming: Naming)
    requires forall i :: 0 <= i < |rs| ==> Canonical(rs[i]) && Normalized(rs[i]) == rs[i]
    ensures multiset(Flatten(Build(rs, naming), [])) == multiset(rs)
  {
    RoundTrip(rs, naming);
    NormalizeFixed(rs);
  }

  lemma {:induction false} NormalizeFixed(rs: seq<WireRecord>)
    requires forall i :: 0 <= i < |rs| ==> Normalized(rs[i]) == rs[i]
    ensures NormalizeAll(rs) == rs
    decreases |rs|
  {
    if rs != [] {
      var prefix, r := rs[..|rs| - 1], rs[|rs| - 1];
      NormalizeFixed(prefix);
      assert NormalizeAll(rs) == NormalizeAll(prefix) + [Normalized(r)];
      DropLast(rs);
    }
  }

  /** A non-empty sequence is its front followed by its last element. */
  lemma DropLast<T>(s: seq<T>)
    requires s != []
    ensures s == s[..|s| - 1] + [s[|s| - 1]]
  {
  }

  lemma {:induction false} JoinStartsWithFirst(parts: seq<string>, sep: char)
    requires parts != [] && parts[0] != ""
    ensures Join(parts, sep) != [] && Join(parts, sep)[0] == parts[0][0]
  {
  }

  /** The path flatten writes parses back into the folder path and the name. */
  lemma RecordPathParses(e: FileEntry, dir: Path)
    requires forall i :: 0 <= i < |dir| ==> dir[i] != "" && '/' !in dir[i]
    requires e.name != "" && '/' !in e.name
    ensures PathParts(FileRecord(e, dir).filePath) == dir + [e.name]
  {
    var parts := dir + [e.name];
    var joined := Join(parts, '/');
    JoinStartsWithFirst(parts, '/');
    assert StripLeading("/" + joined, '/') == joined by {
      assert ("/" + joined)[1..] == joined;
    }
    SplitJoin(parts, '/');
    NonEmptyIdentity(parts);
  }

  lemma ExampleSplit()
    ensures Split("a/b/", '/') == ["a", "b", ""]
    ensures Split("/a/b/", '/') == ["", "a", "b", ""]
  {
    assert Split("", '/') == [""];
    assert Split("/", '/') == ["", ""];
    assert "b/"[0] == 'b' && "b/"[1..] == "/" && ['b'] + "" == "b";
    assert Split("b/", '/') == ["b", ""];
    assert "/b/"[1..] == "b/";
    assert Split("/b/", '/') == ["", "b", ""];
    assert "a/b/"[0] == 'a' && "a/b/"[1..] == "/b/" && ['a'] + "" == "a";
    assert "/a/b/"[1..] == "a/b/";
  }

  lemma ExampleParts()
    ensures PathParts("/a/b/") == ["a", "b"]
    ensures Last(Split("/a/b/", '/')) == ""
  {
    ExampleSplit();
    assert StripLeading("/a/b/", '/') == "a/b/" by {
      assert "/a/b/"[1..] == "a/b/";
    }
    var pieces: seq<string> := ["a", "b", ""];
    assert pieces[1..] == ["b", ""] && pieces[1..][1..] == [""] && pieces[1..][1..][1..] == [];
    assert NonEmpty(pieces) == ["a", "b"];
  }

  /** not_bad_1/app.js: the record `/a/b/` puts a file named `""` into folder `a`. */
  lemma TrailingSlashExample()
    ensures Build([WireRecord("f1", "", "/a/b/")], LastRawPiece) == Node([], [Subfolder("a", Node([FileEntry("", "f1", None, None)], []))])
  {
    var r := WireRecord("f1", "", "/a/b/");
    ExampleParts();
    var e := FileEntry("", "f1", None, None);
    assert DirsOf(r) == ["a"] && EntryOf(r, LastRawPiece) == e;
    assert [r][..0] == [];
    assert Build([r], LastRawPiece) == AddFile(Empty, ["a"], e);
    assert AddFile(Empty, [], e) == Node([e], []);
  }
}
