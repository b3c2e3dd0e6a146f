/**
 * The edits the three clients make to the folder tree: replacing the file list
 * of one folder (paste, upload, cut-paste, delete-file, rename-file), deleting
 * an empty child folder, and moving a child folder to a new key (rename).
 * Each is stated as a new tree computed from the old one; the lemmas say what
 * changed and that nothing else did.
 */
module Edits {
  import opened Wrappers
  import opened Text
  import opened FileTree

  function FolderAt(t: Node, p: Path): Node
    requires Lookup(t, p).Some?
  {
    Lookup(t, p).value
  }

  /**
   * `getNodeFromPath`: follows one key per segment. The two object-tree clients
   * only call it with a path they rendered, so the path exists.
   */
  method GetNodeFromPath(t: Node, path: Path) returns (node: Node)
    requires Lookup(t, path).Some?
    ensures node == FolderAt(t, path)
  {
    node := t;
    var i := 0;
    while i < |path|
      invariant 0 <= i <= |path|
      invariant Lookup(t, path[..i]) == Some(node)
    {
      LookupConcat(t, path[..i], path[i..]);
      assert path[..i] + path[i..] == path;
      LookupConcat(t, path[..i], [path[i]]);
      assert path[..i] + [path[i]] == path[..i + 1];
      node := Child(node.folders, path[i]).value;
      i := i + 1;
    }
    assert path[..i] == path;
  }

  /** Every folder on the way to an existing folder exists. */
  lemma LookupPrefix(t: Node, p: Path, q: Path)
    requires Lookup(t, p).Some? && q <= p
    ensures Lookup(t, q).Some?
  {
    LookupConcat(t, q, p[|q|..]);
    assert q + p[|q|..] == p;
  }

  /** The tree with the file list of the folder at `p` replaced by `files`. */
  function WithFiles(t: Node, p: Path, files: seq<FileEntry>): Node
    requires Lookup(t, p).Some?
  {
    SetAt(t, p, FolderAt(t, p).(files := files))
  }

  // ---------------------------------------------------------------------------
  // File lists
  // ---------------------------------------------------------------------------

  /** `files.findIndex(f => f.file_id === id)`. */
  function IndexOfId(files: seq<FileEntry>, id: string): (r: Option<nat>)
    ensures r.Some? ==> r.value < |files| && files[r.value].fileId == id
    ensures r.Some? ==> forall j :: 0 <= j < r.value ==> files[j].fileId != id
    ensures r.None? ==> forall j :: 0 <= j < |files| ==> files[j].fileId != id
  {
    if files == [] then None
    else if files[0].fileId == id then Some(0)
    else
      match IndexOfId(files[1..], id)
      case None => None
      case Some(i) => Some(i + 1)
  }

  predicate HasId(files: seq<FileEntry>, id: string) {
    exists j :: 0 <= j < |files| && files[j].fileId == id
  }

  /** `files.splice(files.findIndex(...), 1)` when the id is found. */
  function RemoveFirstId(files: seq<FileEntry>, id: string): seq<FileEntry> {
    match IndexOfId(files, id)
    case None => files
    case Some(i) => files[..i] + files[i + 1..]
  }

  /** `files.filter(f => f.file_id !== id)`. */
  function RemoveAllId(files: seq<FileEntry>, id: string): seq<FileEntry> {
    if files == [] then []
    else (if files[0].fileId == id then [] else [files[0]]) + RemoveAllId(files[1..], id)
  }

  /** Delete-file in app.js and not_bad_1/app.js: an absent id leaves the list alone; otherwise the first entry with it goes. */
  lemma RemoveFirstIdSpec(files: seq<FileEntry>, id: string)
    ensures !HasId(files, id) ==> RemoveFirstId(files, id) == files
    ensures HasId(files, id) ==>
      exists i :: 0 <= i < |files| && files[i].fileId == id && (forall j :: 0 <= j < i ==> files[j].fileId != id)
                  && RemoveFirstId(files, id) == files[..i] + files[i + 1..]
    ensures HasId(files, id) ==> |RemoveFirstId(files, id)| == |files| - 1
  {
    match IndexOfId(files, id)
    case None =>
    case Some(i) =>
  }

  /** The filter drops every entry with the id and keeps every other one as often as it occurs (their order: `RemoveAllIdConcat`). */
  lemma {:induction false} RemoveAllIdSpec(files: seq<FileEntry>, id: string)
    ensures forall j :: 0 <= j < |RemoveAllId(files, id)| ==> RemoveAllId(files, id)[j].fileId != id
    ensures forall e: FileEntry :: e.fileId != id ==> multiset(RemoveAllId(files, id))[e] == multiset(files)[e]
    ensures !HasId(files, id) ==> RemoveAllId(files, id) == files
  {
    if files != [] {
      RemoveAllIdSpec(files[1..], id);
      assert files == [files[0]] + files[1..];
      if !HasId(files, id) {
        assert !HasId(files[1..], id) by {
          forall j | 0 <= j < |files[1..]| ensures files[1..][j].fileId != id {
            assert files[1..][j] == files[j + 1];
          }
        }
      }
    }
  }

  /** The filter works piece by piece, so the entries it keeps stay in their order. */
  lemma {:induction false} RemoveAllIdConcat(a: seq<FileEntry>, b: seq<FileEntry>, id: string)
    ensures RemoveAllId(a + b, id) == RemoveAllId(a, id) + RemoveAllId(b, id)
  {
    if a == [] {
      assert a + b == b;
    } else {
      assert (a + b)[0] == a[0] && (a + b)[1..] == a[1..] + b;
      RemoveAllIdConcat(a[1..], b, id);
    }
  }

  /** The filter drops exactly the entries with the id: together they make up the list. */
  lemma {:induction false} RemoveAllIdSplits(files: seq<FileEntry>, id: string)
    ensures multiset(RemoveAllId(files, id)) + multiset(Matching(files, id)) == multiset(files)
  {
    if files != [] {
      RemoveAllIdSplits(files[1..], id);
      assert files == [files[0]] + files[1..];
    }
  }

  /** The entries with the id, in order. */
  function Matching(files: seq<FileEntry>, id: string): seq<FileEntry> {
    if files == [] then []
    else (if files[0].fileId == id then [files[0]] else []) + Matching(files[1..], id)
  }

  // ---------------------------------------------------------------------------
  // Replacing one folder's file list
  // ---------------------------------------------------------------------------

  lemma LookupSameFolders(m: Node, m': Node, r: Path)
    requires m.folders == m'.folders && r != []
    ensures Lookup(m, r) == Lookup(m', r)
  {
  }

  /**
   * Replacing the file list at `p` keeps every folder (and only those), keeps
   * every folder's child names, and keeps every other folder's files.
   */
  lemma WithFilesAt(t: Node, p: Path, files: seq<FileEntry>, q: Path)
    requires Lookup(t, p).Some?
    ensures Lookup(WithFiles(t, p, files), q).Some? <==> Lookup(t, q).Some?
    ensures Lookup(t, q).Some? ==>
      && Names(Lookup(WithFiles(t, p, files), q).value.folders) == Names(Lookup(t, q).value.folders)
      && Lookup(WithFiles(t, p, files), q).value.files == if q == p then files else Lookup(t, q).value.files
  {
    var m := FolderAt(t, p).(files := files);
    if p <= q {
      var r := q[|p|..];
      assert q == p + r;
      SetAtTarget(t, p, m, r);
      LookupConcat(t, p, r);
      if r != [] {
        LookupSameFolders(m, FolderAt(t, p), r);
      }
    } else if q < p {
      SetAtAbove(t, p, m, q);
    } else {
      SetAtAside(t, p, m, q);
    }
  }

  /** Replacing the file list at `p` trades its old entries for the new ones, tree-wide. */
  lemma WithFilesFiles(t: Node, p: Path, files: seq<FileEntry>)
    requires Lookup(t, p).Some?
    ensures multiset(AllFiles(WithFiles(t, p, files))) + multiset(FolderAt(t, p).files)
         == multiset(AllFiles(t)) + multiset(files)
  {
    var prior := FolderAt(t, p);
    var m := prior.(files := files);
    SetAtFiles(t, p, m);
    var W, P, T, F, S := multiset(AllFiles(WithFiles(t, p, files))), multiset(prior.files), multiset(AllFiles(t)),
      multiset(files), multiset(AllFilesIn(prior.folders));
    assert multiset(AllFiles(prior)) == P + S && multiset(AllFiles(m)) == F + S;
    assert W + (P + S) == T + (F + S);
    forall x ensures (W + P)[x] == (T + F)[x] {
      assert (W + (P + S))[x] == (T + (F + S))[x];
    }
  }

  lemma WithFilesWellFormed(t: Node, p: Path, files: seq<FileEntry>, ok: string -> bool)
    requires Lookup(t, p).Some?
    ensures WellFormed(t) ==> WellFormed(WithFiles(t, p, files))
    ensures AllNames(t, ok) ==> AllNames(WithFiles(t, p, files), ok)
  {
    var m := FolderAt(t, p).(files := files);
    LookupWellFormed(t, p);
    LookupAllNames(t, p, ok);
    if WellFormed(t) { SetAtWellFormed(t, p, m); }
    if AllNames(t, ok) { SetAtAllNames(t, p, m, ok); }
  }

  lemma {:induction false} LookupWellFormed(t: Node, p: Path)
    requires Lookup(t, p).Some?
    ensures WellFormed(t) ==> WellFormed(FolderAt(t, p))
    decreases p
  {
    if p != [] {
      var i := IndexOfName(t.folders, p[0]).value;
      LookupWellFormed(t.folders[i].node, p[1..]);
    }
  }

  lemma {:induction false} LookupAllNames(t: Node, p: Path, ok: string -> bool)
    requires Lookup(t, p).Some?
    ensures AllNames(t, ok) ==> AllNames(FolderAt(t, p), ok)
    decreases p
  {
    if p != [] {
      var i := IndexOfName(t.folders, p[0]).value;
      LookupAllNames(t.folders[i].node, p[1..], ok);
    }
  }

  /** Appending an entry with a fresh id adds exactly that entry and keeps ids unique. */
  lemma AppendFresh(t: Node, p: Path, e: FileEntry)
    requires Lookup(t, p).Some?
    ensures multiset(AllFiles(WithFiles(t, p, FolderAt(t, p).files + [e]))) == multiset(AllFiles(t)) + multiset{e}
    ensures UniqueIds(t) && !HasFileId(t, e.fileId) ==> UniqueIds(WithFiles(t, p, FolderAt(t, p).files + [e]))
  {
    var files := FolderAt(t, p).files;
    var t' := WithFiles(t, p, files + [e]);
    WithFilesFiles(t, p, files + [e]);
    var W, P, T := multiset(AllFiles(t')), multiset(files), multiset(AllFiles(t));
    assert W + P == (T + multiset{e}) + P;
    Cancel(W, T + multiset{e}, P);
    if UniqueIds(t) && !HasFileId(t, e.fileId) {
      UniqueIdsAdd(t, t', e);
    }
  }

  /** Deleting the first entry with `id` takes exactly that entry out of the tree. */
  lemma RemoveFirstFiles(t: Node, p: Path, id: string)
    requires Lookup(t, p).Some? && HasId(FolderAt(t, p).files, id)
    ensures IndexOfId(FolderAt(t, p).files, id).Some?
    ensures multiset(AllFiles(WithFiles(t, p, RemoveFirstId(FolderAt(t, p).files, id))))
      + multiset{FolderAt(t, p).files[IndexOfId(FolderAt(t, p).files, id).value]}
      == multiset(AllFiles(t))
    ensures UniqueIds(t) ==> UniqueIds(WithFiles(t, p, RemoveFirstId(FolderAt(t, p).files, id)))
  {
    var files := FolderAt(t, p).files;
    var i := IndexOfId(files, id).value;
    var rest := RemoveFirstId(files, id);
    assert files == files[..i] + [files[i]] + files[i + 1..];
    assert multiset(files) == multiset(rest) + multiset{files[i]};
    WithFilesFiles(t, p, rest);
    var W, R, T, x := multiset(AllFiles(WithFiles(t, p, rest))), multiset(rest), multiset(AllFiles(t)), multiset{files[i]};
    assert (W + x) + R == T + R;
    Cancel(W + x, T, R);
    if UniqueIds(t) {
      UniqueIdsShrink(t, WithFiles(t, p, rest));
    }
  }

  /** Filtering out `id` takes exactly the folder's entries with that id out of the tree. */
  lemma RemoveAllFiles(t: Node, p: Path, id: string)
    requires Lookup(t, p).Some?
    ensures multiset(AllFiles(WithFiles(t, p, RemoveAllId(FolderAt(t, p).files, id))))
      + multiset(Matching(FolderAt(t, p).files, id))
      == multiset(AllFiles(t))
    ensures UniqueIds(t) ==> UniqueIds(WithFiles(t, p, RemoveAllId(FolderAt(t, p).files, id)))
  {
    var files := FolderAt(t, p).files;
    var rest := RemoveAllId(files, id);
    RemoveAllIdSplits(files, id);
    WithFilesFiles(t, p, rest);
    var W, R, T, x := multiset(AllFiles(WithFiles(t, p, rest))), multiset(rest), multiset(AllFiles(t)), multiset(Matching(files, id));
    assert (W + x) + R == T + R;
    Cancel(W + x, T, R);
    if UniqueIds(t) {
      UniqueIdsShrink(t, WithFiles(t, p, rest));
    }
  }

  /** `Matching` keeps exactly the entries with the id, with their multiplicities. */
  lemma {:induction false} MatchingCount(files: seq<FileEntry>, id: string, x: FileEntry)
    ensures multiset(Matching(files, id))[x] == if x.fileId == id then multiset(files)[x] else 0
  {
    if files != [] {
      MatchingCount(files[1..], id, x);
      assert files == [files[0]] + files[1..];
    }
  }

  /** A folder's own entries are among the entries of the tree. */
  lemma FolderFilesIn(t: Node, p: Path)
    requires Lookup(t, p).Some?
    ensures multiset(FolderAt(t, p).files) <= multiset(AllFiles(t))
  {
    WithFilesFiles(t, p, []);
    var W, P, T := multiset(AllFiles(WithFiles(t, p, []))), multiset(FolderAt(t, p).files), multiset(AllFiles(t));
    assert W + P == T;
  }

  // ---------------------------------------------------------------------------
  // Folders
  // ---------------------------------------------------------------------------

  /** Paths that do not pass below `p` keep their folders, files and child names. */
  lemma SetAtOutside(t: Node, p: Path, m: Node, q: Path)
    requires Lookup(t, p).Some?
    requires !(p < q)
    requires q == p ==> m.files == FolderAt(t, p).files && Names(m.folders) == Names(FolderAt(t, p).folders)
    ensures Lookup(SetAt(t, p, m), q).Some? <==> Lookup(t, q).Some?
    ensures Lookup(t, q).Some? ==>
      && Lookup(SetAt(t, p, m), q).value.files == Lookup(t, q).value.files
      && Names(Lookup(SetAt(t, p, m), q).value.folders) == Names(Lookup(t, q).value.folders)
  {
    if q == p {
      SetAtTarget(t, p, m, []);
      assert p + [] == p;
    } else if q < p {
      SetAtAbove(t, p, m, q);
    } else {
      SetAtAside(t, p, m, q);
    }
  }

  /** `delete parentNode[name]`. */
  function DeleteFolderAt(t: Node, parent: Path, name: string): Node
    requires Lookup(t, parent).Some?
  {
    var P := FolderAt(t, parent);
    SetAt(t, parent, P.(folders := Without(P.folders, name)))
  }

  /** `parentNode[newName] = parentNode[oldName]; delete parentNode[oldName]`. */
  function RenameFolderAt(t: Node, parent: Path, oldName: string, newName: string): Node
    requires Lookup(t, parent).Some? && HasChild(FolderAt(t, parent).folders, oldName)
  {
    var P := FolderAt(t, parent);
    var moved := Child(P.folders, oldName).value;
    SetAt(t, parent, P.(folders := Without(Put(P.folders, newName, moved), oldName)))
  }

  /**
   * Deleting the key `name` under `parent`: its subtree is gone, every sibling
   * subtree is as before, and paths not below `parent` are untouched.
   */
  lemma DeleteFolderAtPath(t: Node, parent: Path, name: string, x: string, r: Path)
    requires Lookup(t, parent).Some? && WellFormed(t)
    ensures x == name ==> Lookup(DeleteFolderAt(t, parent, name), parent + [x] + r).None?
    ensures x != name ==> Lookup(DeleteFolderAt(t, parent, name), parent + [x] + r) == Lookup(t, parent + [x] + r)
  {
    var P := FolderAt(t, parent);
    var m := P.(folders := Without(P.folders, name));
    LookupWellFormed(t, parent);
    SetAtTarget(t, parent, m, [x] + r);
    LookupConcat(t, parent, [x] + r);
    ChildWithout(P.folders, name, x);
    assert parent + [x] + r == parent + ([x] + r);
    assert ([x] + r)[0] == x && ([x] + r)[1..] == r;
  }

  lemma DeleteFolderOutside(t: Node, parent: Path, name: string, q: Path)
    requires Lookup(t, parent).Some?
    requires !(parent < q)
    ensures Lookup(DeleteFolderAt(t, parent, name), q).Some? <==> Lookup(t, q).Some?
    ensures q != parent && Lookup(t, q).Some? ==>
      && Lookup(DeleteFolderAt(t, parent, name), q).value.files == Lookup(t, q).value.files
      && Names(Lookup(DeleteFolderAt(t, parent, name), q).value.folders) == Names(Lookup(t, q).value.folders)
    ensures q == parent ==> Lookup(DeleteFolderAt(t, parent, name), q).value.files == Lookup(t, q).value.files
  {
    var P := FolderAt(t, parent);
    var m := P.(folders := Without(P.folders, name));
    if q == parent {
      SetAtTarget(t, parent, m, []);
      assert parent + [] == parent;
    } else {
      SetAtOutside(t, parent, m, q);
    }
  }

  /** Replacing a folder by one with the same files, tree-wide, keeps the tree's files. */
  lemma SetAtSameFiles(t: Node, p: Path, fs: seq<Subfolder>)
    requires Lookup(t, p).Some?
    requires multiset(AllFilesIn(fs)) == multiset(AllFilesIn(FolderAt(t, p).folders))
    ensures multiset(AllFiles(SetAt(t, p, FolderAt(t, p).(folders := fs)))) == multiset(AllFiles(t))
  {
    var P := FolderAt(t, p);
    var m := P.(folders := fs);
    SetAtFiles(t, p, m);
    assert multiset(AllFiles(m)) == multiset(AllFiles(P));
    Cancel(multiset(AllFiles(SetAt(t, p, m))), multiset(AllFiles(t)), multiset(AllFiles(P)));
  }

  /** Deleting an empty folder loses no file. */
  lemma DeleteFolderFiles(t: Node, parent: Path, name: string)
    requires Lookup(t, parent).Some?
    requires Lookup(t, parent + [name]).Some? && !HasContent(FolderAt(t, parent + [name]))
    ensures multiset(AllFiles(DeleteFolderAt(t, parent, name))) == multiset(AllFiles(t))
  {
    var P := FolderAt(t, parent);
    var m := P.(folders := Without(P.folders, name));
    LookupConcat(t, parent, [name]);
    assert Child(P.folders, name) == Some(Empty) by {
      NoContentIsEmpty(FolderAt(t, parent + [name]));
    }
    WithoutFiles(P.folders, name);
    assert AllFiles(Empty) == [];
    SetAtSameFiles(t, parent, m.folders);
  }

  /** Deleting a key keeps sibling names unique and every name allowed. */
  lemma DeleteFolderWellFormed(t: Node, parent: Path, name: string, ok: string -> bool)
    requires Lookup(t, parent).Some?
    ensures WellFormed(t) ==> WellFormed(DeleteFolderAt(t, parent, name))
    ensures AllNames(t, ok) ==> AllNames(DeleteFolderAt(t, parent, name), ok)
  {
    var P := FolderAt(t, parent);
    var m := P.(folders := Without(P.folders, name));
    LookupWellFormed(t, parent);
    LookupAllNames(t, parent, ok);
    WithoutKeeps(P.folders, name, ok);
    if WellFormed(t) { SetAtWellFormed(t, parent, m); }
    if AllNames(t, ok) { SetAtAllNames(t, parent, m, ok); }
  }

  lemma WithoutKeeps(fs: seq<Subfolder>, name: string, ok: string -> bool)
    ensures UniqueNames(fs) ==> UniqueNames(Without(fs, name))
    ensures (forall i :: 0 <= i < |fs| ==> WellFormed(fs[i].node)) ==>
      forall i :: 0 <= i < |Without(fs, name)| ==> WellFormed(Without(fs, name)[i].node)
    ensures AllNames(Node([], fs), ok) ==> AllNames(Node([], Without(fs, name)), ok)
  {
    match IndexOfName(fs, name)
    case None =>
    case Some(i) =>
      var r := fs[..i] + fs[i + 1..];
      assert forall j :: 0 <= j < |r| ==> r[j] == fs[if j < i then j else j + 1];
  }

  /**
   * Renaming `oldName` to `newName` under `parent`: the subtree now sits under
   * `newName` unchanged, nothing is left under `oldName`, and every other
   * sibling subtree is as before.
   */
  lemma RenameFolderAtPath(t: Node, parent: Path, oldName: string, newName: string, x: string, r: Path)
    requires Lookup(t, parent).Some? && HasChild(FolderAt(t, parent).folders, oldName)
    requires WellFormed(t) && !HasChild(FolderAt(t, parent).folders, newName)
    ensures x == oldName ==> Lookup(RenameFolderAt(t, parent, oldName, newName), parent + [x] + r).None?
    ensures x == newName ==>
      Lookup(RenameFolderAt(t, parent, oldName, newName), parent + [x] + r) == Lookup(t, parent + [oldName] + r)
    ensures x != oldName && x != newName ==>
      Lookup(RenameFolderAt(t, parent, oldName, newName), parent + [x] + r) == Lookup(t, parent + [x] + r)
  {
    var P := FolderAt(t, parent);
    var moved := Child(P.folders, oldName).value;
    var fs := Put(P.folders, newName, moved);
    var m := P.(folders := Without(fs, oldName));
    var R := RenameFolderAt(t, parent, oldName, newName);
    LookupWellFormed(t, parent);
    PutFresh(P.folders, newName, moved);
    SetAtTarget(t, parent, m, []);
    assert parent + [] == parent;
    LookupAfter(R, parent, x, r);
    LookupCons(m, x, r);
    LookupAfter(t, parent, x, r);
    LookupCons(P, x, r);
    LookupAfter(t, parent, oldName, r);
    LookupCons(P, oldName, r);
    ChildWithout(fs, oldName, x);
    ChildPut(P.folders, newName, moved, x);
  }

  /** The folder below `parent` reached by `[x] + r` is found from the folder at `parent`. */
  lemma LookupAfter(t: Node, parent: Path, x: string, r: Path)
    requires Lookup(t, parent).Some?
    ensures Lookup(t, parent + [x] + r) == Lookup(FolderAt(t, parent), [x] + r)
  {
    LookupConcat(t, parent, [x] + r);
    assert parent + [x] + r == parent + ([x] + r);
  }

  /** One step of the walk: the child under `x`, then the rest of the path. */
  lemma LookupCons(n: Node, x: string, r: Path)
    ensures Lookup(n, [x] + r) == match Child(n.folders, x) case None => None case Some(c) => Lookup(c, r)
  {
    assert ([x] + r)[0] == x && ([x] + r)[1..] == r;
  }

  lemma PutFresh(fs: seq<Subfolder>, name: string, v: Node)
    requires !HasChild(fs, name)
    ensures Put(fs, name, v) == fs + [Subfolder(name, v)]
    ensures UniqueNames(fs) ==> UniqueNames(Put(fs, name, v))
  {
  }

  lemma RenameFolderOutside(t: Node, parent: Path, oldName: string, newName: string, q: Path)
    requires Lookup(t, parent).Some? && HasChild(FolderAt(t, parent).folders, oldName)
    requires !(parent < q)
    ensures Lookup(RenameFolderAt(t, parent, oldName, newName), q).Some? <==> Lookup(t, q).Some?
    ensures q != parent && Lookup(t, q).Some? ==>
      && Lookup(RenameFolderAt(t, parent, oldName, newName), q).value.files == Lookup(t, q).value.files
      && Names(Lookup(RenameFolderAt(t, parent, oldName, newName), q).value.folders) == Names(Lookup(t, q).value.folders)
    ensures q == parent ==> Lookup(RenameFolderAt(t, parent, oldName, newName), q).value.files == Lookup(t, q).value.files
  {
    var P := FolderAt(t, parent);
    var moved := Child(P.folders, oldName).value;
    var m := P.(folders := Without(Put(P.folders, newName, moved), oldName));
    if q == parent {
      SetAtTarget(t, parent, m, []);
      assert parent + [] == parent;
    } else {
      SetAtOutside(t, parent, m, q);
    }
  }

  /** Renaming loses no file. */
  lemma RenameFolderFiles(t: Node, parent: Path, oldName: string, newName: string)
    requires Lookup(t, parent).Some? && HasChild(FolderAt(t, parent).folders, oldName)
    requires !HasChild(FolderAt(t, parent).folders, newName)
    ensures multiset(AllFiles(RenameFolderAt(t, parent, oldName, newName))) == multiset(AllFiles(t))
  {
    var P := FolderAt(t, parent);
    var moved := Child(P.folders, oldName).value;
    var fs := Put(P.folders, newName, moved);
    var m := P.(folders := Without(fs, oldName));
    PutFresh(P.folders, newName, moved);
    AllFilesInConcat(P.folders, [Subfolder(newName, moved)]);
    assert AllFilesIn([Subfolder(newName, moved)]) == AllFiles(moved) + AllFilesIn([]);
    ChildPut(P.folders, newName, moved, oldName);
    WithoutFiles(fs, oldName);
    var M, F, V := multiset(AllFilesIn(m.folders)), multiset(AllFilesIn(P.folders)), multiset(AllFiles(moved));
    assert M + V == F + V;
    Cancel(M, F, V);
    SetAtSameFiles(t, parent, m.folders);
  }

  /** With a fresh name allowed by `ok`, renaming keeps the tree well formed. */
  lemma RenameFolderWellFormed(t: Node, parent: Path, oldName: string, newName: string, ok: string -> bool)
    requires Lookup(t, parent).Some? && HasChild(FolderAt(t, parent).folders, oldName)
    requires !HasChild(FolderAt(t, parent).folders, newName)
    ensures WellFormed(t) ==> WellFormed(RenameFolderAt(t, parent, oldName, newName))
    ensures AllNames(t, ok) && ok(newName) ==> AllNames(RenameFolderAt(t, parent, oldName, newName), ok)
  {
    var P := FolderAt(t, parent);
    var moved := Child(P.folders, oldName).value;
    var fs := Put(P.folders, newName, moved);
    var m := P.(folders := Without(fs, oldName));
    PutFresh(P.folders, newName, moved);
    LookupWellFormed(t, parent);
    LookupAllNames(t, parent, ok);
    var i := IndexOfName(P.folders, oldName).value;
    assert moved == P.folders[i].node;
    WithoutKeeps(fs, oldName, ok);
    if WellFormed(t) { SetAtWellFormed(t, parent, m); }
    if AllNames(t, ok) && ok(newName) {
      assert AllNames(Node([], fs), ok);
      SetAtAllNames(t, parent, m, ok);
    }
  }

  // ---------------------------------------------------------------------------
  // The rename-folder guard of the two object-tree clients
  // ---------------------------------------------------------------------------

  /** The members every plain JavaScript object inherits from `Object.prototype`. */
  const InheritedKeys: set<string> := {
    "constructor", "hasOwnProperty", "isPrototypeOf", "propertyIsEnumerable", "toLocaleString",
    "toString", "valueOf", "__proto__", "__defineGetter__", "__defineSetter__",
    "__lookupGetter__", "__lookupSetter__"}

  /** Keys that can never name a folder: the file list and the inherited members. */
  predicate Reserved(name: string) {
    name == "files" || name in InheritedKeys
  }

  /** A name a folder of the object-tree clients carries. */
  predicate FolderKey(name: string) {
    name != "" && !Reserved(name)
  }

  /** `parentNode[name]` is truthy: a child folder, or a reserved key. */
  predicate NameTaken(P: Node, name: string) {
    HasChild(P.folders, name) || Reserved(name)
  }

  /** The rename is refused: prompt cancelled, blank answer, unchanged name, or a taken key. */
  predicate RenameRefused(P: Node, oldName: string, answer: Option<string>) {
    answer.None? || Trim(answer.value) == "" || answer.value == oldName || NameTaken(P, answer.value)
  }

  /** An accepted answer is a non-blank, unreserved name that no sibling has. */
  lemma RenameAccepted(P: Node, oldName: string, answer: Option<string>)
    requires !RenameRefused(P, oldName, answer)
    ensures answer.Some? && FolderKey(answer.value) && !IsBlank(answer.value)
    ensures answer.value != oldName && !HasChild(P.folders, answer.value)
  {
  }

  /** Whatever the parent holds, the file-list key and the inherited members are refused. */
  lemma RenameRefusesReserved(P: Node, oldName: string, name: string)
    requires Reserved(name)
    ensures RenameRefused(P, oldName, Some(name))
  {
  }

  // ---------------------------------------------------------------------------
  // The same guard on the raw JavaScript object, as the source writes it
  // ---------------------------------------------------------------------------

  /** What an own key of a folder object holds. */
  datatype Slot = FolderSlot(node: Node) | FileListSlot(files: seq<FileEntry>)

  function FolderKeys(fs: seq<Subfolder>): map<string, Slot>
    decreases |fs|
  {
    if fs == [] then map[]
    else FolderKeys(fs[..|fs| - 1])[fs[|fs| - 1].name := FolderSlot(fs[|fs| - 1].node)]
  }

  /** The own keys of a folder object: its child folders and, once created, `files`. */
  function RawKeys(n: Node, hasFilesKey: bool): map<string, Slot> {
    if hasFilesKey then FolderKeys(n.folders)["files" := FileListSlot(n.files)] else FolderKeys(n.folders)
  }

  /** `parentNode[newName]` is truthy: an own key or an inherited member. */
  predicate TakenAsWritten(raw: map<string, Slot>, name: string) {
    name in raw || name in InheritedKeys
  }

  /** The move as written: assign the new key, delete the old one. */
  function RenameAsWritten(raw: map<string, Slot>, oldName: string, newName: string): map<string, Slot>
    requires oldName in raw
  {
    raw[newName := raw[oldName]] - {oldName}
  }

  /** The folder names the views list: every own key but `files`. */
  function ListedFolders(raw: map<string, Slot>): set<string> {
    set k | k in raw && k != "files"
  }

  lemma {:induction false} FolderKeysHas(fs: seq<Subfolder>, name: string)
    requires name != "files"
    ensures name in FolderKeys(fs) <==> HasChild(fs, name)
    decreases |fs|
  {
    if fs != [] {
      var prefix := fs[..|fs| - 1];
      FolderKeysHas(prefix, name);
      if IndexOfName(prefix, name).Some? {
        IndexAt(fs, name, IndexOfName(prefix, name).value);
      } else if fs[|fs| - 1].name == name {
        IndexAt(fs, name, |fs| - 1);
      } else {
        IndexAbsent(fs, name);
      }
    }
  }

  /** On every name but `files`, the guard as written and the model's guard agree. */
  lemma TakenAgrees(P: Node, hasFilesKey: bool, name: string)
    requires name != "files"
    ensures TakenAsWritten(RawKeys(P, hasFilesKey), name) <==> NameTaken(P, name)
  {
    FolderKeysHas(P.folders, name);
  }

  /**
   * Renaming the only folder `docs` of a folder that has no `files` key to
   * `files` passes the guard as written; afterwards the reserved key holds the
   * folder, which the listing no longer shows, and the flatten walk meets an
   * object where it expects the file list.
   */
  lemma RenameToFilesAsWritten()
    ensures var docs := Node([FileEntry("a.txt", "1", None, None)], []);
            var raw := RawKeys(Node([], [Subfolder("docs", docs)]), false);
            && "docs" in raw
            && !TakenAsWritten(raw, "files")
            && RenameAsWritten(raw, "docs", "files")["files"] == FolderSlot(docs)
            && ListedFolders(RenameAsWritten(raw, "docs", "files")) == {}
  {
    var docs := Node([FileEntry("a.txt", "1", None, None)], []);
    var fs := [Subfolder("docs", docs)];
    assert fs[..0] == [] && fs[|fs| - 1] == Subfolder("docs", docs);
    assert FolderKeys(fs[..0]) == map[];
    assert FolderKeys(fs) == map["docs" := FolderSlot(docs)];
    var raw := RawKeys(Node([], fs), false);
    assert raw == map["docs" := FolderSlot(docs)];
    assert "files" !in InheritedKeys;
    var raw' := RenameAsWritten(raw, "docs", "files");
    assert raw' == map["files" := FolderSlot(docs)];
  }
}
