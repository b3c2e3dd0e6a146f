/**
 * The expandable-tree client (app.js): the whole folder tree is drawn at once,
 * and the set `expandedPaths` remembers which folders are open, keyed by the
 * folder's path joined with `/`. Copy/paste duplicates a file into a folder,
 * and folders can be deleted when empty or renamed; a rename re-keys the
 * expanded paths of the folder and of everything below it.
 */
module TreeUi {
  import opened Wrappers
  import opened Text
  import opened FileTree
  import opened Edits
  import opened Codec

  // ---------------------------------------------------------------------------
  // Expanded-path keys
  // ---------------------------------------------------------------------------

  /** `folderPathArr.join("/")`: the key a folder's open state is kept under. */
  function PathKey(p: Path): string {
    Join(p, '/')
  }

  predicate Segments(p: Path) {
    forall i :: 0 <= i < |p| ==> SlashFree(p[i])
  }

  /** Every key names a folder that exists in the tree. */
  ghost predicate ExpandedConsistent(t: Node, keys: set<string>) {
    forall k :: k in keys ==> exists p: Path :: p != [] && Lookup(t, p).Some? && PathKey(p) == k
  }

  /** In a tree without slashes in its names, every path of a folder is made of segments. */
  lemma {:induction false} PathSegments(t: Node, p: Path)
    requires AllNames(t, SlashFree) && Lookup(t, p).Some?
    ensures Segments(p)
  {
    if p != [] {
      var i := IndexOfName(t.folders, p[0]).value;
      PathSegments(t.folders[i].node, p[1..]);
      assert forall j :: 1 <= j < |p| ==> p[j] == p[1..][j - 1];
    }
  }

  /** Paths made of segments have distinct keys. */
  lemma KeyInjective(p: Path, q: Path)
    requires p != [] && q != [] && Segments(p) && Segments(q)
    ensures PathKey(p) == PathKey(q) <==> p == q
  {
    SplitJoin(p, '/');
    SplitJoin(q, '/');
  }

  /** A key that extends another key by a slash belongs to a folder strictly below. */
  lemma KeyBelow(p: Path, q: Path)
    requires p != [] && q != [] && Segments(p) && Segments(q)
    requires StartsWith(PathKey(p), PathKey(q) + "/")
    ensures q < p
  {
    var K, Q := PathKey(p), PathKey(q);
    var rest := K[|Q| + 1..];
    assert K[..|Q| + 1] == Q + "/";
    assert K == K[..|Q| + 1] + rest;
    assert K == Q + ['/'] + rest;
    SplitConcat(Q, rest, '/');
    SplitJoin(p, '/');
    SplitJoin(q, '/');
    assert p == q + Split(rest, '/');
  }

  /** The key of a folder below `q` extends the key of `q` by a slash. */
  lemma KeyOfDescendant(q: Path, r: Path)
    requires q != [] && r != []
    ensures PathKey(q + r) == PathKey(q) + "/" + PathKey(r)
  {
    JoinAppend(q, r, '/');
  }

  // ---------------------------------------------------------------------------
  // Re-keying on rename
  // ---------------------------------------------------------------------------

  /**
   * The key an expanded folder has after the folder keyed `oldKey` is renamed
   * to the key `newKey`: the renamed folder itself, the folders below it (their
   * keys start with `oldKey + "/"`), and every other key unchanged.
   */
  function RewriteKey(key: string, oldKey: string, newKey: string): string {
    if key == oldKey then newKey
    else if StartsWith(key, oldKey + "/") then newKey + "/" + key[|oldKey| + 1..]
    else key
  }

  /** The same rewrite with `key.replace(oldKeyPrefix, newKeyPrefix)`, as app.js writes it. */
  function RewriteKeyAsWritten(key: string, oldKey: string, newKey: string): string {
    if key == oldKey then newKey
    else if StartsWith(key, oldKey + "/") then ReplaceFirst(key, oldKey + "/", newKey + "/")
    else key
  }

  /** The two rewrites agree unless the whole new key (the new name or a parent folder's name) holds a `$`. */
  lemma RewriteAgrees(key: string, oldKey: string, newKey: string)
    requires '$' !in newKey
    ensures RewriteKeyAsWritten(key, oldKey, newKey) == RewriteKey(key, oldKey, newKey)
  {
    if key != oldKey && StartsWith(key, oldKey + "/") {
      assert '$' !in newKey + "/";
      ReplacePrefix(key, oldKey + "/", newKey + "/");
    }
  }

  lemma ExampleIndex()
    ensures IndexOf("a/b", "a/", 0) == Some(0)
  {
    assert "a/b"[0..2] == "a/";
  }

  lemma ExampleSubstitute()
    ensures Substitute("x$&/", "a/", "", "b") == "xa//"
  {
    assert "x$&/"[1..] == "$&/";
    assert "$&/"[2..] == "/";
    assert "/"[1..] == "";
    assert Substitute("/", "a/", "", "b") == "/";
    assert Substitute("$&/", "a/", "", "b") == "a/" + "/";
  }

  /**
   * Renaming folder `a` to `x$&` with `a/b` expanded: `replace` reads `$&` as
   * "the matched text", so the child's key becomes `xa//b` instead of `x$&/b`.
   */
  lemma DollarRenameAsWritten()
    ensures RewriteKeyAsWritten("a/b", "a", "x$&") == "xa//b"
    ensures RewriteKey("a/b", "a", "x$&") == "x$&/b"
  {
    assert "a" + "/" == "a/";
    assert "x$&" + "/" == "x$&/";
    assert StartsWith("a/b", "a/");
    ExampleIndex();
    ExampleSubstitute();
    assert "a/b"[..0] == "" && "a/b"[2..] == "b";
    assert "a/b"[|"a"| + 1..] == "b";
  }

  /** `expandedPaths` after the rename: every key re-keyed by the literal `RewriteKey` (the corrected form of `replace`). */
  function RewriteAll(keys: set<string>, oldKey: string, newKey: string): set<string> {
    set k | k in keys :: RewriteKey(k, oldKey, newKey)
  }

  /** The `forEach` over `expandedPaths` that fills `updatedSet`. */
  method RewriteExpanded(keys: set<string>, oldKey: string, newKey: string) returns (updated: set<string>)
    ensures updated == RewriteAll(keys, oldKey, newKey)
    ensures |updated| <= |keys|
  {
    updated := {};
    var rest := keys;
    while rest != {}
      invariant rest <= keys
      invariant updated == RewriteAll(keys - rest, oldKey, newKey)
      invariant |updated| <= |keys - rest|
      decreases |rest|
    {
      var k :| k in rest;
      RewriteAllAdd(keys, rest, k, oldKey, newKey);
      updated := updated + {RewriteKey(k, oldKey, newKey)};
      rest := rest - {k};
    }
    assert keys - rest == keys;
  }

  /** Taking one more key out of `rest` re-keys it and adds one key at most. */
  lemma RewriteAllAdd(keys: set<string>, rest: set<string>, k: string, oldKey: string, newKey: string)
    requires rest <= keys && k in rest
    ensures RewriteAll(keys - (rest - {k}), oldKey, newKey) == RewriteAll(keys - rest, oldKey, newKey) + {RewriteKey(k, oldKey, newKey)}
    ensures |keys - (rest - {k})| == |keys - rest| + 1
  {
    assert keys - (rest - {k}) == (keys - rest) + {k};
  }

  /** Where the folder at `p` is after `parent + [oldName]` is renamed to `parent + [newName]`. */
  function MovedPath(p: Path, parent: Path, oldName: string, newName: string): Path {
    var from := parent + [oldName];
    if from <= p then parent + [newName] + p[|from|..] else p
  }

  /** For slash-free names, re-keying a folder's key gives the key of its new place. */
  lemma RewriteKeyMoves(p: Path, parent: Path, oldName: string, newName: string)
    requires p != [] && Segments(p) && Segments(parent) && SlashFree(oldName) && SlashFree(newName)
    ensures RewriteKey(PathKey(p), PathKey(parent + [oldName]), PathKey(parent + [newName]))
      == PathKey(MovedPath(p, parent, oldName, newName))
  {
    var from, to := parent + [oldName], parent + [newName];
    var oldKey, newKey := PathKey(from), PathKey(to);
    assert Segments(from) && Segments(to);
    if from == p {
      assert p[|from|..] == [] && to + [] == to;
    } else if from <= p {
      var r := p[|from|..];
      assert p == from + r;
      KeyOfDescendant(from, r);
      KeyOfDescendant(to, r);
      var K := PathKey(p);
      assert K == oldKey + "/" + PathKey(r);
      assert K[..|oldKey + "/"|] == oldKey + "/";
      assert K[|oldKey| + 1..] == PathKey(r);
    } else {
      KeyInjective(p, from);
      if StartsWith(PathKey(p), oldKey + "/") {
        KeyBelow(p, from);
      }
    }
  }

  /** A folder that exists does not lie below a name its parent does not have. */
  lemma NotUnderAbsent(t: Node, parent: Path, name: string, p: Path)
    requires Lookup(t, parent).Some? && !HasChild(FolderAt(t, parent).folders, name)
    requires parent + [name] <= p
    ensures Lookup(t, p).None?
  {
    var r := p[|parent| + 1..];
    assert p == parent + [name] + r;
    LookupConcat(t, parent + [name], r);
    LookupConcat(t, parent, [name]);
  }

  /**
   * Renaming moves each existing folder to `MovedPath`: it exists there, and a
   * folder inside the renamed one keeps its whole subtree.
   */
  lemma RenameMovesFolder(t: Node, parent: Path, oldName: string, newName: string, p: Path)
    requires Lookup(t, parent).Some? && HasChild(FolderAt(t, parent).folders, oldName)
    requires WellFormed(t) && !HasChild(FolderAt(t, parent).folders, newName)
    requires p != [] && Lookup(t, p).Some?
    ensures MovedPath(p, parent, oldName, newName) != []
    ensures Lookup(RenameFolderAt(t, parent, oldName, newName), MovedPath(p, parent, oldName, newName)).Some?
    ensures parent + [oldName] <= p ==>
      Lookup(RenameFolderAt(t, parent, oldName, newName), MovedPath(p, parent, oldName, newName)) == Lookup(t, p)
  {
    var from := parent + [oldName];
    if from <= p {
      var r := p[|from|..];
      assert p == parent + [oldName] + r;
      RenameFolderAtPath(t, parent, oldName, newName, newName, r);
    } else if parent < p {
      var x, r := p[|parent|], p[|parent| + 1..];
      assert p == parent + [x] + r;
      if x == newName {
        NotUnderAbsent(t, parent, newName, p);
      }
      RenameFolderAtPath(t, parent, oldName, newName, x, r);
    } else {
      RenameFolderOutside(t, parent, oldName, newName, p);
    }
  }

  /** Two existing folders never move onto the same place. */
  lemma MovedInjective(t: Node, parent: Path, oldName: string, newName: string, p: Path, p': Path)
    requires Lookup(t, parent).Some? && !HasChild(FolderAt(t, parent).folders, newName)
    requires Lookup(t, p).Some? && Lookup(t, p').Some?
    requires MovedPath(p, parent, oldName, newName) == MovedPath(p', parent, oldName, newName)
    ensures p == p'
  {
    var from := parent + [oldName];
    var to := parent + [newName];
    if from <= p && from <= p' {
      var M := MovedPath(p, parent, oldName, newName);
      assert p[|from|..] == M[|to|..] == p'[|from|..];
      assert p == from + p[|from|..] && p' == from + p'[|from|..];
    } else if from <= p {
      assert to <= p';
      NotUnderAbsent(t, parent, newName, p');
    } else if from <= p' {
      assert to <= p;
      NotUnderAbsent(t, parent, newName, p);
    }
  }

  /**
   * The rename keeps `expandedPaths` about existing folders, and each folder
   * is open afterwards exactly when it was open before, at its new key.
   */
  lemma RenameKeepsExpanded(t: Node, parent: Path, oldName: string, newName: string, keys: set<string>)
    requires Lookup(t, parent).Some? && HasChild(FolderAt(t, parent).folders, oldName)
    requires WellFormed(t) && !HasChild(FolderAt(t, parent).folders, newName)
    requires AllNames(t, SlashFree) && SlashFree(newName) && ExpandedConsistent(t, keys)
    ensures ExpandedConsistent(RenameFolderAt(t, parent, oldName, newName),
      RewriteAll(keys, PathKey(parent + [oldName]), PathKey(parent + [newName])))
    ensures forall p :: p != [] && Lookup(t, p).Some? ==>
      (PathKey(MovedPath(p, parent, oldName, newName))
         in RewriteAll(keys, PathKey(parent + [oldName]), PathKey(parent + [newName]))
       <==> PathKey(p) in keys)
  {
    var R := RenameFolderAt(t, parent, oldName, newName);
    var oldKey, newKey := PathKey(parent + [oldName]), PathKey(parent + [newName]);
    LookupConcat(t, parent, [oldName]);
    PathSegments(t, parent + [oldName]);
    assert Segments(parent) && SlashFree(oldName) by {
      assert forall i :: 0 <= i < |parent| ==> parent[i] == (parent + [oldName])[i];
      assert oldName == (parent + [oldName])[|parent|];
    }
    forall k' | k' in RewriteAll(keys, oldKey, newKey)
      ensures exists q: Path :: q != [] && Lookup(R, q).Some? && PathKey(q) == k'
    {
      var k :| k in keys && k' == RewriteKey(k, oldKey, newKey);
      var p: Path :| p != [] && Lookup(t, p).Some? && PathKey(p) == k;
      PathSegments(t, p);
      RewriteKeyMoves(p, parent, oldName, newName);
      RenameMovesFolder(t, parent, oldName, newName, p);
      var q := MovedPath(p, parent, oldName, newName);
      assert q != [] && Lookup(R, q).Some? && PathKey(q) == k';
    }
    forall p | p != [] && Lookup(t, p).Some?
      ensures PathKey(MovedPath(p, parent, oldName, newName)) in RewriteAll(keys, oldKey, newKey)
        <==> PathKey(p) in keys
    {
      PathSegments(t, p);
      RewriteKeyMoves(p, parent, oldName, newName);
      if PathKey(MovedPath(p, parent, oldName, newName)) in RewriteAll(keys, oldKey, newKey) {
        var k :| k in keys && RewriteKey(k, oldKey, newKey) == PathKey(MovedPath(p, parent, oldName, newName));
        var p': Path :| p' != [] && Lookup(t, p').Some? && PathKey(p') == k;
        PathSegments(t, p');
        RewriteKeyMoves(p', parent, oldName, newName);
        MovedSegments(p, parent, oldName, newName);
        MovedSegments(p', parent, oldName, newName);
        RenameMovesFolder(t, parent, oldName, newName, p);
        RenameMovesFolder(t, parent, oldName, newName, p');
        KeyInjective(MovedPath(p, parent, oldName, newName), MovedPath(p', parent, oldName, newName));
        MovedInjective(t, parent, oldName, newName, p, p');
      }
    }
  }

  lemma MovedSegments(p: Path, parent: Path, oldName: string, newName: string)
    requires Segments(p) && Segments(parent) && SlashFree(newName)
    ensures Segments(MovedPath(p, parent, oldName, newName))
  {
    var from := parent + [oldName];
    if from <= p {
      var M := MovedPath(p, parent, oldName, newName);
      forall i | 0 <= i < |M| ensures SlashFree(M[i]) {
        if i > |parent| {
          assert M[i] == p[i];
        }
      }
    }
  }

  /** Nothing lies below an empty folder. */
  lemma BelowEmpty(t: Node, parent: Path, name: string, r: Path)
    requires Lookup(t, parent).Some? && Child(FolderAt(t, parent).folders, name) == Some(Empty)
    ensures r != [] ==> Lookup(t, parent + [name] + r).None?
  {
    LookupConcat(t, parent, [name] + r);
    assert parent + ([name] + r) == parent + [name] + r;
    assert ([name] + r)[1..] == r;
  }

  /** Deleting an empty folder keeps every other folder. */
  lemma DeleteKeepsFolder(t: Node, parent: Path, name: string, p: Path)
    requires Lookup(t, parent).Some? && Child(FolderAt(t, parent).folders, name) == Some(Empty)
    requires WellFormed(t) && Lookup(t, p).Some? && p != parent + [name]
    ensures Lookup(DeleteFolderAt(t, parent, name), p).Some?
  {
    if parent < p {
      var x, r := p[|parent|], p[|parent| + 1..];
      assert p == parent + [x] + r;
      BelowEmpty(t, parent, name, r);
      assert x != name;
      DeleteFolderAtPath(t, parent, name, x, r);
    } else {
      DeleteFolderOutside(t, parent, name, p);
    }
  }

  /** Deleting an empty folder and its own key keeps every other key about an existing folder. */
  lemma DeleteKeepsExpanded(t: Node, parent: Path, name: string, keys: set<string>)
    requires Lookup(t, parent).Some? && Child(FolderAt(t, parent).folders, name) == Some(Empty)
    requires WellFormed(t) && ExpandedConsistent(t, keys)
    ensures ExpandedConsistent(DeleteFolderAt(t, parent, name), keys - {PathKey(parent + [name])})
  {
    forall k | k in keys - {PathKey(parent + [name])}
      ensures exists q: Path :: q != [] && Lookup(DeleteFolderAt(t, parent, name), q).Some? && PathKey(q) == k
    {
      var p: Path :| p != [] && Lookup(t, p).Some? && PathKey(p) == k;
      DeleteKeepsFolder(t, parent, name, p);
    }
  }

  /** Replacing a file list keeps every folder, so every key stays about an existing folder. */
  lemma WithFilesKeepsExpanded(t: Node, p: Path, files: seq<FileEntry>, keys: set<string>)
    requires Lookup(t, p).Some? && ExpandedConsistent(t, keys)
    ensures ExpandedConsistent(WithFiles(t, p, files), keys)
  {
    forall k | k in keys
      ensures exists q: Path :: q != [] && Lookup(WithFiles(t, p, files), q).Some? && PathKey(q) == k
    {
      var q: Path :| q != [] && Lookup(t, q).Some? && PathKey(q) == k;
      WithFilesAt(t, p, files, q);
    }
  }

  /** The click on a folder row: its key leaves the set if present, joins it otherwise. */
  function Toggled(keys: set<string>, key: string): (r: set<string>)
    ensures key in r <==> key !in keys
    ensures forall k :: k != key ==> (k in r <==> k in keys)
  {
    if key in keys then keys - {key} else keys + {key}
  }

  lemma ToggleKeepsExpanded(t: Node, path: Path, keys: set<string>)
    requires path != [] && Lookup(t, path).Some? && ExpandedConsistent(t, keys)
    ensures ExpandedConsistent(t, Toggled(keys, PathKey(path)))
  {
  }

  // ---------------------------------------------------------------------------
  // The client's state and its handlers
  // ---------------------------------------------------------------------------

  /** The folder that holds an existing folder, and that folder under its key there. */
  function ParentOf(t: Node, path: Path): (P: Node)
    requires path != [] && Lookup(t, path).Some?
    ensures Lookup(t, path[..|path| - 1]) == Some(P)
    ensures Child(P.folders, path[|path| - 1]) == Lookup(t, path)
  {
    var parent := path[..|path| - 1];
    assert parent + [path[|path| - 1]] == path;
    LookupConcat(t, parent, [path[|path| - 1]]);
    FolderAt(t, parent)
  }

  /** An accepted rename keeps every file, distinct sibling names, and (for slash-free names) the open keys. */
  lemma RenameKeepsState(t: Node, keys: set<string>, path: Path, newName: string)
    requires path != [] && Lookup(t, path).Some?
    requires WellFormed(t) && !RenameRefused(ParentOf(t, path), path[|path| - 1], Some(newName))
    ensures var parent, oldName := path[..|path| - 1], path[|path| - 1];
      && Lookup(t, parent).Some? && HasChild(FolderAt(t, parent).folders, oldName)
      && multiset(AllFiles(RenameFolderAt(t, parent, oldName, newName))) == multiset(AllFiles(t))
      && WellFormed(RenameFolderAt(t, parent, oldName, newName))
      && (AllNames(t, SlashFree) && ExpandedConsistent(t, keys) && SlashFree(newName) ==>
          && AllNames(RenameFolderAt(t, parent, oldName, newName), SlashFree)
          && ExpandedConsistent(RenameFolderAt(t, parent, oldName, newName),
               RewriteAll(keys, PathKey(path), PathKey(parent + [newName]))))
  {
    var parent, oldName := path[..|path| - 1], path[|path| - 1];
    assert path == parent + [oldName];
    var P := ParentOf(t, path);
    RenameFolderFiles(t, parent, oldName, newName);
    RenameFolderWellFormed(t, parent, oldName, newName, SlashFree);
    if AllNames(t, SlashFree) && ExpandedConsistent(t, keys) && SlashFree(newName) {
      RenameKeepsExpanded(t, parent, oldName, newName, keys);
    }
  }


  class Drive {
    /** `fileTree` */
    var tree: Node
    /** `expandedPaths` */
    var expandedPaths: set<string>
    /** `copiedFileObj` */
    var copied: Option<FileEntry>

    /** Sibling folders have distinct names, as the keys of one object do. */
    ghost predicate Valid()
      reads this
    {
      WellFormed(tree)
    }

    /** No folder name holds a slash, and every open key is about an existing folder. */
    ghost predicate Tidy()
      reads this
    {
      AllNames(tree, SlashFree) && ExpandedConsistent(tree, expandedPaths)
    }

    /** `loadFiles`: the tree `buildTree` makes of the server's list; nothing open, nothing copied. */
    constructor (files: seq<WireRecord>)
      ensures tree == Build(files, LastSegment) && expandedPaths == {} && copied == None
      ensures Valid() && Tidy()
    {
      var built := BuildTree(files, LastSegment);
      BuildWellFormed(files, LastSegment);
      tree := built;
      expandedPaths := {};
      copied := None;
    }

    /** A click on the folder row at `path` opens or closes it. */
    method Toggle(path: Path)
      requires path != [] && Lookup(tree, path).Some?
      modifies this
      ensures expandedPaths == Toggled(old(expandedPaths), PathKey(path))
      ensures tree == old(tree) && copied == old(copied)
      ensures old(Tidy()) ==> Tidy()
    {
      if PathKey(path) in expandedPaths {
        expandedPaths := expandedPaths - {PathKey(path)};
      } else {
        expandedPaths := expandedPaths + {PathKey(path)};
      }
      if old(Tidy()) {
        ToggleKeepsExpanded(tree, path, old(expandedPaths));
      }
    }

    /** `handleCopy`: remembers the entry; the tree is untouched. */
    method Copy(e: FileEntry)
      modifies this
      ensures copied == Some(e)
      ensures tree == old(tree) && expandedPaths == old(expandedPaths)
    {
      copied := Some(e);
    }

    /**
     * `handlePasteToFolder`: with something copied, appends an entry with the
     * copied name and the fresh id `freshId` to the folder at `path`.
     */
    method PasteToFolder(path: Path, freshId: string)
      requires Valid() && Lookup(tree, path).Some?
      modifies this
      ensures old(copied).None? ==> tree == old(tree)
      ensures old(copied).Some? ==>
        tree == WithFiles(old(tree), path, FolderAt(old(tree), path).files + [FileEntry(old(copied).value.name, freshId, None, None)])
      ensures old(copied).Some? ==>
        multiset(AllFiles(tree)) == multiset(AllFiles(old(tree))) + multiset{FileEntry(old(copied).value.name, freshId, None, None)}
      ensures UniqueIds(old(tree)) && !HasFileId(old(tree), freshId) ==> UniqueIds(tree)
      ensures expandedPaths == old(expandedPaths) && copied == old(copied)
      ensures Valid() && (old(Tidy()) ==> Tidy())
    {
      if copied.None? {
        return;
      }
      var target := GetNodeFromPath(tree, path);
      var e := FileEntry(copied.value.name, freshId, None, None);
      AppendFresh(tree, path, e);
      WithFilesWellFormed(tree, path, target.files + [e], SlashFree);
      if Tidy() {
        WithFilesKeepsExpanded(tree, path, target.files + [e], expandedPaths);
      }
      tree := WithFiles(tree, path, target.files + [e]);
    }

    /**
     * `handleDeleteFile`: when the folder at `parentPath` holds the id and the
     * user confirms, the first entry with that id is spliced out.
     */
    method DeleteFile(fileId: string, parentPath: Path, confirmed: bool)
      requires Valid() && Lookup(tree, parentPath).Some?
      modifies this
      ensures tree == if HasId(FolderAt(old(tree), parentPath).files, fileId) && confirmed
        then WithFiles(old(tree), parentPath, RemoveFirstId(FolderAt(old(tree), parentPath).files, fileId))
        else old(tree)
      ensures |AllFiles(tree)| == |AllFiles(old(tree))| - if HasId(FolderAt(old(tree), parentPath).files, fileId) && confirmed then 1 else 0
      ensures UniqueIds(old(tree)) ==> UniqueIds(tree)
      ensures expandedPaths == old(expandedPaths) && copied == old(copied)
      ensures Valid() && (old(Tidy()) ==> Tidy())
    {
      var parent := GetNodeFromPath(tree, parentPath);
      var idx := IndexOfId(parent.files, fileId);
      if idx.None? {
        return;
      }
      if !confirmed {
        return;
      }
      var rest := parent.files[..idx.value] + parent.files[idx.value + 1..];
      RemoveFirstFiles(tree, parentPath, fileId);
      assert |multiset(AllFiles(WithFiles(tree, parentPath, rest)))| + 1 == |multiset(AllFiles(tree))|;
      WithFilesWellFormed(tree, parentPath, rest, SlashFree);
      if Tidy() {
        WithFilesKeepsExpanded(tree, parentPath, rest, expandedPaths);
      }
      tree := WithFiles(tree, parentPath, rest);
    }

    /**
     * `handleDeleteFolder`: a folder with no subfolder and no file is removed
     * once confirmed, and its own key leaves `expandedPaths`.
     */
    method DeleteFolder(path: Path, confirmed: bool)
      requires Valid() && path != [] && Lookup(tree, path).Some?
      modifies this
      // `P` is unused: binding it brings in ParentOf's ensures, which make the parent path resolve
      ensures var P, removed := ParentOf(old(tree), path), !HasContent(FolderAt(old(tree), path)) && confirmed;
        && tree == (if removed then DeleteFolderAt(old(tree), path[..|path| - 1], path[|path| - 1]) else old(tree))
        && expandedPaths == (if removed then old(expandedPaths) - {PathKey(path)} else old(expandedPaths))
      ensures multiset(AllFiles(tree)) == multiset(AllFiles(old(tree)))
      ensures copied == old(copied)
      ensures Valid() && (old(Tidy()) ==> Tidy())
    {
      var parentPath, name := path[..|path| - 1], path[|path| - 1];
      var P := ParentOf(tree, path);
      var parentNode := GetNodeFromPath(tree, parentPath);
      var folderNode := Child(parentNode.folders, name).value;
      if HasContent(folderNode) || !confirmed {
        return;
      }
      assert path == parentPath + [name];
      NoContentIsEmpty(folderNode);
      DeleteFolderFiles(tree, parentPath, name);
      DeleteFolderWellFormed(tree, parentPath, name, SlashFree);
      if Tidy() {
        DeleteKeepsExpanded(tree, parentPath, name, expandedPaths);
      }
      tree := DeleteFolderAt(tree, parentPath, name);
      expandedPaths := expandedPaths - {PathKey(path)};
    }

    /**
     * `handleRenameFolder`: `answer` is what the prompt returned (None when
     * cancelled). An accepted name moves the subtree to the new key and
     * re-keys the open folders at and below it. This is the corrected
     * handler: the guard also refuses `files`, and re-keying is literal
     * (`RenameToFilesAsWritten` and `RewriteKeyAsWritten` are the code as
     * written).
     */
    method RenameFolder(path: Path, answer: Option<string>)
      requires Valid() && path != [] && Lookup(tree, path).Some?
      modifies this
      ensures var P := ParentOf(old(tree), path);
        && (RenameRefused(P, path[|path| - 1], answer) ==>
              tree == old(tree) && expandedPaths == old(expandedPaths))
        && (!RenameRefused(P, path[|path| - 1], answer) ==>
              && tree == RenameFolderAt(old(tree), path[..|path| - 1], path[|path| - 1], answer.value)
              && expandedPaths == RewriteAll(old(expandedPaths), PathKey(path), PathKey(path[..|path| - 1] + [answer.value])))
      ensures multiset(AllFiles(tree)) == multiset(AllFiles(old(tree)))
      ensures copied == old(copied)
      ensures Valid()
      ensures old(Tidy()) && (answer.Some? ==> SlashFree(answer.value)) ==> Tidy()
    {
      var parentPath, oldName := path[..|path| - 1], path[|path| - 1];
      var P := ParentOf(tree, path);
      var parentNode := GetNodeFromPath(tree, parentPath);
      if RenameRefused(parentNode, oldName, answer) {
        return;
      }
      var newName := answer.value;
      RenameKeepsState(tree, expandedPaths, path, newName);
      tree := RenameFolderAt(tree, parentPath, oldName, newName);
      var oldKeyPrefix := PathKey(path);
      var newKeyPrefix := PathKey(parentPath + [newName]);
      expandedPaths := RewriteExpanded(expandedPaths, oldKeyPrefix, newKeyPrefix);
    }
  }
}
