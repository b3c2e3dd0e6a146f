/**
 * The in-memory folder tree shared by the three clients. A folder holds its
 * own file list and its child folders keyed by name; the keys keep the order
 * in which they were inserted, as the keys of a JavaScript object do. A path
 * is the sequence of folder names from the root; the empty path is the root.
 */
module FileTree {
  import opened Wrappers

  /**
   * A file entry. The flat-list clients store only `name` and `file_id`; the
   * upload of the Telegram client also records a type and a size.
   */
  datatype FileEntry = FileEntry(name: string, fileId: string, fileType: Option<string>, fileSize: Option<nat>)

  datatype Node = Node(files: seq<FileEntry>, folders: seq<Subfolder>)

  datatype Subfolder = Subfolder(name: string, node: Node)

  type Path = seq<string>

  const Empty: Node := Node([], [])

  // ---------------------------------------------------------------------------
  // Child folders by name
  // ---------------------------------------------------------------------------

  /** The position of the key `name` among the child folders, if it is one. */
  function IndexOfName(fs: seq<Subfolder>, name: string): (r: Option<nat>)
    ensures r.Some? ==> r.value < |fs| && fs[r.value].name == name
    ensures r.Some? ==> forall j :: 0 <= j < r.value ==> fs[j].name != name
    ensures r.None? ==> forall j :: 0 <= j < |fs| ==> fs[j].name != name
  {
    if fs == [] then None
    else if fs[0].name == name then Some(0)
    else
      match IndexOfName(fs[1..], name)
      case None => None
      case Some(i) => Some(i + 1)
  }

  predicate HasChild(fs: seq<Subfolder>, name: string) {
    IndexOfName(fs, name).Some?
  }

  /** `node[name]`: the child folder stored under `name`. */
  function Child(fs: seq<Subfolder>, name: string): Option<Node> {
    match IndexOfName(fs, name)
    case None => None
    case Some(i) => Some(fs[i].node)
  }

  /** `node[name] = v`: an existing key keeps its place, a new key goes last. */
  function Put(fs: seq<Subfolder>, name: string, v: Node): seq<Subfolder> {
    match IndexOfName(fs, name)
    case None => fs + [Subfolder(name, v)]
    case Some(i) => fs[i := Subfolder(name, v)]
  }

  /** `delete node[name]`. */
  function Without(fs: seq<Subfolder>, name: string): seq<Subfolder> {
    match IndexOfName(fs, name)
    case None => fs
    case Some(i) => fs[..i] + fs[i + 1..]
  }

  predicate UniqueNames(fs: seq<Subfolder>) {
    forall i, j :: 0 <= i < j < |fs| ==> fs[i].name != fs[j].name
  }

  /** Sibling folder names are distinct at every level, as object keys are. */
  predicate WellFormed(n: Node) {
    && UniqueNames(n.folders)
    && forall i :: 0 <= i < |n.folders| ==> WellFormed(n.folders[i].node)
  }

  /** The folder has a child folder or a file (the delete-folder guard, and `hasContent`). */
  predicate HasContent(n: Node) {
    n.folders != [] || n.files != []
  }

  /** Only the empty folder has no content. */
  lemma NoContentIsEmpty(n: Node)
    ensures !HasContent(n) <==> n == Empty
  {
  }

  /** Every folder name anywhere in the tree satisfies `ok`. */
  predicate AllNames(n: Node, ok: string -> bool) {
    forall i :: 0 <= i < |n.folders| ==> ok(n.folders[i].name) && AllNames(n.folders[i].node, ok)
  }

  lemma IndexAt(fs: seq<Subfolder>, name: string, i: nat)
    requires i < |fs| && fs[i].name == name
    requires forall j :: 0 <= j < i ==> fs[j].name != name
    ensures IndexOfName(fs, name) == Some(i)
  {
  }

  lemma IndexAbsent(fs: seq<Subfolder>, name: string)
    requires forall j :: 0 <= j < |fs| ==> fs[j].name != name
    ensures IndexOfName(fs, name) == None
  {
  }

  lemma ChildPut(fs: seq<Subfolder>, x: string, v: Node, y: string)
    ensures Child(Put(fs, x, v), y) == if x == y then Some(v) else Child(fs, y)
  {
    var r := Put(fs, x, v);
    match IndexOfName(fs, x)
    case None =>
      assert forall j :: 0 <= j < |fs| ==> r[j] == fs[j];
      if x == y {
        IndexAt(r, y, |fs|);
      } else {
        match IndexOfName(fs, y)
        case None =>
          IndexAbsent(r, y);
        case Some(j) =>
          IndexAt(r, y, j);
      }
    case Some(i) =>
      assert forall j :: 0 <= j < |fs| && j != i ==> r[j] == fs[j];
      if x == y {
        IndexAt(r, y, i);
      } else {
        match IndexOfName(fs, y)
        case None =>
          IndexAbsent(r, y);
        case Some(j) =>
          IndexAt(r, y, j);
      }
  }

  lemma ChildWithout(fs: seq<Subfolder>, x: string, y: string)
    requires UniqueNames(fs)
    ensures Child(Without(fs, x), y) == if x == y then None else Child(fs, y)
  {
    var r := Without(fs, x);
    match IndexOfName(fs, x)
    case None =>
    case Some(i) =>
      assert forall j :: 0 <= j < i ==> r[j] == fs[j];
      assert forall j :: i <= j < |r| ==> r[j] == fs[j + 1];
      if x == y {
        IndexAbsent(r, y);
      } else {
        match IndexOfName(fs, y)
        case None =>
          IndexAbsent(r, y);
        case Some(j) =>
          if j < i {
            IndexAt(r, y, j);
          } else {
            IndexAt(r, y, j - 1);
          }
      }
  }

  // ---------------------------------------------------------------------------
  // Paths
  // ---------------------------------------------------------------------------

  /** The folder at path `p`, following one key per segment from `n`. */
  function Lookup(n: Node, p: Path): Option<Node>
    decreases p
  {
    if p == [] then Some(n)
    else
      match Child(n.folders, p[0])
      case None => None
      case Some(c) => Lookup(c, p[1..])
  }

  /** The tree `n` with the folder at `p` replaced by `m`. */
  function SetAt(n: Node, p: Path, m: Node): Node
    requires Lookup(n, p).Some?
    decreases p
  {
    if p == [] then m
    else n.(folders := Put(n.folders, p[0], SetAt(Child(n.folders, p[0]).value, p[1..], m)))
  }

  /** Looking up `p + r` is looking up `r` from the folder at `p`. */
  lemma {:induction false} LookupConcat(n: Node, p: Path, r: Path)
    ensures Lookup(n, p + r) == match Lookup(n, p) case None => None case Some(m) => Lookup(m, r)
  {
    if p == [] {
      assert p + r == r;
    } else {
      assert (p + r)[0] == p[0] && (p + r)[1..] == p[1..] + r;
      match Child(n.folders, p[0])
      case None =>
      case Some(c) => LookupConcat(c, p[1..], r);
    }
  }

  /** After the replacement, the paths through `p` lead into `m`. */
  lemma {:induction false} SetAtTarget(n: Node, p: Path, m: Node, r: Path)
    requires Lookup(n, p).Some?
    ensures Lookup(SetAt(n, p, m), p + r) == Lookup(m, r)
  {
    if p == [] {
      assert p + r == r;
    } else {
      var c := Child(n.folders, p[0]).value;
      ChildPut(n.folders, p[0], SetAt(c, p[1..], m), p[0]);
      assert (p + r)[0] == p[0] && (p + r)[1..] == p[1..] + r;
      SetAtTarget(c, p[1..], m, r);
    }
  }

  /** Paths that neither lead to `p` nor through it are untouched. */
  lemma {:induction false} SetAtAside(n: Node, p: Path, m: Node, q: Path)
    requires Lookup(n, p).Some?
    requires !(p <= q) && !(q <= p)
    ensures Lookup(SetAt(n, p, m), q) == Lookup(n, q)
  {
    var c := Child(n.folders, p[0]).value;
    ChildPut(n.folders, p[0], SetAt(c, p[1..], m), q[0]);
    if p[0] == q[0] {
      SetAtAside(c, p[1..], m, q[1..]);
    }
  }

  /**
   * The folders on the way to `p` still exist, with the same files and the
   * same child names in the same order.
   */
  lemma {:induction false} SetAtAbove(n: Node, p: Path, m: Node, q: Path)
    requires Lookup(n, p).Some?
    requires q < p
    ensures Lookup(n, q).Some? && Lookup(SetAt(n, p, m), q).Some?
    ensures Lookup(SetAt(n, p, m), q).value.files == Lookup(n, q).value.files
    ensures Names(Lookup(SetAt(n, p, m), q).value.folders) == Names(Lookup(n, q).value.folders)
  {
    var c := Child(n.folders, p[0]).value;
    var c' := SetAt(c, p[1..], m);
    PutNames(n.folders, p[0], c');
    if q != [] {
      ChildPut(n.folders, p[0], c', p[0]);
      SetAtAbove(c, p[1..], m, q[1..]);
    }
  }

  function Names(fs: seq<Subfolder>): seq<string> {
    seq(|fs|, i requires 0 <= i < |fs| => fs[i].name)
  }

  lemma PutNames(fs: seq<Subfolder>, x: string, v: Node)
    ensures HasChild(fs, x) ==> Names(Put(fs, x, v)) == Names(fs)
    ensures !HasChild(fs, x) ==> Names(Put(fs, x, v)) == Names(fs) + [x]
  {
  }

  // ---------------------------------------------------------------------------
  // Invariants kept by replacement
  // ---------------------------------------------------------------------------

  lemma {:induction false} SetAtWellFormed(n: Node, p: Path, m: Node)
    requires Lookup(n, p).Some?
    requires WellFormed(n) && WellFormed(m)
    ensures WellFormed(SetAt(n, p, m))
  {
    if p != [] {
      var i := IndexOfName(n.folders, p[0]).value;
      var c := n.folders[i].node;
      SetAtWellFormed(c, p[1..], m);
      var fs' := Put(n.folders, p[0], SetAt(c, p[1..], m));
      assert fs' == n.folders[i := Subfolder(p[0], SetAt(c, p[1..], m))];
      assert forall j :: 0 <= j < |fs'| ==> fs'[j].name == n.folders[j].name;
    }
  }

  lemma {:induction false} SetAtAllNames(n: Node, p: Path, m: Node, ok: string -> bool)
    requires Lookup(n, p).Some?
    requires AllNames(n, ok) && AllNames(m, ok)
    ensures AllNames(SetAt(n, p, m), ok)
  {
    if p != [] {
      var i := IndexOfName(n.folders, p[0]).value;
      var c := n.folders[i].node;
      SetAtAllNames(c, p[1..], m, ok);
    }
  }

  /** Multiset bookkeeping: `c` on both sides cancels. */
  lemma Cancel<T>(a: multiset<T>, b: multiset<T>, c: multiset<T>)
    requires a + c == b + c
    ensures a == b
  {
    forall x ensures a[x] == b[x] {
      assert (a + c)[x] == (b + c)[x];
    }
  }

  // ---------------------------------------------------------------------------
  // All the files of a tree
  // ---------------------------------------------------------------------------

  /** Every file entry of the tree: a folder's own files, then its subfolders' in key order. */
  function AllFiles(n: Node): seq<FileEntry> {
    n.files + AllFilesIn(n.folders)
  }

  function AllFilesIn(fs: seq<Subfolder>): seq<FileEntry> {
    if fs == [] then [] else AllFiles(fs[0].node) + AllFilesIn(fs[1..])
  }

  ghost predicate HasFileId(n: Node, id: string) {
    exists e :: e in AllFiles(n) && e.fileId == id
  }

  /** No entry occurs twice and no two different entries share an id. */
  ghost predicate UniqueIds(n: Node) {
    && (forall e :: multiset(AllFiles(n))[e] <= 1)
    && (forall e, e' :: e in AllFiles(n) && e' in AllFiles(n) && e.fileId == e'.fileId ==> e == e')
  }

  /** An edit that only removes entries keeps ids unique. */
  lemma UniqueIdsShrink(n: Node, n': Node)
    requires UniqueIds(n) && multiset(AllFiles(n')) <= multiset(AllFiles(n))
    ensures UniqueIds(n')
  {
    forall e | e in AllFiles(n') ensures e in AllFiles(n) {
      assert e in multiset(AllFiles(n'));
    }
  }

  /** An edit that adds one entry with a fresh id keeps ids unique. */
  lemma UniqueIdsAdd(n: Node, n': Node, e: FileEntry)
    requires UniqueIds(n) && !HasFileId(n, e.fileId)
    requires multiset(AllFiles(n')) == multiset(AllFiles(n)) + multiset{e}
    ensures UniqueIds(n')
  {
    assert e !in AllFiles(n);
    forall x | x in AllFiles(n') ensures x == e || x in AllFiles(n) {
      assert x in multiset(AllFiles(n'));
    }
  }

  /** Replacing one entry by another with the same id keeps ids unique. */
  lemma UniqueIdsSwap(n: Node, n': Node, x: FileEntry, x': FileEntry)
    requires UniqueIds(n) && x in AllFiles(n) && x'.fileId == x.fileId
    requires multiset(AllFiles(n')) + multiset{x} == multiset(AllFiles(n)) + multiset{x'}
    ensures UniqueIds(n')
  {
    var N, T := multiset(AllFiles(n')), multiset(AllFiles(n));
    assert x' in T ==> x' == x;
    SwapCounts(N, T, x, x');
    forall e, e' | e in AllFiles(n') && e' in AllFiles(n') && e.fileId == e'.fileId ensures e == e' {
      assert e in N && e' in N;
    }
  }

  /** Swapping one element for another that is new (or the same) keeps a multiset free of duplicates. */
  lemma SwapCounts<T>(N: multiset<T>, M: multiset<T>, x: T, x': T)
    requires x in M && (x' in M ==> x' == x) && forall e :: M[e] <= 1
    requires N + multiset{x} == M + multiset{x'}
    ensures forall e :: N[e] <= 1
    ensures forall y :: y in N ==> y == x' || (y in M && y != x)
  {
    forall y ensures N[y] + (if y == x then 1 else 0) == M[y] + (if y == x' then 1 else 0) {
      assert (N + multiset{x})[y] == (M + multiset{x'})[y];
    }
  }

  lemma {:induction false} AllFilesInConcat(a: seq<Subfolder>, b: seq<Subfolder>)
    ensures AllFilesIn(a + b) == AllFilesIn(a) + AllFilesIn(b)
  {
    if a == [] {
      assert a + b == b;
    } else {
      assert (a + b)[0] == a[0] && (a + b)[1..] == a[1..] + b;
      AllFilesInConcat(a[1..], b);
    }
  }

  lemma {:induction false} AllFilesInAt(fs: seq<Subfolder>, i: nat)
    requires i < |fs|
    ensures AllFilesIn(fs) == AllFilesIn(fs[..i]) + AllFiles(fs[i].node) + AllFilesIn(fs[i + 1..])
  {
    var tail := fs[i..];
    assert fs == fs[..i] + tail;
    AllFilesInConcat(fs[..i], tail);
    assert tail[0] == fs[i] && tail[1..] == fs[i + 1..];
  }

  /** Storing `v` under `x` trades the files of the old child for those of `v`. */
  lemma PutFiles(fs: seq<Subfolder>, x: string, v: Node)
    ensures multiset(AllFilesIn(Put(fs, x, v))) + multiset(match Child(fs, x) case None => [] case Some(c) => AllFiles(c))
         == multiset(AllFilesIn(fs)) + multiset(AllFiles(v))
  {
    match IndexOfName(fs, x)
    case None =>
      AllFilesInConcat(fs, [Subfolder(x, v)]);
    case Some(i) =>
      var r := fs[i := Subfolder(x, v)];
      AllFilesInAt(fs, i);
      AllFilesInAt(r, i);
      assert r[..i] == fs[..i] && r[i + 1..] == fs[i + 1..];
  }

  /** Deleting the key `x` drops exactly the files of the old child. */
  lemma WithoutFiles(fs: seq<Subfolder>, x: string)
    ensures multiset(AllFilesIn(Without(fs, x))) + multiset(match Child(fs, x) case None => [] case Some(c) => AllFiles(c))
         == multiset(AllFilesIn(fs))
  {
    match IndexOfName(fs, x)
    case None =>
    case Some(i) =>
      AllFilesInAt(fs, i);
      AllFilesInConcat(fs[..i], fs[i + 1..]);
  }

  /**
   * Replacing the folder at `p` by `m` removes the old folder's files and adds
   * `m`'s; every other file entry stays.
   */
  lemma {:induction false} SetAtFiles(n: Node, p: Path, m: Node)
    requires Lookup(n, p).Some?
    ensures multiset(AllFiles(SetAt(n, p, m))) + multiset(AllFiles(Lookup(n, p).value))
         == multiset(AllFiles(n)) + multiset(AllFiles(m))
  {
    if p != [] {
      var c := Child(n.folders, p[0]).value;
      var c' := SetAt(c, p[1..], m);
      var prior := Lookup(n, p).value;
      assert prior == Lookup(c, p[1..]).value;
      SetAtFiles(c, p[1..], m);
      PutFiles(n.folders, p[0], c');
      assert multiset(AllFilesIn(Put(n.folders, p[0], c'))) + multiset(AllFiles(c))
          == multiset(AllFilesIn(n.folders)) + multiset(AllFiles(c'));
      assert multiset(AllFiles(c')) + multiset(AllFiles(prior)) == multiset(AllFiles(c)) + multiset(AllFiles(m));
      var t := SetAt(n, p, m);
      assert AllFiles(t) == n.files + AllFilesIn(Put(n.folders, p[0], c'));
      assert AllFiles(n) == n.files + AllFilesIn(n.folders);
      var T, N, A, C, P, F, C', M := multiset(AllFiles(t)), multiset(AllFiles(n)),
        multiset(AllFilesIn(Put(n.folders, p[0], c'))), multiset(AllFiles(c)), multiset(AllFiles(prior)),
        multiset(AllFilesIn(n.folders)), multiset(AllFiles(c')), multiset(AllFiles(m));
      assert T == multiset(n.files) + A && N == multiset(n.files) + F;
      assert A + C == F + C' && C' + P == C + M;
      forall x ensures (T + P)[x] == (N + M)[x] {
        assert (A + C)[x] == (F + C')[x];
        assert (C' + P)[x] == (C + M)[x];
      }
      assert multiset(AllFiles(t)) + multiset(AllFiles(prior)) == multiset(AllFiles(n)) + multiset(AllFiles(m));
    }
  }
}
