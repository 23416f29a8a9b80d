/** Copy-up: the writable tree over the read-only image, seen through the merged queries. */
module CopyUp {
  import opened Prelude
  import opened Overlay

  datatype ImageNode = ImageFile(data: Data) | ImageDir

  /** The read-only file system. */
  type Image = map<Path, ImageNode>

  predicate ImageOk(img: Image) { forall p :: p in img && p != [] ==> Init(p) in img && img[Init(p)] == ImageDir }

  function ReadImage(img: Image, p: Path): Option<Data> {
    if p in img && img[p].ImageFile? then Some(img[p].data) else None
  }

  function ImageNames(img: Image, p: Path): set<Name> { set c | c in img && c != [] && Init(c) == p :: Last(c) }

  // ---------- the merged queries ----------

  predicate FileAt(t: Tree, p: Path) { NodeAt(t, p).Some? && NodeAt(t, p).value.File? }

  predicate DirAt(t: Tree, p: Path) { NodeAt(t, p).Some? && NodeAt(t, p).value.Dir? }

  function ReadFile(t: Tree, p: Path): Option<Data> {
    match NodeAt(t, p)
    case Some(File(data)) => Some(data)
    case _ => None
  }

  function OpenReadonly(t: Tree, img: Image, p: Path): Option<Data> {
    match ReadFile(t, p)
    case Some(data) => Some(data)
    case None => ReadImage(img, p)
  }

  predicate ExistsAny(t: Tree, img: Image, p: Path) {
    p == [] || Lookup(t, p).Some? || ReadImage(img, p).Some? || ImageNames(img, p) != {}
  }

  predicate IsDir(t: Tree, img: Image, p: Path) {
    p == [] || if Lookup(t, p).Some? then IsDirAt(t, Lookup(t, p).value) else ImageNames(img, p) != {}
  }

  function TreeNames(t: Tree, p: Path): set<Name> {
    match NodeAt(t, p)
    case Some(Dir(children)) => children.Keys
    case _ => {}
  }

  /** Name and kind of every entry of the listing: the tree's own, then those of the image under other names. */
  function Merged(t: Tree, img: Image, p: Path): map<Name, bool> {
    map x | x in TreeNames(t, p) + ImageNames(img, p) ::
      if x in TreeNames(t, p) then DirAt(t, p + [x])
      else p + [x] in img && img[p + [x]] == ImageDir
  }

  ghost predicate SameAt(t: Tree, t': Tree, img: Image, p: Path) {
    && OpenReadonly(t', img, p) == OpenReadonly(t, img, p)
    && (ExistsAny(t', img, p) <==> ExistsAny(t, img, p))
    && (IsDir(t', img, p) <==> IsDir(t, img, p))
    && Merged(t', img, p) == Merged(t, img, p)
  }

  /** No query tells the two trees apart. */
  ghost predicate SameView(t: Tree, t': Tree, img: Image) { forall p :: SameAt(t, t', img, p) }

  lemma {:induction false} SameViewTrans(a: Tree, b: Tree, c: Tree, img: Image)
    requires SameView(a, b, img) && SameView(b, c, img)
    ensures SameView(a, c, img)
  {
    forall p ensures SameAt(a, c, img, p) { assert SameAt(a, b, img, p) && SameAt(b, c, img, p); }
  }

  // ---------- one new entry that mirrors the image ----------

  /** The node copies what the image has at the path; a directory must not be empty there. */
  predicate Mirrors(img: Image, p: Path, node: Node) {
    p in img &&
    match node
    case File(data) => img[p] == ImageFile(data)
    case Dir(children) => children == map[] && img[p] == ImageDir && ImageNames(img, p) != {}
  }

  lemma {:induction false} NamesOf(img: Image, p: Path, x: Name)
    requires ImageOk(img)
    ensures x in ImageNames(img, p) <==> p + [x] in img
    ensures ImageNames(img, p) != {} ==> p in img && img[p] == ImageDir
  {
    if p + [x] in img { assert Init(p + [x]) == p && Last(p + [x]) == x; }
    forall c | c in img && c != [] && Init(c) == p ensures c == p + [Last(c)] { }
  }

  /** What is at a path after growing: the new node at its place, one more name in its parent, the rest as before. */
  lemma {:induction false} GrowNode(t: Tree, d: nat, n: Name, node: Node, p: Path, q: Path)
    requires Wf(t) && Lookup(t, p) == Some(d) && IsDirAt(t, d) && (node.File? || node.children == map[]) && Child(t, d, n) == None
    ensures var t' := Grow(t, d, n, node);
            && (q == p + [n] ==> NodeAt(t', q) == Some(node) && NodeAt(t, q) == None)
            && (q != p + [n] ==> Lookup(t', q) == Lookup(t, q))
            && (q == p ==> NodeAt(t', q) == Some(Dir(t.heap[d].children[n := t.next])) && NodeAt(t, q) == Some(t.heap[d]))
            && (q != p && q != p + [n] ==> NodeAt(t', q) == NodeAt(t, q))
  {
    GrowLookup(t, d, n, node, p, q);
    if Lookup(t, q).Some? { LookupAllocated(t, q); }
    LookupAllocated(t, p);
    if Lookup(t, q) == Some(d) { PathUnique(t, q, p); }
    assert Lookup(t, p + [n]) == Child(t, d, n) by { assert Init(p + [n]) == p && Last(p + [n]) == n; }
  }

  /** What the merged queries say of a path: the tree's node if there is one, else the image's; a directory of the image
      counts only if something is in it; a listing joins both, the tree deciding the kind. */
  lemma {:induction false} ViewMeans(t: Tree, img: Image, p: Path, x: Name)
    requires Wf(t) && ImageOk(img)
    ensures var inside := exists y :: p + [y] in img;
            && OpenReadonly(t, img, p) == (if FileAt(t, p) then Some(NodeAt(t, p).value.data)
                                           else if p in img && img[p].ImageFile? then Some(img[p].data) else None)
            && (ExistsAny(t, img, p) <==> Lookup(t, p).Some? || (p in img && (img[p].ImageFile? || inside)))
            && (IsDir(t, img, p) <==> if Lookup(t, p).Some? then DirAt(t, p) else inside)
            && (x in Merged(t, img, p) <==> Lookup(t, p + [x]).Some? || p + [x] in img)
            && (x in Merged(t, img, p) ==>
                  Merged(t, img, p)[x] == if Lookup(t, p + [x]).Some? then DirAt(t, p + [x]) else img[p + [x]] == ImageDir)
  {
    NamesOf(img, p, x);
    if y :| p + [y] in img { NamesOf(img, p, y); }
    if ImageNames(img, p) != {} {
      var y :| y in ImageNames(img, p);
      NamesOf(img, p, y);
    }
    if Lookup(t, p).Some? { LookupAllocated(t, p); }
    ChildListed(t, p, x);
    hide Wf; hide ImageNames; hide Lookup; hide TreeNames; hide ImageOk;
  }

  lemma {:induction false} ChildListed(t: Tree, p: Path, x: Name)
    requires Wf(t)
    ensures x in TreeNames(t, p) <==> Lookup(t, p + [x]).Some?
    ensures p == [] ==> DirAt(t, p) && Lookup(t, p).Some?
  {
    assert Init(p + [x]) == p && Last(p + [x]) == x;
    if Lookup(t, p).Some? { LookupAllocated(t, p); }
    LookupAllocated(t, []);
  }

  ghost predicate SameQueries(t: Tree, t': Tree, img: Image, q: Path) {
    && OpenReadonly(t', img, q) == OpenReadonly(t, img, q)
    && (ExistsAny(t', img, q) <==> ExistsAny(t, img, q))
    && (IsDir(t', img, q) <==> IsDir(t, img, q))
  }

  /** Queries look at a path's node only through its kind and a file's contents. */
  lemma {:induction false} QueriesFollow(t: Tree, t': Tree, img: Image, q: Path)
    requires Wf(t) && Lookup(t', q) == Lookup(t, q) && (NodeAt(t', q) == NodeAt(t, q) || (DirAt(t', q) && DirAt(t, q)))
    ensures SameQueries(t, t', img, q)
  {
    if Lookup(t, q).Some? { LookupAllocated(t, q); }
    hide Wf; hide Lookup; hide ImageNames;
  }

  /** Where the tree had nothing, a node mirroring the image answers as the image did. */
  lemma {:induction false} QueriesMirror(t: Tree, t': Tree, img: Image, q: Path, node: Node)
    requires ImageOk(img) && q != [] && Lookup(t, q) == None && NodeAt(t', q) == Some(node) && Mirrors(img, q, node)
    ensures SameQueries(t, t', img, q)
  {
    NamesOf(img, q, Last(q));
    hide ImageOk; hide Lookup; hide ImageNames;
  }

  lemma {:induction false} GrowQueries(t: Tree, img: Image, d: nat, n: Name, node: Node, p: Path, q: Path)
    requires Wf(t) && ImageOk(img) && Lookup(t, p) == Some(d) && IsDirAt(t, d) && Child(t, d, n) == None && Mirrors(img, p + [n], node)
    ensures SameQueries(t, Grow(t, d, n, node), img, q)
  {
    hide SameQueries; hide Grow; hide Wf; hide ImageOk;
    GrowNode(t, d, n, node, p, q);
    GrowLookup(t, d, n, node, p, q);
    if q == p + [n] {
      QueriesMirror(t, Grow(t, d, n, node), img, q, node);
    } else {
      QueriesFollow(t, Grow(t, d, n, node), img, q);
    }
  }

  lemma {:induction false} GrowNames(t: Tree, d: nat, n: Name, node: Node, p: Path, q: Path)
    requires Wf(t) && Lookup(t, p) == Some(d) && IsDirAt(t, d) && (node.File? || node.children == map[]) && Child(t, d, n) == None
    ensures TreeNames(Grow(t, d, n, node), q) == TreeNames(t, q) + if q == p then {n} else {}
    ensures q == p ==> n !in TreeNames(t, q)
  {
    GrowNode(t, d, n, node, p, q);
    hide Grow; hide Lookup;
  }

  /** What Merged says about one name. */
  predicate KindIs(t: Tree, img: Image, q: Path, x: Name) {
    if x in TreeNames(t, q) then DirAt(t, q + [x]) else q + [x] in img && img[q + [x]] == ImageDir
  }

  lemma {:induction false} MergedKinds(t: Tree, t': Tree, img: Image, q: Path)
    requires TreeNames(t', q) + ImageNames(img, q) == TreeNames(t, q) + ImageNames(img, q)
    requires forall x :: x in TreeNames(t, q) + ImageNames(img, q) ==> (KindIs(t', img, q, x) <==> KindIs(t, img, q, x))
    ensures Merged(t', img, q) == Merged(t, img, q)
  {
    hide TreeNames; hide ImageNames;
  }

  lemma {:induction false} GrowKind(t: Tree, img: Image, d: nat, n: Name, node: Node, p: Path, q: Path, x: Name)
    requires Wf(t) && ImageOk(img) && Lookup(t, p) == Some(d) && IsDirAt(t, d) && Child(t, d, n) == None && Mirrors(img, p + [n], node)
    ensures KindIs(Grow(t, d, n, node), img, q, x) <==> KindIs(t, img, q, x)
  {
    hide Grow; hide Wf; hide ImageOk; hide Lookup; hide TreeNames;
    GrowNames(t, d, n, node, p, q);
    GrowNode(t, d, n, node, p, q + [x]);
    if q + [x] == p + [n] { assert (q + [x])[..|q|] == q && (p + [n])[..|p|] == p && (q + [x])[|q|] == x; }
  }

  lemma {:induction false} GrowMerged(t: Tree, img: Image, d: nat, n: Name, node: Node, p: Path, q: Path)
    requires Wf(t) && ImageOk(img) && Lookup(t, p) == Some(d) && IsDirAt(t, d) && Child(t, d, n) == None && Mirrors(img, p + [n], node)
    ensures Merged(Grow(t, d, n, node), img, q) == Merged(t, img, q)
  {
    hide Grow; hide KindIs; hide Wf; hide ImageOk; hide Merged; hide Lookup;
    GrowNames(t, d, n, node, p, q);
    NamesOf(img, p, n);
    forall x | x in TreeNames(t, q) + ImageNames(img, q) ensures KindIs(Grow(t, d, n, node), img, q, x) <==> KindIs(t, img, q, x) {
      GrowKind(t, img, d, n, node, p, q, x);
    }
    MergedKinds(t, Grow(t, d, n, node), img, q);
  }

  lemma {:induction false} GrowInvisible(t: Tree, img: Image, d: nat, n: Name, node: Node, p: Path)
    requires Wf(t) && ImageOk(img) && Lookup(t, p) == Some(d) && IsDirAt(t, d) && Child(t, d, n) == None && Mirrors(img, p + [n], node)
    ensures SameView(t, Grow(t, d, n, node), img)
  {
    hide Grow; hide OpenReadonly; hide ExistsAny; hide IsDir; hide Merged; hide Wf; hide ImageOk; hide Mirrors;
    forall q ensures SameAt(t, Grow(t, d, n, node), img, q) {
      GrowQueries(t, img, d, n, node, p, q);
      GrowMerged(t, img, d, n, node, p, q);
    }
  }

  // ---------- copy-up ----------

  /** The loop of ensure_parent_dirs over the first `k` prefixes. */
  function EnsureDirs(t: Tree, p: Path, k: nat): Tree
    requires k <= |p|
  {
    if k == 0 then t
    else
      var t1 := EnsureDirs(t, p, k - 1);
      if Lookup(t1, p[..k]) == None then Mkdir(t1, p[..k]).1 else t1
  }

  function EnsureParentDirs(t: Tree, p: Path): Tree { if p == [] then t else EnsureDirs(t, p, |p| - 1) }

  function CopyUpFile(t: Tree, img: Image, p: Path): (Option<nat>, Tree) {
    match Lookup(t, p)
    case Some(id) => (Some(id), t)
    case None =>
      match ReadImage(img, p)
      case None => (None, t)
      case Some(data) =>
        var (r, t2) := CreateFile(EnsureParentDirs(t, p), p);
        match r
        case None => (None, t2)
        case Some(id) => (Some(id), WriteNode(t2, id, data))
  }

  function OpenWritable(t: Tree, img: Image, p: Path, create: bool): (Option<nat>, Tree) {
    match Lookup(t, p)
    case Some(id) => (Some(id), t)
    case None =>
      if p in img then CopyUpFile(t, img, p)
      else if create then CreateFile(EnsureParentDirs(t, p), p)
      else (None, t)
  }

  lemma {:induction false} PrefixInImage(img: Image, p: Path, k: nat)
    requires ImageOk(img) && p in img && k < |p|
    ensures p[..k] in img && img[p[..k]] == ImageDir && p[k] in ImageNames(img, p[..k])
    decreases |p| - k
  {
    assert Init(p[..k + 1]) == p[..k] && Last(p[..k + 1]) == p[k];
    if k + 1 < |p| { PrefixInImage(img, p, k + 1); } else { assert p[..k + 1] == p; }
  }

  /** Making a directory the image has, and is not empty there, goes unnoticed. */
  lemma {:induction false} MkdirInvisible(t: Tree, img: Image, p: Path)
    requires Wf(t) && ImageOk(img) && Lookup(t, p) == None && Mirrors(img, p, Dir(map[]))
    ensures Wf(Mkdir(t, p).1) && SameView(t, Mkdir(t, p).1, img)
  {
    hide Wf; hide Grow; hide SameView; hide ImageOk; hide Mirrors;
    MakeWf(t, p, Dir(map[]));
    assert p == Init(p) + [Last(p)];
    SameViewRefl(t, img);
    if Lookup(t, Init(p)).Some? && IsDirAt(t, Lookup(t, Init(p)).value) {
      GrowInvisible(t, img, Lookup(t, Init(p)).value, Last(p), Dir(map[]), Init(p));
    }
  }

  lemma {:induction false} SameViewRefl(t: Tree, img: Image)
    ensures SameView(t, t, img)
  {
  }

  lemma {:induction false} EnsureInvisible(t: Tree, img: Image, p: Path, k: nat)
    requires Wf(t) && ImageOk(img) && p in img && k < |p|
    ensures Wf(EnsureDirs(t, p, k)) && SameView(t, EnsureDirs(t, p, k), img)
  {
    hide Wf; hide SameView; hide ImageOk; hide Mkdir;
    SameViewRefl(t, img);
    if k > 0 {
      EnsureInvisible(t, img, p, k - 1);
      var t1 := EnsureDirs(t, p, k - 1);
      PrefixInImage(img, p, k);
      if Lookup(t1, p[..k]) == None {
        MkdirInvisible(t1, img, p[..k]);
        SameViewTrans(t, t1, Mkdir(t1, p[..k]).1, img);
      }
    }
  }

  /** Making the parents touches no path longer than they are. */
  lemma {:induction false} EnsureDeeper(t: Tree, p: Path, k: nat, q: Path)
    requires Wf(t) && k < |p| && |q| > k
    ensures Wf(EnsureDirs(t, p, k)) && t.next <= EnsureDirs(t, p, k).next
    ensures NodeAt(EnsureDirs(t, p, k), q) == NodeAt(t, q) && Lookup(EnsureDirs(t, p, k), q) == Lookup(t, q)
  {
    hide Wf; hide Grow;
    if k == 0 {
    } else {
      EnsureDeeper(t, p, k - 1, q);
      var t1 := EnsureDirs(t, p, k - 1);
      MakeWf(t1, p[..k], Dir(map[]));
      var d := Lookup(t1, Init(p[..k]));
      if Lookup(t1, p[..k]) == None && d.Some? && IsDirAt(t1, d.value) {
        GrowNode(t1, d.value, Last(p[..k]), Dir(map[]), Init(p[..k]), q);
        GrowNext(t1, d.value, Last(p[..k]), Dir(map[]));
      }
    }
  }

  lemma {:induction false} GrowNext(t: Tree, d: nat, n: Name, node: Node)
    requires IsDirAt(t, d)
    ensures Grow(t, d, n, node).next == t.next + 1
  {
  }

  /** A file of the tree stands in the way among the first `k` prefixes. */
  predicate Blocked(t: Tree, p: Path, k: nat)
    requires k <= |p|
  {
    exists i :: 0 <= i <= k && FileAt(t, p[..i])
  }

  /** The parents are made exactly when no file stands in the way. */
  lemma {:induction false} EnsureReaches(t: Tree, p: Path, k: nat)
    requires Wf(t) && k < |p|
    ensures DirAt(EnsureDirs(t, p, k), p[..k]) <==> !Blocked(t, p, k)
  {
    hide Wf; hide Grow;
    if k > 0 {
      var t1, q := EnsureDirs(t, p, k - 1), p[..k];
      EnsureReaches(t, p, k - 1);
      EnsureDeeper(t, p, k - 1, q);
      assert Init(q) == p[..k - 1];
      assert Blocked(t, p, k) <==> Blocked(t, p, k - 1) || FileAt(t, q);
      if Lookup(t1, q).Some? {
        LookupAllocated(t1, q);
      } else {
        if DirAt(t1, Init(q)) { GrowNode(t1, Lookup(t1, Init(q)).value, Last(q), Dir(map[]), Init(q), q); }
      }
    } else {
      RootIsDir(t);
      assert p[..0] == [];
    }
  }

  lemma {:induction false} RootIsDir(t: Tree)
    requires Wf(t)
    ensures DirAt(t, [])
  {
  }

  lemma {:induction false} GrowThenWrite(t: Tree, d: nat, n: Name, data: Data)
    requires Wf(t) && IsDirAt(t, d)
    ensures WriteNode(Grow(t, d, n, File([])), t.next, data) == Grow(t, d, n, File(data))
  {
  }

  /**
   * Copying up is invisible to every query on every path. It hands out the node already in the tree, else a new file
   * node with the image's contents, found under this path; and fails exactly when the image has no such file or a
   * file of the tree stands in the way.
   */
  lemma {:induction false} CopyUpInvisible(t: Tree, img: Image, p: Path)
    requires Wf(t) && ImageOk(img)
    ensures var (r, t') := CopyUpFile(t, img, p);
            && Wf(t') && SameView(t, t', img)
            && (r == None <==> Lookup(t, p) == None && (ReadImage(img, p) == None || Blocked(t, p, |p| - 1)))
            && (r.Some? ==> Lookup(t', p) == r)
            && (r.Some? && Lookup(t, p) == None ==> r.value >= t.next && NodeAt(t', p) == Some(File(ReadImage(img, p).value)))
  {
    hide Wf; hide SameView; hide Grow; hide ImageOk; hide WriteNode; hide Blocked; hide EnsureDirs;
    SameViewRefl(t, img);
    if Lookup(t, p) == None && ReadImage(img, p).Some? {
      var k, data := |p| - 1, ReadImage(img, p).value;
      var t1 := EnsureDirs(t, p, k);
      EnsureInvisible(t, img, p, k);
      EnsureDeeper(t, p, k, p);
      EnsureReaches(t, p, k);
      assert Init(p) == p[..k] && p == Init(p) + [Last(p)];
      if DirAt(t1, Init(p)) {
        var d := Lookup(t1, Init(p)).value;
        GrowThenWrite(t1, d, Last(p), data);
        GrowInvisible(t1, img, d, Last(p), File(data), Init(p));
        GrowWf(t1, d, Last(p), File(data));
        GrowNode(t1, d, Last(p), File(data), Init(p), p);
        GrowLookup(t1, d, Last(p), File(data), Init(p), p);
        SameViewTrans(t, t1, Grow(t1, d, Last(p), File(data)), img);
      } else {
        if Lookup(t1, Init(p)).Some? { LookupAllocated(t1, Init(p)); }
      }
    }
  }

  // ---------- writing to the copy ----------

  lemma {:induction false} WriteLookup(t: Tree, id: nat, data: Data, q: Path)
    ensures Lookup(WriteNode(t, id, data), q) == Lookup(t, q)
    decreases |q|
  {
    if q == [] {
    } else {
      WriteLookup(t, id, data, Init(q));
    }
  }

  lemma {:induction false} WriteNodeAt(t: Tree, id: nat, data: Data, q: Path)
    requires id in t.heap && t.heap[id].File?
    ensures NodeAt(WriteNode(t, id, data), q) == if Lookup(t, q) == Some(id) then Some(File(data)) else NodeAt(t, q)
  {
    WriteLookup(t, id, data, q);
  }

  /** A write to a file shows under the paths of that file only, and moves nothing. */
  lemma {:induction false} WriteSeen(t: Tree, img: Image, id: nat, data: Data, q: Path)
    requires Wf(t) && id in t.heap && t.heap[id].File?
    ensures var t' := WriteNode(t, id, data);
            && OpenReadonly(t', img, q) == (if Lookup(t, q) == Some(id) then Some(data) else OpenReadonly(t, img, q))
            && (ExistsAny(t', img, q) <==> ExistsAny(t, img, q))
            && (IsDir(t', img, q) <==> IsDir(t, img, q))
            && Merged(t', img, q) == Merged(t, img, q)
  {
    WriteNodeAt(t, id, data, q);
    WriteLookup(t, id, data, q);
    var t' := WriteNode(t, id, data);
    if Lookup(t, q).Some? { LookupAllocated(t, q); }
    assert TreeNames(t', q) == TreeNames(t, q);
    forall x ensures KindIs(t', img, q, x) <==> KindIs(t, img, q, x) { WriteNodeAt(t, id, data, q + [x]); }
    MergedKinds(t, t', img, q);
    hide TreeNames; hide ImageNames; hide WriteNode; hide Merged; hide KindIs; hide Lookup; hide Wf;
  }

  lemma {:induction false} OnlyPath(t: Tree, d: nat, n: Name, node: Node, p: Path, q: Path)
    requires Wf(t) && Lookup(t, p) == Some(d) && IsDirAt(t, d) && (node.File? || node.children == map[]) && Child(t, d, n) == None
    ensures Lookup(Grow(t, d, n, node), q) == Some(t.next) <==> q == p + [n]
  {
    GrowLookup(t, d, n, node, p, q);
    if Lookup(t, q).Some? { LookupAllocated(t, q); }
  }

  /** A file just copied up has one path. */
  lemma {:induction false} CopyHasOnePath(t: Tree, img: Image, p: Path, q: Path)
    requires Wf(t) && ImageOk(img) && Lookup(t, p) == None && CopyUpFile(t, img, p).0.Some?
    ensures var (r, t') := CopyUpFile(t, img, p);
            && r.value in t'.heap && t'.heap[r.value].File?
            && (Lookup(t', q) == r <==> q == p)
  {
    CopyUpInvisible(t, img, p);
    hide Wf; hide Grow; hide ImageOk; hide WriteNode; hide Blocked; hide EnsureDirs; hide SameView;
    var k, data := |p| - 1, ReadImage(img, p).value;
    var t1 := EnsureDirs(t, p, k);
    EnsureDeeper(t, p, k, p);
    EnsureReaches(t, p, k);
    assert Init(p) == p[..k] && p == Init(p) + [Last(p)];
    var d := Lookup(t1, Init(p)).value;
    if DirAt(t1, Init(p)) {
      GrowThenWrite(t1, d, Last(p), data);
      OnlyPath(t1, d, Last(p), File(data), Init(p), q);
    }
  }

  /** Writing to a file just copied up changes what is read under its path, and nothing else anywhere. */
  lemma {:induction false} WriteAfterCopyUp(t: Tree, img: Image, p: Path, data: Data, q: Path)
    requires Wf(t) && ImageOk(img) && Lookup(t, p) == None && CopyUpFile(t, img, p).0.Some?
    ensures var (r, t') := CopyUpFile(t, img, p); var t2 := WriteNode(t', r.value, data);
            && OpenReadonly(t2, img, q) == (if q == p then Some(data) else OpenReadonly(t, img, q))
            && (ExistsAny(t2, img, q) <==> ExistsAny(t, img, q))
            && (IsDir(t2, img, q) <==> IsDir(t, img, q))
            && Merged(t2, img, q) == Merged(t, img, q)
  {
    hide CopyUpFile; hide WriteNode; hide OpenReadonly; hide ExistsAny; hide IsDir; hide Merged; hide Blocked; hide Wf;
    CopyUpInvisible(t, img, p);
    CopyHasOnePath(t, img, p, q);
    var (r, t') := CopyUpFile(t, img, p);
    WriteSeen(t', img, r.value, data, q);
    assert SameAt(t, t', img, q);
  }
}
