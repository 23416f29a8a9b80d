/** The file system as it is written: loops over path components, nodes changed in place; and its runs. */
module VfsCode {
  import opened Prelude
  import opened Overlay
  import opened CopyUp

  lemma {:induction false} LostStaysLost(t: Tree, p: Path, i: nat)
    requires i <= |p| && Lookup(t, p[..i]) == None
    ensures Lookup(t, p) == None
    decreases |p| - i
  {
    if i < |p| {
      assert Init(p[..i + 1]) == p[..i];
      LostStaysLost(t, p, i + 1);
    } else {
      assert p[..i] == p;
    }
  }

  class Vfs {
    var heap: map<nat, Node>
    var next: nat
    const image: Image

    ghost function View(): Tree
      reads this
    {
      Tree(heap, next)
    }

    constructor (image: Image)
      ensures View() == Tree(map[ROOT := Dir(map[])], 1) && this.image == image && Wf(View())
    {
      this.image := image;
      heap := map[ROOT := Dir(map[])];
      next := 1;
    }

    method Find(p: Path) returns (r: Option<nat>)
      ensures r == Lookup(View(), p)
    {
      var current := ROOT;
      for i := 0 to |p|
        invariant Lookup(View(), p[..i]) == Some(current)
      {
        assert Init(p[..i + 1]) == p[..i];
        var child := Child(Tree(heap, next), current, p[i]);
        if child.None? {
          LostStaysLost(View(), p, i + 1);
          return None;
        }
        current := child.value;
      }
      assert p[..|p|] == p;
      return Some(current);
    }

    /** create_file and mkdir: the entry if there is one, else a new node. */
    method MakeNode(p: Path, node: Node) returns (r: Option<nat>)
      modifies this
      ensures (r, View()) == Make(old(View()), p, node)
    {
      if p == [] { return None; }
      var parent := Find(Init(p));
      if parent.None? { return None; }
      var d := parent.value;
      if d !in heap || heap[d].File? { return None; }
      var entries := heap[d].children;
      if Last(p) in entries { return Some(entries[Last(p)]); }
      r := Some(next);
      heap := heap[d := Dir(entries[Last(p) := next])][next := node];
      next := next + 1;
    }

    method EnsureParents(p: Path)
      modifies this
      ensures View() == EnsureParentDirs(old(View()), p)
    {
      if |p| <= 1 { return; }
      for i := 1 to |p|
        invariant View() == EnsureDirs(old(View()), p, i - 1)
      {
        var found := Find(p[..i]);
        if found.None? { var _ := MakeNode(p[..i], Dir(map[])); }
      }
    }

    method Write(id: nat, data: Data)
      modifies this
      ensures View() == WriteNode(old(View()), id, data)
    {
      if id in heap && heap[id].File? { heap := heap[id := File(data)]; }
    }

    method CopyUpPath(p: Path) returns (r: Option<nat>)
      modifies this
      ensures (r, View()) == CopyUpFile(old(View()), image, p)
    {
      hide EnsureParentDirs; hide Make; hide WriteNode;
      r := Find(p);
      if r.Some? { return; }
      var data := ReadImage(image, p);
      if data.None? { return None; }
      EnsureParents(p);
      r := MakeNode(p, File([]));
      if r.None? { return; }
      Write(r.value, data.value);
    }

    method OpenForWriting(p: Path, create: bool) returns (r: Option<nat>)
      modifies this
      ensures (r, View()) == OpenWritable(old(View()), image, p, create)
    {
      hide EnsureParentDirs; hide Make; hide CopyUpFile;
      r := Find(p);
      if r.Some? { return; }
      if p in image {
        r := CopyUpPath(p);
      } else if create {
        EnsureParents(p);
        r := MakeNode(p, File([]));
      }
    }

    method RemoveEntry(p: Path, allowDir: bool) returns (r: Outcome)
      modifies this
      ensures (r, View()) == Remove(old(View()), p, allowDir)
    {
      if p == [] { return Invalid; }
      var parent := Find(Init(p));
      if parent.None? { return NoEntry; }
      var target := Child(Tree(heap, next), parent.value, Last(p));
      if target.None? { return NoEntry; }
      if target.value in heap && heap[target.value].Dir? {
        if !allowDir { return IsADirectory; }
        if heap[target.value].children != map[] { return NotEmpty; }
      }
      heap := heap[parent.value := Dir(heap[parent.value].children - {Last(p)})];
      return Ok;
    }

    method RenameEntry(p: Path, q: Path) returns (r: Outcome)
      modifies this
      ensures (r, View()) == Rename(old(View()), p, q)
    {
      if p == [] || q == [] { return Invalid; }
      var from := Find(Init(p));
      if from.None? { return NoEntry; }
      var to := Find(Init(q));
      if to.None? { return NoEntry; }
      var node := Child(Tree(heap, next), from.value, Last(p));
      if node.None? { return NoEntry; }
      heap := heap[from.value := Dir(heap[from.value].children - {Last(p)})];
      if to.value !in heap || heap[to.value].File? { return NoEntry; }
      heap := heap[to.value := Dir(heap[to.value].children[Last(q) := node.value])];
      return Ok;
    }

    method LinkEntry(p: Path, q: Path) returns (r: Outcome)
      modifies this
      ensures (r, View()) == Link(old(View()), p, q)
    {
      var node := Find(p);
      if node.None? { return NoEntry; }
      if node.value in heap && heap[node.value].Dir? { return NotPermitted; }
      if q == [] { return Invalid; }
      var parent := Find(Init(q));
      if parent.None? { return NoEntry; }
      if parent.value !in heap || heap[parent.value].File? { return NoEntry; }
      heap := heap[parent.value := Dir(heap[parent.value].children[Last(q) := node.value])];
      return Ok;
    }
  }

  // ---------- runs ----------

  datatype Op =
    | Create(p: Path) | MakeDir(p: Path) | WriteTo(id: nat, data: Data) | Delete(p: Path, allowDir: bool)
    | Move(p: Path, q: Path) | HardLink(p: Path, q: Path) | Copy(p: Path) | Open(p: Path, create: bool)

  function Step(t: Tree, img: Image, op: Op): Tree {
    match op
    case Create(p) => CreateFile(t, p).1
    case MakeDir(p) => Mkdir(t, p).1
    case WriteTo(id, data) => WriteNode(t, id, data)
    case Delete(p, allowDir) => Remove(t, p, allowDir).1
    case Move(p, q) => Rename(t, p, q).1
    case HardLink(p, q) => Link(t, p, q).1
    case Copy(p) => CopyUpFile(t, img, p).1
    case Open(p, create) => OpenWritable(t, img, p, create).1
  }

  function Run(t: Tree, img: Image, ops: seq<Op>): Tree {
    if ops == [] then t else Step(Run(t, img, ops[..|ops| - 1]), img, ops[|ops| - 1])
  }

  lemma {:induction false} OpenKeepsWf(t: Tree, img: Image, p: Path, create: bool)
    requires Wf(t) && ImageOk(img)
    ensures Wf(OpenWritable(t, img, p, create).1)
  {
    hide Wf; hide ImageOk; hide EnsureDirs; hide Make;
    if Lookup(t, p) == None {
      if p in img {
        CopyUpInvisible(t, img, p);
      } else if create {
        if p != [] { EnsureDeeper(t, p, |p| - 1, p); }
        MakeWf(EnsureParentDirs(t, p), p, File([]));
      }
    }
  }

  lemma {:induction false} StepKeepsWf(t: Tree, img: Image, op: Op)
    requires Wf(t) && ImageOk(img)
    ensures Wf(Step(t, img, op))
  {
    hide Wf; hide ImageOk;
    match op
    case Create(p) => MakeWf(t, p, File([]));
    case MakeDir(p) => MakeWf(t, p, Dir(map[]));
    case WriteTo(id, data) => WriteWf(t, id, data);
    case Delete(p, allowDir) => RemoveWf(t, p, allowDir);
    case Move(p, q) => RenameWf(t, p, q);
    case HardLink(p, q) => LinkWf(t, p, q);
    case Copy(p) => CopyUpInvisible(t, img, p);
    case Open(p, create) => OpenKeepsWf(t, img, p, create);
  }

  /** In every run directories have one path each and every entry leads to a node. */
  lemma {:induction false} RunKeepsWf(t: Tree, img: Image, ops: seq<Op>)
    requires Wf(t) && ImageOk(img)
    ensures Wf(Run(t, img, ops))
  {
    hide Wf; hide ImageOk; hide Step;
    if ops == [] {
    } else {
      RunKeepsWf(t, img, ops[..|ops| - 1]);
      StepKeepsWf(Run(t, img, ops[..|ops| - 1]), img, ops[|ops| - 1]);
    }
  }

  /** Opening what exists for writing shows nothing until something is written. It hands out the node of the path, with
      the contents read before; and fails exactly when the image has no file there or a file of the tree stands in the way. */
  lemma {:induction false} OpenInvisible(t: Tree, img: Image, p: Path, create: bool)
    requires Wf(t) && ImageOk(img) && (p in img || Lookup(t, p).Some?)
    ensures var (r, t') := OpenWritable(t, img, p, create);
            && SameView(t, t', img)
            && (r == None <==> Lookup(t, p) == None && (ReadImage(img, p) == None || exists i :: 0 <= i < |p| && FileAt(t, p[..i])))
            && (r.Some? ==> Lookup(t', p) == r)
            && (r.Some? && Lookup(t, p) == None ==> NodeAt(t', p) == Some(File(ReadImage(img, p).value)))
  {
    if Lookup(t, p) == None { assert Blocked(t, p, |p| - 1) <==> exists i :: 0 <= i < |p| && FileAt(t, p[..i]); }

    CopyUpInvisible(t, img, p);
    SameViewRefl(t, img);
    hide SameView; hide Wf; hide ImageOk; hide CopyUpFile; hide Blocked;
  }
}
