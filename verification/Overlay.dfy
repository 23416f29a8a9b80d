/** The writable in-memory tree over a read-only image: lookups, changes, and copy-up. */
module Overlay {
  import opened Prelude

  type Name = string
  type Path = seq<Name>
  type Data = seq<Byte>

  /** A node; directory entries refer to nodes by identity, so a file may have several names. */
  datatype Node = File(data: Data) | Dir(children: map<Name, nat>)

  /** Nodes allocated so far; `next` is the identity of the next one. */
  datatype Tree = Tree(heap: map<nat, Node>, next: nat)

  const ROOT: nat := 0

  // ---------- the in-memory tree ----------

  function Child(t: Tree, id: nat, name: Name): Option<nat> {
    if id in t.heap && t.heap[id].Dir? && name in t.heap[id].children then Some(t.heap[id].children[name]) else None
  }

  function Lookup(t: Tree, p: Path): Option<nat> {
    if p == [] then Some(ROOT)
    else match Lookup(t, Init(p))
         case None => None
         case Some(id) => Child(t, id, Last(p))
  }

  function Init(p: Path): Path
    requires p != []
  {
    p[..|p| - 1]
  }

  function Last(p: Path): Name
    requires p != []
  {
    p[|p| - 1]
  }

  function NodeAt(t: Tree, p: Path): Option<Node> {
    match Lookup(t, p)
    case Some(id) => if id in t.heap then Some(t.heap[id]) else None
    case None => None
  }

  predicate IsDirAt(t: Tree, id: nat) { id in t.heap && t.heap[id].Dir? }

  /** Entry `name` of directory `d` is `id`. */
  predicate Entry(t: Tree, d: nat, name: Name, id: nat) { Child(t, d, name) == Some(id) }

  /** Entries lead to nodes; the root is a directory nothing leads to; a directory has one entry at most. */
  ghost predicate Wf(t: Tree) {
    && IsDirAt(t, ROOT)
    && (forall id :: id in t.heap ==> id < t.next)
    && (forall d, n, id :: Entry(t, d, n, id) ==> id in t.heap && id != ROOT)
    && (forall d, n, d', n', id :: Entry(t, d, n, id) && Entry(t, d', n', id) && IsDirAt(t, id) ==> d == d' && n == n')
  }

  lemma {:induction false} LookupAllocated(t: Tree, p: Path)
    requires Wf(t) && Lookup(t, p).Some?
    ensures Lookup(t, p).value in t.heap && (Lookup(t, p).value == ROOT <==> p == [])
  {
    if p != [] { assert Entry(t, Lookup(t, Init(p)).value, Last(p), Lookup(t, p).value); }
  }

  /** A directory is found under one path only. */
  lemma {:induction false} PathUnique(t: Tree, p: Path, q: Path)
    requires Wf(t) && Lookup(t, p).Some? && Lookup(t, p) == Lookup(t, q) && IsDirAt(t, Lookup(t, p).value)
    ensures p == q
  {
    LookupAllocated(t, p);
    LookupAllocated(t, q);
    if p == [] {
    } else {
      var a, b, id := Lookup(t, Init(p)).value, Lookup(t, Init(q)).value, Lookup(t, p).value;
      assert Entry(t, a, Last(p), id) && Entry(t, b, Last(q), id);
      assert IsDirAt(t, a);
      PathUnique(t, Init(p), Init(q));
      assert p == Init(p) + [Last(p)] && q == Init(q) + [Last(q)];
    }
  }

  // ---------- a new entry ----------

  /** A new node under name `n` of directory `d`. */
  function Grow(t: Tree, d: nat, n: Name, node: Node): Tree
    requires IsDirAt(t, d)
  {
    Tree(t.heap[d := Dir(t.heap[d].children[n := t.next])][t.next := node], t.next + 1)
  }

  lemma {:induction false} GrowWf(t: Tree, d: nat, n: Name, node: Node)
    requires Wf(t) && IsDirAt(t, d) && (node.File? || node.children == map[]) && Child(t, d, n) == None
    ensures Wf(Grow(t, d, n, node))
  {
    var t' := Grow(t, d, n, node);
    forall e, x ensures Child(t', e, x) == if e == t.next then None else if e == d && x == n then Some(t.next) else Child(t, e, x) { }
    forall e, x, id | Entry(t', e, x, id) ensures id in t'.heap && id != ROOT && (Entry(t, e, x, id) || (e == d && x == n && id == t.next)) {
      if Child(t, e, x) == Some(id) { assert Entry(t, e, x, id); }
    }
    hide Child;
    forall id | id in t'.heap && id != t.next ensures IsDirAt(t', id) == IsDirAt(t, id) { }
    forall e, x, e', x', id | Entry(t', e, x, id) && Entry(t', e', x', id) && IsDirAt(t', id) ensures e == e' && x == x' {
      if id == t.next {
        assert Entry(t, e, x, id) ==> id in t.heap;
        assert Entry(t, e', x', id) ==> id in t.heap;
      }
    }
  }

  /** The new entry is seen under its own path and nowhere else. */
  lemma {:induction false} GrowLookup(t: Tree, d: nat, n: Name, node: Node, p: Path, q: Path)
    requires Wf(t) && Lookup(t, p) == Some(d) && IsDirAt(t, d) && (node.File? || node.children == map[])
    requires Child(t, d, n) == None
    ensures Lookup(Grow(t, d, n, node), q) ==
              if q == p + [n] then Some(t.next) else Lookup(t, q)
    ensures p + [n] <= q ==> Lookup(t, q) == None
    decreases |q|
  {
    if q == [] {
    } else {
      var q0, x := Init(q), Last(q);
      GrowLookup(t, d, n, node, p, q0);
      assert q == q0 + [x];
      if Lookup(t, q0).Some? {
        LookupAllocated(t, q0);
        var e := Lookup(t, q0).value;
        if e == d { PathUnique(t, q0, p); }
      }
      if p + [n] <= q && q != p + [n] { assert p + [n] <= q0; }
    }
  }

  // ---------- operations ----------

  /** The node under the name, made if absent. */
  function Make(t: Tree, p: Path, node: Node): (Option<nat>, Tree) {
    if p == [] then (None, t)
    else match Lookup(t, Init(p))
         case None => (None, t)
         case Some(d) =>
           if !IsDirAt(t, d) then (None, t)
           else match Child(t, d, Last(p))
                case Some(id) => (Some(id), t)
                case None => (Some(t.next), Grow(t, d, Last(p), node))
  }

  function CreateFile(t: Tree, p: Path): (Option<nat>, Tree) { Make(t, p, File([])) }

  function Mkdir(t: Tree, p: Path): (Option<nat>, Tree) { Make(t, p, Dir(map[])) }

  /** Replace the contents of a file. */
  function WriteNode(t: Tree, id: nat, data: Data): Tree {
    if id in t.heap && t.heap[id].File? then t.(heap := t.heap[id := File(data)]) else t
  }

  function SetEntries(t: Tree, d: nat, entries: map<Name, nat>): Tree { t.(heap := t.heap[d := Dir(entries)]) }

  datatype Outcome = Ok | NoEntry | Invalid | IsADirectory | NotEmpty | NotPermitted

  function Remove(t: Tree, p: Path, allowDir: bool): (Outcome, Tree) {
    if p == [] then (Invalid, t)
    else match Lookup(t, Init(p))
         case None => (NoEntry, t)
         case Some(d) =>
           match Child(t, d, Last(p))
           case None => (NoEntry, t)
           case Some(id) =>
             if IsDirAt(t, id) && !allowDir then (IsADirectory, t)
             else if IsDirAt(t, id) && t.heap[id].children != map[] then (NotEmpty, t)
             else (Ok, SetEntries(t, d, t.heap[d].children - {Last(p)}))
  }

  /** Both parents are looked up before anything moves; a file as new parent loses the node. */
  function Rename(t: Tree, p: Path, q: Path): (Outcome, Tree) {
    if p == [] || q == [] then (Invalid, t)
    else match (Lookup(t, Init(p)), Lookup(t, Init(q)))
         case (Some(d), Some(e)) =>
           (match Child(t, d, Last(p))
            case None => (NoEntry, t)
            case Some(id) =>
              var t1 := SetEntries(t, d, t.heap[d].children - {Last(p)});
              if !IsDirAt(t1, e) then (NoEntry, t1) else (Ok, SetEntries(t1, e, t1.heap[e].children[Last(q) := id])))
         case _ => (NoEntry, t)
  }

  function Link(t: Tree, p: Path, q: Path): (Outcome, Tree) {
    match Lookup(t, p)
    case None => (NoEntry, t)
    case Some(id) =>
      if IsDirAt(t, id) then (NotPermitted, t)
      else if q == [] then (Invalid, t)
      else match Lookup(t, Init(q))
           case None => (NoEntry, t)
           case Some(d) => if !IsDirAt(t, d) then (NoEntry, t) else (Ok, SetEntries(t, d, t.heap[d].children[Last(q) := id]))
  }

  // ---------- every operation keeps the tree ----------

  lemma {:induction false} MakeWf(t: Tree, p: Path, node: Node)
    requires Wf(t) && (node.File? || node.children == map[])
    ensures Wf(Make(t, p, node).1)
  {
    hide Wf; hide Grow;
    if p != [] && Lookup(t, Init(p)).Some? {
      var d := Lookup(t, Init(p)).value;
      if IsDirAt(t, d) && Child(t, d, Last(p)) == None { GrowWf(t, d, Last(p), node); }
    }
  }

  lemma {:induction false} WriteWf(t: Tree, id: nat, data: Data)
    requires Wf(t)
    ensures Wf(WriteNode(t, id, data))
  {
    var t' := WriteNode(t, id, data);
    forall d, n ensures Child(t', d, n) == Child(t, d, n) { }
    forall e ensures IsDirAt(t', e) == IsDirAt(t, e) { }
    forall d, n, i ensures Entry(t', d, n, i) == Entry(t, d, n, i) { }
    hide Child; hide WriteNode;
  }

  /** Dropping entries of a directory, or giving a free or replaced name to a node without other entries, keeps the tree. */
  lemma {:induction false} DropWf(t: Tree, d: nat, n: Name)
    requires Wf(t) && IsDirAt(t, d)
    ensures Wf(SetEntries(t, d, t.heap[d].children - {n}))
    ensures forall id :: Child(t, d, n) == Some(id) && IsDirAt(t, id) ==>
              forall e, x :: !Entry(SetEntries(t, d, t.heap[d].children - {n}), e, x, id)
  {
    var t' := SetEntries(t, d, t.heap[d].children - {n});
    forall e, x ensures Child(t', e, x) == if e == d && x == n then None else Child(t, e, x) { }
    forall e, x, id ensures Entry(t', e, x, id) <==> Entry(t, e, x, id) && !(e == d && x == n) { }
    forall e ensures IsDirAt(t', e) == IsDirAt(t, e) { }
    forall id, e, x | Child(t, d, n) == Some(id) && IsDirAt(t, id) ensures !Entry(t', e, x, id) {
      assert Entry(t, d, n, id);
    }
    hide Child; hide SetEntries;
  }

  lemma {:induction false} PutWf(t: Tree, d: nat, n: Name, id: nat)
    requires Wf(t) && IsDirAt(t, d) && id in t.heap && id != ROOT
    requires IsDirAt(t, id) ==> forall e, x :: !Entry(t, e, x, id)
    ensures Wf(SetEntries(t, d, t.heap[d].children[n := id]))
  {
    var t' := SetEntries(t, d, t.heap[d].children[n := id]);
    forall e, x ensures Child(t', e, x) == if e == d && x == n then Some(id) else Child(t, e, x) { }
    forall e, x, i ensures Entry(t', e, x, i) <==> if e == d && x == n then i == id else Entry(t, e, x, i) { }
    forall e ensures IsDirAt(t', e) == IsDirAt(t, e) { }
    hide Child; hide SetEntries;
  }

  lemma {:induction false} RemoveWf(t: Tree, p: Path, allowDir: bool)
    requires Wf(t)
    ensures Wf(Remove(t, p, allowDir).1)
  {
    hide Wf; hide SetEntries;
    if p != [] && Lookup(t, Init(p)).Some? {
      var d := Lookup(t, Init(p)).value;
      if Child(t, d, Last(p)).Some? { DropWf(t, d, Last(p)); }
    }
  }

  lemma {:induction false} RenameWf(t: Tree, p: Path, q: Path)
    requires Wf(t)
    ensures Wf(Rename(t, p, q).1)
  {
    if p != [] && q != [] && Lookup(t, Init(p)).Some? && Lookup(t, Init(q)).Some? {
      var d, e := Lookup(t, Init(p)).value, Lookup(t, Init(q)).value;
      if Child(t, d, Last(p)).Some? {
        var id := Child(t, d, Last(p)).value;
        var t1 := SetEntries(t, d, t.heap[d].children - {Last(p)});
        DropWf(t, d, Last(p));
        assert Entry(t, d, Last(p), id);
        assert IsDirAt(t1, id) == IsDirAt(t, id);
        if IsDirAt(t1, e) { PutWf(t1, e, Last(q), id); }
      }
    }
    hide Wf; hide SetEntries;
  }

  lemma {:induction false} LinkWf(t: Tree, p: Path, q: Path)
    requires Wf(t)
    ensures Wf(Link(t, p, q).1)
  {
    if Lookup(t, p).Some? && q != [] && Lookup(t, Init(q)).Some? {
      LookupAllocated(t, p);
      var id, d := Lookup(t, p).value, Lookup(t, Init(q)).value;
      if !IsDirAt(t, id) && IsDirAt(t, d) { PutWf(t, d, Last(q), id); }
    }
    hide Wf; hide SetEntries;
  }
}
