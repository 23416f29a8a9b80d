/** All address spaces at once: any interleaving of mapping, faults, stores and forks, seen as independent page maps. */
module Spaces {
  import opened Prelude
  import opened Frame
  import opened PageTable
  import opened Paging
  import opened Fork
  import opened UserMemory
  import opened Vma
  import opened DemandPaging

  /** What a space says about a page: flags and contents; which frame holds it cannot be seen. */
  datatype Cell = Cell(flags: nat, data: Page)

  type Space = map<nat, Cell>

  type World = map<nat, Space>

  ghost function SpaceOf(mem: Memory, root: nat): Space {
    map v: nat | v < USER_PAGES && Present(Pte(mem, root, v)) ::
      Cell(Pte(mem, root, v) % 4096, PageAt(mem, Pte(mem, root, v) / 4096))
  }

  ghost function WorldOf(mem: Memory, roots: set<nat>): World { map r | r in roots :: SpaceOf(mem, r) }

  datatype Op =
    | OnPage(root: nat, op: PageOp)
    | StoreByte(root: nat, page: nat, off: Offset, byte: Byte)
    | Fault(root: nat, page: nat, off: Offset, areas: seq<VmaEntry>)  // not present: try_demand_page with the areas of the moment
    | ForkSpace(root: nat)

  // ---------- the machine ----------

  datatype State = State(vm: Vm, roots: set<nat>)

  predicate Valid(roots: set<nat>, op: Op) {
    op.root in roots &&
    match op
    case OnPage(_, p) => ValidOp(p)
    case StoreByte(_, page, _, _) => page < USER_PAGES
    case Fault(_, page, _, _) => page < USER_PAGES
    case ForkSpace(_) => true
  }

  /** None is out of memory. */
  ghost function Do(s: State, kernel: nat, op: Op): Option<State> {
    match op
    case OnPage(root, p) => (match Step(s.vm, root, p) case None => None case Some(vm) => Some(s.(vm := vm)))
    case StoreByte(root, page, off, b) => Some(s.(vm := s.vm.(mem := Apply(s.vm.mem, UserStore(root, page, off, b)))))
    case Fault(root, page, off, areas) =>
      if Present(Pte(s.vm.mem, root, page)) then Some(s)
      else (match Service(s.vm, root, areas, page, off) case None => None case Some(vm) => Some(s.(vm := vm)))
    case ForkSpace(root) =>
      (match CloneUserSpace(s.vm, kernel, root) case None => None case Some((dst, vm)) => Some(State(vm, s.roots + {dst})))
  }

  ghost function Run(s: State, kernel: nat, ops: seq<Op>): Option<State> {
    if ops == [] then Some(s)
    else match Run(s, kernel, ops[..|ops| - 1])
         case None => None
         case Some(s1) => if Valid(s1.roots, ops[|ops| - 1]) then Do(s1, kernel, ops[|ops| - 1]) else None
  }

  // ---------- the page maps ----------

  function PageStep(m: Space, op: PageOp): Space {
    match op
    case MapNew(vpn, data, flags) => m[vpn := Cell(WithPresent(flags), data)]
    case Unmap(vpn) => m - {vpn}
    case Protect(vpn, prot) =>
      if vpn !in m then m else if prot == 0 then m - {vpn} else m[vpn := Cell(ProtFlags(prot), m[vpn].data)]
  }

  /** One step; a fork makes space `dst`. */
  function WorldStep(w: World, op: Op, dst: nat): World {
    if op.root !in w then w else
    var m := w[op.root];
    match op
    case OnPage(root, p) => w[root := PageStep(m, p)]
    case StoreByte(root, page, off, b) =>
      if page in m && UserOk(m[page].flags) && WriteOk(m[page].flags)
      then w[root := m[page := Cell(m[page].flags, SetPageByte(m[page].data, off, b))]] else w
    case Fault(root, page, off, areas) =>
      (match Rights(areas, page * 4096 + off)
       case Some((prot, true)) =>
         if page in m then w else w[root := m[page := Cell(WithPresent(AnonFlags(prot / 2 % 2 == 1)), ZeroPage())]]
       case _ => w)
    case ForkSpace(root) => w[dst := m]
  }

  // ---------- one changed page ----------

  /** Of all mapped pages only page `vpn` of `root` may have other contents. */
  ghost predicate DataKept(mem: Memory, mem': Memory, roots: set<nat>, root: nat, vpn: nat) {
    forall r, q: nat {:trigger Pte(mem', r, q)} ::
      r in roots && q < USER_PAGES && Present(Pte(mem, r, q)) && !(r == root && q == vpn) ==>
        PageAt(mem', Pte(mem, r, q) / 4096) == PageAt(mem, Pte(mem, r, q) / 4096)
  }

  /** A page's cell replaced, or removed. */
  function WithCell(m: Space, vpn: nat, c: Option<Cell>): Space {
    match c case None => m - {vpn} case Some(cell) => m[vpn := cell]
  }

  ghost function CellAt(mem: Memory, v: nat): Option<Cell> {
    if Present(v) then Some(Cell(v % 4096, PageAt(mem, v / 4096))) else None
  }

  lemma {:induction false} SpaceChanges(mem: Memory, mem': Memory, roots: set<nat>, root: nat, vpn: nat, v: nat)
    requires OnlyPage(mem, mem', roots, root, vpn, v) && DataKept(mem, mem', roots, root, vpn)
    requires root in roots && vpn < USER_PAGES
    ensures SpaceOf(mem', root) == WithCell(SpaceOf(mem, root), vpn, CellAt(mem', v))
    ensures forall r :: r in roots && r != root ==> SpaceOf(mem', r) == SpaceOf(mem, r)
  {
    hide PageAt; hide Pte;
    assert forall q: nat :: q < USER_PAGES ==> Pte(mem', root, q) == if q == vpn then v else Pte(mem, root, q);
    forall r | r in roots && r != root ensures SpaceOf(mem', r) == SpaceOf(mem, r) {
      assert forall q: nat :: q < USER_PAGES ==> Pte(mem', r, q) == Pte(mem, r, q);
    }
  }

  lemma {:induction false} WorldChanges(mem: Memory, mem': Memory, roots: set<nat>, root: nat, vpn: nat, v: nat)
    requires OnlyPage(mem, mem', roots, root, vpn, v) && DataKept(mem, mem', roots, root, vpn)
    requires root in roots && vpn < USER_PAGES
    ensures WorldOf(mem', roots) == WorldOf(mem, roots)[root := WithCell(SpaceOf(mem, root), vpn, CellAt(mem', v))]
  {
    SpaceChanges(mem, mem', roots, root, vpn, v);
    hide SpaceOf; hide OnlyPage; hide DataKept; hide CellAt; hide WithCell;
  }

  // ---------- the single steps ----------

  lemma {:induction false} LeafKept(s: Vm, roots: set<nat>, r: nat, q: nat)
    requires Healthy(s, roots) && r in roots && q < USER_PAGES && Present(Pte(s.mem, r, q))
    ensures Pristine(s, roots, Pte(s.mem, r, q) / 4096)
  {
    LeafPristine(s, roots, Node(r, 4, q));
  }

  lemma {:induction false} PristineKeepsData(s: Vm, mem': Memory, roots: set<nat>, root: nat, vpn: nat)
    requires Healthy(s, roots)
    requires forall g {:trigger PageAt(mem', g)} :: Pristine(s, roots, g) ==> PageAt(mem', g) == PageAt(s.mem, g)
    ensures DataKept(s.mem, mem', roots, root, vpn)
  {
    hide Healthy; hide Pristine; hide Pte; hide PageAt;
    forall r, q: nat | r in roots && q < USER_PAGES && Present(Pte(s.mem, r, q))
      ensures PageAt(mem', Pte(s.mem, r, q) / 4096) == PageAt(s.mem, Pte(s.mem, r, q) / 4096)
    {
      LeafKept(s, roots, r, q);
    }
  }

  /** A page operation of one space. */
  lemma {:induction false} PageOpWorld(s: Vm, roots: set<nat>, root: nat, op: PageOp)
    requires Healthy(s, roots) && root in roots && ValidOp(op) && Step(s, root, op).Some?
    ensures var s' := Step(s, root, op).value;
            Healthy(s', roots) && WorldOf(s'.mem, roots) == WorldOf(s.mem, roots)[root := PageStep(SpaceOf(s.mem, root), op)]
  {
    hide Step; hide Healthy; hide WorldOf; hide PageStep; hide SpaceOf; hide Rewritten; hide KeepsData; hide OnlyPage; hide PageAt; hide Pte;
    var s' := Step(s, root, op).value;
    match op {
      case MapNew(vpn, data, flags) =>
        MapNewCorrect(s, roots, root, vpn, data, flags);
        MappedWorld(s, s', roots, root, vpn, Grant(s), data, flags);
      case Unmap(vpn) =>
        UnmapCorrect(s, roots, root, vpn);
        RewriteWorld(s, s', roots, root, op);
      case Protect(vpn, prot) =>
        ProtectCorrect(s, roots, root, vpn, prot);
        RewriteWorld(s, s', roots, root, op);
    }
  }

  lemma {:induction false} MappedWorld(s: Vm, s': Vm, roots: set<nat>, root: nat, vpn: nat, f: nat, data: Page, flags: nat)
    requires Healthy(s, roots) && root in roots && vpn < USER_PAGES && flags < 4096
    requires KeepsData(s, s', roots) && OnlyPage(s.mem, s'.mem, roots, root, vpn, f * 4096 + WithPresent(flags))
    requires PageAt(s'.mem, f) == data
    ensures WorldOf(s'.mem, roots) == WorldOf(s.mem, roots)[root := PageStep(SpaceOf(s.mem, root), MapNew(vpn, data, flags))]
  {
    var v := f * 4096 + WithPresent(flags);
    PristineKeepsData(s, s'.mem, roots, root, vpn);
    EntryArith(f, WithPresent(flags));
    hide Healthy; hide Pristine; hide Pte; hide PageAt; hide SpaceOf; hide WorldOf; hide OnlyPage; hide KeepsData; hide DataKept;
    WorldChanges(s.mem, s'.mem, roots, root, vpn, v);
  }

  lemma {:induction false} RewriteWorld(s: Vm, s': Vm, roots: set<nat>, root: nat, op: PageOp)
    requires Healthy(s, roots) && root in roots && ValidOp(op) && !op.MapNew?
    requires Rewritten(s, s', roots, root, op.vpn, NewPte(Pte(s.mem, root, op.vpn), op, 0))
    ensures WorldOf(s'.mem, roots) == WorldOf(s.mem, roots)[root := PageStep(SpaceOf(s.mem, root), op)]
  {
    var e := Pte(s.mem, root, op.vpn);
    var v := NewPte(e, op, 0);
    PristineKeepsData(s, s'.mem, roots, root, op.vpn);
    if Present(e) { LeafKept(s, roots, root, op.vpn); }
    if op.Protect? { EntryArith(e / 4096, ProtFlags(op.prot)); }
    hide Healthy; hide Pristine; hide Pte; hide PageAt;
    WorldChanges(s.mem, s'.mem, roots, root, op.vpn, v);
    assert WithCell(SpaceOf(s.mem, root), op.vpn, CellAt(s'.mem, v)) == PageStep(SpaceOf(s.mem, root), op);
  }

  /** A user store of one space. */
  lemma {:induction false} StoreWorld(s: Vm, roots: set<nat>, root: nat, page: nat, off: Offset, b: Byte)
    requires Healthy(s, roots) && root in roots && page < USER_PAGES
    ensures var mem' := Apply(s.mem, UserStore(root, page, off, b));
            && Healthy(s.(mem := mem'), roots)
            && WorldOf(mem', roots) == WorldStep(WorldOf(s.mem, roots), StoreByte(root, page, off, b), 0)
  {
    var e, m := Pte(s.mem, root, page), SpaceOf(s.mem, root);
    assert UserOk(e % 4096) == UserOk(e) && WriteOk(e % 4096) == WriteOk(e);
    assert page in m <==> Present(e);
    assert Present(e) ==> m[page] == Cell(e % 4096, PageAt(s.mem, e / 4096));
    hide Healthy; hide Pte; hide PageAt; hide SetPageByte; hide UserOk; hide WriteOk; hide SpaceOf;
    if Store(s.mem, root, page, off, b).Done? {
      StoreStores(s, roots, root, page, off, b);
      StoredWorld(s.mem, Apply(s.mem, UserStore(root, page, off, b)), roots, root, page, SetPageByte(PageAt(s.mem, e / 4096), off, b));
    }
  }

  lemma {:induction false} StoredWorld(mem: Memory, mem': Memory, roots: set<nat>, root: nat, page: nat, pg: Page)
    requires root in roots && page < USER_PAGES && Present(Pte(mem, root, page)) && PageStored(mem, mem', roots, root, page, pg)
    ensures WorldOf(mem', roots)
         == WorldOf(mem, roots)[root := SpaceOf(mem, root)[page := Cell(Pte(mem, root, page) % 4096, pg)]]
  {
    hide Pte; hide PageAt; hide SpaceOf; hide WorldOf;
    var e := Pte(mem, root, page);
    forall r, q: nat | r in roots && q < USER_PAGES && Present(Pte(mem, r, q)) && !(r == root && q == page)
      ensures PageAt(mem', Pte(mem, r, q) / 4096) == PageAt(mem, Pte(mem, r, q) / 4096)
    {
      assert Pte(mem', r, q) == Pte(mem, r, q);
    }
    assert Pte(mem', root, page) == e;
    WorldChanges(mem, mem', roots, root, page, e);
  }

  /** A fault of one space. */
  lemma {:induction false} FaultWorld(s: State, kernel: nat, op: Op)
    requires Healthy(s.vm, s.roots) && op.Fault? && Valid(s.roots, op) && Do(s, kernel, op).Some?
    ensures var s' := Do(s, kernel, op).value;
            && Healthy(s'.vm, s'.roots) && s'.roots == s.roots
            && WorldOf(s'.vm.mem, s'.roots) == WorldStep(WorldOf(s.vm.mem, s.roots), op, 0)
  {
    hide Step; hide Healthy;
    match Rights(op.areas, op.page * 4096 + op.off) {
      case Some((prot, true)) =>
        if !Present(Pte(s.vm.mem, op.root, op.page)) {
          PageOpWorld(s.vm, s.roots, op.root, MapZero(op.page, prot / 2 % 2 == 1));
        }
      case _ =>
    }
  }

  /** A fork: the child's map is the parent's. */
  lemma {:induction false} ForkWorld(s: Vm, s': Vm, roots: set<nat>, src: nat, dst: nat)
    requires Healthy(s, roots) && src in roots && Forked(s, s', roots, src, dst)
    ensures WorldOf(s'.mem, roots + {dst}) == WorldOf(s.mem, roots)[dst := SpaceOf(s.mem, src)]
  {
    PristineKeepsData(s, s'.mem, roots, dst, 0);
    hide Healthy; hide Pristine; hide Pte; hide PageAt;
    forall r | r in roots ensures SpaceOf(s'.mem, r) == SpaceOf(s.mem, r) { SameSpace(s.mem, s'.mem, roots, r, dst); }
    CopiedSpace(s'.mem, src, dst);
    hide SpaceOf;
  }

  lemma {:induction false} CopiedSpace(mem: Memory, src: nat, dst: nat)
    requires forall v: nat {:trigger SamePage(mem, src, dst, v)} :: v < USER_PAGES ==> SamePage(mem, src, dst, v)
    ensures SpaceOf(mem, dst) == SpaceOf(mem, src)
  {
    hide Pte; hide PageAt;
    forall v: nat | v < USER_PAGES
      ensures Present(Pte(mem, src, v)) <==> Present(Pte(mem, dst, v))
      ensures Present(Pte(mem, src, v)) ==> CellAt(mem, Pte(mem, src, v)) == CellAt(mem, Pte(mem, dst, v))
    {
      assert SamePage(mem, src, dst, v);
    }
  }

  lemma {:induction false} SameSpace(mem: Memory, mem': Memory, roots: set<nat>, r: nat, dst: nat)
    requires DataKept(mem, mem', roots, dst, 0) && dst !in roots && r in roots
    requires forall q: nat {:trigger Pte(mem', r, q)} :: q < USER_PAGES ==> Pte(mem', r, q) == Pte(mem, r, q)
    ensures SpaceOf(mem', r) == SpaceOf(mem, r)
  {
    hide Pte; hide PageAt;
  }

  // ---------- every run ----------

  /** The root a fork makes. */
  ghost function NewRoot(s: State, kernel: nat, op: Op): nat {
    if op.ForkSpace? && CloneUserSpace(s.vm, kernel, op.root).Some? then CloneUserSpace(s.vm, kernel, op.root).value.0 else 0
  }

  ghost function NewRoots(s: State, kernel: nat, ops: seq<Op>): (rs: seq<nat>)
    requires Run(s, kernel, ops).Some?
    ensures |rs| == |ops|
  {
    if ops == [] then []
    else
      var init := ops[..|ops| - 1];
      NewRoots(s, kernel, init) + [NewRoot(Run(s, kernel, init).value, kernel, ops[|ops| - 1])]
  }

  function WorldRun(w: World, ops: seq<Op>, dsts: seq<nat>): World
    requires |dsts| == |ops|
  {
    if ops == [] then w
    else WorldStep(WorldRun(w, ops[..|ops| - 1], dsts[..|ops| - 1]), ops[|ops| - 1], dsts[|ops| - 1])
  }

  /** One step of any space is the same step on the page maps; a fork's new space takes nobody's place. */
  lemma {:induction false} DoIsWorldStep(s: State, kernel: nat, op: Op)
    requires Healthy(s.vm, s.roots) && Valid(s.roots, op) && Do(s, kernel, op).Some?
    ensures var s' := Do(s, kernel, op).value;
            && Healthy(s'.vm, s'.roots)
            && WorldOf(s'.vm.mem, s'.roots) == WorldStep(WorldOf(s.vm.mem, s.roots), op, NewRoot(s, kernel, op))
            && (op.ForkSpace? ==> NewRoot(s, kernel, op) !in s.roots)
  {
    hide Step; hide Healthy; hide SpaceOf;
    match op {
      case OnPage(root, p) => PageOpWorld(s.vm, s.roots, root, p);
      case StoreByte(root, page, off, b) => StoreWorld(s.vm, s.roots, root, page, off, b);
      case Fault(_, _, _, _) => FaultWorld(s, kernel, op); hide Do;
      case ForkSpace(root) =>
        ForkCorrect(s.vm, s.roots, kernel, root);
        var (dst, vm) := CloneUserSpace(s.vm, kernel, root).value;
        ForkWorld(s.vm, vm, s.roots, root, dst);
    }
  }

  /** Whatever the spaces map, unmap, protect, fault, store and fork, in any interleaving, the four-level tables over one
      pool of frames behave as one independent page map per space. */
  lemma {:induction false} RunIsWorldRun(s: State, kernel: nat, ops: seq<Op>)
    requires Healthy(s.vm, s.roots) && Run(s, kernel, ops).Some?
    ensures var s' := Run(s, kernel, ops).value;
            && Healthy(s'.vm, s'.roots)
            && WorldOf(s'.vm.mem, s'.roots) == WorldRun(WorldOf(s.vm.mem, s.roots), ops, NewRoots(s, kernel, ops))
  {
    hide Do; hide Healthy; hide NewRoot; hide WorldOf; hide WorldStep;
    if ops == [] {
    } else {
      var n := |ops| - 1;
      RunIsWorldRun(s, kernel, ops[..n]);
      var s1 := Run(s, kernel, ops[..n]).value;
      DoIsWorldStep(s1, kernel, ops[n]);
      assert NewRoots(s, kernel, ops)[..n] == NewRoots(s, kernel, ops[..n]);
    }
  }
}
