/** The paging operations on physical memory and the frame pool, and the flat page map they implement. */
module Paging {
  import opened Prelude
  import opened Frame
  import opened PageTable

  /** Physical memory and the free-frame pool. */
  datatype Vm = Vm(mem: Memory, free: set<nat>)

  ghost predicate Healthy(s: Vm, roots: set<nat>) { Inv(s.mem, roots, s.free) }

  // ---------- operations; None is the out-of-memory panic ----------

  /** alloc_frame, then fill the frame. */
  ghost function AllocFilled(s: Vm, data: Page): Option<(nat, Vm)> {
    if s.free == {} then None
    else var f := LeastFree(s.free); Some((f, Vm(s.mem[f := data], s.free - {f})))
  }

  /** Allocate and fill a frame, then enter it in slot `i` of the table in frame `table`. */
  ghost function Attach(s: Vm, table: nat, i: nat, data: Page, flags: nat): Option<(nat, Vm)>
    requires i < 512
  {
    match AllocFilled(s, data)
    case None => None
    case Some((f, s1)) => Some((f, s1.(mem := Put(s1.mem, table, i, f * 4096 + flags))))
  }

  ghost function GetOrCreate(s: Vm, table: nat, i: nat): Option<(nat, Vm)>
    requires i < 512
  {
    var e := PageAt(s.mem, table)[i];
    if Present(e) then Some((e / 4096, s)) else Attach(s, table, i, ZeroPage(), MID_FLAGS)
  }

  /** flags | PTE_PRESENT */
  function WithPresent(flags: nat): nat { if flags % 2 == 0 then flags + 1 else flags }

  /** The first three steps of map_4k: find or build the page table that holds `vpn`. */
  ghost function TableFor(s: Vm, root: nat, vpn: nat): Option<(nat, Vm)> {
    match GetOrCreate(s, root, vpn / 0x800_0000 % 512)
    case None => None
    case Some((pdpt, s1)) =>
      match GetOrCreate(s1, pdpt, vpn / 0x4_0000 % 512)
      case None => None
      case Some((pd, s2)) => GetOrCreate(s2, pd, vpn / 0x200 % 512)
  }

  ghost function Map4k(s: Vm, root: nat, vpn: nat, frame: nat, flags: nat): Option<Vm> {
    match TableFor(s, root, vpn)
    case None => None
    case Some((pt, s1)) => Some(s1.(mem := Put(s1.mem, pt, vpn % 512, frame * 4096 + WithPresent(flags))))
  }

  datatype PageOp =
    | MapNew(vpn: nat, data: Page, flags: nat)  // a fresh frame holding `data`: one round of mmap_map, mmap_anon, demand_alloc_page, load_so_at
    | Unmap(vpn: nat)                           // one round of munmap_pages
    | Protect(vpn: nat, prot: nat)              // one round of set_page_prot

  /** The permission bits set_page_prot writes, 0 for PROT_NONE. */
  function ProtFlags(prot: nat): nat {
    if prot == 0 then 0 else PTE_PRESENT + PTE_USER + if prot / 2 % 2 == 1 then PTE_WRITABLE else 0
  }

  ghost function Step(s: Vm, root: nat, op: PageOp): Option<Vm> {
    match op
    case MapNew(vpn, data, flags) =>
      (match AllocFilled(s, data)
       case None => None
       case Some((f, s1)) => Map4k(s1, root, vpn, f, flags))
    case Unmap(vpn) =>
      var e := Pte(s.mem, root, vpn);
      if !Present(e) then Some(s)
      else Some(Vm(Write(s.mem, Node(root, 4, vpn), 0),
                   if e / 4096 < MAX_FRAMES then s.free + {e / 4096} else s.free))
    case Protect(vpn, prot) =>
      var e := Pte(s.mem, root, vpn);
      if !Present(e) then Some(s)
      else Some(s.(mem := Write(s.mem, Node(root, 4, vpn), e / 4096 * 4096 + ProtFlags(prot))))
  }

  ghost function Run(s: Vm, root: nat, ops: seq<PageOp>): Option<Vm> {
    if ops == [] then Some(s)
    else match Run(s, root, ops[..|ops| - 1])
         case None => None
         case Some(s1) => Step(s1, root, ops[|ops| - 1])
  }

  function Shift(op: PageOp, i: nat): PageOp { op.(vpn := op.vpn + i) }

  /** The loops of mmap_anon, munmap_pages and set_page_prot: the same operation on consecutive pages. */
  ghost function Rounds(s: Vm, root: nat, op: PageOp, pages: nat): Option<Vm> {
    if pages == 0 then Some(s)
    else match Rounds(s, root, op, pages - 1)
         case None => None
         case Some(s1) => Step(s1, root, Shift(op, pages - 1))
  }

  // ---------- what building tables keeps ----------

  /** `g` is allocated and is not the home of any table. */
  ghost predicate Pristine(s: Vm, roots: set<nat>, g: nat) {
    g !in s.free && forall n {:trigger Home(s.mem, n)} :: Live(s.mem, roots, n) && n.d < 4 ==> Home(s.mem, n) != g
  }

  /** `g` is allocated and mapped nowhere. */
  ghost predicate Spare(s: Vm, roots: set<nat>, g: nat) {
    g !in s.free && forall n {:trigger Home(s.mem, n)} :: Live(s.mem, roots, n) ==> Home(s.mem, n) != g
  }

  /** Only free frames and tables were touched: every data frame still holds what it held. */
  ghost predicate KeepsData(s: Vm, s': Vm, roots: set<nat>) {
    forall g {:trigger Pristine(s', roots, g)} {:trigger PageAt(s'.mem, g)} ::
      Pristine(s, roots, g) ==> Pristine(s', roots, g) && PageAt(s'.mem, g) == PageAt(s.mem, g)
  }

  ghost predicate KeepsSpare(s: Vm, s': Vm, roots: set<nat>) {
    forall g {:trigger Spare(s', roots, g)} :: Spare(s, roots, g) ==> Spare(s', roots, g)
  }

  /** Tables may have been added, nothing else: all data, all spare frames and all PTEs are as before. */
  ghost predicate Grown(s: Vm, s': Vm, roots: set<nat>) {
    && KeepsData(s, s', roots) && KeepsSpare(s, s', roots) && s'.free <= s.free
    && forall r, q: nat {:trigger Pte(s'.mem, r, q)} :: r in roots && q < USER_PAGES ==> Pte(s'.mem, r, q) == Pte(s.mem, r, q)
  }

  /** `f` left the pool and holds `data`; nothing mapped changed. */
  ghost predicate Filled(s: Vm, s1: Vm, roots: set<nat>, f: nat, data: Page) {
    && Healthy(s1, roots) && SameTree(s.mem, s1.mem, roots)
    && f in s.free && s1.free == s.free - {f} && Spare(s1, roots, f) && f < MAX_FRAMES && PageAt(s1.mem, f) == data
    && KeepsData(s, s1, roots) && KeepsSpare(s, s1, roots)
  }

  lemma {:induction false} AllocFilledKeeps(s: Vm, roots: set<nat>, data: Page)
    requires Healthy(s, roots) && s.free != {}
    ensures var (f, s1) := AllocFilled(s, data).value;
            Filled(s, s1, roots, f, data)
  {
    var f := LeastFree(s.free);
    var s1 := AllocFilled(s, data).value.1;
    FillKeepsTree(s.mem, roots, f, data);
    SameTreeKeepsInv(s.mem, s1.mem, roots, s.free, s1.free);
    SameTreeLive(s.mem, s1.mem, roots);
  }

  lemma {:induction false} SameTreeLive(mem: Memory, mem': Memory, roots: set<nat>)
    requires SameTree(mem, mem', roots)
    ensures forall m {:trigger Live(mem', roots, m)} :: Live(mem', roots, m) == Live(mem, roots, m)
    ensures forall m {:trigger Home(mem', m)} :: Live(mem', roots, m) ==> Home(mem', m) == Home(mem, m)
  {
  }

  /** Liveness and homes after one entry changed. */
  lemma {:induction false} ChangedLive(mem: Memory, mem': Memory, roots: set<nat>, n: Node, v: nat)
    requires Changed(mem, mem', roots, n, v) && n.root in roots && InUser(n)
    ensures forall m {:trigger Live(mem', roots, m)} :: Live(mem', roots, m) == if m == n then Present(v) else Live(mem, roots, m)
    ensures forall m {:trigger Home(mem', m)} :: Live(mem', roots, m) ==> Home(mem', m) == if m == n then v / 4096 else Home(mem, m)
  {
  }

  lemma {:induction false} EntryArith(f: nat, flags: nat)
    requires flags < 4096
    ensures (f * 4096 + flags) / 4096 == f && (f * 4096 + flags) % 4096 == flags
    ensures (f * 4096 + flags) % 2 == flags % 2
  {
  }

  /** Position `n` now holds `v`, naming the spare frame `f`; all else is as it was. */
  ghost predicate Linked(s: Vm, s': Vm, roots: set<nat>, n: Node, f: nat, v: nat) {
    && Healthy(s', roots) && Changed(s.mem, s'.mem, roots, n, v)
    && Live(s'.mem, roots, n) && Home(s'.mem, n) == f && PageAt(s'.mem, f) == PageAt(s.mem, f)
    && (forall g {:trigger Spare(s', roots, g)} :: g != f && Spare(s, roots, g) ==> Spare(s', roots, g))
    && (forall g {:trigger Pristine(s', roots, g)} {:trigger PageAt(s'.mem, g)} ::
          g != f && Pristine(s, roots, g) ==> Pristine(s', roots, g) && PageAt(s'.mem, g) == PageAt(s.mem, g))
  }

  lemma {:induction false} LinkSpare(s: Vm, roots: set<nat>, n: Node, f: nat, v: nat)
    requires Healthy(s, roots) && InUser(n) && Live(s.mem, roots, Parent(n))
    requires Spare(s, roots, f) && f < MAX_FRAMES && v / 4096 == f && Present(v)
    requires n.d < 4 ==> !Present(Ent(s.mem, n)) && PageAt(s.mem, f) == ZeroPage() && v % 4096 == MID_FLAGS
    ensures Linked(s, s.(mem := Write(s.mem, n, v)), roots, n, f, v)
  {
    var s' := s.(mem := Write(s.mem, n, v));
    WriteChanges(s.mem, roots, n, v);
    ChangeKeepsInv(s.mem, s'.mem, roots, s.free, s.free, n, v);
    ChangedLive(s.mem, s'.mem, roots, n, v);
    assert f != Home(s.mem, Parent(n));
  }

  /** A fresh frame holding `data` hangs at `n`; nothing else is seen to change. */
  ghost predicate Attached(s: Vm, s': Vm, roots: set<nat>, n: Node, f: nat, data: Page, flags: nat) {
    && Healthy(s', roots) && Changed(s.mem, s'.mem, roots, n, f * 4096 + flags) && f in s.free && s'.free == s.free - {f}
    && Live(s'.mem, roots, n) && Home(s'.mem, n) == f && PageAt(s'.mem, f) == data
    && KeepsData(s, s', roots) && KeepsSpare(s, s', roots)
  }

  lemma {:induction false} AttachCorrect(s: Vm, roots: set<nat>, n: Node, data: Page, flags: nat)
    requires Healthy(s, roots) && InUser(n) && Live(s.mem, roots, Parent(n)) && s.free != {}
    requires flags < 4096 && flags % 2 == 1
    requires n.d < 4 ==> !Present(Ent(s.mem, n)) && data == ZeroPage() && flags == MID_FLAGS
    ensures var (f, s') := Attach(s, Home(s.mem, Parent(n)), n.p % 512, data, flags).value;
            Attached(s, s', roots, n, f, data, flags)
  {
    AllocFilledKeeps(s, roots, data);
    var (f, s1) := AllocFilled(s, data).value;
    var v := f * 4096 + flags;
    EntryArith(f, flags);
    LinkFresh(s, s1, roots, n, f, data, v);
  }

  lemma {:induction false} LinkFresh(s: Vm, s1: Vm, roots: set<nat>, n: Node, f: nat, data: Page, v: nat)
    requires Filled(s, s1, roots, f, data) && InUser(n) && Live(s.mem, roots, Parent(n)) && v / 4096 == f && Present(v)
    requires n.d < 4 ==> !Present(Ent(s.mem, n)) && data == ZeroPage() && v % 4096 == MID_FLAGS
    ensures Linked(s1, s1.(mem := Put(s1.mem, Home(s.mem, Parent(n)), n.p % 512, v)), roots, n, f, v)
  {
    SameTreeLive(s.mem, s1.mem, roots);
    LinkSpare(s1, roots, n, f, v);
  }

  lemma {:induction false} TableChangeKeepsPtes(mem: Memory, mem': Memory, roots: set<nat>, n: Node, v: nat)
    requires n.d < 4 && Changed(mem, mem', roots, n, v)
    ensures forall r, q: nat {:trigger Pte(mem', r, q)} :: r in roots && q < USER_PAGES ==> Pte(mem', r, q) == Pte(mem, r, q)
  {
    forall r, q: nat | r in roots && q < USER_PAGES ensures Pte(mem', r, q) == Pte(mem, r, q) {
      assert InUser(Node(r, 4, q));
    }
  }

  /** Table `t` stands at position `n`. */
  ghost predicate TableReady(s: Vm, s': Vm, roots: set<nat>, n: Node, t: nat) {
    Healthy(s', roots) && Live(s'.mem, roots, n) && Home(s'.mem, n) == t && Grown(s, s', roots)
  }

  lemma {:induction false} AttachedTableReady(s: Vm, s': Vm, roots: set<nat>, n: Node, f: nat)
    requires Attached(s, s', roots, n, f, ZeroPage(), MID_FLAGS) && n.d < 4
    ensures TableReady(s, s', roots, n, f)
  {
    TableChangeKeepsPtes(s.mem, s'.mem, roots, n, f * 4096 + MID_FLAGS);
  }

  lemma {:induction false} GetOrCreateCorrect(s: Vm, roots: set<nat>, n: Node)
    requires Healthy(s, roots) && InUser(n) && n.d < 4 && Live(s.mem, roots, Parent(n))
    requires GetOrCreate(s, Home(s.mem, Parent(n)), n.p % 512).Some?
    ensures var (t, s') := GetOrCreate(s, Home(s.mem, Parent(n)), n.p % 512).value;
            TableReady(s, s', roots, n, t)
  {
    EntInParent(s.mem, roots, n);
    if !Present(Ent(s.mem, n)) {
      AttachCorrect(s, roots, n, ZeroPage(), MID_FLAGS);
      var (f, s') := Attach(s, Home(s.mem, Parent(n)), n.p % 512, ZeroPage(), MID_FLAGS).value;
      AttachedTableReady(s, s', roots, n, f);
    }
  }

  /** All pages of all spaces keep their PTE, except page `vpn` of `root`, which gets `v`. */
  ghost predicate OnlyPage(mem: Memory, mem': Memory, roots: set<nat>, root: nat, vpn: nat, v: nat) {
    forall r, q: nat {:trigger Pte(mem', r, q)} :: r in roots && q < USER_PAGES ==>
      Pte(mem', r, q) == if r == root && q == vpn then v else Pte(mem, r, q)
  }

  /** map_4k before it writes the leaf: same pages everywhere, the leaf's table in place. */
  lemma {:induction false} TableForCorrect(s: Vm, roots: set<nat>, root: nat, vpn: nat)
    requires Healthy(s, roots) && root in roots && vpn < USER_PAGES && TableFor(s, root, vpn).Some?
    ensures var (pt, s') := TableFor(s, root, vpn).value;
            TableReady(s, s', roots, Node(root, 3, vpn / 0x200), pt)
  {
    NodeOfPage(root, vpn);
    assert Live(s.mem, roots, Node(root, 0, 0));
    GetOrCreateCorrect(s, roots, Node(root, 1, vpn / 0x800_0000));
    var (pdpt, s1) := GetOrCreate(s, root, vpn / 0x800_0000 % 512).value;
    GetOrCreateCorrect(s1, roots, Node(root, 2, vpn / 0x4_0000));
    var (pd, s2) := GetOrCreate(s1, pdpt, vpn / 0x4_0000 % 512).value;
    GetOrCreateCorrect(s2, roots, Node(root, 3, vpn / 0x200));
  }

  /** From `s` to `s'` one page was mapped: frame `f`, PTE `v`. */
  ghost predicate Mapped(s: Vm, s': Vm, roots: set<nat>, root: nat, vpn: nat, f: nat, v: nat) {
    && Healthy(s', roots) && OnlyPage(s.mem, s'.mem, roots, root, vpn, v) && s'.free <= s.free
    && forall g {:trigger Pristine(s', roots, g)} {:trigger PageAt(s'.mem, g)} ::
         (Pristine(s, roots, g) && g != f) || g == f ==> PageAt(s'.mem, g) == PageAt(s.mem, g) && Pristine(s', roots, g)
  }

  lemma {:induction false} MappedLeaf(s: Vm, s1: Vm, s': Vm, roots: set<nat>, root: nat, vpn: nat, f: nat, v: nat)
    requires Grown(s, s1, roots) && Linked(s1, s', roots, Node(root, 4, vpn), f, v) && s'.free <= s1.free
    requires Spare(s, roots, f)
    ensures Mapped(s, s', roots, root, vpn, f, v)
  {
    assert Pristine(s, roots, f) && Pristine(s1, roots, f);
    LeafChangeIsOnlyPage(s1.mem, s'.mem, roots, root, vpn, v);
    LeafPristine(s', roots, Node(root, 4, vpn));
  }

  lemma {:induction false} LeafPristine(s: Vm, roots: set<nat>, n: Node)
    requires Healthy(s, roots) && Live(s.mem, roots, n) && n.d == 4
    ensures Pristine(s, roots, Home(s.mem, n))
  {
  }

  /** map_4k with a spare frame maps exactly that page. */
  lemma {:induction false} Map4kCorrect(s: Vm, roots: set<nat>, root: nat, vpn: nat, frame: nat, flags: nat)
    requires Healthy(s, roots) && root in roots && vpn < USER_PAGES
    requires Spare(s, roots, frame) && frame < MAX_FRAMES && flags < 4096
    requires Map4k(s, root, vpn, frame, flags).Some?
    ensures Mapped(s, Map4k(s, root, vpn, frame, flags).value, roots, root, vpn, frame, frame * 4096 + WithPresent(flags))
  {
    TableForCorrect(s, roots, root, vpn);
    NodeOfPage(root, vpn);
    var s1 := TableFor(s, root, vpn).value.1;
    var v := frame * 4096 + WithPresent(flags);
    EntryArith(frame, WithPresent(flags));
    LinkSpare(s1, roots, Node(root, 4, vpn), frame, v);
    MappedLeaf(s, s1, s1.(mem := Write(s1.mem, Node(root, 4, vpn), v)), roots, root, vpn, frame, v);
  }

  // ---------- one operation, one page ----------

  predicate ValidOp(op: PageOp) { op.vpn < USER_PAGES && (op.MapNew? ==> op.flags < 4096) }

  /** The PTE an operation leaves at its page, given the one it finds and the frame a new mapping gets. */
  function NewPte(e: nat, op: PageOp, grant: nat): nat {
    match op
    case MapNew(_, _, flags) => grant * 4096 + WithPresent(flags)
    case Unmap(_) => if Present(e) then 0 else e
    case Protect(_, prot) => if Present(e) then e / 4096 * 4096 + ProtFlags(prot) else e
  }

  ghost function Grant(s: Vm): nat { if s.free == {} then 0 else LeastFree(s.free) }

  lemma {:induction false} MapNewCorrect(s: Vm, roots: set<nat>, root: nat, vpn: nat, data: Page, flags: nat)
    requires Healthy(s, roots) && root in roots && vpn < USER_PAGES && flags < 4096
    requires Step(s, root, MapNew(vpn, data, flags)).Some?
    ensures var s' := Step(s, root, MapNew(vpn, data, flags)).value;
            && Healthy(s', roots) && KeepsData(s, s', roots)
            && OnlyPage(s.mem, s'.mem, roots, root, vpn, Grant(s) * 4096 + WithPresent(flags))
            && PageAt(s'.mem, Grant(s)) == data && Grant(s) in s.free
  {
    AllocFilledKeeps(s, roots, data);
    var (f, s1) := AllocFilled(s, data).value;
    Map4kCorrect(s1, roots, root, vpn, f, flags);
    MapNewJoin(s, s1, Step(s, root, MapNew(vpn, data, flags)).value, roots, root, vpn, f, f * 4096 + WithPresent(flags));
  }

  lemma {:induction false} MapNewJoin(s: Vm, s1: Vm, s': Vm, roots: set<nat>, root: nat, vpn: nat, f: nat, v: nat)
    requires SameTree(s.mem, s1.mem, roots) && KeepsData(s, s1, roots) && Mapped(s1, s', roots, root, vpn, f, v)
    ensures KeepsData(s, s', roots) && OnlyPage(s.mem, s'.mem, roots, root, vpn, v)
    ensures PageAt(s'.mem, f) == PageAt(s1.mem, f)
  {
    forall r, q: nat | r in roots && q < USER_PAGES ensures Pte(s1.mem, r, q) == Pte(s.mem, r, q) {
      assert InUser(Node(r, 4, q));
    }
  }

  /** A mapped page was unmapped or re-protected: PTE `v` now; contents of all data frames are as before. */
  ghost predicate Rewritten(s: Vm, s': Vm, roots: set<nat>, root: nat, vpn: nat, v: nat) {
    && Healthy(s', roots) && OnlyPage(s.mem, s'.mem, roots, root, vpn, v)
    && forall g {:trigger Pristine(s', roots, g)} {:trigger PageAt(s'.mem, g)} ::
         Pristine(s, roots, g) ==> PageAt(s'.mem, g) == PageAt(s.mem, g) && (g !in s'.free ==> Pristine(s', roots, g))
  }

  /** Replacing a mapped leaf by one that drops its frame or keeps it; a dropped frame may join the pool. */
  lemma {:induction false} RewriteLeaf(s: Vm, roots: set<nat>, root: nat, vpn: nat, v: nat, free': set<nat>)
    requires Healthy(s, roots) && root in roots && vpn < USER_PAGES && Present(Pte(s.mem, root, vpn))
    requires if Present(v) then v / 4096 == Pte(s.mem, root, vpn) / 4096 && free' == s.free
             else free' == s.free || free' == s.free + {Pte(s.mem, root, vpn) / 4096}
    ensures Rewritten(s, Vm(Write(s.mem, Node(root, 4, vpn), v), free'), roots, root, vpn, v)
  {
    var n := Node(root, 4, vpn);
    var s' := Vm(Write(s.mem, n, v), free');
    assert Home(s.mem, n) == Pte(s.mem, root, vpn) / 4096;
    WriteChanges(s.mem, roots, n, v);
    ChangeKeepsInv(s.mem, s'.mem, roots, s.free, free', n, v);
    ChangedLive(s.mem, s'.mem, roots, n, v);
    LeafChangeIsOnlyPage(s.mem, s'.mem, roots, root, vpn, v);
  }

  lemma {:induction false} LeafChangeIsOnlyPage(mem: Memory, mem': Memory, roots: set<nat>, root: nat, vpn: nat, v: nat)
    requires Changed(mem, mem', roots, Node(root, 4, vpn), v)
    ensures OnlyPage(mem, mem', roots, root, vpn, v)
  {
    forall r, q: nat | r in roots && q < USER_PAGES
      ensures Pte(mem', r, q) == if r == root && q == vpn then v else Pte(mem, r, q)
    {
      assert InUser(Node(r, 4, q));
    }
  }

  lemma {:induction false} UnmapCorrect(s: Vm, roots: set<nat>, root: nat, vpn: nat)
    requires Healthy(s, roots) && root in roots && vpn < USER_PAGES
    ensures Rewritten(s, Step(s, root, Unmap(vpn)).value, roots, root, vpn, NewPte(Pte(s.mem, root, vpn), Unmap(vpn), 0))
    ensures Present(Pte(s.mem, root, vpn)) ==>
              Step(s, root, Unmap(vpn)).value.free == s.free + {Pte(s.mem, root, vpn) / 4096}
  {
    var e := Pte(s.mem, root, vpn);
    if Present(e) {
      RewriteLeaf(s, roots, root, vpn, 0, s.free + {e / 4096});
    }
  }

  lemma {:induction false} ProtectCorrect(s: Vm, roots: set<nat>, root: nat, vpn: nat, prot: nat)
    requires Healthy(s, roots) && root in roots && vpn < USER_PAGES
    ensures Rewritten(s, Step(s, root, Protect(vpn, prot)).value, roots, root, vpn,
                      NewPte(Pte(s.mem, root, vpn), Protect(vpn, prot), 0))
  {
    var e := Pte(s.mem, root, vpn);
    if Present(e) {
      EntryArith(e / 4096, ProtFlags(prot));
      RewriteLeaf(s, roots, root, vpn, e / 4096 * 4096 + ProtFlags(prot), s.free);
    }
  }

  /** Every operation keeps all address spaces healthy and touches the PTE of its own page only. */
  lemma {:induction false} StepCorrect(s: Vm, roots: set<nat>, root: nat, op: PageOp)
    requires Healthy(s, roots) && root in roots && ValidOp(op) && Step(s, root, op).Some?
    ensures var s' := Step(s, root, op).value;
            && Healthy(s', roots)
            && OnlyPage(s.mem, s'.mem, roots, root, op.vpn, NewPte(Pte(s.mem, root, op.vpn), op, Grant(s)))
  {
    match op
    case MapNew(vpn, data, flags) => MapNewCorrect(s, roots, root, vpn, data, flags);
    case Unmap(vpn) => UnmapCorrect(s, roots, root, vpn);
    case Protect(vpn, prot) => ProtectCorrect(s, roots, root, vpn, prot);
  }

  // ---------- the flat page map ----------

  datatype FlatPte = FlatPte(frame: nat, flags: nat)
  type FlatMap = map<nat, FlatPte>

  /** What the four-level tree of `root` says about the user half. */
  ghost function Flat(mem: Memory, root: nat): FlatMap {
    map v: nat | v < USER_PAGES && Present(Pte(mem, root, v)) :: FlatPte(Pte(mem, root, v) / 4096, Pte(mem, root, v) % 4096)
  }

  /** The operations on a flat map. */
  function FlatStep(m: FlatMap, op: PageOp, grant: nat): FlatMap {
    match op
    case MapNew(vpn, _, flags) => m[vpn := FlatPte(grant, WithPresent(flags))]
    case Unmap(vpn) => m - {vpn}
    case Protect(vpn, prot) =>
      if vpn !in m then m else if prot == 0 then m - {vpn}
      else m[vpn := FlatPte(m[vpn].frame, ProtFlags(prot))]
  }

  function FlatRun(m: FlatMap, ops: seq<PageOp>, grants: seq<nat>): FlatMap
    requires |grants| == |ops|
  {
    if ops == [] then m
    else FlatStep(FlatRun(m, ops[..|ops| - 1], grants[..|ops| - 1]), ops[|ops| - 1], grants[|ops| - 1])
  }

  /** The frame on offer at each step of a run. */
  ghost function Grants(s: Vm, root: nat, ops: seq<PageOp>): (gs: seq<nat>)
    requires Run(s, root, ops).Some?
    ensures |gs| == |ops|
  {
    if ops == [] then []
    else Grants(s, root, ops[..|ops| - 1]) + [Grant(Run(s, root, ops[..|ops| - 1]).value)]
  }

  function FlatPut(m: FlatMap, vpn: nat, v: nat): FlatMap {
    if Present(v) then m[vpn := FlatPte(v / 4096, v % 4096)] else m - {vpn}
  }

  /** One changed PTE, in flat terms. */
  lemma {:induction false} FlatAfterWrite(mem: Memory, mem': Memory, roots: set<nat>, root: nat, vpn: nat, v: nat)
    requires OnlyPage(mem, mem', roots, root, vpn, v) && root in roots && vpn < USER_PAGES
    ensures Flat(mem', root) == FlatPut(Flat(mem, root), vpn, v)
  {
    assert Pte(mem', root, vpn) == v;
    assert forall q: nat :: q < USER_PAGES && q != vpn ==> Pte(mem', root, q) == Pte(mem, root, q);
  }

  lemma {:induction false} FlatElsewhere(mem: Memory, mem': Memory, roots: set<nat>, root: nat, vpn: nat, v: nat, r: nat)
    requires OnlyPage(mem, mem', roots, root, vpn, v) && r in roots && r != root
    ensures Flat(mem', r) == Flat(mem, r)
  {
    assert forall q: nat :: q < USER_PAGES ==> Pte(mem', r, q) == Pte(mem, r, q);
  }

  lemma {:induction false} NewPteIsFlatStep(m: FlatMap, e: nat, op: PageOp, grant: nat)
    requires ValidOp(op) && (op.vpn in m <==> Present(e))
    requires op.vpn in m ==> m[op.vpn] == FlatPte(e / 4096, e % 4096)
    ensures FlatPut(m, op.vpn, NewPte(e, op, grant)) == FlatStep(m, op, grant)
  {
    match op {
      case MapNew(_, _, flags) => EntryArith(grant, WithPresent(flags));
      case Unmap(_) =>
      case Protect(_, prot) => EntryArith(e / 4096, ProtFlags(prot));
    }
  }

  lemma {:induction false} FlatAfterStep(s: Vm, roots: set<nat>, root: nat, op: PageOp)
    requires Healthy(s, roots) && root in roots && ValidOp(op) && Step(s, root, op).Some?
    ensures var s' := Step(s, root, op).value;
            && Healthy(s', roots) && Flat(s'.mem, root) == FlatStep(Flat(s.mem, root), op, Grant(s))
            && forall r :: r in roots && r != root ==> Flat(s'.mem, r) == Flat(s.mem, r)
  {
    StepCorrect(s, roots, root, op);
    var s' := Step(s, root, op).value;
    var v := NewPte(Pte(s.mem, root, op.vpn), op, Grant(s));
    FlatAfterWrite(s.mem, s'.mem, roots, root, op.vpn, v);
    NewPteIsFlatStep(Flat(s.mem, root), Pte(s.mem, root, op.vpn), op, Grant(s));
    forall r | r in roots && r != root ensures Flat(s'.mem, r) == Flat(s.mem, r) {
      FlatElsewhere(s.mem, s'.mem, roots, root, op.vpn, v, r);
    }
  }

  /** Every run of operations on one space is the same run on a flat page map; the other spaces see nothing. */
  lemma {:induction false} RunIsFlat(s: Vm, roots: set<nat>, root: nat, ops: seq<PageOp>)
    requires Healthy(s, roots) && root in roots && Run(s, root, ops).Some?
    requires forall i :: 0 <= i < |ops| ==> ValidOp(ops[i])
    ensures var s' := Run(s, root, ops).value;
            && Healthy(s', roots)
            && Flat(s'.mem, root) == FlatRun(Flat(s.mem, root), ops, Grants(s, root, ops))
            && forall r :: r in roots && r != root ==> Flat(s'.mem, r) == Flat(s.mem, r)
  {
    if ops == [] {
    } else {
      var n := |ops| - 1;
      RunIsFlat(s, roots, root, ops[..n]);
      var s1 := Run(s, root, ops[..n]).value;
      FlatAfterStep(s1, roots, root, ops[n]);
      assert Grants(s, root, ops)[..n] == Grants(s, root, ops[..n]);
    }
  }

  function Shifted(op: PageOp, pages: nat): seq<PageOp> { seq(pages, i requires 0 <= i => Shift(op, i)) }

  /** A loop over pages is the run of its rounds, so RunIsFlat speaks about it. */
  lemma {:induction false} RoundsIsRun(s: Vm, root: nat, op: PageOp, pages: nat)
    ensures Rounds(s, root, op, pages) == Run(s, root, Shifted(op, pages))
  {
    if pages == 0 {
    } else {
      RoundsIsRun(s, root, op, pages - 1);
      assert Shifted(op, pages)[..pages - 1] == Shifted(op, pages - 1);
    }
  }

  /** Two different pages, of the same or of different spaces, never share a frame, and no mapped frame is free. */
  lemma {:induction false} FlatFramesDistinct(s: Vm, roots: set<nat>, r: nat, v: nat, r': nat, v': nat)
    requires Healthy(s, roots) && r in roots && r' in roots && v in Flat(s.mem, r) && v' in Flat(s.mem, r')
    ensures Flat(s.mem, r)[v].frame !in s.free
    ensures Flat(s.mem, r)[v].frame == Flat(s.mem, r')[v'].frame ==> r == r' && v == v'
  {
    assert Home(s.mem, Node(r, 4, v)) == Pte(s.mem, r, v) / 4096;
    assert Home(s.mem, Node(r', 4, v')) == Pte(s.mem, r', v') / 4096;
  }
}
