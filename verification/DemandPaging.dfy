/** Demand paging: servicing not-present faults one page at a time against mapping everything first. */
module DemandPaging {
  import opened Prelude
  import opened Frame
  import opened PageTable
  import opened Paging
  import opened UserMemory
  import opened Vma

  datatype UserOp = ReadByte(page: nat, off: Offset) | WriteByte(page: nat, off: Offset, byte: Byte)

  /** What the program notices of an access; a fault that is not serviced kills it. */
  datatype Seen = Got(byte: Byte) | Wrote | Killed

  predicate ValidUserOp(base: nat, pages: nat, op: UserOp) {
    base <= op.page < base + pages
  }

  function Touch(mem: Memory, root: nat, op: UserOp): Access<(Memory, Seen)> {
    match op
    case ReadByte(page, off) =>
      (match Load(mem, root, page, off)
       case Done(b) => Done((mem, Got(b)))
       case NotPresent => NotPresent
       case Denied => Denied)
    case WriteByte(page, off, b) =>
      (match Store(mem, root, page, off, b)
       case Done(mem') => Done((mem', Wrote))
       case NotPresent => NotPresent
       case Denied => Denied)
  }

  function AnonFlags(writable: bool): nat { PTE_USER + if writable then PTE_WRITABLE else 0 }

  /** demand_alloc_page, and one round of mmap_anon. */
  function MapZero(vpn: nat, writable: bool): PageOp { MapNew(vpn, ZeroPage(), AnonFlags(writable)) }

  /** try_demand_page: the area around the address, if lazy, decides the protection of a new zero page. */
  ghost function Service(s: Vm, root: nat, t: seq<VmaEntry>, page: nat, off: Offset): Option<Vm> {
    match Rights(t, page * 4096 + off)
    case Some((prot, true)) => Step(s, root, MapZero(page, prot / 2 % 2 == 1))
    case _ => Some(s)
  }

  /** An access with the page-fault handler behind it; None is out of memory. */
  ghost function LazyAccess(s: Vm, root: nat, t: seq<VmaEntry>, op: UserOp): Option<(Vm, Seen)> {
    match Touch(s.mem, root, op)
    case Done((mem, seen)) => Some((s.(mem := mem), seen))
    case Denied => Some((s, Killed))
    case NotPresent =>
      match Service(s, root, t, op.page, op.off)
      case None => None
      case Some(s1) =>
        match Touch(s1.mem, root, op)
        case Done((mem, seen)) => Some((s1.(mem := mem), seen))
        case _ => Some((s1, Killed))
  }

  ghost function LazyRun(s: Vm, root: nat, t: seq<VmaEntry>, ops: seq<UserOp>): Option<(Vm, seq<Seen>)> {
    if ops == [] then Some((s, []))
    else match LazyRun(s, root, t, ops[..|ops| - 1])
         case None => None
         case Some((s1, seen)) =>
           match LazyAccess(s1, root, t, ops[|ops| - 1])
           case None => None
           case Some((s2, o)) => Some((s2, seen + [o]))
  }

  function EagerRun(mem: Memory, root: nat, ops: seq<UserOp>): (Memory, seq<Seen>) {
    if ops == [] then (mem, [])
    else
      var (m, seen) := EagerRun(mem, root, ops[..|ops| - 1]);
      match Touch(m, root, ops[|ops| - 1])
      case Done((m', o)) => (m', seen + [o])
      case _ => (m, seen + [Killed])
  }

  /** mmap_anon, read-write. */
  ghost function MmapAnon(s: Vm, root: nat, vpn: nat, pages: nat): Option<Vm> { Rounds(s, root, MapZero(vpn, true), pages) }

  // ---------- the reference: plain bytes, zero until written ----------

  datatype Addr = Addr(page: nat, off: Offset)

  type Bytes = map<Addr, Byte>

  function NoBytes(): Bytes { map[] }

  function Val(m: Bytes, page: nat, off: Offset): Byte { if Addr(page, off) in m then m[Addr(page, off)] else 0 }

  function RefStep(m: Bytes, op: UserOp): (Bytes, Seen) {
    match op
    case ReadByte(page, off) => (m, Got(Val(m, page, off)))
    case WriteByte(page, off, b) => (m[Addr(page, off) := b], Wrote)
  }

  function RefRun(ops: seq<UserOp>): (Bytes, seq<Seen>) {
    if ops == [] then (NoBytes(), [])
    else
      var (m, seen) := RefRun(ops[..|ops| - 1]);
      var (m', o) := RefStep(m, ops[|ops| - 1]);
      (m', seen + [o])
  }

  /** A page with the reference's bytes. */
  ghost predicate Shows(pg: Page, m: Bytes, page: nat) {
    forall off: Offset :: PageByte(pg, off) == Val(m, page, off)
  }

  ghost predicate Untouched(m: Bytes, page: nat) { forall off: Offset :: Val(m, page, off) == 0 }

  predicate ReadWrite(e: nat) { Present(e) && UserOk(e) && WriteOk(e) }

  /** The page is mapped read-write and shows the reference's bytes. */
  ghost predicate Holds(mem: Memory, root: nat, m: Bytes, page: nat) {
    var e := Pte(mem, root, page); ReadWrite(e) && Shows(PageAt(mem, e / 4096), m, page)
  }

  ghost predicate PageBacked(mem: Memory, root: nat, m: Bytes, page: nat, lazily: bool) {
    Holds(mem, root, m, page) || (lazily && !Present(Pte(mem, root, page)) && Untouched(m, page))
  }

  /** Each page of the region holds its reference bytes, or (lazily) is unmapped and still all zero. */
  ghost predicate Backed(mem: Memory, root: nat, base: nat, pages: nat, m: Bytes, lazily: bool) {
    forall q: nat {:trigger PageBacked(mem, root, m, q, lazily)} :: base <= q < base + pages ==> PageBacked(mem, root, m, q, lazily)
  }

  lemma {:induction false} ShowsAfterWrite(pg: Page, m: Bytes, page: nat, off: Offset, b: Byte)
    requires Shows(pg, m, page)
    ensures Shows(SetPageByte(pg, off, b), m[Addr(page, off) := b], page)
  {
    forall j: Offset ensures PageByte(SetPageByte(pg, off, b), j) == Val(m[Addr(page, off) := b], page, j) {
      PageByteAfterSet(pg, off, b, j);
    }
  }

  lemma {:induction false} OtherPageSame(pg: Page, m: Bytes, page: nat, off: Offset, b: Byte, q: nat)
    requires q != page
    ensures Shows(pg, m, q) ==> Shows(pg, m[Addr(page, off) := b], q)
    ensures Untouched(m, q) ==> Untouched(m[Addr(page, off) := b], q)
  {
    var m' := m[Addr(page, off) := b];
    assert forall o: Offset {:trigger Val(m', q, o)} :: Val(m', q, o) == Val(m, q, o);
  }

  /** An access to a mapped page does what the reference does. */
  lemma {:induction false} TouchMapped(s: Vm, roots: set<nat>, root: nat, base: nat, pages: nat, m: Bytes, lazily: bool, op: UserOp)
    requires Healthy(s, roots) && root in roots && base + pages <= USER_PAGES && ValidUserOp(base, pages, op)
    requires Backed(s.mem, root, base, pages, m, lazily) && Holds(s.mem, root, m, op.page)
    ensures Touch(s.mem, root, op).Done?
    ensures var (mem', o) := Touch(s.mem, root, op).value;
            && o == RefStep(m, op).1 && Healthy(s.(mem := mem'), roots)
            && Backed(mem', root, base, pages, RefStep(m, op).0, lazily)
  {
    if op.WriteByte? {
      StoreStores(s, roots, root, op.page, op.off, op.byte);
      var mem', m' := Store(s.mem, root, op.page, op.off, op.byte).value, m[Addr(op.page, op.off) := op.byte];
      var pg := PageAt(s.mem, Pte(s.mem, root, op.page) / 4096);
      ShowsAfterWrite(pg, m, op.page, op.off, op.byte);
      StoredKeepsBacked(s.mem, mem', roots, root, base, pages, m, lazily, op, SetPageByte(pg, op.off, op.byte));
    }
  }

  lemma {:induction false} StoredKeepsBacked(mem: Memory, mem': Memory, roots: set<nat>, root: nat, base: nat, pages: nat, m: Bytes,
                                             lazily: bool, op: UserOp, pg: Page)
    requires root in roots && base + pages <= USER_PAGES && op.WriteByte? && ReadWrite(Pte(mem, root, op.page))
    requires Backed(mem, root, base, pages, m, lazily) && PageStored(mem, mem', roots, root, op.page, pg)
    requires Shows(pg, m[Addr(op.page, op.off) := op.byte], op.page)
    ensures Backed(mem', root, base, pages, m[Addr(op.page, op.off) := op.byte], lazily)
  {
    var m' := m[Addr(op.page, op.off) := op.byte];
    forall q: nat | base <= q < base + pages ensures PageBacked(mem', root, m', q, lazily) {
      assert PageBacked(mem, root, m, q, lazily) && Pte(mem', root, q) == Pte(mem, root, q);
      if q != op.page { OtherPageSame(PageAt(mem, Pte(mem, root, q) / 4096), m, op.page, op.off, op.byte, q); }
    }
  }

  lemma {:induction false} AnonPte(f: nat)
    ensures var e := f * 4096 + WithPresent(AnonFlags(true)); e / 4096 == f && ReadWrite(e)
  {
    EntryArith(f, 7);
  }

  lemma {:induction false} ZeroShows(m: Bytes, page: nat)
    requires Untouched(m, page)
    ensures Shows(ZeroPage(), m, page)
  {
    forall off: Offset ensures PageByte(ZeroPage(), off) == Val(m, page, off) { ZeroBytes(off % 8); }
  }

  /** Mapping a zero page: that page is read-write and zero, every other page of the space is as before. */
  lemma {:induction false} PageAfterMapZero(s: Vm, roots: set<nat>, root: nat, vpn: nat, q: nat)
    requires Healthy(s, roots) && root in roots && vpn < USER_PAGES && q < USER_PAGES
    requires Step(s, root, MapZero(vpn, true)).Some?
    ensures var s' := Step(s, root, MapZero(vpn, true)).value;
            var e := Pte(s'.mem, root, q);
            && Healthy(s', roots)
            && (q != vpn ==> e == Pte(s.mem, root, q))
            && (q != vpn && Present(e) ==> PageAt(s'.mem, e / 4096) == PageAt(s.mem, e / 4096))
            && (q == vpn ==> ReadWrite(e) && PageAt(s'.mem, e / 4096) == ZeroPage())
  {
    MapNewCorrect(s, roots, root, vpn, ZeroPage(), AnonFlags(true));
    AnonPte(Grant(s));
    if q != vpn && Present(Pte(s.mem, root, q)) {
      LeafPristine(s, roots, Node(root, 4, q));
    }
  }

  /** Servicing a fault keeps the region backed and makes the page present. */
  lemma {:induction false} ServiceKeepsBacked(s: Vm, roots: set<nat>, root: nat, base: nat, pages: nat, m: Bytes, vpn: nat)
    requires Healthy(s, roots) && root in roots && base <= vpn < base + pages && base + pages <= USER_PAGES
    requires Backed(s.mem, root, base, pages, m, true) && !Present(Pte(s.mem, root, vpn))
    requires Step(s, root, MapZero(vpn, true)).Some?
    ensures var s' := Step(s, root, MapZero(vpn, true)).value;
            Healthy(s', roots) && Backed(s'.mem, root, base, pages, m, true) && Holds(s'.mem, root, m, vpn)
  {
    var s' := Step(s, root, MapZero(vpn, true)).value;
    assert PageBacked(s.mem, root, m, vpn, true);
    PageBackedAfterMapZero(s, roots, root, m, vpn, vpn, false);
    forall q: nat | base <= q < base + pages ensures PageBacked(s'.mem, root, m, q, true) {
      assert PageBacked(s.mem, root, m, q, true);
      PageBackedAfterMapZero(s, roots, root, m, vpn, q, true);
    }
  }

  lemma {:induction false} PageBackedAfterMapZero(s: Vm, roots: set<nat>, root: nat, m: Bytes, vpn: nat, q: nat, lazily: bool)
    requires Healthy(s, roots) && root in roots && vpn < USER_PAGES && q < USER_PAGES && Step(s, root, MapZero(vpn, true)).Some?
    requires if q == vpn then Untouched(m, q) else PageBacked(s.mem, root, m, q, lazily)
    ensures var s' := Step(s, root, MapZero(vpn, true)).value;
            Healthy(s', roots) && PageBacked(s'.mem, root, m, q, lazily)
  {
    PageAfterMapZero(s, roots, root, vpn, q);
    if q == vpn { ZeroShows(m, vpn); }
  }

  /** Every address of the region lies in a lazy area with write permission. */
  ghost predicate LazyRegion(t: seq<VmaEntry>, base: nat, pages: nat) {
    forall page: nat, off: Offset {:trigger Rights(t, page * 4096 + off)} :: base <= page < base + pages ==>
      match Rights(t, page * 4096 + off)
      case Some((prot, lazy)) => lazy && prot / 2 % 2 == 1
      case None => false
  }

  lemma {:induction false} LazyStep(s: Vm, roots: set<nat>, root: nat, base: nat, pages: nat, t: seq<VmaEntry>, m: Bytes, op: UserOp)
    requires Healthy(s, roots) && root in roots && base + pages <= USER_PAGES && ValidUserOp(base, pages, op)
    requires LazyRegion(t, base, pages) && Backed(s.mem, root, base, pages, m, true)
    requires LazyAccess(s, root, t, op).Some?
    ensures var (s', o) := LazyAccess(s, root, t, op).value;
            && o == RefStep(m, op).1 && Healthy(s', roots)
            && Backed(s'.mem, root, base, pages, RefStep(m, op).0, true)
  {
    if Holds(s.mem, root, m, op.page) {
      TouchMapped(s, roots, root, base, pages, m, true, op);
    } else {
      assert PageBacked(s.mem, root, m, op.page, true);
      assert Service(s, root, t, op.page, op.off) == Step(s, root, MapZero(op.page, true));
      ServiceKeepsBacked(s, roots, root, base, pages, m, op.page);
      TouchMapped(Step(s, root, MapZero(op.page, true)).value, roots, root, base, pages, m, true, op);
    }
  }

  lemma {:induction false} LazyIsRef(s: Vm, roots: set<nat>, root: nat, base: nat, pages: nat, t: seq<VmaEntry>, ops: seq<UserOp>)
    requires Healthy(s, roots) && root in roots && base + pages <= USER_PAGES && LazyRegion(t, base, pages)
    requires forall i :: 0 <= i < |ops| ==> ValidUserOp(base, pages, ops[i])
    requires Backed(s.mem, root, base, pages, NoBytes(), true) && LazyRun(s, root, t, ops).Some?
    ensures var (s', seen) := LazyRun(s, root, t, ops).value;
            seen == RefRun(ops).1 && Healthy(s', roots) && Backed(s'.mem, root, base, pages, RefRun(ops).0, true)
  {
    if ops == [] {
    } else {
      var n := |ops| - 1;
      LazyIsRef(s, roots, root, base, pages, t, ops[..n]);
      LazyStep(LazyRun(s, root, t, ops[..n]).value.0, roots, root, base, pages, t, RefRun(ops[..n]).0, ops[n]);
    }
  }

  lemma {:induction false} EagerIsRef(s: Vm, roots: set<nat>, root: nat, base: nat, pages: nat, ops: seq<UserOp>)
    requires Healthy(s, roots) && root in roots && base + pages <= USER_PAGES
    requires Backed(s.mem, root, base, pages, NoBytes(), false)
    requires forall i :: 0 <= i < |ops| ==> ValidUserOp(base, pages, ops[i])
    ensures var (mem', seen) := EagerRun(s.mem, root, ops);
            seen == RefRun(ops).1 && Healthy(s.(mem := mem'), roots) && Backed(mem', root, base, pages, RefRun(ops).0, false)
  {
    if ops == [] {
    } else {
      var n := |ops| - 1;
      EagerIsRef(s, roots, root, base, pages, ops[..n]);
      var m := EagerRun(s.mem, root, ops[..n]).0;
      assert PageBacked(m, root, RefRun(ops[..n]).0, ops[n].page, false);
      TouchMapped(s.(mem := m), roots, root, base, pages, RefRun(ops[..n]).0, false, ops[n]);
    }
  }

  /** Page `vpn` became present, read-write and zero; every other page of the space is as before. */
  ghost predicate ZeroMapped(s: Vm, s': Vm, roots: set<nat>, root: nat, vpn: nat) {
    && Healthy(s', roots)
    && forall m: Bytes, q: nat {:trigger PageBacked(s'.mem, root, m, q, false)} :: q < USER_PAGES ==>
         (if q == vpn then Untouched(m, q) else PageBacked(s.mem, root, m, q, false)) ==> PageBacked(s'.mem, root, m, q, false)
  }

  lemma {:induction false} StepZeroMaps(s: Vm, s': Vm, roots: set<nat>, root: nat, vpn: nat)
    requires Healthy(s, roots) && root in roots && vpn < USER_PAGES && Step(s, root, MapZero(vpn, true)) == Some(s')
    ensures ZeroMapped(s, s', roots, root, vpn)
  {
    forall m: Bytes, q: nat | q < USER_PAGES && if q == vpn then Untouched(m, q) else PageBacked(s.mem, root, m, q, false)
      ensures PageBacked(s'.mem, root, m, q, false)
    {
      PageBackedAfterMapZero(s, roots, root, m, vpn, q, false);
    }
    PageAfterMapZero(s, roots, root, vpn, vpn);
  }

  /** The states mmap_anon passes through. */
  ghost predicate AnonTrace(states: seq<Vm>, root: nat, base: nat) {
    forall i {:trigger states[i]} :: 0 < i < |states| ==> Step(states[i - 1], root, MapZero(base + (i - 1), true)) == Some(states[i])
  }

  lemma {:induction false} AnonTraceExists(s: Vm, root: nat, base: nat, pages: nat) returns (states: seq<Vm>)
    requires MmapAnon(s, root, base, pages).Some?
    ensures |states| == pages + 1 && states[0] == s && states[pages] == MmapAnon(s, root, base, pages).value
    ensures AnonTrace(states, root, base)
  {
    hide Step;
    if pages == 0 {
      states := [s];
    } else {
      states := AnonTraceExists(s, root, base, pages - 1);
      states := states + [MmapAnon(s, root, base, pages).value];
    }
  }

  /** mmap_anon backs the pages it has reached with zeros. */
  lemma {:induction false} AnonBacks(states: seq<Vm>, roots: set<nat>, root: nat, base: nat, k: nat)
    requires k < |states| && Healthy(states[0], roots) && root in roots && base + |states| <= USER_PAGES + 1
    requires AnonTrace(states, root, base)
    ensures Healthy(states[k], roots) && Backed(states[k].mem, root, base, k, NoBytes(), false)
  {
    hide Step;
    if k == 0 {
    } else {
      AnonBacks(states, roots, root, base, k - 1);
      StepZeroMaps(states[k - 1], states[k], roots, root, base + (k - 1));
    }
  }

  /** A program in a read-write anonymous region cannot tell demand paging from a region mapped in full. */
  lemma {:induction false} LazyRefinesEager(s: Vm, roots: set<nat>, root: nat, base: nat, pages: nat, t: seq<VmaEntry>, ops: seq<UserOp>)
    requires Healthy(s, roots) && root in roots && base + pages <= USER_PAGES && LazyRegion(t, base, pages)
    requires forall q: nat :: base <= q < base + pages ==> !Present(Pte(s.mem, root, q))
    requires forall i :: 0 <= i < |ops| ==> ValidUserOp(base, pages, ops[i])
    requires LazyRun(s, root, t, ops).Some? && MmapAnon(s, root, base, pages).Some?
    ensures LazyRun(s, root, t, ops).value.1 == EagerRun(MmapAnon(s, root, base, pages).value.mem, root, ops).1
  {
    LazyIsRef(s, roots, root, base, pages, t, ops);
    var states := AnonTraceExists(s, root, base, pages);
    AnonBacks(states, roots, root, base, pages);
    EagerIsRef(MmapAnon(s, root, base, pages).value, roots, root, base, pages, ops);
  }

  /** Registering the region as one lazy read-write area makes it a lazy region, unless that very area has to go at once. */
  lemma {:induction false} InsertMakesLazyRegion(t: seq<VmaEntry>, base: nat, pages: nat, prot: nat)
    requires var e := VmaEntry(base * 4096, pages, prot, true, true);
             Insertable(t, e) && !(Displaces(t, e) && Victim(t, e) == e)
    requires prot / 2 % 2 == 1
    ensures LazyRegion(Insert(t, VmaEntry(base * 4096, pages, prot, true, true)), base, pages)
  {
    var e := VmaEntry(base * 4096, pages, prot, true, true);
    forall page: nat, off: Offset {:trigger Rights(Insert(t, e), page * 4096 + off)} | base <= page < base + pages
      ensures Rights(Insert(t, e), page * 4096 + off) == Some((prot, true))
    {
      assert page * 4096 + off < base * 4096 + pages * 4096;
      InsertFinds(t, e, page * 4096 + off);
      if Displaces(t, e) { VictimApart(t, e, page * 4096 + off); }
    }
  }
}
