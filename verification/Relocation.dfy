/** resolve_all: the symbol map over all loaded libraries, and the relocations patched through the page walk. */
module Relocation {
  import opened Prelude
  import opened Frame
  import opened PageTable
  import opened Paging
  import opened UserMemory

  type Name = seq<Byte>

  /** A dynamic symbol; `name` is None when it points outside the file. */
  datatype Sym = Sym(name: Option<Name>, utf8: bool, undef: bool, value: nat)

  datatype Kind = Relative | Abs64 | GlobDat | JumpSlot | Unsupported

  datatype Rela = Rela(offset: nat, sym: nat, kind: Kind, addend: int)

  datatype SharedLib = SharedLib(base: nat, syms: seq<Sym>, rela: seq<Rela>, plt: seq<Rela>)

  datatype Export = Export(name: Name, va: nat)

  // ---------- the symbol map ----------

  predicate Exported(sym: Sym) { !sym.undef && sym.value != 0 && sym.name.Some? && sym.utf8 }

  function SymVa(lib: SharedLib, sym: Sym): nat { Wrap(lib.base + sym.value) }

  /** What add_lib offers to the map, in symbol-table order. */
  function Exports(lib: SharedLib, n: nat): seq<Export>
    requires n <= |lib.syms|
  {
    if n == 0 then []
    else
      var sym := lib.syms[n - 1];
      Exports(lib, n - 1) + if Exported(sym) then [Export(sym.name.value, SymVa(lib, sym))] else []
  }

  function AllExports(libs: seq<SharedLib>): seq<Export> {
    if libs == [] then []
    else var l := libs[|libs| - 1]; AllExports(libs[..|libs| - 1]) + Exports(l, |l.syms|)
  }

  function Lookup(entries: seq<Export>, name: Name): Option<nat> {
    if entries == [] then None
    else if entries[0].name == name then Some(entries[0].va) else Lookup(entries[1..], name)
  }

  function Define(entries: seq<Export>, e: Export): seq<Export> {
    if Lookup(entries, e.name) == None then entries + [e] else entries
  }

  function DefineAll(entries: seq<Export>, es: seq<Export>): seq<Export> {
    if es == [] then entries else Define(DefineAll(entries, es[..|es| - 1]), es[|es| - 1])
  }

  lemma {:induction false} LookupConcat(a: seq<Export>, b: seq<Export>, name: Name)
    ensures Lookup(a + b, name) == if Lookup(a, name).Some? then Lookup(a, name) else Lookup(b, name)
  {
    if a == [] {
      assert a + b == b;
    } else {
      assert (a + b)[1..] == a[1..] + b;
      LookupConcat(a[1..], b, name);
    }
  }

  /** The map, which drops later definitions of a name, answers like the list of everything offered to it. */
  lemma {:induction false} FirstWins(es: seq<Export>, name: Name)
    ensures Lookup(DefineAll([], es), name) == Lookup(es, name)
  {
    if es == [] {
    } else {
      var init, e := es[..|es| - 1], es[|es| - 1];
      FirstWins(init, name);
      FirstWins(init, e.name);
      assert es == init + [e];
      LookupConcat(init, [e], name);
      LookupConcat(DefineAll([], init), [e], name);
    }
  }

  predicate Defines(libs: seq<SharedLib>, i: nat, k: nat, name: Name) {
    && i < |libs| && k < |libs[i].syms|
    && var sym := libs[i].syms[k]; !sym.undef && sym.value != 0 && sym.utf8 && sym.name == Some(name)
  }

  lemma {:induction false} ExportsLookup(lib: SharedLib, n: nat, k: nat, name: Name)
    requires n <= |lib.syms|
    requires forall j :: 0 <= j < Min(k, n) ==> !Defines([lib], 0, j, name)
    ensures k < n && Defines([lib], 0, k, name) ==> Lookup(Exports(lib, n), name) == Some(SymVa(lib, lib.syms[k]))
    ensures n <= k ==> Lookup(Exports(lib, n), name) == None
  {
    if n == 0 {
    } else {
      var sym := lib.syms[n - 1];
      var tail := if Exported(sym) then [Export(sym.name.value, SymVa(lib, sym))] else [];
      LookupConcat(Exports(lib, n - 1), tail, name);
      ExportsLookup(lib, n - 1, k, name);
      assert !Defines([lib], 0, n - 1, name) ==> Lookup(tail, name) == None;
    }
  }

  lemma {:induction false} NothingBefore(libs: seq<SharedLib>, name: Name)
    requires forall i: nat, k: nat :: !Defines(libs, i, k, name)
    ensures Lookup(AllExports(libs), name) == None
  {
    if libs == [] {
    } else {
      var init, l := libs[..|libs| - 1], libs[|libs| - 1];
      forall i: nat, k: nat ensures !Defines(init, i, k, name) { assert !Defines(libs, i, k, name); }
      NothingBefore(init, name);
      forall j | 0 <= j < |l.syms| ensures !Defines([l], 0, j, name) { assert !Defines(libs, |init|, j, name); }
      ExportsLookup(l, |l.syms|, |l.syms|, name);
      LookupConcat(AllExports(init), Exports(l, |l.syms|), name);
    }
  }

  /** The map gives a name the address of its first definition, libraries in load order, symbols in table order. */
  lemma {:induction false} FirstDefiner(libs: seq<SharedLib>, i: nat, k: nat, name: Name)
    requires Defines(libs, i, k, name)
    requires forall i': nat, k': nat :: Defines(libs, i', k', name) ==> i < i' || (i == i' && k <= k')
    ensures Lookup(DefineAll([], AllExports(libs)), name) == Some(SymVa(libs[i], libs[i].syms[k]))
  {
    FirstWins(AllExports(libs), name);
    FirstExport(libs, i, k, name);
  }

  lemma {:induction false} FirstExport(libs: seq<SharedLib>, i: nat, k: nat, name: Name)
    requires Defines(libs, i, k, name)
    requires forall i': nat, k': nat :: Defines(libs, i', k', name) ==> i < i' || (i == i' && k <= k')
    ensures Lookup(AllExports(libs), name) == Some(SymVa(libs[i], libs[i].syms[k]))
  {
    var init, l := libs[..|libs| - 1], libs[|libs| - 1];
    LookupConcat(AllExports(init), Exports(l, |l.syms|), name);
    assert forall i': nat, k': nat :: Defines(init, i', k', name) ==> Defines(libs, i', k', name);
    if i < |init| {
      FirstExport(init, i, k, name);
    } else {
      NothingBefore(init, name);
      assert forall j: nat :: Defines([l], 0, j, name) ==> Defines(libs, |init|, j, name);
      ExportsLookup(l, |l.syms|, k, name);
    }
  }

  lemma {:induction false} Undefined(libs: seq<SharedLib>, name: Name)
    requires forall i: nat, k: nat :: !Defines(libs, i, k, name)
    ensures Lookup(DefineAll([], AllExports(libs)), name) == None
  {
    FirstWins(AllExports(libs), name);
    NothingBefore(libs, name);
  }

  // ---------- the value of a relocation ----------

  const UNKNOWN: Name := [63, 63]

  /** resolve_sym_inner: own definition, else the map, else 0. */
  function Resolve(lib: SharedLib, sym: nat, symMap: seq<Export>): nat {
    if sym >= |lib.syms| then 0
    else
      var s := lib.syms[sym];
      if !s.undef then SymVa(lib, s)
      else match Lookup(symMap, if s.name.Some? then s.name.value else UNKNOWN)
           case Some(va) => va
           case None => 0
  }

  function Value(lib: SharedLib, r: Rela, symMap: seq<Export>): Option<nat> {
    match r.kind
    case Relative => Some(Wrap(lib.base + r.addend))
    case Abs64 => Some(Wrap(Resolve(lib, r.sym, symMap) + r.addend))
    case GlobDat => Some(Resolve(lib, r.sym, symMap))
    case JumpSlot => Some(Resolve(lib, r.sym, symMap))
    case Unsupported => None
  }

  /** Eight bytes to patch: their address as page and offset, and what to put there if anything. */
  datatype Patch = Patch(page: nat, off: Offset, value: Option<nat>) {
    predicate Covers(q: nat, k: nat) { page == q && off <= k < off + 8 }
  }

  function Target(lib: SharedLib, r: Rela): nat { lib.base + r.offset }

  function PatchOf(lib: SharedLib, r: Rela, symMap: seq<Export>): Patch {
    Patch(Target(lib, r) / 4096, Target(lib, r) % 4096, Value(lib, r, symMap))
  }

  function Patches(lib: SharedLib, rs: seq<Rela>, symMap: seq<Export>): (ps: seq<Patch>)
    ensures |ps| == |rs| && forall i :: 0 <= i < |rs| ==> ps[i] == PatchOf(lib, rs[i], symMap)
  {
    seq(|rs|, i requires 0 <= i < |rs| => PatchOf(lib, rs[i], symMap))
  }

  /** Both sections of every library, in the order of resolve_all. */
  function AllPatches(libs: seq<SharedLib>, symMap: seq<Export>): seq<Patch> {
    if libs == [] then []
    else
      var l := libs[|libs| - 1];
      AllPatches(libs[..|libs| - 1], symMap) + (Patches(l, l.rela, symMap) + Patches(l, l.plt, symMap))
  }

  // ---------- patching memory ----------

  /** One byte of physical memory. */
  function PutByte(mem: Memory, addr: nat, b: Byte): Memory {
    mem[addr / 4096 := SetPageByte(PageAt(mem, addr / 4096), addr % 4096, b)]
  }

  /** The first `n` bytes of a little-endian store; past the end of a frame it runs on into the next one. */
  function PutBytes(mem: Memory, addr: nat, v: nat, n: nat): Memory {
    if n == 0 then mem else PutByte(PutBytes(mem, addr, v, n - 1), addr + (n - 1), ByteOf(v, n - 1))
  }

  /** Walk to the target and store; None when it is not mapped. */
  function Poke(mem: Memory, root: nat, p: Patch): Option<Memory> {
    match VirtToPhys(mem, root * 4096, p.page * 4096 + p.off)
    case None => None
    case Some(phys) =>
      Some(if p.value.None? then mem else PutBytes(mem, phys, p.value.value, 8))
  }

  /** The patches one after the other, and how many failed. */
  function PokeAll(mem: Memory, root: nat, ps: seq<Patch>): (Memory, nat) {
    if ps == [] then (mem, 0)
    else
      var (m, failed) := PokeAll(mem, root, ps[..|ps| - 1]);
      match Poke(m, root, ps[|ps| - 1])
      case None => (m, failed + 1)
      case Some(m') => (m', failed)
  }

  /** The last byte a list puts at an address. */
  function Final(ps: seq<Patch>, page: nat, k: Offset): Option<Byte> {
    if ps == [] then None
    else
      var p := ps[|ps| - 1];
      if p.Covers(page, k) && p.value.Some? then Some(ByteOf(p.value.value, k - p.off)) else Final(ps[..|ps| - 1], page, k)
  }

  function ByteAt(mem: Memory, root: nat, page: nat, k: Offset): Byte { PageByte(PageAt(mem, Pte(mem, root, page) / 4096), k) }

  /** All targets lie in the user half, none across the end of a page. */
  ghost predicate Regular(ps: seq<Patch>) { forall p :: p in ps ==> p.page < USER_PAGES && p.off + 8 <= 4096 }

  /** All spaces read as in `mem`, except that bytes of `root` have the final values of `ps`. */
  ghost predicate Patched(mem: Memory, mem': Memory, roots: set<nat>, root: nat, ps: seq<Patch>) {
    forall r, q: nat {:trigger Pte(mem', r, q)} :: r in roots && q < USER_PAGES ==>
      && Pte(mem', r, q) == Pte(mem, r, q)
      && (Present(Pte(mem, r, q)) ==> forall w: Offset {:trigger ByteAt(mem', r, q, w)} ::
            ByteAt(mem', r, q, w) == if r == root && Final(ps, q, w).Some? then Final(ps, q, w).value else ByteAt(mem, r, q, w))
  }

  /** A page with the first `n` bytes of a value stored at an offset. */
  function WithBytes(pg: Page, off: nat, v: nat, n: nat): Page
    requires off + n <= 4096
  {
    if n == 0 then pg else SetPageByte(WithBytes(pg, off, v, n - 1), off + (n - 1), ByteOf(v, n - 1))
  }

  lemma {:induction false} PutInPage(mem: Memory, f: nat, off: nat, v: nat, n: nat)
    requires 0 < n && off + n <= 4096
    ensures PutBytes(mem, f * 4096 + off, v, n) == mem[f := WithBytes(PageAt(mem, f), off, v, n)]
  {
    var addr := f * 4096 + off;
    hide SetPageByte;
    FrameOfAddress(f, off + (n - 1));
    assert addr + (n - 1) == f * 4096 + (off + (n - 1));
    if n == 1 {
      assert PutBytes(mem, addr, v, 0) == mem && WithBytes(PageAt(mem, f), off, v, 0) == PageAt(mem, f);
    } else {
      PutInPage(mem, f, off, v, n - 1);
      var pg := WithBytes(PageAt(mem, f), off, v, n - 1);
      assert mem[f := pg][f := SetPageByte(pg, off + (n - 1), ByteOf(v, n - 1))]
          == mem[f := SetPageByte(pg, off + (n - 1), ByteOf(v, n - 1))];
    }
  }

  lemma {:induction false} FrameOfAddress(f: nat, off: Offset)
    ensures (f * 4096 + off) / 4096 == f && (f * 4096 + off) % 4096 == off
  {
  }

  lemma {:induction false} BytesOfWithBytes(pg: Page, off: nat, v: nat, n: nat, k: Offset)
    requires off + n <= 4096
    ensures PageByte(WithBytes(pg, off, v, n), k) == if off <= k < off + n then ByteOf(v, k - off) else PageByte(pg, k)
  {
    if n == 0 {
    } else {
      BytesOfWithBytes(pg, off, v, n - 1, k);
      PageByteAfterSet(WithBytes(pg, off, v, n - 1), off + (n - 1), ByteOf(v, n - 1), k);
    }
  }

  /** The page after a patch of it. */
  function PatchedPage(pg: Page, p: Patch): Page
    requires p.off + 8 <= 4096
  {
    if p.value.None? then pg else WithBytes(pg, p.off, p.value.value, 8)
  }

  lemma {:induction false} TargetWalk(s: Vm, roots: set<nat>, root: nat, page: nat, off: Offset)
    requires Healthy(s, roots) && root in roots && page < USER_PAGES
    ensures VirtToPhys(s.mem, root * 4096, page * 4096 + off)
         == var e := Pte(s.mem, root, page); if Present(e) then Some(e / 4096 * 4096 + off) else None
  {
    hide VirtToPhys;
    FrameOfAddress(page, off);
    WalkIsTree(s.mem, roots, s.free, root, page * 4096 + off);
  }

  lemma {:induction false} PokeAt(mem: Memory, root: nat, p: Patch, f: nat)
    requires p.off + 8 <= 4096 && VirtToPhys(mem, root * 4096, p.page * 4096 + p.off) == Some(f * 4096 + p.off)
    ensures Poke(mem, root, p) == Some(if p.value.None? then mem else mem[f := PatchedPage(PageAt(mem, f), p)])
  {
    hide WithBytes; hide PutBytes; hide VirtToPhys; hide PageAt;
    if p.value.Some? { PutInPage(mem, f, p.off, p.value.value, 8); }
  }

  lemma {:induction false} PokeIsPut(s: Vm, roots: set<nat>, root: nat, p: Patch)
    requires Healthy(s, roots) && root in roots && p.page < USER_PAGES && p.off + 8 <= 4096
    ensures var e := Pte(s.mem, root, p.page);
            Poke(s.mem, root, p) == if !Present(e) then None
                                    else Some(if p.value.None? then s.mem
                                              else s.mem[e / 4096 := PatchedPage(PageAt(s.mem, e / 4096), p)])
  {
    TargetWalk(s, roots, root, p.page, p.off);
    hide WithBytes; hide PutBytes; hide VirtToPhys; hide Healthy; hide Pte; hide PatchedPage;
    if Present(Pte(s.mem, root, p.page)) { PokeAt(s.mem, root, p, Pte(s.mem, root, p.page) / 4096); }
  }

  lemma {:induction false} FinalSnoc(ps: seq<Patch>, p: Patch, page: nat, k: Offset)
    ensures Final(ps + [p], page, k) == if Final([p], page, k).Some? then Final([p], page, k) else Final(ps, page, k)
  {
    assert (ps + [p])[..|ps|] == ps;
    FinalOne(p, page, k);
  }

  lemma {:induction false} FinalOne(p: Patch, page: nat, k: Offset)
    ensures Final([p], page, k) == if p.Covers(page, k) && p.value.Some? then Some(ByteOf(p.value.value, k - p.off)) else None
  {
    assert [p][..0] == [];
  }

  lemma {:induction false} StoredPatches(mem: Memory, mem': Memory, roots: set<nat>, root: nat, p: Patch)
    requires p.page < USER_PAGES && p.off + 8 <= 4096
    requires PageStored(mem, mem', roots, root, p.page, PatchedPage(PageAt(mem, Pte(mem, root, p.page) / 4096), p))
    ensures Patched(mem, mem', roots, root, [p])
  {
    hide WithBytes; hide PageByte; hide Final;
    forall r, q: nat | r in roots && q < USER_PAGES && Present(Pte(mem, r, q))
      ensures forall w: Offset {:trigger ByteAt(mem', r, q, w)} ::
                ByteAt(mem', r, q, w) == if r == root && Final([p], q, w).Some? then Final([p], q, w).value else ByteAt(mem, r, q, w)
    {
      assert Pte(mem', r, q) == Pte(mem, r, q);
      forall w: Offset
        ensures ByteAt(mem', r, q, w) == if r == root && Final([p], q, w).Some? then Final([p], q, w).value else ByteAt(mem, r, q, w)
      {
        FinalOne(p, q, w);
        if p.value.Some? { BytesOfWithBytes(PageAt(mem, Pte(mem, r, q) / 4096), p.off, p.value.value, 8, w); }
      }
    }
  }

  /** One store through the walk changes the eight bytes it names. */
  lemma {:induction false} PokePatches(s: Vm, roots: set<nat>, root: nat, p: Patch)
    requires Healthy(s, roots) && root in roots && p.page < USER_PAGES && p.off + 8 <= 4096 && Poke(s.mem, root, p).Some?
    ensures var mem' := Poke(s.mem, root, p).value;
            Healthy(s.(mem := mem'), roots) && Patched(s.mem, mem', roots, root, [p])
  {
    hide Poke; hide Healthy; hide WithBytes;
    PokeIsPut(s, roots, root, p);
    var f := Pte(s.mem, root, p.page) / 4096;
    if p.value.Some? { FillPage(s, roots, root, p.page, PatchedPage(PageAt(s.mem, f), p)); }
    StoredPatches(s.mem, Poke(s.mem, root, p).value, roots, root, p);
  }

  lemma {:induction false} PatchedTrans(a: Memory, b: Memory, c: Memory, roots: set<nat>, root: nat, ps: seq<Patch>, p: Patch)
    requires Patched(a, b, roots, root, ps) && Patched(b, c, roots, root, [p])
    ensures Patched(a, c, roots, root, ps + [p])
  {
    hide Final; hide ByteAt;
    forall r, q: nat | r in roots && q < USER_PAGES && Present(Pte(a, r, q))
      ensures forall w: Offset {:trigger ByteAt(c, r, q, w)} ::
                ByteAt(c, r, q, w) == if r == root && Final(ps + [p], q, w).Some? then Final(ps + [p], q, w).value else ByteAt(a, r, q, w)
    {
      assert Pte(b, r, q) == Pte(a, r, q) && Pte(c, r, q) == Pte(b, r, q);
      forall w: Offset
        ensures ByteAt(c, r, q, w) == if r == root && Final(ps + [p], q, w).Some? then Final(ps + [p], q, w).value else ByteAt(a, r, q, w)
      {
        FinalSnoc(ps, p, q, w);
        FinalOne(p, q, w);
        assert ByteAt(b, r, q, w) == if r == root && Final(ps, q, w).Some? then Final(ps, q, w).value else ByteAt(a, r, q, w);
      }
    }
    forall r, q: nat | r in roots && q < USER_PAGES ensures Pte(c, r, q) == Pte(a, r, q) {
      assert Pte(b, r, q) == Pte(a, r, q);
    }
  }

  lemma {:induction false} PatchedNothing(mem: Memory, roots: set<nat>, root: nat)
    ensures Patched(mem, mem, roots, root, [])
  {
  }

  /** A failed patch aims at an unmapped page, about which Patched is silent. */
  lemma {:induction false} PatchedSkip(a: Memory, b: Memory, roots: set<nat>, root: nat, ps: seq<Patch>, p: Patch)
    requires Patched(a, b, roots, root, ps) && !Present(Pte(a, root, p.page))
    ensures Patched(a, b, roots, root, ps + [p])
  {
    hide ByteAt;
    forall r, q: nat | r in roots && q < USER_PAGES && Present(Pte(a, r, q))
      ensures forall w: Offset {:trigger ByteAt(b, r, q, w)} ::
                ByteAt(b, r, q, w) == if r == root && Final(ps + [p], q, w).Some? then Final(ps + [p], q, w).value else ByteAt(a, r, q, w)
    {
      assert Pte(b, r, q) == Pte(a, r, q);
      forall w: Offset ensures r == root ==> Final(ps + [p], q, w) == Final(ps, q, w) { FinalSnoc(ps, p, q, w); }
    }
  }

  /** Patches whose target is not mapped. */
  function Unmapped(mem: Memory, root: nat, ps: seq<Patch>): nat {
    if ps == [] then 0
    else Unmapped(mem, root, ps[..|ps| - 1]) + if Present(Pte(mem, root, ps[|ps| - 1].page)) then 0 else 1
  }

  /** The whole pass: every byte of every space ends with the last one aimed at it, and failures are counted. */
  lemma {:induction false} PokeAllPatches(s: Vm, roots: set<nat>, root: nat, ps: seq<Patch>)
    requires Healthy(s, roots) && root in roots && Regular(ps)
    ensures var (mem', failed) := PokeAll(s.mem, root, ps);
            Healthy(s.(mem := mem'), roots) && Patched(s.mem, mem', roots, root, ps) && failed == Unmapped(s.mem, root, ps)
  {
    hide Healthy; hide Final; hide ByteAt; hide Poke;
    PatchedNothing(s.mem, roots, root);
    if ps == [] {
    } else {
      var init, p := ps[..|ps| - 1], ps[|ps| - 1];
      assert p in ps && ps == init + [p];
      PokeAllPatches(s, roots, root, init);
      var m := PokeAll(s.mem, root, init).0;
      assert Pte(m, root, p.page) == Pte(s.mem, root, p.page);
      PokeIsPut(s.(mem := m), roots, root, p);
      if Poke(m, root, p).Some? {
        PokePatches(s.(mem := m), roots, root, p);
        PatchedTrans(s.mem, m, Poke(m, root, p).value, roots, root, init, p);
      } else {
        PatchedSkip(s.mem, m, roots, root, init, p);
      }
    }
  }

  // ---------- what resolve_all leaves behind ----------

  /** No two patches overlap. */
  ghost predicate Consistent(ps: seq<Patch>) {
    forall p, q, k: nat {:trigger p.Covers(q.page, k), q.Covers(q.page, k)} ::
      p in ps && q in ps && p.Covers(q.page, k) && q.Covers(q.page, k) ==> p == q
  }

  lemma {:induction false} FinalIs(ps: seq<Patch>, p: Patch, k: Offset)
    requires Consistent(ps) && p in ps && p.Covers(p.page, k)
    ensures Final(ps, p.page, k) == if p.value.Some? then Some(ByteOf(p.value.value, k - p.off)) else None
  {
    var last := ps[|ps| - 1];
    assert last in ps;
    if !(last.Covers(p.page, k) && last.value.Some?) {
      var init := ps[..|ps| - 1];
      if p in init { FinalIs(init, p, k); } else { FinalNone(init, p.page, k); }
    }
  }

  lemma {:induction false} FinalNone(ps: seq<Patch>, page: nat, k: Offset)
    requires forall p :: p in ps && p.Covers(page, k) ==> p.value.None?
    ensures Final(ps, page, k) == None
  {
    if ps == [] {
    } else {
      assert ps[|ps| - 1] in ps;
      FinalNone(ps[..|ps| - 1], page, k);
    }
  }

  /** The final values depend on the set of patches alone. */
  lemma {:induction false} OrderIrrelevant(ps: seq<Patch>, qs: seq<Patch>, page: nat, k: Offset)
    requires Consistent(ps) && forall p :: p in ps <==> p in qs
    ensures Final(ps, page, k) == Final(qs, page, k)
  {
    if p :| p in ps && p.Covers(page, k) {
      FinalIs(ps, p, k);
      FinalIs(qs, p, k);
    } else {
      FinalNone(ps, page, k);
      FinalNone(qs, page, k);
    }
  }

  function SymbolMap(libs: seq<SharedLib>): seq<Export> { DefineAll([], AllExports(libs)) }

  ghost predicate SameBytes(mem: Memory, mem': Memory, roots: set<nat>) {
    forall r, q: nat {:trigger Pte(mem', r, q)} :: r in roots && q < USER_PAGES ==>
      && Pte(mem', r, q) == Pte(mem, r, q)
      && (Present(Pte(mem, r, q)) ==> forall w: Offset {:trigger ByteAt(mem', r, q, w)} :: ByteAt(mem', r, q, w) == ByteAt(mem, r, q, w))
  }

  lemma {:induction false} SameFinals(a: Memory, b: Memory, c: Memory, roots: set<nat>, root: nat, ps: seq<Patch>, qs: seq<Patch>)
    requires Patched(a, b, roots, root, ps) && Patched(a, c, roots, root, qs)
    requires forall q: nat, w: Offset :: Final(ps, q, w) == Final(qs, q, w)
    ensures SameBytes(b, c, roots)
  {
    hide Final; hide ByteAt;
    forall r, q: nat | r in roots && q < USER_PAGES ensures Pte(c, r, q) == Pte(b, r, q) == Pte(a, r, q) { }
    forall r, q: nat | r in roots && q < USER_PAGES && Present(Pte(b, r, q))
      ensures forall w: Offset {:trigger ByteAt(c, r, q, w)} :: ByteAt(c, r, q, w) == ByteAt(b, r, q, w)
    {
      assert Pte(b, r, q) == Pte(a, r, q);
      forall w: Offset ensures ByteAt(c, r, q, w) == ByteAt(b, r, q, w) {
        assert Final(ps, q, w) == Final(qs, q, w);
      }
    }
  }

  /** Relocating in another order gives the same memory. */
  lemma {:induction false} RelocationOrder(s: Vm, roots: set<nat>, root: nat, ps: seq<Patch>, qs: seq<Patch>)
    requires Healthy(s, roots) && root in roots && Regular(ps) && Consistent(ps) && multiset(ps) == multiset(qs)
    ensures SameBytes(PokeAll(s.mem, root, ps).0, PokeAll(s.mem, root, qs).0, roots)
  {
    hide Healthy; hide Patched; hide SameBytes; hide Final; hide PokeAll; hide Consistent;
    forall p ensures p in ps <==> p in qs { assert p in multiset(ps) <==> p in multiset(qs); }
    PokeAllPatches(s, roots, root, ps);
    PokeAllPatches(s, roots, root, qs);
    forall q: nat, w: Offset ensures Final(ps, q, w) == Final(qs, q, w) { OrderIrrelevant(ps, qs, q, w); }
    SameFinals(s.mem, PokeAll(s.mem, root, ps).0, PokeAll(s.mem, root, qs).0, roots, root, ps, qs);
  }

  lemma {:induction false} PatchedTwice(a: Memory, b: Memory, c: Memory, roots: set<nat>, root: nat, ps: seq<Patch>)
    requires Patched(a, b, roots, root, ps) && Patched(b, c, roots, root, ps)
    ensures SameBytes(b, c, roots)
  {
    hide Final; hide ByteAt;
    forall r, q: nat | r in roots && q < USER_PAGES ensures Pte(c, r, q) == Pte(b, r, q) == Pte(a, r, q) { }
  }

  /** A second resolve_all changes nothing. */
  lemma {:induction false} RelocationIdempotent(s: Vm, roots: set<nat>, root: nat, ps: seq<Patch>)
    requires Healthy(s, roots) && root in roots && Regular(ps)
    ensures var m := PokeAll(s.mem, root, ps).0; SameBytes(m, PokeAll(m, root, ps).0, roots)
  {
    hide Healthy; hide Patched; hide SameBytes; hide PokeAll;
    PokeAllPatches(s, roots, root, ps);
    var m := PokeAll(s.mem, root, ps).0;
    PokeAllPatches(s.(mem := m), roots, root, ps);
    PatchedTwice(s.mem, m, PokeAll(m, root, ps).0, roots, root, ps);
  }

  ghost predicate IsFirst(libs: seq<SharedLib>, name: Name, i: nat, k: nat) {
    Defines(libs, i, k, name) && forall i': nat, k': nat :: Defines(libs, i', k', name) ==> i < i' || (i == i' && k <= k')
  }

  /** S of the psABI: the library's own definition, else the first definer in load order, else 0. */
  ghost predicate IsSymbolValue(libs: seq<SharedLib>, lib: SharedLib, sym: nat, v: nat) {
    if sym >= |lib.syms| then v == 0
    else if !lib.syms[sym].undef then v == Wrap(lib.base + lib.syms[sym].value)
    else
      var name := if lib.syms[sym].name.Some? then lib.syms[sym].name.value else [63, 63];
      && (forall i: nat, k: nat :: IsFirst(libs, name, i, k) ==> v == Wrap(libs[i].base + libs[i].syms[k].value))
      && ((forall i: nat, k: nat :: !Defines(libs, i, k, name)) ==> v == 0)
  }

  lemma {:induction false} ResolveMeaning(libs: seq<SharedLib>, lib: SharedLib, sym: nat)
    ensures IsSymbolValue(libs, lib, sym, Resolve(lib, sym, SymbolMap(libs)))
  {
    if sym < |lib.syms| && lib.syms[sym].undef {
      var name := if lib.syms[sym].name.Some? then lib.syms[sym].name.value else UNKNOWN;
      forall i: nat, k: nat | IsFirst(libs, name, i, k)
        ensures Lookup(SymbolMap(libs), name) == Some(SymVa(libs[i], libs[i].syms[k]))
      {
        FirstDefiner(libs, i, k, name);
      }
      if forall i: nat, k: nat :: !Defines(libs, i, k, name) { Undefined(libs, name); }
    }
  }

  lemma {:induction false} PatchListed(libs: seq<SharedLib>, i: nat, r: Rela, symMap: seq<Export>)
    requires i < |libs| && (r in libs[i].rela || r in libs[i].plt)
    ensures PatchOf(libs[i], r, symMap) in AllPatches(libs, symMap)
  {
    hide PatchOf;
    var n := |libs| - 1;
    if i < n {
      PatchListed(libs[..n], i, r, symMap);
    } else {
      var a, b := Patches(libs[n], libs[n].rela, symMap), Patches(libs[n], libs[n].plt, symMap);
      if r in libs[n].rela {
        var k :| 0 <= k < |libs[n].rela| && libs[n].rela[k] == r;
        assert a[k] in a;
      } else {
        var k :| 0 <= k < |libs[n].plt| && libs[n].plt[k] == r;
        assert b[k] in b;
      }
    }
  }

  /** The eight bytes at an address are mapped and spell the value. */
  ghost predicate Holds(mem: Memory, root: nat, page: nat, off: Offset, v: nat) {
    && Present(Pte(mem, root, page)) && off + 8 <= 4096
    && forall j: nat {:trigger ByteOf(v, j)} :: j < 8 ==> ByteAt(mem, root, page, off + j) == ByteOf(v, j)
  }

  /** After resolve_all every mapped target of every library holds the value of its relocation. */
  lemma {:induction false} ResolveAllCorrect(s: Vm, roots: set<nat>, root: nat, libs: seq<SharedLib>, i: nat, r: Rela)
    requires Healthy(s, roots) && root in roots && i < |libs| && (r in libs[i].rela || r in libs[i].plt)
    requires var ps := AllPatches(libs, SymbolMap(libs)); Regular(ps) && Consistent(ps)
    ensures var (page, off) := (Target(libs[i], r) / 4096, Target(libs[i], r) % 4096);
            Present(Pte(s.mem, root, page)) && r.kind != Unsupported ==>
              Holds(PokeAll(s.mem, root, AllPatches(libs, SymbolMap(libs))).0, root, page, off,
                    Value(libs[i], r, SymbolMap(libs)).value)
  {
    hide Healthy; hide Final; hide ByteAt; hide PokeAll; hide Consistent; hide AllPatches; hide SymbolMap; hide ByteOf;
    var symMap := SymbolMap(libs);
    var ps := AllPatches(libs, symMap);
    PokeAllPatches(s, roots, root, ps);
    PatchListed(libs, i, r, symMap);
    var p := PatchOf(libs[i], r, symMap);
    var mem' := PokeAll(s.mem, root, ps).0;
    assert p.page < USER_PAGES && p.off + 8 <= 4096;
    assert Pte(mem', root, p.page) == Pte(s.mem, root, p.page);
    if Present(Pte(s.mem, root, p.page)) && r.kind != Unsupported {
      forall j: nat | j < 8 ensures ByteAt(mem', root, p.page, p.off + j) == ByteOf(p.value.value, j) {
        FinalIs(ps, p, p.off + j);
      }
    }
  }

  /** The same in the psABI's terms: every mapped target spells base plus addend, S plus addend, or S, by its kind. */
  lemma {:induction false} ResolveAllSpells(s: Vm, roots: set<nat>, root: nat, libs: seq<SharedLib>, i: nat, r: Rela) returns (v: nat)
    requires Healthy(s, roots) && root in roots && i < |libs| && (r in libs[i].rela || r in libs[i].plt)
    requires var ps := AllPatches(libs, SymbolMap(libs)); Regular(ps) && Consistent(ps)
    requires Present(Pte(s.mem, root, (libs[i].base + r.offset) / 4096))
    ensures IsSymbolValue(libs, libs[i], r.sym, v)
    ensures var target, mem' := libs[i].base + r.offset, PokeAll(s.mem, root, AllPatches(libs, SymbolMap(libs))).0;
            match r.kind
            case Relative => Holds(mem', root, target / 4096, target % 4096, (libs[i].base + r.addend) % 0x1_0000_0000_0000_0000)
            case Abs64 => Holds(mem', root, target / 4096, target % 4096, (v + r.addend) % 0x1_0000_0000_0000_0000)
            case GlobDat => Holds(mem', root, target / 4096, target % 4096, v)
            case JumpSlot => Holds(mem', root, target / 4096, target % 4096, v)
            case Unsupported => true
  {
    hide Healthy; hide PokeAll; hide Consistent; hide Regular; hide AllPatches; hide SymbolMap; hide Holds; hide IsSymbolValue; hide Resolve;
    hide Pte; hide Present;
    ResolveAllCorrect(s, roots, root, libs, i, r);
    ResolveMeaning(libs, libs[i], r.sym);
    v := Resolve(libs[i], r.sym, SymbolMap(libs));
  }

  /** A relocation of a supported kind aims at this byte. */
  ghost predicate Aimed(libs: seq<SharedLib>, i: nat, r: Rela, page: nat, k: Offset) {
    && i < |libs| && (r in libs[i].rela || r in libs[i].plt) && r.kind != Unsupported
    && libs[i].base + r.offset <= page * 4096 + k < libs[i].base + r.offset + 8
  }

  lemma {:induction false} ListedPatch(libs: seq<SharedLib>, p: Patch, symMap: seq<Export>) returns (i: nat, r: Rela)
    requires p in AllPatches(libs, symMap)
    ensures i < |libs| && (r in libs[i].rela || r in libs[i].plt) && p == PatchOf(libs[i], r, symMap)
  {
    hide PatchOf;
    var n := |libs| - 1;
    var a, b := Patches(libs[n], libs[n].rela, symMap), Patches(libs[n], libs[n].plt, symMap);
    if p in AllPatches(libs[..n], symMap) {
      i, r := ListedPatch(libs[..n], p, symMap);
    } else if p in a {
      var k :| 0 <= k < |a| && a[k] == p;
      i, r := n, libs[n].rela[k];
    } else {
      var k :| 0 <= k < |b| && b[k] == p;
      i, r := n, libs[n].plt[k];
    }
  }

  lemma {:induction false} CoveredIsAimed(libs: seq<SharedLib>, i: nat, r: Rela, symMap: seq<Export>, page: nat, k: Offset)
    requires i < |libs| && (r in libs[i].rela || r in libs[i].plt)
    requires PatchOf(libs[i], r, symMap).Covers(page, k) && PatchOf(libs[i], r, symMap).value.Some?
    ensures Aimed(libs, i, r, page, k)
  {
    var target := libs[i].base + r.offset;
    assert target == target / 4096 * 4096 + target % 4096;
  }

  /** Nothing else is written: a byte no supported relocation aims at, and any byte of another space, is as before. */
  lemma {:induction false} ResolveAllElsewhere(s: Vm, roots: set<nat>, root: nat, libs: seq<SharedLib>, r: nat, page: nat, k: Offset)
    requires Healthy(s, roots) && root in roots && r in roots && page < USER_PAGES && Present(Pte(s.mem, r, page))
    requires Regular(AllPatches(libs, SymbolMap(libs)))
    requires r != root || forall i: nat, rela: Rela :: !Aimed(libs, i, rela, page, k)
    ensures ByteAt(PokeAll(s.mem, root, AllPatches(libs, SymbolMap(libs))).0, r, page, k) == ByteAt(s.mem, r, page, k)
  {
    hide Healthy; hide Final; hide ByteAt; hide PokeAll; hide AllPatches; hide SymbolMap; hide PatchOf; hide Aimed; hide Regular;
    var ps := AllPatches(libs, SymbolMap(libs));
    PokeAllPatches(s, roots, root, ps);
    var mem' := PokeAll(s.mem, root, ps).0;
    assert Pte(mem', r, page) == Pte(s.mem, r, page);
    if r == root {
      forall p | p in ps && p.Covers(page, k) ensures p.value.None? {
        var i, rela := ListedPatch(libs, p, SymbolMap(libs));
        if p.value.Some? {
          CoveredIsAimed(libs, i, rela, SymbolMap(libs), page, k);
          assert false;
        }
      }
      FinalNone(ps, page, k);
    }
  }

  /** resolve_all reports no failure exactly when every target, of any kind, is mapped. */
  lemma {:induction false} NoFailureIff(s: Vm, roots: set<nat>, root: nat, libs: seq<SharedLib>)
    requires Healthy(s, roots) && root in roots && Regular(AllPatches(libs, SymbolMap(libs)))
    ensures PokeAll(s.mem, root, AllPatches(libs, SymbolMap(libs))).1 == 0 <==>
            forall i: nat, r: Rela {:trigger r in libs[i].rela} {:trigger r in libs[i].plt} ::
              i < |libs| && (r in libs[i].rela || r in libs[i].plt) ==> Present(Pte(s.mem, root, (libs[i].base + r.offset) / 4096))
  {
    hide Healthy; hide PokeAll; hide AllPatches; hide SymbolMap; hide Regular; hide Pte; hide Value; hide Patched;
    var symMap := SymbolMap(libs);
    var ps := AllPatches(libs, symMap);
    PokeAllPatches(s, roots, root, ps);
    UnmappedZero(s.mem, root, ps);
    if Unmapped(s.mem, root, ps) == 0 {
      forall i: nat, r: Rela | i < |libs| && (r in libs[i].rela || r in libs[i].plt)
        ensures Present(Pte(s.mem, root, (libs[i].base + r.offset) / 4096))
      {
        PatchListed(libs, i, r, symMap);
        assert Present(Pte(s.mem, root, PatchOf(libs[i], r, symMap).page));
      }
    } else {
      var p :| p in ps && !Present(Pte(s.mem, root, p.page));
      var i, r := ListedPatch(libs, p, symMap);
    }
  }

  lemma {:induction false} UnmappedZero(mem: Memory, root: nat, ps: seq<Patch>)
    ensures Unmapped(mem, root, ps) == 0 <==> forall p :: p in ps ==> Present(Pte(mem, root, p.page))
  {
    hide Pte;
    if ps == [] {
    } else {
      var init := ps[..|ps| - 1];
      UnmappedZero(mem, root, init);
      assert ps == init + [ps[|ps| - 1]];
    }
  }

  // ---------- the loops ----------

  class Resolver {
    var mem: Memory
    var entries: seq<Export>
    const root: nat
    const libs: seq<SharedLib>

    constructor (mem: Memory, root: nat, libs: seq<SharedLib>)
      ensures this.mem == mem && this.root == root && this.libs == libs && entries == []
    {
      this.mem, this.root, this.libs, this.entries := mem, root, libs, [];
    }

    method Find(name: Name) returns (va: Option<nat>)
      ensures va == Lookup(entries, name)
    {
      var i := 0;
      assert entries[0..] == entries;
      while i < |entries|
        invariant 0 <= i <= |entries| && Lookup(entries[i..], name) == Lookup(entries, name)
      {
        assert entries[i..][1..] == entries[i + 1..];
        if entries[i].name == name { return Some(entries[i].va); }
        i := i + 1;
      }
      return None;
    }

    method AddLib(lib: SharedLib)
      modifies this`entries
      ensures entries == DefineAll(old(entries), Exports(lib, |lib.syms|))
    {
      hide Lookup; hide DefineAll;
      DefineNothing(entries);
      for i := 0 to |lib.syms|
        invariant entries == DefineAll(old(entries), Exports(lib, i))
      {
        var sym := lib.syms[i];
        ghost var es := Exports(lib, i);
        if !sym.undef && sym.value != 0 && sym.name.Some? && sym.utf8 {
          var e := Export(sym.name.value, SymVa(lib, sym));
          DefineNext(old(entries), es, e);
          var known := Find(sym.name.value);
          if known.None? { entries := entries + [e]; }
        } else {
          assert Exports(lib, i + 1) == es;
        }
      }
    }

    method ApplySection(lib: SharedLib, rs: seq<Rela>) returns (failed: nat)
      modifies this`mem
      ensures (mem, failed) == PokeAll(old(mem), root, Patches(lib, rs, entries))
    {
      failed := 0;
      ghost var ps := Patches(lib, rs, entries);
      hide Patches; hide VirtToPhys; hide Poke; hide PatchOf; hide Target;
      for i := 0 to |rs|
        invariant (mem, failed) == PokeAll(old(mem), root, ps[..i])
      {
        assert ps[..i + 1][..i] == ps[..i];
        var patched := ApplyOne(lib, rs[i]);
        if !patched { failed := failed + 1; }
      }
      assert ps[..|rs|] == ps;
    }

    method ApplyOne(lib: SharedLib, r: Rela) returns (patched: bool)
      modifies this`mem
      ensures var m := Poke(old(mem), root, PatchOf(lib, r, entries));
              patched == m.Some? && mem == if m.Some? then m.value else old(mem)
    {
      hide VirtToPhys; hide PutBytes;
      var target := lib.base + r.offset;
      assert target / 4096 * 4096 + target % 4096 == target;
      var phys := VirtToPhys(mem, root * 4096, target);
      if phys.None? { return false; }
      var value := Value(lib, r, entries);
      if value.Some? { mem := PutBytes(mem, phys.value, value.value, 8); }
      return true;
    }

    method ResolveAll() returns (failed: nat)
      requires entries == []
      modifies this
      ensures entries == SymbolMap(libs)
      ensures (mem, failed) == PokeAll(old(mem), root, AllPatches(libs, SymbolMap(libs)))
    {
      hide Exports; hide DefineAll; hide Patches; hide Poke; hide PokeAll; hide AllExports; hide AllPatches;
      DefineNothing([]);
      Nothing(old(mem), root, []);
      for i := 0 to |libs|
        invariant mem == old(mem) && entries == DefineAll([], AllExports(libs[..i]))
      {
        AddLib(libs[i]);
        NextLib(libs, i, []);
        DefineConcat([], AllExports(libs[..i]), Exports(libs[i], |libs[i].syms|));
      }
      assert libs[..|libs|] == libs;
      failed := 0;
      ghost var symMap := entries;
      Nothing(old(mem), root, symMap);
      for i := 0 to |libs|
        invariant entries == symMap && (mem, failed) == PokeAll(old(mem), root, AllPatches(libs[..i], symMap))
      {
        var l := libs[i];
        assert l in libs;
        var a := ApplySection(l, l.rela);
        var b := ApplySection(l, l.plt);
        NextLib(libs, i, symMap);
        ghost var done := AllPatches(libs[..i], symMap);
        PokeConcat(PokeAll(old(mem), root, done).0, root, Patches(l, l.rela, symMap), Patches(l, l.plt, symMap));
        PokeConcat(old(mem), root, done, Patches(l, l.rela, symMap) + Patches(l, l.plt, symMap));
        failed := failed + a + b;
      }
    }
  }

  lemma {:induction false} DefineNothing(entries: seq<Export>)
    ensures DefineAll(entries, []) == entries && AllExports([]) == []
  {
  }

  lemma {:induction false} DefineNext(entries: seq<Export>, es: seq<Export>, e: Export)
    ensures DefineAll(entries, es + [e]) == Define(DefineAll(entries, es), e)
  {
    assert (es + [e])[..|es|] == es;
  }

  lemma {:induction false} DefineConcat(entries: seq<Export>, a: seq<Export>, b: seq<Export>)
    ensures DefineAll(entries, a + b) == DefineAll(DefineAll(entries, a), b)
  {
    hide Define;
    if b == [] {
      assert a + b == a;
    } else {
      assert (a + b)[..|a + b| - 1] == a + b[..|b| - 1];
      DefineConcat(entries, a, b[..|b| - 1]);
    }
  }

  lemma {:induction false} Nothing(mem: Memory, root: nat, symMap: seq<Export>)
    ensures PokeAll(mem, root, AllPatches([], symMap)) == (mem, 0)
  {
  }

  lemma {:induction false} NextLib(libs: seq<SharedLib>, i: nat, symMap: seq<Export>)
    requires i < |libs|
    ensures AllExports(libs[..i + 1]) == AllExports(libs[..i]) + Exports(libs[i], |libs[i].syms|)
    ensures AllPatches(libs[..i + 1], symMap)
         == AllPatches(libs[..i], symMap) + (Patches(libs[i], libs[i].rela, symMap) + Patches(libs[i], libs[i].plt, symMap))
  {
    assert libs[..i + 1][..i] == libs[..i];
  }

  lemma {:induction false} PokeConcat(mem: Memory, root: nat, a: seq<Patch>, b: seq<Patch>)
    ensures var (m, n) := PokeAll(mem, root, a); var (m', n') := PokeAll(m, root, b);
            PokeAll(mem, root, a + b) == (m', n + n')
  {
    hide Poke;
    if b == [] {
      assert a + b == a;
    } else {
      assert (a + b)[..|a + b| - 1] == a + b[..|b| - 1];
      PokeConcat(mem, root, a, b[..|b| - 1]);
    }
  }
}
