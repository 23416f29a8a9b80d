/** What user code may do with a page after each operation on it: which loads and stores succeed, and what they read. */
module Access {
  import opened Prelude
  import opened Frame
  import opened PageTable
  import opened Paging
  import opened Fork
  import opened UserMemory
  import opened Vma
  import opened DemandPaging

  // ---------- the whole path grants what the leaf says ----------

  /** Rights are the conjunction of all four levels; the three upper ones never withhold any. */
  lemma {:induction false} PathGrantsAll(s: Vm, roots: set<nat>, n: Node)
    requires Healthy(s, roots) && n.root in roots && InUser(n) && n.d < 4 && Present(Ent(s.mem, n))
    ensures UserOk(Ent(s.mem, n)) && WriteOk(Ent(s.mem, n))
  {
    assert Live(s.mem, roots, n);
  }

  // ---------- single operations ----------

  /** An entry made of a frame and flags, as loads and stores see it. */
  lemma {:induction false} LeafAccess(mem: Memory, root: nat, page: nat, f: nat, flags: nat, off: Offset, b: Byte)
    requires flags < 4096 && Pte(mem, root, page) == f * 4096 + flags
    ensures Load(mem, root, page, off) == if flags % 2 == 0 then NotPresent
                                          else if flags / 4 % 2 == 0 then Denied
                                          else Done(PageByte(PageAt(mem, f), off))
    ensures Store(mem, root, page, off, b).Done? <==> flags % 2 == 1 && flags / 4 % 2 == 1 && flags / 2 % 2 == 1
    ensures Store(mem, root, page, off, b).NotPresent? <==> flags % 2 == 0
  {
    EntryArith(f, flags);
  }

  /** mprotect of a mapped page: readable, with its contents, unless all access is taken; writable exactly if asked for. */
  lemma {:induction false} ProtectAccess(s: Vm, roots: set<nat>, root: nat, page: nat, prot: nat, off: Offset, b: Byte)
    requires Healthy(s, roots) && root in roots && page < USER_PAGES && Present(Pte(s.mem, root, page))
    ensures var mem' := Step(s, root, Protect(page, prot)).value.mem;
            && Load(mem', root, page, off)
               == (if prot == 0 then NotPresent else Done(PageByte(PageAt(s.mem, Pte(s.mem, root, page) / 4096), off)))
            && (Store(mem', root, page, off, b).Done? <==> prot / 2 % 2 == 1)
            && (Store(mem', root, page, off, b).NotPresent? <==> prot == 0)
  {
    var s' := Step(s, root, Protect(page, prot)).value;
    var e := Pte(s.mem, root, page);
    ProtectCorrect(s, roots, root, page, prot);
    LeafPristine(s, roots, Node(root, 4, page));
    assert PageAt(s'.mem, e / 4096) == PageAt(s.mem, e / 4096);
    hide Step; hide Healthy;
    LeafAccess(s'.mem, root, page, e / 4096, ProtFlags(prot), off, b);
  }

  /** munmap: the page is gone. */
  lemma {:induction false} UnmapAccess(s: Vm, roots: set<nat>, root: nat, page: nat, off: Offset, b: Byte)
    requires Healthy(s, roots) && root in roots && page < USER_PAGES
    ensures var mem' := Step(s, root, Unmap(page)).value.mem;
            Load(mem', root, page, off) == NotPresent && Store(mem', root, page, off, b) == NotPresent
  {
    UnmapCorrect(s, roots, root, page);
    hide Step; hide Healthy;
  }

  lemma {:induction false} MappedPage(s: Vm, roots: set<nat>, root: nat, page: nat, data: Page, flags: nat)
    requires Healthy(s, roots) && root in roots && page < USER_PAGES && flags < 4096
    requires Step(s, root, MapNew(page, data, flags)).Some?
    ensures var mem' := Step(s, root, MapNew(page, data, flags)).value.mem;
            Pte(mem', root, page) == Grant(s) * 4096 + WithPresent(flags) && PageAt(mem', Grant(s)) == data
  {
    MapNewCorrect(s, roots, root, page, data, flags);
    hide Step; hide Healthy;
  }

  lemma {:induction false} PresentBits(flags: nat)
    requires flags < 4096
    ensures WithPresent(flags) < 4096 && WithPresent(flags) % 2 == 1
    ensures WithPresent(flags) / 2 % 2 == flags / 2 % 2 && WithPresent(flags) / 4 % 2 == flags / 4 % 2
  {
  }

  /** A new mapping: its contents are readable if the user bit is set, writable if the writable bit is too. */
  lemma {:induction false} MapAccess(s: Vm, roots: set<nat>, root: nat, page: nat, data: Page, flags: nat, off: Offset, b: Byte)
    requires Healthy(s, roots) && root in roots && page < USER_PAGES && flags < 4096
    requires Step(s, root, MapNew(page, data, flags)).Some?
    ensures var mem' := Step(s, root, MapNew(page, data, flags)).value.mem;
            && Load(mem', root, page, off) == (if flags / 4 % 2 == 0 then Denied else Done(PageByte(data, off)))
            && (Store(mem', root, page, off, b).Done? <==> flags / 4 % 2 == 1 && flags / 2 % 2 == 1)
            && !Store(mem', root, page, off, b).NotPresent?
  {
    hide Step; hide Healthy; hide WithPresent; hide Load; hide Store; hide Pte; hide PageByte;
    MappedPage(s, roots, root, page, data, flags);
    PresentBits(flags);
    LeafAccess(Step(s, root, MapNew(page, data, flags)).value.mem, root, page, Grant(s), WithPresent(flags), off, b);
  }

  /** mmap_anon and demand_alloc_page: zeros, and stores succeed exactly if the mapping is writable. */
  lemma {:induction false} AnonAccess(s: Vm, roots: set<nat>, root: nat, page: nat, writable: bool, off: Offset, b: Byte)
    requires Healthy(s, roots) && root in roots && page < USER_PAGES && Step(s, root, MapZero(page, writable)).Some?
    ensures var mem' := Step(s, root, MapZero(page, writable)).value.mem;
            && Load(mem', root, page, off) == Done(0)
            && (Store(mem', root, page, off, b).Done? <==> writable)
            && !Store(mem', root, page, off, b).NotPresent?
  {
    hide Step; hide Healthy; hide Load; hide Store; hide Pte;
    MapAccess(s, roots, root, page, ZeroPage(), AnonFlags(writable), off, b);
    ZeroBytes(off % 8);
  }

  /** No operation on one page lets a load or store of another page, in any space, turn out differently. */
  lemma {:induction false} OthersAccess(s: Vm, roots: set<nat>, root: nat, op: PageOp, r: nat, q: nat, off: Offset, b: Byte)
    requires Healthy(s, roots) && root in roots && ValidOp(op) && Step(s, root, op).Some?
    requires r in roots && q < USER_PAGES && (r != root || q != op.vpn)
    ensures var mem' := Step(s, root, op).value.mem;
            && Load(mem', r, q, off) == Load(s.mem, r, q, off)
            && (Store(mem', r, q, off, b).Done? <==> Store(s.mem, r, q, off, b).Done?)
            && (Store(mem', r, q, off, b).NotPresent? <==> Store(s.mem, r, q, off, b).NotPresent?)
  {
    var s' := Step(s, root, op).value;
    StepCorrect(s, roots, root, op);
    assert Pte(s'.mem, r, q) == Pte(s.mem, r, q);
    if Present(Pte(s.mem, r, q)) {
      LeafPristine(s, roots, Node(r, 4, q));
      match op {
        case MapNew(vpn, data, flags) => MapNewCorrect(s, roots, root, vpn, data, flags);
        case Unmap(vpn) => UnmapCorrect(s, roots, root, vpn);
        case Protect(vpn, prot) => ProtectCorrect(s, roots, root, vpn, prot);
      }
      assert PageAt(s'.mem, Pte(s.mem, r, q) / 4096) == PageAt(s.mem, Pte(s.mem, r, q) / 4096);
    }
    hide Step; hide Healthy;
  }

  // ---------- loops over pages ----------

  ghost predicate KeptAt(mem: Memory, mem': Memory, root: nat, q: nat) {
    Pte(mem', root, q) == Pte(mem, root, q) && PageAt(mem', Pte(mem, root, q) / 4096) == PageAt(mem, Pte(mem, root, q) / 4096)
  }

  /** A byte of a mapped page after mprotect, to loads and stores. */
  ghost predicate ByteProtected(mem: Memory, mem': Memory, root: nat, q: nat, prot: nat, off: Offset, b: Byte) {
    && Load(mem', root, q, off)
       == (if prot == 0 then NotPresent else Done(PageByte(PageAt(mem, Pte(mem, root, q) / 4096), off)))
    && (Store(mem', root, q, off, b).Done? <==> prot / 2 % 2 == 1)
    && (Store(mem', root, q, off, b).NotPresent? <==> prot == 0)
  }

  ghost predicate ProtectedAt(mem: Memory, mem': Memory, root: nat, q: nat, prot: nat) {
    forall off: Offset, b: Byte :: ByteProtected(mem, mem', root, q, prot, off, b)
  }

  lemma {:induction false} ProtectHere(s: Vm, roots: set<nat>, root: nat, page: nat, prot: nat)
    requires Healthy(s, roots) && root in roots && page < USER_PAGES && Present(Pte(s.mem, root, page))
    ensures ProtectedAt(s.mem, Step(s, root, Protect(page, prot)).value.mem, root, page, prot)
  {
    var mem' := Step(s, root, Protect(page, prot)).value.mem;
    forall off: Offset, b: Byte ensures ByteProtected(s.mem, mem', root, page, prot, off, b) {
      ProtectAccess(s, roots, root, page, prot, off, b);
    }
    hide Step; hide Healthy; hide Load; hide Store;
  }

  lemma {:induction false} ProtectElsewhere(s: Vm, roots: set<nat>, root: nat, page: nat, prot: nat, q: nat)
    requires Healthy(s, roots) && root in roots && page < USER_PAGES && q < USER_PAGES && q != page
    requires Present(Pte(s.mem, root, q))
    ensures KeptAt(s.mem, Step(s, root, Protect(page, prot)).value.mem, root, q)
  {
    ProtectCorrect(s, roots, root, page, prot);
    LeafPristine(s, roots, Node(root, 4, q));
    var s' := Step(s, root, Protect(page, prot)).value;
    assert Pte(s'.mem, root, q) == Pte(s.mem, root, q);
    hide Step; hide Healthy;
  }

  lemma {:induction false} KeptThenProtected(mem: Memory, mem1: Memory, mem': Memory, root: nat, q: nat, prot: nat)
    requires KeptAt(mem, mem1, root, q) && ProtectedAt(mem1, mem', root, q, prot)
    ensures ProtectedAt(mem, mem', root, q, prot)
  {
    forall off: Offset, b: Byte ensures ByteProtected(mem, mem', root, q, prot, off, b) {
      assert ByteProtected(mem1, mem', root, q, prot, off, b);
    }
  }

  /** A later round leaves a page already protected as it is. */
  lemma {:induction false} ProtectedThenKept(s: Vm, s1: Vm, roots: set<nat>, root: nat, page: nat, q: nat, prot: nat)
    requires Healthy(s1, roots) && root in roots && page < USER_PAGES && q < USER_PAGES && q != page
    requires ProtectedAt(s.mem, s1.mem, root, q, prot)
    ensures ProtectedAt(s.mem, Step(s1, root, Protect(page, prot)).value.mem, root, q, prot)
  {
    var mem' := Step(s1, root, Protect(page, prot)).value.mem;
    hide Step; hide Healthy; hide Load; hide Store;
    forall off: Offset, b: Byte ensures ByteProtected(s.mem, mem', root, q, prot, off, b) {
      assert ByteProtected(s.mem, s1.mem, root, q, prot, off, b);
      assert Step(s1, root, Protect(page, prot)).Some? by { StepCorrect(s1, roots, root, Protect(page, prot)); }
      OthersAccess(s1, roots, root, Protect(page, prot), root, q, off, b);
    }
  }

  /** set_page_prot over a range: inside it, a mapped page gets the rights asked for; outside it, nothing happens. */
  lemma {:induction false} ProtectRange(s: Vm, roots: set<nat>, root: nat, base: nat, pages: nat, prot: nat, q: nat)
    requires Healthy(s, roots) && root in roots && base + pages <= USER_PAGES && q < USER_PAGES && Present(Pte(s.mem, root, q))
    ensures var r := Rounds(s, root, Protect(base, prot), pages);
            && r.Some? && Healthy(r.value, roots)
            && if base <= q < base + pages then ProtectedAt(s.mem, r.value.mem, root, q, prot)
               else KeptAt(s.mem, r.value.mem, root, q)
  {
    if pages == 0 {
    } else {
      ProtectRange(s, roots, root, base, pages - 1, prot, q);
      var s1 := Rounds(s, root, Protect(base, prot), pages - 1).value;
      var page := base + (pages - 1);
      assert Step(s1, root, Protect(page, prot)).Some?;
      StepCorrect(s1, roots, root, Protect(page, prot));
      var s' := Step(s1, root, Protect(page, prot)).value;
      assert Rounds(s, root, Protect(base, prot), pages) == Some(s');
      hide Step; hide Healthy; hide Rounds; hide ProtectedAt; hide Pte; hide OnlyPage;
      if q == page {
        ProtectHere(s1, roots, root, q, prot);
        KeptThenProtected(s.mem, s1.mem, s'.mem, root, q, prot);
      } else if base <= q < page {
        ProtectedThenKept(s, s1, roots, root, page, q, prot);
      } else {
        ProtectElsewhere(s1, roots, root, page, prot, q);
      }
    }
  }

  // ---------- faults ----------

  /** Servicing a fault on an absent page: in a lazy area a zero page, writable exactly if the area is; elsewhere nothing. */
  lemma {:induction false} ServiceAccess(s: Vm, roots: set<nat>, root: nat, areas: seq<VmaEntry>, page: nat, at: Offset, off: Offset, b: Byte)
    requires Healthy(s, roots) && root in roots && page < USER_PAGES && Service(s, root, areas, page, at).Some?
    ensures var s' := Service(s, root, areas, page, at).value;
            match Find(areas, page * 4096 + at)
            case Some(area) =>
              if !area.lazy then s' == s
              else && Load(s'.mem, root, page, off) == Done(0)
                   && (Store(s'.mem, root, page, off, b).Done? <==> area.prot / 2 % 2 == 1)
            case None => s' == s
  {
    match Find(areas, page * 4096 + at) {
      case Some(area) =>
        if area.lazy { AnonAccess(s, roots, root, page, area.prot / 2 % 2 == 1, off, b); }
      case None =>
    }
    hide Step; hide Healthy;
  }

  /** An access that is refused, or that no lazy area can serve, kills the program and changes nothing. */
  lemma {:induction false} RefusedKills(s: Vm, root: nat, areas: seq<VmaEntry>, op: UserOp)
    requires Touch(s.mem, root, op) == Denied ||
             (Touch(s.mem, root, op) == NotPresent && (Find(areas, op.page * 4096 + op.off).Some? ==> !Find(areas, op.page * 4096 + op.off).value.lazy))
    ensures LazyAccess(s, root, areas, op) == Some((s, Killed))
  {
    hide Step; hide Touch;
  }

  /** In a lazy area that is not writable the first read of a page gets a zero, and a store kills the program. */
  lemma {:induction false} ReadOnlyArea(s: Vm, roots: set<nat>, root: nat, areas: seq<VmaEntry>, area: VmaEntry, page: nat, off: Offset, b: Byte)
    requires Healthy(s, roots) && root in roots && page < USER_PAGES && !Present(Pte(s.mem, root, page))
    requires Find(areas, page * 4096 + off) == Some(area) && area.lazy && area.prot / 2 % 2 == 0
    requires Service(s, root, areas, page, off).Some?
    ensures LazyAccess(s, root, areas, ReadByte(page, off)).value.1 == Got(0)
    ensures LazyAccess(s, root, areas, WriteByte(page, off, b)).value.1 == Killed
  {
    ServiceAccess(s, roots, root, areas, page, off, off, b);
    hide Step; hide Healthy; hide Service; hide Pte; hide Find; hide PageAt; hide PageByte; hide SetPageByte;
  }

  // ---------- the kernel half of a fork ----------

  lemma {:induction false} EntryKeepsWord(s: Vm, to: nat, d: nat, i: nat, e: nat, f: nat, j: nat)
    requires i < 512 && CloneEntry(s, to, d, i, e).Some? && f !in s.free && j < 512 && (f != to || j != i)
    ensures var (g, s1) := CloneEntry(s, to, d, i, e).value;
            g in s.free && g !in s1.free && s1.free <= s.free && PageAt(s1.mem, f)[j] == PageAt(s.mem, f)[j]
  {
  }

  /** Cloning writes only into frames of its own and into the entries it fills. */
  lemma {:induction false} CloneKeepsWord(s: Vm, from: nat, to: nat, d: nat, i: nat, f: nat, j: nat)
    requires d < 4 && i <= Fanout(d) && CloneTable(s, from, to, d, i).Some?
    requires f !in s.free && j < 512 && (f != to || j >= Fanout(d))
    ensures var s' := CloneTable(s, from, to, d, i).value; s'.free <= s.free && PageAt(s'.mem, f)[j] == PageAt(s.mem, f)[j]
    decreases 4 - d, Fanout(d) - i
  {
    hide CloneEntry;
    if i == Fanout(d) {
    } else {
      var e := PageAt(s.mem, from)[i];
      if !Present(e) {
        CloneKeepsWord(s, from, to, d, i + 1, f, j);
      } else {
        EntryKeepsWord(s, to, d, i, e, f, j);
        var (g, s1) := CloneEntry(s, to, d, i, e).value;
        var s2 := s1;
        if d < 3 {
          s2 := CloneTable(s1, e / 4096, g, d + 1, 0).value;
          CloneKeepsWord(s1, e / 4096, g, d + 1, 0, f, j);
        }
        CloneKeepsWord(s2, from, to, d, i + 1, f, j);
      }
    }
  }

  /** A forked space shares the kernel: the upper half of its root is the kernel's, entry by entry. */
  lemma {:induction false} ForkSharesKernel(s: Vm, kernel: nat, src: nat, i: nat)
    requires CloneUserSpace(s, kernel, src).Some? && 256 <= i < 512
    ensures var (dst, s') := CloneUserSpace(s, kernel, src).value;
            PageAt(s'.mem, dst)[i] == PageAt(s.mem, kernel)[i]
  {
    var (dst, s1) := AllocFilled(s, KernelHalf(PageAt(s.mem, kernel))).value;
    CloneKeepsWord(s1, src, dst, 0, 0, dst, i);
  }
}
