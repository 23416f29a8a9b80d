/** The paging code itself: page tables written in place in physical memory, frames from the bitmap allocator. */
module Machine {
  import opened Prelude
  import opened Frame
  import opened PageTable
  import opened Paging
  import opened Fork
  import opened UserMemory
  import opened Vma
  import opened DemandPaging
  import Loader

  class Kernel {
    var mem: Memory
    const frames: FrameAllocator

    ghost predicate Valid()
      reads this, frames, frames.bitmap
    {
      frames.Valid()
    }

    ghost function State(): Vm
      requires Valid()
      reads this, frames, frames.bitmap
    {
      Vm(mem, frames.Free())
    }

    constructor (frames: FrameAllocator)
      requires frames.Valid()
      ensures Valid() && this.frames == frames && State() == Vm(map[], frames.Free())
    {
      this.frames := frames;
      mem := map[];
    }

    /** alloc_frame, then write the whole frame; None is the out-of-memory panic. */
    method AllocFrameWith(data: Page) returns (r: Option<nat>)
      requires Valid()
      modifies this`mem, frames`freeFrames, frames.bitmap
      ensures Valid()
      ensures r.Some? <==> AllocFilled(old(State()), data).Some?
      ensures r.Some? ==> AllocFilled(old(State()), data) == Some((r.value, State()))
    {
      var phys := frames.AllocFrame();
      if phys.None? { return None; }
      var frame := phys.value / PAGE_SIZE;
      mem := mem[frame := data];
      return Some(frame);
    }

    method GetOrCreateTable(table: nat, i: nat) returns (r: Option<nat>)
      requires Valid() && i < 512
      modifies this`mem, frames`freeFrames, frames.bitmap
      ensures Valid()
      ensures r.Some? <==> GetOrCreate(old(State()), table, i).Some?
      ensures r.Some? ==> GetOrCreate(old(State()), table, i) == Some((r.value, State()))
    {
      hide Frame.FrameAllocator.Free;
      var e := PageAt(mem, table)[i];
      if Present(e) { return Some(e / 4096); }
      r := AllocFrameWith(ZeroPage());
      if r.Some? { mem := Put(mem, table, i, r.value * 4096 + MID_FLAGS); }
    }

    method MapPage(root: nat, vpn: nat, frame: nat, flags: nat) returns (ok: bool)
      requires Valid()
      modifies this`mem, frames`freeFrames, frames.bitmap
      ensures Valid()
      ensures ok <==> Map4k(old(State()), root, vpn, frame, flags).Some?
      ensures ok ==> Map4k(old(State()), root, vpn, frame, flags) == Some(State())
    {
      hide Frame.FrameAllocator.Free;
      hide GetOrCreate;
      var pdpt := GetOrCreateTable(root, vpn / 0x800_0000 % 512);
      if pdpt.None? { return false; }
      var pd := GetOrCreateTable(pdpt.value, vpn / 0x4_0000 % 512);
      if pd.None? { return false; }
      var pt := GetOrCreateTable(pd.value, vpn / 0x200 % 512);
      if pt.None? { return false; }
      mem := Put(mem, pt.value, vpn % 512, frame * 4096 + WithPresent(flags));
      return true;
    }

    /** One round of mmap_map: a fresh frame holding `data`, mapped at `vpn`. */
    method MapFresh(root: nat, vpn: nat, data: Page, flags: nat) returns (ok: bool)
      requires Valid()
      modifies this`mem, frames`freeFrames, frames.bitmap
      ensures Valid()
      ensures ok <==> Step(old(State()), root, MapNew(vpn, data, flags)).Some?
      ensures ok ==> Step(old(State()), root, MapNew(vpn, data, flags)) == Some(State())
    {
      hide Frame.FrameAllocator.Free;
      hide Map4k;
      var frame := AllocFrameWith(data);
      if frame.None? { return false; }
      ok := MapPage(root, vpn, frame.value, flags);
    }

    method MmapAnon(root: nat, vpn: nat, pages: nat, writable: bool) returns (ok: bool)
      requires Valid()
      modifies this`mem, frames`freeFrames, frames.bitmap
      ensures Valid()
      ensures ok <==> Rounds(old(State()), root, MapZero(vpn, writable), pages).Some?
      ensures ok ==> Rounds(old(State()), root, MapZero(vpn, writable), pages) == Some(State())
    {
      hide Frame.FrameAllocator.Free;
      hide Step;
      for i := 0 to pages
        invariant Valid() && Rounds(old(State()), root, MapZero(vpn, writable), i) == Some(State())
      {
        var mapped := MapFresh(root, vpn + i, ZeroPage(), AnonFlags(writable));
        assert Shift(MapZero(vpn, writable), i) == MapZero(vpn + i, writable);
        if !mapped {
          RoundsFail(old(State()), root, MapZero(vpn, writable), i + 1, pages);
          return false;
        }
      }
      return true;
    }

    /** Clear the PTE of a present page and give its frame back. */
    method UnmapPage(ghost roots: set<nat>, root: nat, vpn: nat)
      requires Valid() && Healthy(State(), roots) && root in roots && vpn < USER_PAGES
      modifies this`mem, frames`freeFrames, frames.bitmap
      ensures Valid() && Step(old(State()), root, Unmap(vpn)) == Some(State())
    {
      hide Frame.FrameAllocator.Free;
      WalkIsTree(mem, roots, frames.Free(), root, vpn * 4096);
      var phys := VirtToPhys(mem, root * 4096, vpn * 4096);
      if phys.Some? {
        LeafTable(mem, roots, frames.Free(), root, vpn);
        hide Inv;
        hide Ent;
        frames.FreeFrame(phys.value);
        var pdpt := PageAt(mem, root)[vpn / 0x800_0000 % 512];
        var pd := PageAt(mem, pdpt / 4096)[vpn / 0x4_0000 % 512];
        var pt := PageAt(mem, pd / 4096)[vpn / 0x200 % 512];
        mem := Put(mem, pt / 4096, vpn % 512, 0);
      }
    }

    method MunmapPages(ghost roots: set<nat>, root: nat, vpn: nat, count: nat)
      requires Valid() && Healthy(State(), roots) && root in roots && vpn + count <= USER_PAGES
      modifies this`mem, frames`freeFrames, frames.bitmap
      ensures Valid() && Healthy(State(), roots)
      ensures Rounds(old(State()), root, Unmap(vpn), count) == Some(State())
    {
      hide Frame.FrameAllocator.Free;
      hide Step;
      hide Healthy;
      for i := 0 to count
        invariant Valid() && Healthy(State(), roots) && Rounds(old(State()), root, Unmap(vpn), i) == Some(State())
      {
        ghost var s := State();
        UnmapPage(roots, root, vpn + i);
        assert Shift(Unmap(vpn), i) == Unmap(vpn + i);
        StepCorrect(s, roots, root, Unmap(vpn + i));
      }
    }

    /** try_demand_page: a fault in a lazy area gets a zero page with the area's write permission. */
    method TryDemandPage(vmas: VmaTable, root: nat, page: nat, off: Offset) returns (handled: bool, ok: bool)
      requires Valid()
      modifies this`mem, frames`freeFrames, frames.bitmap
      ensures Valid()
      ensures handled <==> Rights(vmas.slots[..], page * 4096 + off).Some? && Rights(vmas.slots[..], page * 4096 + off).value.1
      ensures ok <==> Service(old(State()), root, vmas.slots[..], page, off).Some?
      ensures ok ==> Service(old(State()), root, vmas.slots[..], page, off) == Some(State())
    {
      hide Frame.FrameAllocator.Free;
      hide Step;
      hide Vma.Find;
      var area := vmas.FindArea(page * 4096 + off);
      if area.None? || !area.value.lazy { return false, true; }
      ok := MapFresh(root, page, ZeroPage(), AnonFlags(area.value.Writable()));
      handled := true;
    }

    /** The segment loop of load_so_at. */
    method LoadImage(root: nat, base: nat, segs: seq<Loader.Segment>, file: Loader.File) returns (ok: bool)
      requires Valid()
      modifies this`mem, frames`freeFrames, frames.bitmap
      ensures Valid()
      ensures ok <==> Loader.LoadSegments(old(State()), root, base, segs, file).Some?
      ensures ok ==> Loader.LoadSegments(old(State()), root, base, segs, file) == Some(State())
    {
      hide Frame.FrameAllocator.Free;
      hide Step;
      hide Loader.LoadPages;
      for n := 0 to |segs|
        invariant Valid() && Loader.LoadSegments(old(State()), root, base, segs[..n], file) == Some(State())
      {
        assert segs[..n + 1][..n] == segs[..n];
        var loaded := LoadSegment(root, base, segs[n], file);
        if !loaded {
          LoadFails(old(State()), root, base, segs, file, n + 1);
          return false;
        }
      }
      assert segs[..|segs|] == segs;
      return true;
    }

    /** The page loop of load_so_at. */
    method LoadSegment(root: nat, base: nat, seg: Loader.Segment, file: Loader.File) returns (ok: bool)
      requires Valid()
      modifies this`mem, frames`freeFrames, frames.bitmap
      ensures Valid()
      ensures ok <==> Loader.LoadPages(old(State()), root, base, seg, file, seg.Pages(base)).Some?
      ensures ok ==> Loader.LoadPages(old(State()), root, base, seg, file, seg.Pages(base)) == Some(State())
    {
      hide Frame.FrameAllocator.Free;
      hide Step;
      for i := 0 to seg.Pages(base)
        invariant Valid() && Loader.LoadPages(old(State()), root, base, seg, file, i) == Some(State())
      {
        var page := seg.FirstPage(base) + i;
        var mapped := MapFresh(root, page, Loader.SegmentPage(seg, base, file, page), seg.Flags());
        if !mapped {
          LoadPagesFail(old(State()), root, base, seg, file, i + 1, seg.Pages(base));
          return false;
        }
      }
      return true;
    }

    /** Change the permission bits of a present page. */
    method ProtectPage(ghost roots: set<nat>, root: nat, vpn: nat, prot: nat)
      requires Valid() && root in roots && vpn < USER_PAGES
      modifies this`mem
      ensures Valid() && Step(old(State()), root, Protect(vpn, prot)) == Some(State())
    {
      hide Frame.FrameAllocator.Free;
      PathEntries(mem, root, vpn);
      NodeOfPage(root, vpn);
      var pml4e := PageAt(mem, root)[vpn / 0x800_0000 % 512];
      if !Present(pml4e) { return; }
      var pdpte := PageAt(mem, pml4e / 4096)[vpn / 0x4_0000 % 512];
      if !Present(pdpte) { return; }
      var pde := PageAt(mem, pdpte / 4096)[vpn / 0x200 % 512];
      if !Present(pde) { return; }
      var pte := PageAt(mem, pde / 4096)[vpn % 512];
      if !Present(pte) { return; }
      mem := Put(mem, pde / 4096, vpn % 512, pte / 4096 * 4096 + ProtFlags(prot));
    }

    method SetPageProt(ghost roots: set<nat>, root: nat, vpn: nat, pages: nat, prot: nat)
      requires Valid() && root in roots && vpn + pages <= USER_PAGES
      modifies this`mem
      ensures Valid() && Rounds(old(State()), root, Protect(vpn, prot), pages) == Some(State())
    {
      hide Frame.FrameAllocator.Free;
      hide Step;
      for i := 0 to pages
        invariant Valid() && Rounds(old(State()), root, Protect(vpn, prot), i) == Some(State())
      {
        ProtectPage(roots, root, vpn + i, prot);
        assert Shift(Protect(vpn, prot), i) == Protect(vpn + i, prot);
      }
    }

    /** A present entry gets its own frame in table `to`. */
    method CloneOne(to: nat, d: nat, i: nat, e: nat) returns (f: Option<nat>)
      requires Valid() && i < 512
      modifies this`mem, frames`freeFrames, frames.bitmap
      ensures Valid()
      ensures f.Some? <==> CloneEntry(old(State()), to, d, i, e).Some?
      ensures f.Some? ==> CloneEntry(old(State()), to, d, i, e) == Some((f.value, State()))
    {
      hide Frame.FrameAllocator.Free;
      hide AllocFilled;
      f := AllocFrameWith(CloneData(mem, d, e));
      if f.Some? { mem := Put(mem, to, i, f.value * 4096 + e % 4096); }
    }

    /** The copy loops of clone_user_space, one level per call: entries of frame `from` go to frame `to`. */
    method CloneLevel(from: nat, to: nat, d: nat) returns (ok: bool)
      requires Valid() && d < 4
      modifies this`mem, frames`freeFrames, frames.bitmap
      ensures Valid()
      ensures ok <==> CloneTable(old(State()), from, to, d, 0).Some?
      ensures ok ==> CloneTable(old(State()), from, to, d, 0) == Some(State())
      decreases 4 - d
    {
      hide Frame.FrameAllocator.Free;
      hide CloneEntry;
      hide CloneTable;
      var i := 0;
      while i < Fanout(d)
        invariant Valid() && 0 <= i <= Fanout(d)
        invariant CloneTable(State(), from, to, d, i) == CloneTable(old(State()), from, to, d, 0)
      {
        CloneUnfold(State(), from, to, d, i);
        var e := PageAt(mem, from)[i];
        if Present(e) {
          var f := CloneOne(to, d, i, e);
          if f.None? { return false; }
          if d < 3 {
            var copied := CloneLevel(e / 4096, f.value, d + 1);
            if !copied { return false; }
          }
        }
        i := i + 1;
      }
      CloneEnd(State(), from, to, d);
      return true;
    }

    /** fork's deep copy; the new PML4 shares the kernel half. */
    method CloneSpace(kernel: nat, src: nat) returns (r: Option<nat>)
      requires Valid()
      modifies this`mem, frames`freeFrames, frames.bitmap
      ensures Valid()
      ensures r.Some? <==> CloneUserSpace(old(State()), kernel, src).Some?
      ensures r.Some? ==> CloneUserSpace(old(State()), kernel, src) == Some((r.value, State()))
    {
      hide Frame.FrameAllocator.Free;
      hide CloneTable;
      var dst := AllocFrameWith(KernelHalf(PageAt(mem, kernel)));
      if dst.None? { return None; }
      var ok := CloneLevel(src, dst.value, 0);
      return if ok then dst else None;
    }
  }

  lemma {:induction false} LoadPagesFail(s: Vm, root: nat, base: nat, seg: Loader.Segment, file: Loader.File, i: nat, n: nat)
    requires i <= n && Loader.LoadPages(s, root, base, seg, file, i).None?
    ensures Loader.LoadPages(s, root, base, seg, file, n).None?
    decreases n
  {
    hide Step;
    if i == n {
    } else {
      LoadPagesFail(s, root, base, seg, file, i, n - 1);
    }
  }

  lemma {:induction false} LoadFails(s: Vm, root: nat, base: nat, segs: seq<Loader.Segment>, file: Loader.File, i: nat)
    requires i <= |segs| && Loader.LoadSegments(s, root, base, segs[..i], file).None?
    ensures Loader.LoadSegments(s, root, base, segs, file).None?
    decreases |segs|
  {
    hide Loader.LoadPages;
    if i < |segs| {
      assert segs[..|segs| - 1][..i] == segs[..i];
      LoadFails(s, root, base, segs[..|segs| - 1], file, i);
    } else {
      assert segs[..i] == segs;
    }
  }

  /** Where the leaf of a mapped page lies: the raw path of the code, and the tree's. */
  lemma {:induction false} LeafTable(mem: Memory, roots: set<nat>, free: set<nat>, root: nat, vpn: nat)
    requires Inv(mem, roots, free) && root in roots && vpn < USER_PAGES && Present(Pte(mem, root, vpn))
    ensures var pdpt := PageAt(mem, root)[vpn / 0x800_0000 % 512];
            var pd := PageAt(mem, pdpt / 4096)[vpn / 0x4_0000 % 512];
            var pt := PageAt(mem, pd / 4096)[vpn / 0x200 % 512];
            forall v: nat :: Write(mem, Node(root, 4, vpn), v) == Put(mem, pt / 4096, vpn % 512, v)
    ensures Pte(mem, root, vpn) / 4096 < MAX_FRAMES
  {
    PathEntries(mem, root, vpn);
    NodeOfPage(root, vpn);
    assert Home(mem, Node(root, 4, vpn)) == Pte(mem, root, vpn) / 4096;
  }

  lemma {:induction false} CloneEnd(s: Vm, from: nat, to: nat, d: nat)
    requires d < 4
    ensures CloneTable(s, from, to, d, Fanout(d)) == Some(s)
  {
  }

  lemma {:induction false} CloneUnfold(s: Vm, from: nat, to: nat, d: nat, i: nat)
    requires d < 4 && i < Fanout(d)
    ensures var e := PageAt(s.mem, from)[i];
            var r := CloneTable(s, from, to, d, i);
            if !Present(e) then r == CloneTable(s, from, to, d, i + 1)
            else match CloneEntry(s, to, d, i, e)
                 case None => r == None
                 case Some((f, s1)) =>
                   if d == 3 then r == CloneTable(s1, from, to, d, i + 1)
                   else match CloneTable(s1, e / 4096, f, d + 1, 0)
                        case None => r == None
                        case Some(s2) => r == CloneTable(s2, from, to, d, i + 1)
  {
    hide CloneEntry;
  }

  /** Once a round fails, the loop has failed. */
  lemma {:induction false} RoundsFail(s: Vm, root: nat, op: PageOp, i: nat, n: nat)
    requires i <= n && Rounds(s, root, op, i).None?
    ensures Rounds(s, root, op, n).None?
    decreases n
  {
    hide Step;
    if i == n {
    } else {
      RoundsFail(s, root, op, i, n - 1);
    }
  }
}
