/** load_so_at: the PT_LOAD segments of an ELF image, copied page by page into an address space. */
module Loader {
  import opened Prelude
  import opened Frame
  import opened PageTable
  import opened Paging
  import opened UserMemory
  import opened Access

  type File = seq<Byte>

  /** A PT_LOAD program header. */
  datatype Segment = Segment(offset: nat, vaddr: nat, filesz: nat, memsz: nat, writable: bool) {
    function Start(base: nat): nat { base + vaddr }

    function FirstPage(base: nat): nat { Start(base) / 4096 }

    function EndPage(base: nat): nat { (Start(base) + memsz + 4095) / 4096 }

    function Pages(base: nat): nat { EndPage(base) - FirstPage(base) }

    predicate OnPage(base: nat, page: nat) { FirstPage(base) <= page < EndPage(base) }

    function Flags(): nat { PTE_USER + if writable then PTE_WRITABLE else 0 }
  }

  /** The little-endian word of bytes from .. from + n - 1. */
  function WordOf(bytes: Offset -> Byte, from: nat, n: nat): nat
    requires from + n <= 4096
    decreases n
  {
    if n == 0 then 0 else bytes(from) + 256 * WordOf(bytes, from + 1, n - 1)
  }

  function PageOf(bytes: Offset -> Byte): Page { seq(512, i requires 0 <= i < 512 => WordOf(bytes, 8 * i, 8)) }

  lemma {:induction false} ByteOfWordOf(bytes: Offset -> Byte, from: nat, n: nat, j: nat)
    requires from + n <= 4096 && j < n
    ensures ByteOf(WordOf(bytes, from, n), j) == bytes(from + j)
    decreases n
  {
    var rest := WordOf(bytes, from + 1, n - 1);
    assert WordOf(bytes, from, n) / 256 == rest && WordOf(bytes, from, n) % 256 == bytes(from);
    if j == 0 {
    } else {
      ByteOfWordOf(bytes, from + 1, n - 1, j - 1);
    }
  }

  lemma {:induction false} PageByteOfPageOf(bytes: Offset -> Byte, k: Offset)
    ensures PageByte(PageOf(bytes), k) == bytes(k)
  {
    ByteOfWordOf(bytes, 8 * (k / 8), 8, k % 8);
  }

  /** What the copy of one page puts at an offset: zero outside the part of the segment that the file backs. */
  function CopiedByte(seg: Segment, base: nat, file: File, page: nat, off: Offset): Byte {
    var va, start := page * 4096, seg.Start(base);
    var lo, hi := Max(start, va), Min(start + seg.filesz, va + 4096);
    if lo <= va + off < hi && seg.offset + (lo - start) + (hi - lo) <= |file|
    then file[seg.offset + (va + off - start)] else 0
  }

  function SegmentPage(seg: Segment, base: nat, file: File, page: nat): Page {
    PageOf((off: Offset) => CopiedByte(seg, base, file, page, off))
  }

  /** The rounds of the page loop: the first `n` pages of a segment. */
  ghost function LoadPages(s: Vm, root: nat, base: nat, seg: Segment, file: File, n: nat): Option<Vm> {
    if n == 0 then Some(s)
    else match LoadPages(s, root, base, seg, file, n - 1)
         case None => None
         case Some(s1) =>
           var page := seg.FirstPage(base) + (n - 1);
           Step(s1, root, MapNew(page, SegmentPage(seg, base, file, page), seg.Flags()))
  }

  ghost function LoadSegments(s: Vm, root: nat, base: nat, segs: seq<Segment>, file: File): Option<Vm> {
    if segs == [] then Some(s)
    else match LoadSegments(s, root, base, segs[..|segs| - 1], file)
         case None => None
         case Some(s1) => LoadPages(s1, root, base, segs[|segs| - 1], file, segs[|segs| - 1].Pages(base))
  }

  // ---------- what is readable afterwards ----------

  /** User code can read page `page` of the space, write it or not, and it is `pg`. */
  ghost predicate Shown(mem: Memory, root: nat, page: nat, pg: Page, writable: bool) {
    var e := Pte(mem, root, page); Present(e) && UserOk(e) && WriteOk(e) == writable && PageAt(mem, e / 4096) == pg
  }

  /** The step took page `page` to `pg` and left every other readable page of the space alone. */
  ghost predicate Placed(s: Vm, s': Vm, roots: set<nat>, root: nat, page: nat, pg: Page, writable: bool) {
    && Healthy(s', roots) && Shown(s'.mem, root, page, pg, writable)
    && forall q: nat, was: Page, w: bool {:trigger Shown(s'.mem, root, q, was, w)} ::
         q < USER_PAGES && q != page && Shown(s.mem, root, q, was, w) ==> Shown(s'.mem, root, q, was, w)
  }

  lemma {:induction false} SegmentFlags(f: nat, seg: Segment)
    ensures var e := f * 4096 + WithPresent(seg.Flags()); e / 4096 == f && Present(e) && UserOk(e) && WriteOk(e) == seg.writable
  {
    EntryArith(f, WithPresent(seg.Flags()));
  }

  lemma {:induction false} MapNewPlaces(s: Vm, s': Vm, roots: set<nat>, root: nat, page: nat, pg: Page, seg: Segment)
    requires Healthy(s, roots) && root in roots && page < USER_PAGES
    requires Step(s, root, MapNew(page, pg, seg.Flags())) == Some(s')
    ensures Placed(s, s', roots, root, page, pg, seg.writable)
  {
    MapNewCorrect(s, roots, root, page, pg, seg.Flags());
    SegmentFlags(Grant(s), seg);
    hide Step;
    forall q: nat, was: Page, w: bool | q < USER_PAGES && q != page && Shown(s.mem, root, q, was, w) ensures Shown(s'.mem, root, q, was, w) {
      assert Pte(s'.mem, root, q) == Pte(s.mem, root, q);
      LeafPristine(s, roots, Node(root, 4, q));
    }
  }

  /** The first `n` pages of the segment are in place, and pages outside them are as in `s`. */
  ghost predicate SegmentShown(s: Vm, s': Vm, roots: set<nat>, root: nat, base: nat, seg: Segment, file: File, n: nat) {
    && Healthy(s', roots)
    && (forall page: nat {:trigger SegmentPage(seg, base, file, page)} ::
          seg.FirstPage(base) <= page < seg.FirstPage(base) + n ==> Shown(s'.mem, root, page, SegmentPage(seg, base, file, page), seg.writable))
    && (forall q: nat, was: Page, w: bool {:trigger Shown(s'.mem, root, q, was, w)} ::
          q < USER_PAGES && !(seg.FirstPage(base) <= q < seg.FirstPage(base) + n) && Shown(s.mem, root, q, was, w) ==>
            Shown(s'.mem, root, q, was, w))
  }

  lemma {:induction false} LoadPagesShows(s: Vm, roots: set<nat>, root: nat, base: nat, seg: Segment, file: File, n: nat)
    requires Healthy(s, roots) && root in roots && seg.FirstPage(base) + n <= USER_PAGES
    requires LoadPages(s, root, base, seg, file, n).Some?
    ensures SegmentShown(s, LoadPages(s, root, base, seg, file, n).value, roots, root, base, seg, file, n)
  {
    hide Step;
    hide Healthy;
    hide SegmentPage;
    if n == 0 {
    } else {
      LoadPagesShows(s, roots, root, base, seg, file, n - 1);
      var s1, s' := LoadPages(s, root, base, seg, file, n - 1).value, LoadPages(s, root, base, seg, file, n).value;
      var page := seg.FirstPage(base) + (n - 1);
      MapNewPlaces(s1, s', roots, root, page, SegmentPage(seg, base, file, page), seg);
    }
  }

  /** Segment `a` of the image is loaded in space `root`. */
  ghost predicate Loaded(mem: Memory, root: nat, base: nat, seg: Segment, file: File) {
    forall page: nat {:trigger SegmentPage(seg, base, file, page)} :: seg.OnPage(base, page) ==>
      Shown(mem, root, page, SegmentPage(seg, base, file, page), seg.writable)
  }

  ghost predicate PagesApart(a: Segment, b: Segment, base: nat) {
    forall page: nat :: a.OnPage(base, page) ==> !b.OnPage(base, page)
  }

  /** A later segment on other pages leaves an earlier one readable. */
  lemma {:induction false} LoadedKept(s: Vm, s': Vm, roots: set<nat>, root: nat, base: nat, a: Segment, b: Segment, file: File)
    requires SegmentShown(s, s', roots, root, base, b, file, b.Pages(base)) && Loaded(s.mem, root, base, a, file)
    requires PagesApart(a, b, base) && a.EndPage(base) <= USER_PAGES
    ensures Loaded(s'.mem, root, base, a, file)
  {
    forall page: nat | a.OnPage(base, page) ensures Shown(s'.mem, root, page, SegmentPage(a, base, file, page), a.writable) {
      assert !b.OnPage(base, page);
    }
    hide Shown;
    hide Healthy;
    hide SegmentPage;
  }

  lemma {:induction false} LoadSegmentsShow(s: Vm, roots: set<nat>, root: nat, base: nat, segs: seq<Segment>, file: File)
    requires Healthy(s, roots) && root in roots && LoadSegments(s, root, base, segs, file).Some?
    requires forall i :: 0 <= i < |segs| ==> segs[i].EndPage(base) <= USER_PAGES
    requires forall i, j :: 0 <= i < j < |segs| ==> PagesApart(segs[i], segs[j], base)
    ensures var s' := LoadSegments(s, root, base, segs, file).value;
            Healthy(s', roots) && forall i :: 0 <= i < |segs| ==> Loaded(s'.mem, root, base, segs[i], file)
  {
    hide Step;
    hide Healthy;
    hide Loaded;
    hide PagesApart;
    if segs == [] {
    } else {
      var n := |segs| - 1;
      var init, last := segs[..n], segs[n];
      LoadSegmentsShow(s, roots, root, base, init, file);
      var s1 := LoadSegments(s, root, base, init, file).value;
      LoadPagesShows(s1, roots, root, base, last, file, last.Pages(base));
      var s' := LoadSegments(s, root, base, segs, file).value;
      LastLoaded(s1, s', roots, root, base, last, file);
      forall i | 0 <= i < n ensures Loaded(s'.mem, root, base, segs[i], file) {
        assert Loaded(s1.mem, root, base, init[i], file);
        LoadedKept(s1, s', roots, root, base, segs[i], last, file);
      }
    }
  }

  lemma {:induction false} LastLoaded(s: Vm, s': Vm, roots: set<nat>, root: nat, base: nat, seg: Segment, file: File)
    requires SegmentShown(s, s', roots, root, base, seg, file, seg.Pages(base))
    ensures Loaded(s'.mem, root, base, seg, file) && Healthy(s', roots)
  {
    hide Shown;
    hide Healthy;
    hide SegmentPage;
  }

  // ---------- the bytes ----------

  /** The byte the ELF image puts at an address of a segment's pages. */
  function ImageByte(seg: Segment, base: nat, file: File, addr: nat): Byte
    requires seg.offset + seg.filesz <= |file|
  {
    if seg.Start(base) <= addr < seg.Start(base) + seg.filesz then file[seg.offset + (addr - seg.Start(base))] else 0
  }

  /** For a segment inside the file the page-wise copy agrees with the image, whatever the alignment. */
  lemma {:induction false} CopyIsImage(seg: Segment, base: nat, file: File, page: nat, off: Offset)
    requires seg.offset + seg.filesz <= |file|
    ensures CopiedByte(seg, base, file, page, off) == ImageByte(seg, base, file, page * 4096 + off)
  {
  }

  /** After load_so_at every address of every segment's pages reads the image's byte: file contents, then zeros. */
  lemma {:induction false} LoaderCorrect(s: Vm, roots: set<nat>, root: nat, base: nat, segs: seq<Segment>, file: File, i: nat, page: nat, off: Offset)
    requires Healthy(s, roots) && root in roots && LoadSegments(s, root, base, segs, file).Some?
    requires forall j :: 0 <= j < |segs| ==> segs[j].EndPage(base) <= USER_PAGES
    requires forall j, k :: 0 <= j < k < |segs| ==> PagesApart(segs[j], segs[k], base)
    requires i < |segs| && segs[i].offset + segs[i].filesz <= |file|
    requires segs[i].OnPage(base, page)
    ensures Load(LoadSegments(s, root, base, segs, file).value.mem, root, page, off)
         == Done(ImageByte(segs[i], base, file, page * 4096 + off))
  {
    LoadSegmentsShow(s, roots, root, base, segs, file);
    hide Step;
    hide LoadSegments;
    assert Loaded(LoadSegments(s, root, base, segs, file).value.mem, root, base, segs[i], file);
    assert Shown(LoadSegments(s, root, base, segs, file).value.mem, root, page, SegmentPage(segs[i], base, file, page), segs[i].writable);
    PageByteOfPageOf((o: Offset) => CopiedByte(segs[i], base, file, page, o), off);
    CopyIsImage(segs[i], base, file, page, off);
  }

  /** With filesz <= memsz the file-backed part of a segment lies on its pages. */
  lemma {:induction false} FilePartOnPages(seg: Segment, base: nat, k: nat)
    requires k < seg.filesz <= seg.memsz
    ensures seg.OnPage(base, (seg.Start(base) + k) / 4096)
  {
  }

  /** The loaded image, address by address: all `memsz` bytes of every segment are there, the file's and then zeros, and may
      be written exactly if the segment says so. */
  lemma {:induction false} ImageLoaded(s: Vm, roots: set<nat>, root: nat, base: nat, segs: seq<Segment>, file: File, i: nat, k: nat, page: nat, off: Offset, b: Byte)
    requires Healthy(s, roots) && root in roots && LoadSegments(s, root, base, segs, file).Some?
    requires forall j :: 0 <= j < |segs| ==> segs[j].EndPage(base) <= USER_PAGES
    requires forall j, l :: 0 <= j < l < |segs| ==> PagesApart(segs[j], segs[l], base)
    requires i < |segs| && segs[i].offset + segs[i].filesz <= |file| && k < segs[i].memsz
    requires page * 4096 + off == base + segs[i].vaddr + k
    ensures var seg, mem' := segs[i], LoadSegments(s, root, base, segs, file).value.mem;
            && Load(mem', root, page, off) == Done(if k < seg.filesz then file[seg.offset + k] else 0)
            && (Store(mem', root, page, off, b).Done? <==> seg.writable)
            && !Store(mem', root, page, off, b).NotPresent?
  {
    hide LoadSegments; hide SegmentPage; hide Healthy; hide PagesApart; hide Shown; hide Load; hide Store; hide Loaded;
    OnItsPages(segs[i], base, k, page, off);
    LoaderCorrect(s, roots, root, base, segs, file, i, page, off);
    LoadSegmentsShow(s, roots, root, base, segs, file);
    LoadedAccess(LoadSegments(s, root, base, segs, file).value.mem, root, base, segs[i], file, page, off, b);
  }

  lemma {:induction false} LoadedAccess(mem: Memory, root: nat, base: nat, seg: Segment, file: File, page: nat, off: Offset, b: Byte)
    requires Loaded(mem, root, base, seg, file) && seg.OnPage(base, page)
    ensures (Store(mem, root, page, off, b).Done? <==> seg.writable) && !Store(mem, root, page, off, b).NotPresent?
  {
    hide SegmentPage;
    assert Shown(mem, root, page, SegmentPage(seg, base, file, page), seg.writable);
  }

  lemma {:induction false} OnItsPages(seg: Segment, base: nat, k: nat, page: nat, off: Offset)
    requires k < seg.memsz && page * 4096 + off == base + seg.vaddr + k
    ensures seg.OnPage(base, page)
  {
  }

  /** The segment has an address on page `q`. */
  predicate Meets(seg: Segment, base: nat, q: nat) { (base + seg.vaddr) / 4096 <= q && q * 4096 < base + seg.vaddr + seg.memsz }

  lemma {:induction false} LoadPagesElsewhere(s: Vm, roots: set<nat>, root: nat, base: nat, seg: Segment, file: File, n: nat, r: nat, q: nat, off: Offset, b: Byte)
    requires Healthy(s, roots) && root in roots && n <= seg.Pages(base) && seg.EndPage(base) <= USER_PAGES
    requires LoadPages(s, root, base, seg, file, n).Some? && r in roots && q < USER_PAGES && (r != root || !Meets(seg, base, q))
    ensures var s' := LoadPages(s, root, base, seg, file, n).value;
            Healthy(s', roots) && SameAccess(s.mem, s'.mem, r, q, off, b)
  {
    hide Step; hide Healthy; hide SegmentPage; hide Load; hide Store;
    if n == 0 {
    } else {
      LoadPagesElsewhere(s, roots, root, base, seg, file, n - 1, r, q, off, b);
      var s1 := LoadPages(s, root, base, seg, file, n - 1).value;
      var page := seg.FirstPage(base) + (n - 1);
      var op := MapNew(page, SegmentPage(seg, base, file, page), seg.Flags());
      MeetsOwn(seg, base, page);
      StepCorrect(s1, roots, root, op);
      OthersAccess(s1, roots, root, op, r, q, off, b);
    }
  }

  lemma {:induction false} MeetsOwn(seg: Segment, base: nat, page: nat)
    requires seg.OnPage(base, page)
    ensures Meets(seg, base, page)
  {
  }

  ghost predicate SameAccess(mem: Memory, mem': Memory, r: nat, q: nat, off: Offset, b: Byte) {
    && Load(mem', r, q, off) == Load(mem, r, q, off)
    && (Store(mem', r, q, off, b).Done? <==> Store(mem, r, q, off, b).Done?)
    && (Store(mem', r, q, off, b).NotPresent? <==> Store(mem, r, q, off, b).NotPresent?)
  }

  /** Loading leaves alone every page that no segment reaches, and all other spaces. */
  lemma {:induction false} LoadedElsewhere(s: Vm, roots: set<nat>, root: nat, base: nat, segs: seq<Segment>, file: File, r: nat, q: nat, off: Offset, b: Byte)
    requires Healthy(s, roots) && root in roots && LoadSegments(s, root, base, segs, file).Some?
    requires forall j :: 0 <= j < |segs| ==> segs[j].EndPage(base) <= USER_PAGES
    requires r in roots && q < USER_PAGES && (r != root || forall j :: 0 <= j < |segs| ==> !Meets(segs[j], base, q))
    ensures var s' := LoadSegments(s, root, base, segs, file).value;
            Healthy(s', roots) && SameAccess(s.mem, s'.mem, r, q, off, b)
  {
    hide Step; hide Healthy; hide LoadPages; hide Load; hide Store; hide Meets;
    if segs == [] {
    } else {
      var n := |segs| - 1;
      LoadedElsewhere(s, roots, root, base, segs[..n], file, r, q, off, b);
      var s1 := LoadSegments(s, root, base, segs[..n], file).value;
      LoadPagesElsewhere(s1, roots, root, base, segs[n], file, segs[n].Pages(base), r, q, off, b);
    }
  }
}
