/** User loads and stores through the page tables, and the isolation of address spaces. */
module UserMemory {
  import opened Prelude
  import opened Frame
  import opened PageTable
  import opened Paging
  import opened Fork

  type Offset = o: nat | o < 4096 witness 0

  // ---------- bytes of a page ----------

  /** Byte `j` of a little-endian word. */
  function ByteOf(w: nat, j: nat): Byte
    decreases j
  {
    if j == 0 then w % 256 else ByteOf(w / 256, j - 1)
  }

  function WithByte(w: nat, j: nat, b: Byte): nat
    decreases j
  {
    if j == 0 then w / 256 * 256 + b else 256 * WithByte(w / 256, j - 1, b) + w % 256
  }

  lemma {:induction false} ByteAfterWrite(w: nat, j: nat, b: Byte, k: nat)
    ensures ByteOf(WithByte(w, j, b), k) == if k == j then b else ByteOf(w, k)
    decreases j
  {
    if j > 0 {
      assert WithByte(w, j, b) / 256 == WithByte(w / 256, j - 1, b);
      assert WithByte(w, j, b) % 256 == w % 256;
      if k > 0 { ByteAfterWrite(w / 256, j - 1, b, k - 1); }
    } else if k > 0 {
      assert WithByte(w, 0, b) / 256 == w / 256;
    }
  }

  lemma {:induction false} ZeroBytes(j: nat)
    ensures ByteOf(0, j) == 0
  {
    if j == 0 {
    } else {
      ZeroBytes(j - 1);
    }
  }

  function DropBytes(w: nat, n: nat): nat { if n == 0 then w else DropBytes(w, n - 1) / 256 }

  lemma {:induction false} ByteIsDigit(w: nat, j: nat)
    ensures DropBytes(w, j) == ByteOf(w, j) + 0x100 * DropBytes(w, j + 1)
    ensures DropBytes(w / 256, j) == DropBytes(w, j + 1)
  {
    if j == 0 {
      assert DropBytes(w, 1) == DropBytes(w, 0) / 256;
    } else {
      ByteIsDigit(w, j - 1);
      ByteIsDigit(w / 256, j - 1);
    }
  }

  /** The eight bytes of a word, least significant first. */
  lemma {:induction false} BytesSpellWord(w: nat)
    requires w < 0x1_0000_0000_0000_0000
    ensures w == ByteOf(w, 0) + 0x100 * (ByteOf(w, 1) + 0x100 * (ByteOf(w, 2) + 0x100 * (ByteOf(w, 3) + 0x100 * (
                 ByteOf(w, 4) + 0x100 * (ByteOf(w, 5) + 0x100 * (ByteOf(w, 6) + 0x100 * ByteOf(w, 7)))))))
  {
    hide ByteOf;
    ByteIsDigit(w, 0); ByteIsDigit(w, 1); ByteIsDigit(w, 2); ByteIsDigit(w, 3);
    ByteIsDigit(w, 4); ByteIsDigit(w, 5); ByteIsDigit(w, 6); ByteIsDigit(w, 7);
    var w2 := DropBytes(w, 2);
    assert DropBytes(w, 1) < 0x100_0000_0000_0000;
    assert w2 < 0x1_0000_0000_0000;
    var w4 := DropBytes(w, 4);
    assert DropBytes(w, 3) < 0x100_0000_0000;
    assert w4 < 0x1_0000_0000;
    assert DropBytes(w, 5) < 0x100_0000;
    assert DropBytes(w, 6) < 0x1_0000;
    assert DropBytes(w, 7) < 0x100;
    assert DropBytes(w, 8) == 0;
  }

  function PageByte(pg: Page, k: Offset): Byte {
    ByteOf(pg[k / 8], k % 8)
  }

  function SetPageByte(pg: Page, k: Offset, b: Byte): Page {
    pg[k / 8 := WithByte(pg[k / 8], k % 8, b)]
  }

  lemma {:induction false} PageByteAfterSet(pg: Page, k: Offset, b: Byte, j: Offset)
    ensures PageByte(SetPageByte(pg, k, b), j) == if j == k then b else PageByte(pg, j)
  {
    if j / 8 == k / 8 { ByteAfterWrite(pg[k / 8], k % 8, b, j % 8); }
  }

  // ---------- one access; an address is a page number and an offset ----------

  datatype Access<T> = Done(value: T) | NotPresent | Denied

  predicate UserOk(e: nat) { e % 4096 / 4 % 2 == 1 }

  predicate WriteOk(e: nat) { e % 4096 / 2 % 2 == 1 }

  function Load(mem: Memory, root: nat, page: nat, off: Offset): Access<Byte> {
    var e := Pte(mem, root, page);
    if !Present(e) then NotPresent
    else if !UserOk(e) then Denied
    else Done(PageByte(PageAt(mem, e / 4096), off))
  }

  function Store(mem: Memory, root: nat, page: nat, off: Offset, b: Byte): Access<Memory> {
    var e := Pte(mem, root, page);
    if !Present(e) then NotPresent
    else if !UserOk(e) || !WriteOk(e) then Denied
    else Done(mem[e / 4096 := SetPageByte(PageAt(mem, e / 4096), off, b)])
  }

  /** From `mem` to `mem'` the page tables of all spaces stand, and of all mapped pages only page `page` of `root`
      has new contents, namely `pg`. */
  ghost predicate PageStored(mem: Memory, mem': Memory, roots: set<nat>, root: nat, page: nat, pg: Page) {
    forall r, q: nat {:trigger Pte(mem', r, q)} :: r in roots && q < USER_PAGES ==>
      && Pte(mem', r, q) == Pte(mem, r, q)
      && (Present(Pte(mem, r, q)) ==>
            PageAt(mem', Pte(mem, r, q) / 4096) == if r == root && q == page then pg else PageAt(mem, Pte(mem, r, q) / 4096))
  }

  /** Filling the frame of a mapped page keeps every space healthy and touches no other page. */
  lemma {:induction false} FillPage(s: Vm, roots: set<nat>, root: nat, page: nat, pg: Page)
    requires Healthy(s, roots) && root in roots && page < USER_PAGES && Present(Pte(s.mem, root, page))
    ensures var mem' := s.mem[Pte(s.mem, root, page) / 4096 := pg];
            Healthy(s.(mem := mem'), roots) && PageStored(s.mem, mem', roots, root, page, pg)
  {
    var f := Pte(s.mem, root, page) / 4096;
    var n := Node(root, 4, page);
    LeafPristine(s, roots, n);
    assert Home(s.mem, n) == f;
    FillKeepsTree(s.mem, roots, f, pg);
    SameTreeKeepsInv(s.mem, s.mem[f := pg], roots, s.free, s.free);
    forall r, q: nat | r in roots && q < USER_PAGES
      ensures Pte(s.mem[f := pg], r, q) == Pte(s.mem, r, q)
      ensures Present(Pte(s.mem, r, q)) && !(r == root && q == page) ==> Pte(s.mem, r, q) / 4096 != f
    {
      assert InUser(Node(r, 4, q));
      if Present(Pte(s.mem, r, q)) {
        assert Home(s.mem, Node(r, 4, q)) == Pte(s.mem, r, q) / 4096;
      }
    }
  }

  lemma {:induction false} StoreStores(s: Vm, roots: set<nat>, root: nat, page: nat, off: Offset, b: Byte)
    requires Healthy(s, roots) && root in roots && page < USER_PAGES
    requires Store(s.mem, root, page, off, b).Done?
    ensures var mem' := Store(s.mem, root, page, off, b).value;
            && Healthy(s.(mem := mem'), roots)
            && PageStored(s.mem, mem', roots, root, page, SetPageByte(PageAt(s.mem, Pte(s.mem, root, page) / 4096), off, b))
  {
    FillPage(s, roots, root, page, SetPageByte(PageAt(s.mem, Pte(s.mem, root, page) / 4096), off, b));
  }

  /** A store changes the one byte it names, in the one space that made it. */
  lemma {:induction false} LoadAfterStore(s: Vm, roots: set<nat>, op: UserStore, r: nat, page: nat, off: Offset)
    requires Healthy(s, roots) && ValidStore(roots, op) && r in roots && page < USER_PAGES
    requires Store(s.mem, op.root, op.page, op.off, op.byte).Done?
    ensures Load(Store(s.mem, op.root, op.page, op.off, op.byte).value, r, page, off)
         == if r == op.root && page == op.page && off == op.off then Done(op.byte) else Load(s.mem, r, page, off)
  {
    var mem' := Store(s.mem, op.root, op.page, op.off, op.byte).value;
    StoreStores(s, roots, op.root, op.page, op.off, op.byte);
    assert Pte(mem', r, page) == Pte(s.mem, r, page);
    if r == op.root && page == op.page {
      PageByteAfterSet(PageAt(s.mem, Pte(s.mem, r, page) / 4096), op.off, op.byte, off);
    }
  }

  // ---------- interleaved stores of several spaces ----------

  datatype UserStore = UserStore(root: nat, page: nat, off: Offset, byte: Byte)

  predicate ValidStore(roots: set<nat>, op: UserStore) {
    op.root in roots && op.page < USER_PAGES
  }

  /** Apply a store; one that faults stores nothing. */
  function Apply(mem: Memory, op: UserStore): Memory {
    match Store(mem, op.root, op.page, op.off, op.byte)
    case Done(mem') => mem'
    case _ => mem
  }

  ghost predicate ValidStores(roots: set<nat>, ops: seq<UserStore>) {
    forall i :: 0 <= i < |ops| ==> ValidStore(roots, ops[i])
  }

  function StoreRun(mem: Memory, ops: seq<UserStore>): Memory {
    if ops == [] then mem else Apply(StoreRun(mem, ops[..|ops| - 1]), ops[|ops| - 1])
  }

  /** The stores of one space. */
  function Own(ops: seq<UserStore>, root: nat): (own: seq<UserStore>)
    ensures forall i :: 0 <= i < |own| ==> own[i] in ops
  {
    if ops == [] then []
    else
      var op := ops[|ops| - 1];
      Own(ops[..|ops| - 1], root) + if op.root == root then [op] else []
  }

  /** One store, seen from space `r`. */
  lemma {:induction false} ApplyStore(s: Vm, roots: set<nat>, op: UserStore, r: nat, page: nat, off: Offset)
    requires Healthy(s, roots) && ValidStore(roots, op) && r in roots && page < USER_PAGES
    ensures Healthy(s.(mem := Apply(s.mem, op)), roots)
    ensures Pte(Apply(s.mem, op), r, page) == Pte(s.mem, r, page)
    ensures r != op.root ==> Load(Apply(s.mem, op), r, page, off) == Load(s.mem, r, page, off)
    ensures r == op.root && Store(s.mem, op.root, op.page, op.off, op.byte).Done? ==>
              Load(Apply(s.mem, op), r, page, off) == if page == op.page && off == op.off then Done(op.byte) else Load(s.mem, r, page, off)
  {
    if Store(s.mem, op.root, op.page, op.off, op.byte).Done? {
      StoreStores(s, roots, op.root, op.page, op.off, op.byte);
      LoadAfterStore(s, roots, op, r, page, off);
    }
  }

  lemma {:induction false} StoreRunHealthy(s: Vm, roots: set<nat>, ops: seq<UserStore>, r: nat, page: nat)
    requires Healthy(s, roots) && ValidStores(roots, ops) && r in roots && page < USER_PAGES
    ensures Healthy(s.(mem := StoreRun(s.mem, ops)), roots) && Pte(StoreRun(s.mem, ops), r, page) == Pte(s.mem, r, page)
  {
    if ops == [] {
    } else {
      StoreRunHealthy(s, roots, ops[..|ops| - 1], r, page);
      ApplyStore(s.(mem := StoreRun(s.mem, ops[..|ops| - 1])), roots, ops[|ops| - 1], r, page, 0);
    }
  }

  /** Whatever the interleaving, a space sees the effect of its own stores only. */
  lemma {:induction false} NonInterference(s: Vm, roots: set<nat>, ops: seq<UserStore>, r: nat, page: nat, off: Offset)
    requires Healthy(s, roots) && ValidStores(roots, ops) && r in roots && page < USER_PAGES
    ensures Load(StoreRun(s.mem, ops), r, page, off) == Load(StoreRun(s.mem, Own(ops, r)), r, page, off)
  {
    if ops == [] {
    } else {
      var n := |ops| - 1;
      var init, op := ops[..n], ops[n];
      var own := Own(init, r);
      NonInterference(s, roots, init, r, page, off);
      StoreRunHealthy(s, roots, init, r, page);
      StoreRunHealthy(s, roots, own, r, page);
      ApplyStore(s.(mem := StoreRun(s.mem, init)), roots, op, r, page, off);
      if op.root == r {
        assert Own(ops, r)[..|own|] == own && Own(ops, r)[|own|] == op;
        StoreRunHealthy(s, roots, init, r, op.page);
        StoreRunHealthy(s, roots, own, r, op.page);
        ApplyStore(s.(mem := StoreRun(s.mem, own)), roots, op, r, page, off);
      } else {
        assert Own(ops, r) == own;
      }
    }
  }

  // ---------- fork ----------

  /** Right after a fork the child reads what the parent read before it, and the parent still does. */
  lemma {:induction false} ForkSameBytes(s: Vm, s': Vm, roots: set<nat>, src: nat, dst: nat, page: nat, off: Offset)
    requires Healthy(s, roots) && src in roots && Forked(s, s', roots, src, dst) && page < USER_PAGES
    ensures Load(s'.mem, src, page, off) == Load(s.mem, src, page, off)
    ensures Load(s'.mem, dst, page, off) == Load(s.mem, src, page, off)
  {
    assert SamePage(s'.mem, src, dst, page);
    assert Pte(s'.mem, src, page) == Pte(s.mem, src, page);
    if Present(Pte(s.mem, src, page)) {
      LeafPristine(s, roots, Node(src, 4, page));
    }
  }

  /** After fork, any later stores of the parent, the child and the other spaces, interleaved in any way:
      the child sees the parent's memory at the fork overwritten by its own stores, and likewise the parent. */
  lemma {:induction false} ForkIsolation(s: Vm, roots: set<nat>, kernel: nat, src: nat, ops: seq<UserStore>, page: nat, off: Offset)
    requires Healthy(s, roots) && src in roots && CloneUserSpace(s, kernel, src).Some? && page < USER_PAGES
    requires ValidStores(roots + {CloneUserSpace(s, kernel, src).value.0}, ops)
    ensures var (dst, s') := CloneUserSpace(s, kernel, src).value;
            && Load(StoreRun(s'.mem, ops), dst, page, off) == Load(StoreRun(s'.mem, Own(ops, dst)), dst, page, off)
            && Load(StoreRun(s'.mem, ops), src, page, off) == Load(StoreRun(s'.mem, Own(ops, src)), src, page, off)
            && Load(s'.mem, src, page, off) == Load(s.mem, src, page, off)
            && Load(s'.mem, dst, page, off) == Load(s.mem, src, page, off)
  {
    ForkCorrect(s, roots, kernel, src);
    var (dst, s') := CloneUserSpace(s, kernel, src).value;
    ForkSameBytes(s, s', roots, src, dst, page, off);
    NonInterference(s', roots + {dst}, ops, dst, page, off);
    NonInterference(s', roots + {dst}, ops, src, page, off);
  }
}
