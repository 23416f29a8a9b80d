/** Four-level page tables as they lie in physical memory, and the tree they spell out. */
module PageTable {
  import opened Prelude
  import opened Frame

  // ---------- physical memory: frames of 512 little-endian 64-bit words ----------

  type Page = p: seq<nat> | |p| == 512 witness seq(512, _ => 0)
  type Memory = map<nat, Page>

  function ZeroPage(): Page { seq(512, _ => 0) }

  function PageAt(mem: Memory, f: nat): Page { if f in mem then mem[f] else ZeroPage() }

  function Put(mem: Memory, f: nat, i: nat, v: nat): Memory
    requires i < 512
  {
    mem[f := PageAt(mem, f)[i := v]]
  }

  // ---------- page-table entries ----------

  const PTE_PRESENT: nat := 1
  const PTE_WRITABLE: nat := 2
  const PTE_USER: nat := 4
  const MID_FLAGS: nat := 7

  predicate Present(e: nat) { e % 2 == 1 }

  predicate Huge(e: nat) { e % 4096 / 128 % 2 == 1 }

  /** The user half of the 48-bit address space, in 4 KB pages. */
  const USER_PAGES: nat := 0x8_0000_0000

  /** A position in the tree below a root: depth 1 is a PML4 entry, depth 4 a PTE; `p` is the page-number prefix. */
  datatype Node = Node(root: nat, d: nat, p: nat)

  function Parent(n: Node): Node
    requires n.d > 0
  {
    Node(n.root, n.d - 1, if n.d == 1 then 0 else n.p / 512)
  }

  predicate InUser(n: Node) {
    || (n.d == 1 && n.p < 256)
    || (n.d == 2 && n.p < 0x2_0000)
    || (n.d == 3 && n.p < 0x400_0000)
    || (n.d == 4 && n.p < USER_PAGES)
  }

  /** The raw entry found at a position by following the tables; 0 where an upper entry is not present. */
  function Ent(mem: Memory, n: Node): nat
    decreases n.d
  {
    if n.d <= 1 then PageAt(mem, n.root)[n.p % 512]
    else
      var up := Ent(mem, Parent(n));
      if Present(up) then PageAt(mem, up / 4096)[n.p % 512] else 0
  }

  ghost predicate Live(mem: Memory, roots: set<nat>, n: Node) {
    n.root in roots && if n.d == 0 then n.p == 0 else InUser(n) && Present(Ent(mem, n))
  }

  /** The frame a live position stands for: the root table, a lower table, or (depth 4) a data page. */
  function Home(mem: Memory, n: Node): nat { if n.d == 0 then n.root else Ent(mem, n) / 4096 }

  ghost predicate HomesUsed(mem: Memory, roots: set<nat>, free: set<nat>) {
    forall n {:trigger Home(mem, n)} :: Live(mem, roots, n) ==> Home(mem, n) < MAX_FRAMES && Home(mem, n) !in free
  }

  ghost predicate HomesDistinct(mem: Memory, roots: set<nat>) {
    forall m, n {:trigger Home(mem, m), Home(mem, n)} :: Live(mem, roots, m) && Live(mem, roots, n) && Home(mem, m) == Home(mem, n) ==> m == n
  }

  ghost predicate TablesPlain(mem: Memory, roots: set<nat>) {
    forall n {:trigger Live(mem, roots, n)} :: Live(mem, roots, n) && 1 <= n.d <= 3 ==> Ent(mem, n) % 4096 == MID_FLAGS
  }

  /** The address spaces `roots` are healthy: no table or data frame is shared, none is in the free pool. */
  ghost predicate Inv(mem: Memory, roots: set<nat>, free: set<nat>) {
    && HomesUsed(mem, roots, free) && HomesDistinct(mem, roots) && TablesPlain(mem, roots)
    && forall f :: f in free ==> f < MAX_FRAMES
  }

  /** `mem'` shows the same tree as `mem` except that position `n` now holds `v`. */
  ghost predicate Changed(mem: Memory, mem': Memory, roots: set<nat>, n: Node, v: nat) {
    forall m: Node {:trigger Ent(mem', m)} :: m.root in roots && InUser(m) ==> Ent(mem', m) == if m == n then v else Ent(mem, m)
  }

  ghost predicate SameTree(mem: Memory, mem': Memory, roots: set<nat>) {
    forall m: Node {:trigger Ent(mem', m)} :: m.root in roots && InUser(m) ==> Ent(mem', m) == Ent(mem, m)
  }

  // ---------- one write, seen through the walk ----------

  lemma {:induction false} ParentInUser(n: Node)
    requires InUser(n) && n.d > 1
    ensures InUser(Parent(n))
  {
  }

  /** Below its parent, an entry is one word of the parent's frame. */
  lemma {:induction false} EntInParent(mem: Memory, roots: set<nat>, n: Node)
    requires InUser(n) && Live(mem, roots, Parent(n))
    ensures Ent(mem, n) == PageAt(mem, Home(mem, Parent(n)))[n.p % 512]
  {
  }

  /** What a write may do: replace a leaf, or hang an empty table under an absent entry. */
  ghost predicate CleanWrite(mem: Memory, roots: set<nat>, n: Node, v: nat) {
    && InUser(n) && Live(mem, roots, Parent(n))
    && (n.d < 4 ==>
          && !Present(Ent(mem, n)) && Present(v) && PageAt(mem, v / 4096) == ZeroPage()
          && forall m {:trigger Home(mem, m)} :: Live(mem, roots, m) ==> Home(mem, m) != v / 4096)
  }

  function Write(mem: Memory, n: Node, v: nat): Memory
    requires n.d > 0
  {
    Put(mem, Home(mem, Parent(n)), n.p % 512, v)
  }

  lemma {:induction false} EntAfterWrite(mem: Memory, roots: set<nat>, n: Node, v: nat, m: Node)
    requires HomesDistinct(mem, roots) && CleanWrite(mem, roots, n, v)
    requires m.root in roots && InUser(m)
    ensures Ent(Write(mem, n, v), m) == if m == n then v else Ent(mem, m)
    decreases m.d
  {
    var mem' := Write(mem, n, v);
    var t := Home(mem, Parent(n));
    var up := Parent(m);
    if m.d > 1 {
      ParentInUser(m);
      EntAfterWrite(mem, roots, n, v, up);
    }
    if m.d > 1 && up == n {
      assert Ent(mem, m) == 0;
      assert v / 4096 != t;
      assert PageAt(mem', v / 4096) == ZeroPage();
    } else if Live(mem, roots, up) {
      EntInParent(mem, roots, m);
    }
  }

  lemma {:induction false} WriteChanges(mem: Memory, roots: set<nat>, n: Node, v: nat)
    requires HomesDistinct(mem, roots) && CleanWrite(mem, roots, n, v)
    ensures Changed(mem, Write(mem, n, v), roots, n, v)
  {
    forall m: Node | m.root in roots && InUser(m)
      ensures Ent(Write(mem, n, v), m) == if m == n then v else Ent(mem, m)
    {
      EntAfterWrite(mem, roots, n, v, m);
    }
  }

  lemma {:induction false} EntElsewhere(mem: Memory, roots: set<nat>, f: nat, pg: Page, m: Node)
    requires forall n {:trigger Home(mem, n)} :: Live(mem, roots, n) && n.d < 4 ==> Home(mem, n) != f
    requires m.root in roots && InUser(m)
    ensures Ent(mem[f := pg], m) == Ent(mem, m)
    decreases m.d
  {
    assert Live(mem, roots, Node(m.root, 0, 0));
    if m.d > 1 {
      ParentInUser(m);
      EntElsewhere(mem, roots, f, pg, Parent(m));
      if Present(Ent(mem, Parent(m))) { assert Live(mem, roots, Parent(m)) && Home(mem, Parent(m)) != f; }
    } else {
      assert Home(mem, Node(m.root, 0, 0)) == m.root;
    }
  }

  /** Filling a frame that holds no table leaves every walk as it was. */
  lemma {:induction false} FillKeepsTree(mem: Memory, roots: set<nat>, f: nat, pg: Page)
    requires forall n {:trigger Home(mem, n)} :: Live(mem, roots, n) && n.d < 4 ==> Home(mem, n) != f
    ensures SameTree(mem, mem[f := pg], roots)
  {
    forall m: Node | m.root in roots && InUser(m) ensures Ent(mem[f := pg], m) == Ent(mem, m) {
      EntElsewhere(mem, roots, f, pg, m);
    }
  }

  // ---------- the invariant across a change ----------

  /** If the new entry names no frame in use elsewhere, health carries over; the pool may grow by the frame replaced. */
  lemma {:induction false} ChangeKeepsInv(mem: Memory, mem': Memory, roots: set<nat>, free: set<nat>, free': set<nat>, n: Node, v: nat)
    requires Inv(mem, roots, free) && CleanWrite(mem, roots, n, v) && Changed(mem, mem', roots, n, v)
    requires Present(v) ==> v / 4096 < MAX_FRAMES && v / 4096 !in free'
    requires Present(v) ==> forall m {:trigger Home(mem, m)} :: Live(mem, roots, m) && m != n ==> Home(mem, m) != v / 4096
    requires n.d < 4 ==> v % 4096 == MID_FLAGS
    requires forall m {:trigger Home(mem, m)} :: Live(mem, roots, m) && m != n ==> Home(mem, m) !in free'
    requires forall f :: f in free' ==> f < MAX_FRAMES
    ensures Inv(mem', roots, free')
  {
    forall m ensures Live(mem', roots, m) == (if m == n then Present(v) else Live(mem, roots, m)) { }
    forall m | Live(mem', roots, m) ensures Home(mem', m) == if m == n then v / 4096 else Home(mem, m) { }
  }

  lemma {:induction false} SameTreeKeepsInv(mem: Memory, mem': Memory, roots: set<nat>, free: set<nat>, free': set<nat>)
    requires Inv(mem, roots, free) && SameTree(mem, mem', roots) && free' <= free
    ensures Inv(mem', roots, free')
  {
    forall m ensures Live(mem', roots, m) == Live(mem, roots, m) { }
    forall m | Live(mem', roots, m) ensures Home(mem', m) == Home(mem, m) { }
  }

  // ---------- the walk of the source ----------

  /** Physical address of a virtual one: the code's walk, huge pages included. */
  function VirtToPhys(mem: Memory, cr3: nat, va: nat): Option<nat> {
    var pml4e := PageAt(mem, cr3 / 4096)[va / 0x80_0000_0000 % 512];
    if !Present(pml4e) then None else
    var pdpte := PageAt(mem, pml4e / 4096)[va / 0x4000_0000 % 512];
    if !Present(pdpte) then None else
    if Huge(pdpte) then Some(pdpte - pdpte % 0x4000_0000 + va % 0x4000_0000) else
    var pde := PageAt(mem, pdpte / 4096)[va / 0x20_0000 % 512];
    if !Present(pde) then None else
    if Huge(pde) then Some(pde - pde % 0x20_0000 + va % 0x20_0000) else
    var pte := PageAt(mem, pde / 4096)[va / 0x1000 % 512];
    if !Present(pte) then None else Some(pte - pte % 0x1000 + va % 0x1000)
  }

  /** A large page, marked by bit 7 of a second- or third-level entry, maps its 1 GB or 2 MB as one piece. */
  lemma {:induction false} LargePages(mem: Memory, root: nat, va: nat)
    ensures var pml4e := PageAt(mem, root)[va / 0x80_0000_0000 % 512];
            var pdpte := PageAt(mem, pml4e / 4096)[va / 0x4000_0000 % 512];
            var pde := PageAt(mem, pdpte / 4096)[va / 0x20_0000 % 512];
            && (Present(pml4e) && Present(pdpte) && pdpte / 128 % 2 == 1 ==>
                  VirtToPhys(mem, root * 4096, va) == Some(pdpte / 0x4000_0000 * 0x4000_0000 + va % 0x4000_0000))
            && (Present(pml4e) && Present(pdpte) && pdpte / 128 % 2 == 0 && Present(pde) && pde / 128 % 2 == 1 ==>
                  VirtToPhys(mem, root * 4096, va) == Some(pde / 0x20_0000 * 0x20_0000 + va % 0x20_0000))
  {
    var pdpte := PageAt(mem, PageAt(mem, root)[va / 0x80_0000_0000 % 512] / 4096)[va / 0x4000_0000 % 512];
    LargeBit(pdpte);
    LargeBit(PageAt(mem, pdpte / 4096)[va / 0x20_0000 % 512]);
    hide Huge; hide Present; hide PageAt;
  }

  lemma {:induction false} LargeBit(e: nat)
    ensures Huge(e) <==> e / 128 % 2 == 1
    ensures e - e % 0x4000_0000 == e / 0x4000_0000 * 0x4000_0000 && e - e % 0x20_0000 == e / 0x20_0000 * 0x20_0000
  {
    var q, r := e / 4096, e % 4096;
    assert e == q * 4096 + r;
    assert e / 128 == 32 * q + r / 128;
    assert (32 * q + r / 128) % 2 == r / 128 % 2;
  }

  /** The PTE of page `vpn` in space `root`. */
  function Pte(mem: Memory, root: nat, vpn: nat): nat { Ent(mem, Node(root, 4, vpn)) }

  lemma {:induction false} NodeOfPage(root: nat, vpn: nat)
    requires vpn < USER_PAGES
    ensures var n4 := Node(root, 4, vpn);
            var n3 := Parent(n4); var n2 := Parent(n3); var n1 := Parent(n2);
            && InUser(n4) && InUser(n3) && InUser(n2) && InUser(n1)
            && n3 == Node(root, 3, vpn / 0x200) && n2 == Node(root, 2, vpn / 0x4_0000)
            && n1 == Node(root, 1, vpn / 0x800_0000) && Parent(n1) == Node(root, 0, 0)
  {
  }

  lemma {:induction false} PageIndices(va: nat)
    ensures va / 0x80_0000_0000 % 512 == va / 4096 / 0x800_0000 % 512
    ensures va / 0x4000_0000 % 512 == va / 4096 / 0x4_0000 % 512
    ensures va / 0x20_0000 % 512 == va / 4096 / 0x200 % 512
  {
  }

  /** The entries on the path to a page, level by level. */
  lemma {:induction false} PathEntries(mem: Memory, root: nat, vpn: nat)
    requires vpn < USER_PAGES
    ensures var e1 := Ent(mem, Node(root, 1, vpn / 0x800_0000));
            var e2 := Ent(mem, Node(root, 2, vpn / 0x4_0000));
            var e3 := Ent(mem, Node(root, 3, vpn / 0x200));
            && e1 == PageAt(mem, root)[vpn / 0x800_0000 % 512]
            && e2 == (if Present(e1) then PageAt(mem, e1 / 4096)[vpn / 0x4_0000 % 512] else 0)
            && e3 == (if Present(e2) then PageAt(mem, e2 / 4096)[vpn / 0x200 % 512] else 0)
            && Pte(mem, root, vpn) == (if Present(e3) then PageAt(mem, e3 / 4096)[vpn % 512] else 0)
  {
    NodeOfPage(root, vpn);
  }

  lemma {:induction false} TableNotHuge(mem: Memory, roots: set<nat>, n: Node)
    requires TablesPlain(mem, roots) && n.root in roots && InUser(n) && n.d < 4
    ensures Present(Ent(mem, n)) ==> !Huge(Ent(mem, n))
  {
    assert Present(Ent(mem, n)) ==> Live(mem, roots, n);
  }

  lemma {:induction false} WalkIsTree(mem: Memory, roots: set<nat>, free: set<nat>, root: nat, va: nat)
    requires Inv(mem, roots, free) && root in roots && va / 4096 < USER_PAGES
    ensures VirtToPhys(mem, root * 4096, va)
         == var e := Pte(mem, root, va / 4096);
            if Present(e) then Some(e / 4096 * 4096 + va % 4096) else None
  {
    var vpn := va / 4096;
    PathEntries(mem, root, vpn);
    PageIndices(va);
    NodeOfPage(root, vpn);
    TableNotHuge(mem, roots, Node(root, 2, vpn / 0x4_0000));
    TableNotHuge(mem, roots, Node(root, 3, vpn / 0x200));
  }
}
