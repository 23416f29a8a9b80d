/** clone_user_space: the deep copy of an address space made by fork. */
module Fork {
  import opened Prelude
  import opened Frame
  import opened PageTable
  import opened Paging

  // ---------- the operation ----------

  /** A new PML4: the user half empty, the kernel half shared. */
  function KernelHalf(kernel: Page): Page { seq(512, i requires 0 <= i < 512 => if i < 256 then 0 else kernel[i]) }

  /** Entries a table at depth `d` copies: only the user half of the root. */
  function Fanout(d: nat): nat { if d == 0 then 256 else 512 }

  /** The nested copy loops: entries i.. of the table in frame `from` (depth `d`) go to the table in frame `to`. */
  ghost function CloneTable(s: Vm, from: nat, to: nat, d: nat, i: nat): Option<Vm>
    requires d < 4 && i <= Fanout(d)
    decreases 4 - d, Fanout(d) - i
  {
    if i == Fanout(d) then Some(s)
    else
      var e := PageAt(s.mem, from)[i];
      if !Present(e) then CloneTable(s, from, to, d, i + 1)
      else
        match CloneEntry(s, to, d, i, e)
        case None => None
        case Some((f, s1)) =>
          match if d == 3 then Some(s1) else CloneTable(s1, e / 4096, f, d + 1, 0)
          case None => None
          case Some(s2) => CloneTable(s2, from, to, d, i + 1)
  }

  /** What a cloned entry points to before anything is copied below it. */
  function CloneData(mem: Memory, d: nat, e: nat): Page { if d == 3 then PageAt(mem, e / 4096) else ZeroPage() }

  /** A present entry gets a frame of its own: an empty table, or a copy of the data page. */
  ghost function CloneEntry(s: Vm, to: nat, d: nat, i: nat, e: nat): Option<(nat, Vm)>
    requires i < 512
  {
    Attach(s, to, i, CloneData(s.mem, d, e), e % 4096)
  }

  ghost function CloneUserSpace(s: Vm, kernel: nat, src: nat): Option<(nat, Vm)> {
    match AllocFilled(s, KernelHalf(PageAt(s.mem, kernel)))
    case None => None
    case Some((dst, s1)) =>
      match CloneTable(s1, src, dst, 0, 0)
      case None => None
      case Some(s2) => Some((dst, s2))
  }

  // ---------- subtrees ----------

  function Child(d: nat, q: nat, i: nat): nat { if d == 0 then i else q * 512 + i }

  /** The page-number prefix at depth `k` of position `p` at depth `d`. */
  function Anc(d: nat, p: nat, k: nat): nat
    requires 0 < k <= d
  {
    if d == k then p else Anc(d - 1, p / 512, k)
  }

  /** `m` lies strictly below position (d, q), through a child numbered at least `i`. */
  predicate Under(m: Node, d: nat, q: nat, i: nat) {
    m.d > d && var c := Anc(m.d, m.p, d + 1); (d > 0 ==> c / 512 == q) && c % 512 >= i
  }

  lemma {:induction false} AncInUser(m: Node, k: nat)
    requires 0 < k <= m.d && InUser(m)
    ensures InUser(Node(m.root, k, Anc(m.d, m.p, k)))
    decreases m.d
  {
    if k == m.d {
    } else {
      ParentInUser(m);
      AncInUser(Parent(m), k);
    }
  }

  lemma {:induction false} AncStep(d: nat, p: nat, k: nat)
    requires 0 < k < d
    ensures Anc(d, p, k + 1) / 512 == Anc(d, p, k)
    decreases d
  {
    if k + 1 < d { AncStep(d - 1, p / 512, k); }
  }

  /** Child `i` of (d, q) splits off: what lies under (d, q) from `i` on is child i, its subtree, and the rest. */
  lemma {:induction false} UnderSplit(m: Node, d: nat, q: nat, i: nat)
    requires InUser(m) && d < 4 && (d == 0 ==> q == 0) && i < Fanout(d)
    ensures Under(m, d, q, i) <==>
            (m.d == d + 1 && m.p == Child(d, q, i)) || Under(m, d + 1, Child(d, q, i), 0) || Under(m, d, q, i + 1)
    ensures m.d == d + 1 && m.p == Child(d, q, i) ==> !Under(m, d + 1, Child(d, q, i), 0) && !Under(m, d, q, i + 1)
    ensures Under(m, d + 1, Child(d, q, i), 0) ==> !Under(m, d, q, i + 1)
  {
    if m.d > d {
      var c := Anc(m.d, m.p, d + 1);
      AncInUser(m, d + 1);
      assert (d > 0 ==> c / 512 == q) && c % 512 == i <==> c == Child(d, q, i);
      if m.d > d + 1 { AncStep(m.d, m.p, d + 1); }
    }
  }

  /** Below an absent entry there is nothing. */
  lemma {:induction false} AbsentBelow(mem: Memory, m: Node, k: nat)
    requires 0 < k < m.d && InUser(m) && !Present(Ent(mem, Node(m.root, k, Anc(m.d, m.p, k))))
    ensures Ent(mem, m) == 0
    decreases m.d
  {
    ParentInUser(m);
    if k + 1 < m.d { AbsentBelow(mem, Parent(m), k); }
  }

  // ---------- correctness of the copy ----------

  /** Position `m` of the copy matches the same position of `src`: presence, flags and, for a page, contents. */
  ghost predicate Copied(mem: Memory, src: nat, m: Node) {
    var x, y := Ent(mem, Node(src, m.d, m.p)), Ent(mem, m);
    && Present(x) == Present(y)
    && (Present(x) ==> x % 4096 == y % 4096 && (m.d == 4 ==> PageAt(mem, x / 4096) == PageAt(mem, y / 4096)))
  }

  /** From `s` to `s'` only positions of `dst` below (d, q) from child `i` on changed, and they are copied. */
  ghost predicate Cloned(s: Vm, s': Vm, roots: set<nat>, src: nat, dst: nat, d: nat, q: nat, i: nat) {
    && Healthy(s', roots) && KeepsData(s, s', roots)
    && (forall m: Node {:trigger Ent(s'.mem, m)} :: m.root in roots && InUser(m) && !(m.root == dst && Under(m, d, q, i)) ==> Ent(s'.mem, m) == Ent(s.mem, m))
    && (forall m: Node {:trigger Copied(s'.mem, src, m)} :: m.root == dst && InUser(m) && Under(m, d, q, i) ==> Copied(s'.mem, src, m))
  }

  /** The copy has not reached child `i` of (d, q) yet. */
  ghost predicate Blank(mem: Memory, dst: nat, d: nat, q: nat, i: nat) {
    forall m: Node {:trigger Ent(mem, m)} :: m.root == dst && InUser(m) && Under(m, d, q, i) ==> !Present(Ent(mem, m))
  }

  lemma {:induction false} CopiedKept(s: Vm, s': Vm, roots: set<nat>, src: nat, m: Node)
    requires Healthy(s, roots) && KeepsData(s, s', roots) && src in roots && m.root in roots && InUser(m)
    requires Ent(s'.mem, m) == Ent(s.mem, m) && Ent(s'.mem, Node(src, m.d, m.p)) == Ent(s.mem, Node(src, m.d, m.p))
    requires Copied(s.mem, src, m)
    ensures Copied(s'.mem, src, m)
  {
    var x, y := Node(src, m.d, m.p), m;
    if m.d == 4 && Present(Ent(s.mem, y)) {
      assert Live(s.mem, roots, x) && Live(s.mem, roots, y);
      assert Pristine(s, roots, Home(s.mem, x)) && Pristine(s, roots, Home(s.mem, y));
    }
  }

  /** Giving child `i` a frame: exactly that position of the copy appears, and matches. */
  lemma {:induction false} CloneEntryCorrect(s: Vm, roots: set<nat>, x: Node, c: Node)
    requires Healthy(s, roots) && Live(s.mem, roots, x) && c.root in roots && c == Node(c.root, x.d, x.p) && x.d > 0
    requires Live(s.mem, roots, Parent(c)) && !Present(Ent(s.mem, c)) && s.free != {}
    ensures var e := Ent(s.mem, x);
            var (f, s') := Attach(s, Home(s.mem, Parent(c)), c.p % 512, CloneData(s.mem, c.d - 1, e), e % 4096).value;
            Attached(s, s', roots, c, f, CloneData(s.mem, c.d - 1, e), e % 4096)
  {
    var e := Ent(s.mem, x);
    assert e % 4096 % 2 == 1;
    AttachCorrect(s, roots, c, CloneData(s.mem, c.d - 1, e), e % 4096);
  }

  lemma {:induction false} AttachedIsCopied(s: Vm, s': Vm, roots: set<nat>, x: Node, c: Node, f: nat)
    requires Healthy(s, roots) && Live(s.mem, roots, x) && c.root in roots && c == Node(c.root, x.d, x.p) && x.d > 0 && x != c
    requires Attached(s, s', roots, c, f, CloneData(s.mem, c.d - 1, Ent(s.mem, x)), Ent(s.mem, x) % 4096)
    ensures Copied(s'.mem, x.root, c)
  {
    var e := Ent(s.mem, x);
    EntryArith(f, e % 4096);
    if x.d == 4 { LeafPristine(s, roots, x); }
  }

  lemma {:induction false} NothingUnder(m: Node, d: nat, q: nat)
    requires InUser(m) && d < 4
    ensures !Under(m, d, q, Fanout(d))
  {
    if m.d > d { AncInUser(m, d + 1); }
  }

  lemma {:induction false} ChildFacts(r: nat, d: nat, q: nat, i: nat)
    requires d < 4 && i < Fanout(d) && if d == 0 then q == 0 else InUser(Node(r, d, q))
    ensures var c := Node(r, d + 1, Child(d, q, i));
            InUser(c) && Parent(c) == Node(r, d, q) && c.p % 512 == i
  {
  }

  /** While child `i` is absent in the source, the copy may skip it. */
  lemma {:induction false} ClonedSkip(s: Vm, s': Vm, roots: set<nat>, src: nat, dst: nat, d: nat, q: nat, i: nat)
    requires src in roots && dst in roots && src != dst && d < 4 && (d == 0 ==> q == 0) && i < Fanout(d)
    requires !Present(Ent(s.mem, Node(src, d + 1, Child(d, q, i)))) && Blank(s.mem, dst, d, q, i)
    requires Cloned(s, s', roots, src, dst, d, q, i + 1)
    ensures Cloned(s, s', roots, src, dst, d, q, i)
  {
    forall m: Node | m.root in roots && InUser(m) && !(m.root == dst && Under(m, d, q, i))
      ensures Ent(s'.mem, m) == Ent(s.mem, m)
    {
      UnderSplit(m, d, q, i);
    }
    forall m: Node | m.root == dst && InUser(m) && Under(m, d, q, i) ensures Copied(s'.mem, src, m) {
      UnderSplit(m, d, q, i);
      if !Under(m, d, q, i + 1) {
        var x := Node(src, m.d, m.p);
        assert InUser(x);
        AbsentUnder(s.mem, x, d, q, i);
        assert Ent(s'.mem, x) == Ent(s.mem, x) && Ent(s'.mem, m) == Ent(s.mem, m);
      }
    }
  }

  lemma {:induction false} AbsentUnder(mem: Memory, x: Node, d: nat, q: nat, i: nat)
    requires InUser(x) && d < 4 && (d == 0 ==> q == 0) && i < Fanout(d)
    requires (x.d == d + 1 && x.p == Child(d, q, i)) || Under(x, d + 1, Child(d, q, i), 0)
    requires !Present(Ent(mem, Node(x.root, d + 1, Child(d, q, i))))
    ensures !Present(Ent(mem, x))
  {
    if Under(x, d + 1, Child(d, q, i), 0) {
      AncStep(x.d, x.p, d + 1);
      AbsentBelow(mem, x, d + 1);
    }
  }

  lemma {:induction false} BlankNarrows(mem: Memory, dst: nat, d: nat, q: nat, i: nat)
    requires Blank(mem, dst, d, q, i)
    ensures Blank(mem, dst, d, q, i + 1)
  {
  }

  /** Once child `i` has its frame, its own subtree and the later children are still blank. */
  lemma {:induction false} BlankAfterChild(mem: Memory, mem': Memory, roots: set<nat>, dst: nat, d: nat, q: nat, i: nat, v: nat)
    requires dst in roots && d < 4 && (d == 0 ==> q == 0) && i < Fanout(d) && Blank(mem, dst, d, q, i)
    requires Changed(mem, mem', roots, Node(dst, d + 1, Child(d, q, i)), v)
    ensures Blank(mem', dst, d + 1, Child(d, q, i), 0) && Blank(mem', dst, d, q, i + 1)
  {
    forall m: Node | m.root == dst && InUser(m) && (Under(m, d + 1, Child(d, q, i), 0) || Under(m, d, q, i + 1))
      ensures !Present(Ent(mem', m))
    {
      UnderSplit(m, d, q, i);
    }
  }

  lemma {:induction false} BlankAfterSubtree(s: Vm, s': Vm, roots: set<nat>, src: nat, dst: nat, d: nat, q: nat, i: nat)
    requires dst in roots && d < 3 && (d == 0 ==> q == 0) && i < Fanout(d) && Blank(s.mem, dst, d, q, i + 1)
    requires Cloned(s, s', roots, src, dst, d + 1, Child(d, q, i), 0)
    ensures Blank(s'.mem, dst, d, q, i + 1)
  {
    forall m: Node | m.root == dst && InUser(m) && Under(m, d, q, i + 1) ensures !Present(Ent(s'.mem, m)) {
      UnderSplit(m, d, q, i);
      assert Ent(s'.mem, m) == Ent(s.mem, m);
    }
  }

  /** Copying below child `i` leaves both tables at (d, q) where they are. */
  lemma {:induction false} ClonedKeepsLive(s: Vm, s': Vm, roots: set<nat>, src: nat, dst: nat, d: nat, q: nat, p: nat, r: nat)
    requires Cloned(s, s', roots, src, dst, d + 1, p, 0) && Live(s.mem, roots, Node(r, d, q))
    ensures Live(s'.mem, roots, Node(r, d, q)) && Home(s'.mem, Node(r, d, q)) == Home(s.mem, Node(r, d, q))
  {
  }

  /** Child `i` of (d, q) has its frame in the copy; its subtree and the later children are still to do. */
  ghost predicate Placed(s: Vm, s1: Vm, roots: set<nat>, src: nat, dst: nat, d: nat, q: nat, i: nat, f: nat) {
    var c := Node(dst, d + 1, Child(d, q, i));
    && Healthy(s1, roots) && KeepsData(s, s1, roots) && InUser(c)
    && Changed(s.mem, s1.mem, roots, c, Ent(s1.mem, c)) && Copied(s1.mem, src, c)
    && Live(s1.mem, roots, c) && Home(s1.mem, c) == f
    && Blank(s1.mem, dst, d + 1, Child(d, q, i), 0) && Blank(s1.mem, dst, d, q, i + 1)
  }

  lemma {:induction false} PlaceChild(s: Vm, roots: set<nat>, src: nat, dst: nat, d: nat, q: nat, i: nat)
    requires Healthy(s, roots) && src in roots && dst in roots && src != dst && d < 4 && i < Fanout(d)
    requires Live(s.mem, roots, Node(src, d, q)) && Live(s.mem, roots, Node(dst, d, q)) && Blank(s.mem, dst, d, q, i)
    requires Present(Ent(s.mem, Node(src, d + 1, Child(d, q, i)))) && s.free != {}
    ensures var (f, s1) := CloneEntry(s, Home(s.mem, Node(dst, d, q)), d, i, Ent(s.mem, Node(src, d + 1, Child(d, q, i)))).value;
            Placed(s, s1, roots, src, dst, d, q, i, f)
  {
    var x, c := Node(src, d + 1, Child(d, q, i)), Node(dst, d + 1, Child(d, q, i));
    ChildFacts(src, d, q, i);
    ChildFacts(dst, d, q, i);
    UnderSplit(c, d, q, i);
    CloneEntryCorrect(s, roots, x, c);
    var (f, s1) := CloneEntry(s, Home(s.mem, Node(dst, d, q)), d, i, Ent(s.mem, x)).value;
    AttachedIsCopied(s, s1, roots, x, c, f);
    BlankAfterChild(s.mem, s1.mem, roots, dst, d, q, i, Ent(s1.mem, c));
  }

  lemma {:induction false} PlacedKeepsLive(s: Vm, s1: Vm, roots: set<nat>, src: nat, dst: nat, d: nat, q: nat, i: nat, f: nat, n: Node)
    requires Placed(s, s1, roots, src, dst, d, q, i, f) && Live(s.mem, roots, n) && n != Node(dst, d + 1, Child(d, q, i))
    ensures Live(s1.mem, roots, n) && Home(s1.mem, n) == Home(s.mem, n)
  {
  }

  /** Child i placed, its subtree copied, the later children copied: all from `i` on is copied. */
  lemma {:induction false} CloneJoin(s: Vm, s1: Vm, s2: Vm, s': Vm, roots: set<nat>, src: nat, dst: nat, d: nat, q: nat, i: nat, f: nat)
    requires src in roots && dst in roots && src != dst && d < 4 && (d == 0 ==> q == 0) && i < Fanout(d)
    requires Placed(s, s1, roots, src, dst, d, q, i, f) && Healthy(s2, roots)
    requires if d == 3 then s2 == s1 else Cloned(s1, s2, roots, src, dst, d + 1, Child(d, q, i), 0)
    requires Cloned(s2, s', roots, src, dst, d, q, i + 1)
    ensures Cloned(s, s', roots, src, dst, d, q, i)
  {
    forall m: Node | m.root in roots && InUser(m) && !(m.root == dst && Under(m, d, q, i))
      ensures Ent(s'.mem, m) == Ent(s.mem, m)
    {
      UnderSplit(m, d, q, i);
      assert Ent(s2.mem, m) == Ent(s1.mem, m);
    }
    forall m: Node | m.root == dst && InUser(m) && Under(m, d, q, i) ensures Copied(s'.mem, src, m) {
      CloneJoinCopied(s1, s2, s', roots, src, dst, d, q, i, m);
    }
  }

  lemma {:induction false} CloneJoinCopied(s1: Vm, s2: Vm, s': Vm, roots: set<nat>, src: nat, dst: nat, d: nat, q: nat, i: nat, m: Node)
    requires src in roots && dst in roots && src != dst && d < 4 && (d == 0 ==> q == 0) && i < Fanout(d)
    requires Healthy(s1, roots) && Healthy(s2, roots) && Copied(s1.mem, src, Node(dst, d + 1, Child(d, q, i)))
    requires if d == 3 then s2 == s1 else Cloned(s1, s2, roots, src, dst, d + 1, Child(d, q, i), 0)
    requires Cloned(s2, s', roots, src, dst, d, q, i + 1)
    requires m.root == dst && InUser(m) && Under(m, d, q, i)
    ensures Copied(s'.mem, src, m)
  {
    UnderSplit(m, d, q, i);
    assert InUser(Node(src, m.d, m.p));
    if !Under(m, d, q, i + 1) {
      if d < 3 && m == Node(dst, d + 1, Child(d, q, i)) { CopiedKept(s1, s2, roots, src, m); }
      CopiedKept(s2, s', roots, src, m);
    }
  }

  lemma {:induction false} CloneTableCorrect(s: Vm, roots: set<nat>, src: nat, dst: nat, d: nat, q: nat, i: nat)
    requires Healthy(s, roots) && src in roots && dst in roots && src != dst
    requires d < 4 && i <= Fanout(d) && Live(s.mem, roots, Node(src, d, q)) && Live(s.mem, roots, Node(dst, d, q))
    requires Blank(s.mem, dst, d, q, i)
    requires CloneTable(s, Home(s.mem, Node(src, d, q)), Home(s.mem, Node(dst, d, q)), d, i).Some?
    ensures Cloned(s, CloneTable(s, Home(s.mem, Node(src, d, q)), Home(s.mem, Node(dst, d, q)), d, i).value, roots, src, dst, d, q, i)
    decreases 4 - d, Fanout(d) - i, 1
  {
    if i == Fanout(d) {
      forall m: Node | InUser(m) ensures !Under(m, d, q, i) { NothingUnder(m, d, q); }
    } else {
      var x := Node(src, d + 1, Child(d, q, i));
      ChildFacts(src, d, q, i);
      EntInParent(s.mem, roots, x);
      if !Present(Ent(s.mem, x)) {
        BlankNarrows(s.mem, dst, d, q, i);
        CloneTableCorrect(s, roots, src, dst, d, q, i + 1);
        var s' := CloneTable(s, Home(s.mem, Node(src, d, q)), Home(s.mem, Node(dst, d, q)), d, i).value;
        ClonedSkip(s, s', roots, src, dst, d, q, i);
      } else {
        ClonePresentChild(s, roots, src, dst, d, q, i);
      }
    }
  }

  lemma {:induction false} ClonePresentChild(s: Vm, roots: set<nat>, src: nat, dst: nat, d: nat, q: nat, i: nat)
    requires Healthy(s, roots) && src in roots && dst in roots && src != dst
    requires d < 4 && i < Fanout(d) && Live(s.mem, roots, Node(src, d, q)) && Live(s.mem, roots, Node(dst, d, q))
    requires Blank(s.mem, dst, d, q, i) && Live(s.mem, roots, Node(src, d + 1, Child(d, q, i)))
    requires CloneTable(s, Home(s.mem, Node(src, d, q)), Home(s.mem, Node(dst, d, q)), d, i).Some?
    ensures Cloned(s, CloneTable(s, Home(s.mem, Node(src, d, q)), Home(s.mem, Node(dst, d, q)), d, i).value, roots, src, dst, d, q, i)
    decreases 4 - d, Fanout(d) - i, 0
  {
    var a, b, x := Node(src, d, q), Node(dst, d, q), Node(src, d + 1, Child(d, q, i));
    ChildFacts(src, d, q, i);
    EntInParent(s.mem, roots, x);
    PlaceChild(s, roots, src, dst, d, q, i);
    var (f, s1) := CloneEntry(s, Home(s.mem, b), d, i, Ent(s.mem, x)).value;
    PlacedKeepsLive(s, s1, roots, src, dst, d, q, i, f, a);
    PlacedKeepsLive(s, s1, roots, src, dst, d, q, i, f, b);
    PlacedKeepsLive(s, s1, roots, src, dst, d, q, i, f, x);
    var s2 := s1;
    if d < 3 {
      s2 := CloneTable(s1, Home(s.mem, x), f, d + 1, 0).value;
      CloneTableCorrect(s1, roots, src, dst, d + 1, Child(d, q, i), 0);
      BlankAfterSubtree(s1, s2, roots, src, dst, d, q, i);
      ClonedKeepsLive(s1, s2, roots, src, dst, d, q, Child(d, q, i), src);
      ClonedKeepsLive(s1, s2, roots, src, dst, d, q, Child(d, q, i), dst);
    }
    CloneTableCorrect(s2, roots, src, dst, d, q, i + 1);
    CloneJoin(s, s1, s2, CloneTable(s2, Home(s.mem, a), Home(s.mem, b), d, i + 1).value, roots, src, dst, d, q, i, f);
  }

  // ---------- the whole space ----------

  /** A new root with an empty user half joins the healthy spaces. */
  lemma {:induction false} NewRootHealthy(s: Vm, roots: set<nat>, f: nat)
    requires Healthy(s, roots) && Spare(s, roots, f) && f < MAX_FRAMES
    requires forall i :: 0 <= i < 256 ==> PageAt(s.mem, f)[i] == 0
    ensures Healthy(s, roots + {f}) && f !in roots && Blank(s.mem, f, 0, 0, 0)
    ensures Live(s.mem, roots + {f}, Node(f, 0, 0))
  {
    forall r | r in roots ensures r != f {
      assert Live(s.mem, roots, Node(r, 0, 0)) && Home(s.mem, Node(r, 0, 0)) == r;
    }
    forall m: Node | m.root == f && InUser(m) ensures !Present(Ent(s.mem, m)) { EmptyRoot(s.mem, f, m); }
    forall m | Live(s.mem, roots + {f}, m) ensures Live(s.mem, roots, m) || m == Node(f, 0, 0) { }
  }

  lemma {:induction false} EmptyRoot(mem: Memory, f: nat, m: Node)
    requires m.root == f && InUser(m) && forall i :: 0 <= i < 256 ==> PageAt(mem, f)[i] == 0
    ensures Ent(mem, m) == 0
    decreases m.d
  {
    if m.d > 1 { ParentInUser(m); EmptyRoot(mem, f, Parent(m)); }
  }

  /** fork: the child translates exactly the pages the parent does, with equal flags and bytes in frames of its own;
      the parent and every other space are as before. */
  ghost predicate Forked(s: Vm, s': Vm, roots: set<nat>, src: nat, dst: nat) {
    && dst !in roots && Healthy(s', roots + {dst})
    && (forall r, vpn: nat {:trigger Pte(s'.mem, r, vpn)} :: r in roots && vpn < USER_PAGES ==> Pte(s'.mem, r, vpn) == Pte(s.mem, r, vpn))
    && (forall g {:trigger PageAt(s'.mem, g)} :: Pristine(s, roots, g) ==> PageAt(s'.mem, g) == PageAt(s.mem, g))
    && (forall vpn: nat {:trigger SamePage(s'.mem, src, dst, vpn)} :: vpn < USER_PAGES ==> SamePage(s'.mem, src, dst, vpn))
  }

  ghost predicate SamePage(mem: Memory, src: nat, dst: nat, vpn: nat) {
    var x, y := Pte(mem, src, vpn), Pte(mem, dst, vpn);
    && (Present(x) <==> Present(y))
    && (Present(x) ==> x % 4096 == y % 4096 && x / 4096 != y / 4096 && PageAt(mem, x / 4096) == PageAt(mem, y / 4096))
  }

  lemma {:induction false} CopiedPage(s: Vm, roots: set<nat>, src: nat, dst: nat, vpn: nat)
    requires Healthy(s, roots) && src in roots && dst in roots && src != dst && vpn < USER_PAGES
    requires Copied(s.mem, src, Node(dst, 4, vpn))
    ensures SamePage(s.mem, src, dst, vpn)
  {
    if Present(Pte(s.mem, src, vpn)) {
      assert Home(s.mem, Node(src, 4, vpn)) != Home(s.mem, Node(dst, 4, vpn));
    }
  }

  lemma {:induction false} ForkCorrect(s: Vm, roots: set<nat>, kernel: nat, src: nat)
    requires Healthy(s, roots) && src in roots && CloneUserSpace(s, kernel, src).Some?
    ensures var (dst, s') := CloneUserSpace(s, kernel, src).value;
            Forked(s, s', roots, src, dst)
  {
    var data := KernelHalf(PageAt(s.mem, kernel));
    AllocFilledKeeps(s, roots, data);
    var (dst, s1) := AllocFilled(s, data).value;
    NewRootHealthy(s1, roots, dst);
    assert Live(s1.mem, roots + {dst}, Node(src, 0, 0));
    CloneTableCorrect(s1, roots + {dst}, src, dst, 0, 0, 0);
    ForkJoin(s, s1, CloneTable(s1, src, dst, 0, 0).value, roots, src, dst, data);
  }

  lemma {:induction false} ForkJoin(s: Vm, s1: Vm, s': Vm, roots: set<nat>, src: nat, dst: nat, data: Page)
    requires Filled(s, s1, roots, dst, data) && dst !in roots && src in roots && Blank(s1.mem, dst, 0, 0, 0)
    requires Cloned(s1, s', roots + {dst}, src, dst, 0, 0, 0)
    ensures Forked(s, s', roots, src, dst)
  {
    forall r, vpn: nat | r in roots && vpn < USER_PAGES ensures Pte(s'.mem, r, vpn) == Pte(s.mem, r, vpn) {
      assert InUser(Node(r, 4, vpn)) && Ent(s1.mem, Node(r, 4, vpn)) == Ent(s.mem, Node(r, 4, vpn));
    }
    forall g | Pristine(s, roots, g) ensures PageAt(s'.mem, g) == PageAt(s.mem, g) {
      PristineNewRoot(s1, roots, dst, g);
    }
    forall vpn: nat | vpn < USER_PAGES ensures SamePage(s'.mem, src, dst, vpn) {
      assert InUser(Node(dst, 4, vpn)) && Under(Node(dst, 4, vpn), 0, 0, 0);
      assert Copied(s'.mem, src, Node(dst, 4, vpn));
      CopiedPage(s', roots + {dst}, src, dst, vpn);
    }
  }

  lemma {:induction false} PristineNewRoot(s: Vm, roots: set<nat>, f: nat, g: nat)
    requires Pristine(s, roots, g) && g != f && Blank(s.mem, f, 0, 0, 0)
    ensures Pristine(s, roots + {f}, g)
  {
    forall n | Live(s.mem, roots + {f}, n) && n.d < 4 ensures Home(s.mem, n) != g {
      if n.root == f && n.d > 0 { assert Under(n, 0, 0, 0); }
    }
  }
}
