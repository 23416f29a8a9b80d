/** What removing, renaming and hard-linking change: which node every path leads to afterwards. */
module Relinking {
  import opened Prelude
  import opened Overlay

  /** The trees differ in one directory entry: name `n` of `d` leads to `c` in the second. */
  ghost predicate Relinked(t: Tree, t': Tree, d: nat, n: Name, c: Option<nat>) {
    forall e, x {:trigger Child(t', e, x)} :: Child(t', e, x) == if e == d && x == n then c else Child(t, e, x)
  }

  lemma {:induction false} PathSplit(p: Path)
    requires p != []
    ensures p == Init(p) + [Last(p)]
  {
  }

  lemma {:induction false} BelowInit(p: Path, x: Path)
    requires x != []
    ensures p <= x <==> p == x || p <= Init(x)
  {
    PathSplit(x);
  }

  /** Dropping the entry of a path: the path and all below it lead nowhere, every other path leads where it did. */
  lemma {:induction false} DropLookup(t: Tree, t': Tree, d: nat, p: Path, x: Path)
    requires Wf(t) && p != [] && Lookup(t, Init(p)) == Some(d) && IsDirAt(t, d) && Relinked(t, t', d, Last(p), None)
    ensures Lookup(t', x) == if p <= x then None else Lookup(t, x)
    decreases |x|
  {
    hide Wf; hide Child;
    if x == [] {
    } else {
      DropLookup(t, t', d, p, Init(x));
      BelowInit(p, x);
      PathSplit(p);
      PathSplit(x);
      if Lookup(t, Init(x)) == Some(d) { PathUnique(t, Init(x), Init(p)); }
    }
  }

  /** Setting the entry of a path changes no path that does not pass it. */
  lemma {:induction false} PutElsewhere(t: Tree, t': Tree, e: nat, q: Path, id: nat, x: Path)
    requires Wf(t) && q != [] && Lookup(t, Init(q)) == Some(e) && IsDirAt(t, e) && Relinked(t, t', e, Last(q), Some(id))
    ensures !(q <= x) ==> Lookup(t', x) == Lookup(t, x)
    decreases |x|
  {
    hide Wf; hide Child;
    if x == [] {
    } else {
      PutElsewhere(t, t', e, q, id, Init(x));
      BelowInit(q, x);
      PathSplit(q);
      PathSplit(x);
      if Lookup(t, Init(x)) == Some(e) { PathUnique(t, Init(x), Init(q)); }
    }
  }

  /** Setting an entry of a directory that no path leads to changes nothing. */
  lemma {:induction false} PutUnreachable(t: Tree, t': Tree, e: nat, m: Name, id: nat, x: Path)
    requires Relinked(t, t', e, m, Some(id)) && forall y {:trigger Lookup(t, y)} :: Lookup(t, y) != Some(e)
    ensures Lookup(t', x) == Lookup(t, x)
    decreases |x|
  {
    hide Child;
    if x == [] {
    } else {
      PutUnreachable(t, t', e, m, id, Init(x));
    }
  }

  // ---------- remove ----------

  /** When removing succeeds and what its refusals mean. */
  lemma {:induction false} RemoveOutcome(t: Tree, p: Path, allowDir: bool)
    requires Wf(t)
    ensures var r := Remove(t, p, allowDir).0; var id := Lookup(t, p);
            && (r == Invalid <==> p == [])
            && (r == NoEntry <==> id == None)
            && (r == IsADirectory <==> p != [] && id.Some? && IsDirAt(t, id.value) && !allowDir)
            && (r == NotEmpty <==> p != [] && id.Some? && IsDirAt(t, id.value) && allowDir && t.heap[id.value].children != map[])
            && r != NotPermitted
  {
  }

  /** After a removal the path and all below it are gone and every other path leads to the node it led to, whose contents
      are untouched; a refusal changes nothing. */
  lemma {:induction false} RemoveFinds(t: Tree, p: Path, allowDir: bool, x: Path)
    requires Wf(t)
    ensures var (r, t') := Remove(t, p, allowDir);
            && (r != Ok ==> t' == t)
            && (r == Ok ==> Lookup(t', x) == if p <= x then None else Lookup(t, x))
            && forall id :: id in t.heap && t.heap[id].File? ==> id in t'.heap && t'.heap[id] == t.heap[id]
  {
    var (r, t') := Remove(t, p, allowDir);
    if r == Ok {
      var d := Lookup(t, Init(p)).value;
      assert Relinked(t, t', d, Last(p), None);
      DropLookup(t, t', d, p, x);
    }
  }

  // ---------- hard link ----------

  /** After a link the new path leads to the linked file and replaces whatever stood there, directory or not; every other
      path is as before; a refusal changes nothing. */
  lemma {:induction false} LinkFinds(t: Tree, p: Path, q: Path, x: Path)
    requires Wf(t)
    ensures var (r, t') := Link(t, p, q);
            && (r != Ok ==> t' == t)
            && (r == Ok <==> Lookup(t, p).Some? && !IsDirAt(t, Lookup(t, p).value)
                             && q != [] && Lookup(t, Init(q)).Some? && IsDirAt(t, Lookup(t, Init(q)).value))
            && (r == Ok ==> Lookup(t', x) == if x == q then Lookup(t, p) else if q <= x then None else Lookup(t, x))
            && forall id :: id in t.heap && t.heap[id].File? ==> id in t'.heap && t'.heap[id] == t.heap[id]
  {
    var (r, t') := Link(t, p, q);
    if r == Ok {
      var d, id := Lookup(t, Init(q)).value, Lookup(t, p).value;
      assert Relinked(t, t', d, Last(q), Some(id));
      PutElsewhere(t, t', d, q, id, x);
      if q <= x { FileHasNothingBelow(t, t', d, q, id, x); }
    }
  }

  lemma {:induction false} FileHasNothingBelow(t: Tree, t': Tree, d: nat, q: Path, id: nat, x: Path)
    requires Wf(t) && q != [] && Lookup(t, Init(q)) == Some(d) && IsDirAt(t, d) && !IsDirAt(t, id)
    requires Relinked(t, t', d, Last(q), Some(id)) && q <= x
    ensures Lookup(t', x) == if x == q then Some(id) else None
    decreases |x|
  {
    hide Wf;
    BelowInit(q, x);
    if x == q {
      PutElsewhere(t, t', d, q, id, Init(q));
    } else {
      FileHasNothingBelow(t, t', d, q, id, Init(x));
    }
  }

  // ---------- rename ----------

  /** Renaming gets as far as taking the node out of its directory. */
  predicate Taken(t: Tree, p: Path, q: Path) {
    p != [] && q != [] && Lookup(t, p).Some? && Lookup(t, Init(q)).Some?
  }

  /** The node arrives: its new parent is a directory, and not the node itself or below it. */
  predicate Arrives(t: Tree, p: Path, q: Path)
    requires q != []
  {
    Lookup(t, Init(q)).Some? && IsDirAt(t, Lookup(t, Init(q)).value) && !(p <= Init(q))
  }

  /** Where the moved node's subtree ends up. */
  lemma {:induction false} MovedSubtree(t: Tree, t': Tree, p: Path, q: Path, d: nat, e: nat, r: Path)
    requires Wf(t) && p != [] && q != [] && Lookup(t, Init(p)) == Some(d) && IsDirAt(t, d)
    requires Lookup(t, Init(q)) == Some(e) && IsDirAt(t, e) && !(p <= Init(q))
    requires Lookup(t, p).Some? && Lookup(t', q) == Lookup(t, p)
    requires forall f, x {:trigger Child(t', f, x)} :: f != d && f != e ==> Child(t', f, x) == Child(t, f, x)
    ensures Lookup(t', q + r) == Lookup(t, p + r)
    decreases |r|
  {
    hide Wf; hide Child;
    if r == [] {
      assert q + r == q && p + r == p;
    } else {
      MovedSubtree(t, t', p, q, d, e, Init(r));
      assert Init(q + r) == q + Init(r) && Init(p + r) == p + Init(r);
      assert Last(q + r) == Last(r) == Last(p + r);
      var f := Lookup(t, p + Init(r));
      if f == Some(d) { PathUnique(t, p + Init(r), Init(p)); }
      if f == Some(e) { PathUnique(t, p + Init(r), Init(q)); }
    }
  }

  /** A rename whose node arrives: below the new path stands what stood below the old one, the old path is gone, every
      other path is as before. */
  lemma {:induction false} ArrivalFinds(t: Tree, p: Path, q: Path, x: Path)
    requires Wf(t) && Taken(t, p, q) && Arrives(t, p, q)
    ensures var (r, t') := Rename(t, p, q);
            && r == Ok
            && Lookup(t', x) == if q <= x then Lookup(t, p + x[|q|..]) else if p <= x then None else Lookup(t, x)
  {
    var d, e, id := Lookup(t, Init(p)).value, Lookup(t, Init(q)).value, Lookup(t, p).value;
    var t1, t' := SetEntries(t, d, t.heap[d].children - {Last(p)}), Rename(t, p, q).1;
    assert Relinked(t, t1, d, Last(p), None);
    assert Relinked(t1, t', e, Last(q), Some(id));
    DropWf(t, d, Last(p));
    DropLookup(t, t1, d, p, Init(q));
    DropLookup(t, t1, d, p, x);
    PutElsewhere(t1, t', e, q, id, x);
    PutElsewhere(t1, t', e, q, id, Init(q));
    BelowInit(q, q);
    hide Wf; hide Relinked;
    if q <= x {
      MovedSubtree(t, t', p, q, d, e, x[|q|..]);
      assert x == q + x[|q|..];
    }
  }

  /** A rename whose node is taken but does not arrive, into a file or into its own subtree, loses the node with all
      below it and leaves every other path as before. */
  lemma {:induction false} LossFinds(t: Tree, p: Path, q: Path, x: Path)
    requires Wf(t) && Taken(t, p, q) && !Arrives(t, p, q)
    ensures var (r, t') := Rename(t, p, q);
            && (r == Ok <==> IsDirAt(t, Lookup(t, Init(q)).value))
            && Lookup(t', x) == if p <= x then None else Lookup(t, x)
  {
    var d, e, id := Lookup(t, Init(p)).value, Lookup(t, Init(q)).value, Lookup(t, p).value;
    var t1, t' := SetEntries(t, d, t.heap[d].children - {Last(p)}), Rename(t, p, q).1;
    assert Relinked(t, t1, d, Last(p), None);
    DropLookup(t, t1, d, p, x);
    if IsDirAt(t, e) {
      assert Relinked(t1, t', e, Last(q), Some(id));
      forall y ensures Lookup(t1, y) != Some(e) {
        DropLookup(t, t1, d, p, y);
        if Lookup(t1, y) == Some(e) { PathUnique(t, y, Init(q)); }
      }
      PutUnreachable(t1, t', e, Last(q), id, x);
    }
  }

  /** Every rename, on every path: refused and nothing changed, arrived, or lost; files keep their contents. */
  lemma {:induction false} RenameFinds(t: Tree, p: Path, q: Path, x: Path)
    requires Wf(t)
    ensures var (r, t') := Rename(t, p, q);
            && (!Taken(t, p, q) ==> t' == t && r != Ok && (r == Invalid <==> p == [] || q == []))
            && (Taken(t, p, q) ==>
                  && (r == Ok <==> IsDirAt(t, Lookup(t, Init(q)).value))
                  && Lookup(t', x) == if Arrives(t, p, q) && q <= x then Lookup(t, p + x[|q|..]) else if p <= x then None else Lookup(t, x))
            && forall id :: id in t.heap && t.heap[id].File? ==> id in t'.heap && t'.heap[id] == t.heap[id]
  {
    if Taken(t, p, q) {
      if Arrives(t, p, q) { ArrivalFinds(t, p, q, x); } else { LossFinds(t, p, q, x); }
    }
    hide Wf;
  }

  /** The new name leads to the node after a rename that takes it exactly when its new parent is a directory outside it. */
  lemma {:induction false} RenameArrivesIff(t: Tree, p: Path, q: Path)
    requires Wf(t) && Taken(t, p, q)
    ensures Lookup(Rename(t, p, q).1, q) == Lookup(t, p) <==> Arrives(t, p, q)
  {
    RenameFinds(t, p, q, q);
    BelowInit(p, q);
    assert p + q[|q|..] == p;
    hide Wf; hide Rename;
  }
}
