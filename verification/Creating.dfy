/** What creating makes: the new entry under its one path, the parents that were missing, and nothing else. */
module Creating {
  import opened Prelude
  import opened Overlay
  import opened CopyUp

  // ---------- create_file and mkdir ----------

  /** What stands at a path is handed out; a missing entry of a directory is made; anything else is refused. */
  lemma {:induction false} MakeFinds(t: Tree, p: Path, node: Node, q: Path)
    requires Wf(t) && (node.File? || node.children == map[])
    ensures var (r, t') := Make(t, p, node);
            && (r == None <==> p == [] || !DirAt(t, Init(p)))
            && (r == None || Lookup(t, p).Some? ==> t' == t)
            && (r.Some? ==> Lookup(t', p) == r)
            && (r.Some? && Lookup(t, p) == None ==> NodeAt(t', p) == Some(node) && (Lookup(t', q) == r <==> q == p))
            && (q != p ==> Lookup(t', q) == Lookup(t, q))
            && (q != p && (p == [] || q != Init(p)) ==> NodeAt(t', q) == NodeAt(t, q))
  {
    hide Grow; hide Wf;
    if p != [] && Lookup(t, Init(p)).Some? {
      LookupAllocated(t, Init(p));
      var d := Lookup(t, Init(p)).value;
      assert p == Init(p) + [Last(p)];
      if IsDirAt(t, d) && Child(t, d, Last(p)) == None {
        GrowNode(t, d, Last(p), node, Init(p), q);
        GrowNode(t, d, Last(p), node, Init(p), p);
        GrowLookup(t, d, Last(p), node, Init(p), p);
        OnlyPath(t, d, Last(p), node, Init(p), q);
      }
    }
  }

  // ---------- the parents ----------

  lemma {:induction false} PrefixFound(t: Tree, p: Path, k: nat)
    requires k < |p| && Lookup(t, p[..k + 1]).Some?
    ensures Lookup(t, p[..k]).Some?
  {
    assert Init(p[..k + 1]) == p[..k];
  }

  /** Where the path is there already, no parent is made. */
  lemma {:induction false} EnsureNothing(t: Tree, p: Path, k: nat)
    requires k < |p| && Lookup(t, p[..k]).Some?
    ensures EnsureDirs(t, p, k) == t
  {
    if k == 0 {
    } else {
      PrefixFound(t, p, k - 1);
      EnsureNothing(t, p, k - 1);
    }
  }

  /** Nor is any made when a file stands in the way. */
  lemma {:induction false} EnsureBlocked(t: Tree, p: Path, k: nat)
    requires Wf(t) && k < |p| && Blocked(t, p, k)
    ensures EnsureDirs(t, p, k) == t
  {
    hide Wf;
    if k == 0 {
    } else if FileAt(t, p[..k]) {
      EnsureNothing(t, p, k);
    } else {
      assert Blocked(t, p, k - 1);
      EnsureBlocked(t, p, k - 1);
      EnsureReaches(t, p, k - 1);
      MakeFinds(t, p[..k], Dir(map[]), []);
      assert Init(p[..k]) == p[..k - 1];
    }
  }

  /** `q` is one of the first `k` proper prefixes. */
  predicate Among(q: Path, p: Path, k: nat) { q <= p && |q| <= k }

  ghost predicate Kept(t: Tree, t': Tree, q: Path) {
    Lookup(t', q) == Lookup(t, q) && ReadFile(t', q) == ReadFile(t, q) && (DirAt(t', q) <==> DirAt(t, q))
  }

  /** From `t` to `t'` the missing ones of the first `k` prefixes of `p` were made, as seen at `q`. */
  ghost predicate ParentsMade(t: Tree, t': Tree, p: Path, k: nat, q: Path)
    requires k < |p|
  {
    && (if Lookup(t, q) == None && Among(q, p, k) then DirAt(t', q) else Kept(t, t', q))
    && TreeNames(t', q) == TreeNames(t, q) + if Among(q, p, k) && |q| < k then {p[|q|]} else {}
  }

  lemma {:induction false} AmongNext(p: Path, k: nat, q: Path)
    requires 0 < k < |p|
    ensures Init(p[..k]) == p[..k - 1] && Last(p[..k]) == p[k - 1] && p[..k] != []
    ensures Among(q, p, k) <==> Among(q, p, k - 1) || q == p[..k]
    ensures Among(q, p, k) && |q| < k <==> (Among(q, p, k - 1) && |q| < k - 1) || q == p[..k - 1]
    ensures Among(q, p, k - 1) ==> q != p[..k]
  {
    assert Among(q, p, k) && |q| == k ==> q == p[..k];
    assert Among(q, p, k) && |q| == k - 1 ==> q == p[..k - 1];
  }

  /** With no file in the way the missing prefixes become directories; whatever was there stays what it was. */
  lemma {:induction false} EnsureMakes(t: Tree, p: Path, k: nat, q: Path)
    requires Wf(t) && k < |p| && !Blocked(t, p, k)
    ensures Wf(EnsureDirs(t, p, k)) && ParentsMade(t, EnsureDirs(t, p, k), p, k, q)
  {
    hide Wf; hide Grow; hide ParentsMade; hide Mkdir; hide Lookup; hide FileAt; hide DirAt;
    if k == 0 {
      NoneMade(t, p, q);
    } else {
      var t0, pk := EnsureDirs(t, p, k - 1), p[..k];
      assert !Blocked(t, p, k - 1) && !FileAt(t, pk);
      EnsureMakes(t, p, k - 1, q);
      EnsureDeeper(t, p, k - 1, pk);
      EnsureReaches(t, p, k - 1);
      AmongNext(p, k, q);
      if Lookup(t0, pk) == None {
        EnsureAdds(t0, pk, q);
        OneMore(t, t0, Mkdir(t0, pk).1, p, k, q);
      } else {
        NameThere(t0, pk);
        NoneMore(t, t0, p, k, q);
      }
    }
  }

  lemma {:induction false} NoneMade(t: Tree, p: Path, q: Path)
    requires Wf(t) && p != []
    ensures ParentsMade(t, t, p, 0, q)
  {
    hide Wf;
    RootIsDir(t);
  }

  lemma {:induction false} OneMore(t: Tree, t0: Tree, t': Tree, p: Path, k: nat, q: Path)
    requires 0 < k < |p| && ParentsMade(t, t0, p, k - 1, q) && Lookup(t0, p[..k]) == None && Lookup(t, p[..k]) == None
    requires if q == p[..k] then DirAt(t', q) && TreeNames(t', q) == {} && TreeNames(t0, q) == {} else Kept(t0, t', q)
    requires TreeNames(t', q) == TreeNames(t0, q) + if q == p[..k - 1] then {p[k - 1]} else {}
    ensures ParentsMade(t, t', p, k, q)
  {
    AmongNext(p, k, q);
    hide Lookup; hide TreeNames; hide DirAt; hide ReadFile; hide Among;
  }

  lemma {:induction false} NoneMore(t: Tree, t0: Tree, p: Path, k: nat, q: Path)
    requires 0 < k < |p| && ParentsMade(t, t0, p, k - 1, q)
    requires Lookup(t, p[..k]).Some? && p[k - 1] in TreeNames(t0, p[..k - 1])
    ensures ParentsMade(t, t0, p, k, q)
  {
    AmongNext(p, k, q);
    hide Lookup; hide TreeNames; hide DirAt; hide ReadFile; hide Among;
  }

  lemma {:induction false} NameThere(t: Tree, p: Path)
    requires Wf(t) && p != [] && Lookup(t, p).Some?
    ensures Last(p) in TreeNames(t, Init(p))
  {
    LookupAllocated(t, Init(p));
  }

  /** One missing directory made. */
  lemma {:induction false} EnsureAdds(t: Tree, p: Path, q: Path)
    requires Wf(t) && p != [] && DirAt(t, Init(p)) && Lookup(t, p) == None
    ensures var t' := Mkdir(t, p).1;
            && Wf(t') && (if q == p then DirAt(t', q) && TreeNames(t', q) == {} && TreeNames(t, q) == {} else Kept(t, t', q))
            && TreeNames(t', q) == TreeNames(t, q) + if q == Init(p) then {Last(p)} else {}
  {
    hide Wf; hide Grow;
    var d := Lookup(t, Init(p)).value;
    assert p == Init(p) + [Last(p)];
    MakeWf(t, p, Dir(map[]));
    GrowNode(t, d, Last(p), Dir(map[]), Init(p), q);
    GrowNames(t, d, Last(p), Dir(map[]), Init(p), q);
  }

  // ---------- open_writable with O_CREAT ----------

  lemma {:induction false} FileAdded(t: Tree, p: Path, q: Path)
    requires Wf(t) && p != [] && DirAt(t, Init(p)) && Lookup(t, p) == None
    ensures var (r, t') := CreateFile(t, p);
            && Wf(t') && r.Some? && NodeAt(t', p) == Some(File([])) && (Lookup(t', q) == r <==> q == p)
            && (q != p ==> Kept(t, t', q))
            && TreeNames(t', q) == TreeNames(t, q) + if q == Init(p) then {Last(p)} else {}
  {
    MakeFinds(t, p, File([]), q);
    hide Wf; hide Grow;
    var d := Lookup(t, Init(p)).value;
    assert p == Init(p) + [Last(p)];
    MakeWf(t, p, File([]));
    GrowNode(t, d, Last(p), File([]), Init(p), q);
    GrowNode(t, d, Last(p), File([]), Init(p), p);
    GrowNames(t, d, Last(p), File([]), Init(p), q);
  }

  /** As seen at `q`, an empty file was made at `p` with the parents that were missing. */
  ghost predicate FileMade(t: Tree, t': Tree, p: Path, q: Path) {
    && (if q == p then NodeAt(t', q) == Some(File([]))
        else if q <= p && Lookup(t, q) == None then DirAt(t', q)
        else Kept(t, t', q))
    && TreeNames(t', q) == TreeNames(t, q) + if q <= p && q != p then {p[|q|]} else {}
  }

  lemma {:induction false} ThenFile(t: Tree, t1: Tree, t': Tree, p: Path, q: Path)
    requires p != [] && ParentsMade(t, t1, p, |p| - 1, q) && NodeAt(t', p) == Some(File([]))
    requires q != p ==> Kept(t1, t', q)
    requires TreeNames(t', q) == TreeNames(t1, q) + if q == Init(p) then {Last(p)} else {}
    ensures FileMade(t, t', p, q)
  {
    assert q <= p && q != p ==> Among(q, p, |p| - 1);
    assert q <= p && |q| == |p| - 1 ==> q == Init(p);
    assert q <= p && |q| == |p| ==> q == p;
    hide Lookup; hide TreeNames; hide ReadFile;
  }

  /**
   * Opening a path that is nowhere yet: without the create flag nothing happens. With it, the open fails, changing
   * nothing, exactly when a file of the tree stands among the proper prefixes; else the path, and no other, leads to a
   * new empty file, the missing parents are directories, and each parent lists one name more at most.
   */
  lemma {:induction false} OpenCreates(t: Tree, img: Image, p: Path, q: Path)
    requires Wf(t) && p !in img && Lookup(t, p) == None
    ensures OpenWritable(t, img, p, false) == (None, t)
    ensures var (r, t') := OpenWritable(t, img, p, true);
            && Wf(t') && (r == None <==> exists i :: 0 <= i < |p| && FileAt(t, p[..i])) && (r == None ==> t' == t)
            && (r.Some? ==> FileMade(t, t', p, q) && (Lookup(t', q) == r <==> q == p))
  {
    var k := |p| - 1;
    var t1 := EnsureDirs(t, p, k);
    EnsureDeeper(t, p, k, p);
    EnsureReaches(t, p, k);
    assert Init(p) == p[..k];
    assert Blocked(t, p, k) <==> exists i :: 0 <= i < |p| && FileAt(t, p[..i]);
    hide Wf; hide EnsureDirs; hide Lookup; hide FileMade; hide ParentsMade; hide NodeAt; hide TreeNames; hide FileAt;
    MakeFinds(t1, p, File([]), q);
    if Blocked(t, p, k) {
      EnsureBlocked(t, p, k);
    } else {
      EnsureMakes(t, p, k, q);
      FileAdded(t1, p, q);
      ThenFile(t, t1, CreateFile(t1, p).1, p, q);
    }
  }

  /** What opening for creation changes of the merged view: the new file reads as empty, every other path reads as before. */
  lemma {:induction false} CreatedReads(t: Tree, img: Image, p: Path, q: Path)
    requires Wf(t) && p !in img && Lookup(t, p) == None && OpenWritable(t, img, p, true).0.Some?
    ensures var t' := OpenWritable(t, img, p, true).1;
            && OpenReadonly(t', img, q) == (if q == p then Some([]) else OpenReadonly(t, img, q))
            && (IsDir(t', img, q) <==> if q <= p && Lookup(t, q) == None then q != p else IsDir(t, img, q))
            && (ExistsAny(t', img, q) <==> q <= p || ExistsAny(t, img, q))
  {
    OpenCreates(t, img, p, q);
    hide OpenWritable; hide TreeNames; hide ImageNames;
    if Lookup(t, q).Some? { LookupAllocated(t, q); }
    hide Wf;
  }
}
