/** The table of virtual memory areas. */
module Vma {
  import opened Prelude

  const MAX_VMA: nat := 128

  datatype VmaEntry = VmaEntry(base: nat, pages: nat, prot: nat, lazy: bool, valid: bool) {
    predicate Covers(va: nat) { valid && base <= va < base + pages * 4096 }

    predicate Writable() { prot / 2 % 2 == 1 }
  }

  /** The first slot covering `va`, or the length. */
  function FirstCovering(t: seq<VmaEntry>, va: nat): (k: nat)
    ensures k <= |t| && (k < |t| ==> t[k].Covers(va)) && forall j :: 0 <= j < k ==> !t[j].Covers(va)
  {
    if t == [] || t[0].Covers(va) then 0 else 1 + FirstCovering(t[1..], va)
  }

  function FirstInvalid(t: seq<VmaEntry>): (k: nat)
    ensures k <= |t| && (k < |t| ==> !t[k].valid) && forall j :: 0 <= j < k ==> t[j].valid
  {
    if t == [] || !t[0].valid then 0 else 1 + FirstInvalid(t[1..])
  }

  predicate Starts(e: VmaEntry, base: nat) { e.valid && e.base == base }

  function FirstStarting(t: seq<VmaEntry>, base: nat): (k: nat)
    ensures k <= |t| && (k < |t| ==> Starts(t[k], base)) && forall j :: 0 <= j < k ==> !Starts(t[j], base)
  {
    if t == [] || Starts(t[0], base) then 0 else 1 + FirstStarting(t[1..], base)
  }

  function Find(t: seq<VmaEntry>, va: nat): Option<VmaEntry> {
    var k := FirstCovering(t, va);
    if k < |t| then Some(t[k]) else None
  }

  /** The first slot with the fewest pages. */
  function Smallest(t: seq<VmaEntry>): (k: nat)
    requires t != []
    ensures k < |t| && (forall j :: 0 <= j < |t| ==> t[k].pages <= t[j].pages)
    ensures forall j :: 0 <= j < k ==> t[k].pages < t[j].pages
  {
    if |t| == 1 then 0
    else var k := Smallest(t[..|t| - 1]); if t[|t| - 1].pages < t[k].pages then |t| - 1 else k
  }

  function InsertSlot(t: seq<VmaEntry>, e: VmaEntry): (t': seq<VmaEntry>)
    requires t != []
    ensures |t'| == |t|
  {
    var k := FirstInvalid(t);
    if k < |t| then t[k := e] else t[Smallest(t) := e]
  }

  /** What is left of `was` when `e` takes over its beginning. */
  function Tail(was: VmaEntry, e: VmaEntry): VmaEntry
    requires e.pages <= was.pages
  {
    VmaEntry(e.base + e.pages * 4096, was.pages - e.pages, was.prot, was.lazy, true)
  }

  /** `e` replaces slot `k`; a longer area keeps its tail in a slot of its own. */
  function InsertOver(t: seq<VmaEntry>, k: nat, e: VmaEntry): (t': seq<VmaEntry>)
    requires k < |t|
    ensures |t'| == |t|
  {
    if e.pages < t[k].pages then InsertSlot(t[k := e], Tail(t[k], e)) else t[k := e]
  }

  function Insert(t: seq<VmaEntry>, e: VmaEntry): (t': seq<VmaEntry>)
    requires t != []
    ensures |t'| == |t|
  {
    var k := FirstStarting(t, e.base);
    if k == |t| then InsertSlot(t, e) else InsertOver(t, k, e)
  }

  /** No address lies in two areas. */
  ghost predicate NoOverlap(t: seq<VmaEntry>) {
    forall i, j, va :: 0 <= i < |t| && 0 <= j < |t| && t[i].Covers(va) && t[j].Covers(va) ==> i == j
  }

  /** The new area meets no area, except one that starts at the same base. */
  ghost predicate Fits(t: seq<VmaEntry>, e: VmaEntry) {
    forall i, va :: 0 <= i < |t| && t[i].Covers(va) && e.Covers(va) ==> t[i].base == e.base
  }

  ghost predicate HasRoom(t: seq<VmaEntry>) { exists i :: 0 <= i < |t| && !t[i].valid }

  /** What a fault handler needs of the area around `va`: its protection and laziness. */
  function Rights(t: seq<VmaEntry>, va: nat): Option<(nat, bool)> {
    match Find(t, va)
    case None => None
    case Some(e) => Some((e.prot, e.lazy))
  }

  /** With disjoint areas, any covering slot is the one found. */
  lemma {:induction false} FindCovering(t: seq<VmaEntry>, va: nat, i: nat)
    requires NoOverlap(t) && i < |t| && t[i].Covers(va)
    ensures Find(t, va) == Some(t[i])
  {
    assert t[FirstCovering(t, va)].Covers(va);
  }

  /** Putting a disjoint area in a slot: it is found, and in a full table the smallest area is lost. */
  lemma {:induction false} SlotFinds(t: seq<VmaEntry>, e: VmaEntry, va: nat)
    requires NoOverlap(t) && t != [] && e.valid
    requires forall i, a :: 0 <= i < |t| && t[i].Covers(a) ==> !e.Covers(a)
    ensures NoOverlap(InsertSlot(t, e))
    ensures Find(InsertSlot(t, e), va) ==
              if e.Covers(va) then Some(e) else if !HasRoom(t) && t[Smallest(t)].Covers(va) then None else Find(t, va)
  {
    var k := FirstInvalid(t);
    assert HasRoom(t) <==> k < |t|;
    ReplaceFinds(t, if k < |t| then k else Smallest(t), e, va);
  }

  /** Replacing an area by one that covers no other area's addresses. */
  lemma {:induction false} ReplaceFinds(t: seq<VmaEntry>, k: nat, e: VmaEntry, va: nat)
    requires NoOverlap(t) && k < |t| && e.valid
    requires forall i, a :: 0 <= i < |t| && i != k && t[i].Covers(a) ==> !e.Covers(a)
    ensures NoOverlap(t[k := e])
    ensures Find(t[k := e], va) == if e.Covers(va) then Some(e) else if t[k].Covers(va) then None else Find(t, va)
  {
    var t' := t[k := e];
    assert NoOverlap(t') by {
      forall i, j, a | 0 <= i < |t'| && 0 <= j < |t'| && t'[i].Covers(a) && t'[j].Covers(a) ensures i == j { }
    }
    if e.Covers(va) {
      FindCovering(t', va, k);
    } else if i :| 0 <= i < |t| && i != k && t[i].Covers(va) {
      FindCovering(t, va, i);
      FindCovering(t', va, i);
    }
  }

  /** Does registering `e` take a slot of its own: for itself, or for the tail of a longer area with the same base? */
  predicate NeedsSlot(t: seq<VmaEntry>, e: VmaEntry) {
    var k := FirstStarting(t, e.base); k == |t| || e.pages < t[k].pages
  }

  /** The table in which that slot is sought: `e` already stands over an area with the same base. */
  function Overlaid(t: seq<VmaEntry>, e: VmaEntry): (t': seq<VmaEntry>)
    ensures |t'| == |t|
  {
    var k := FirstStarting(t, e.base); if k == |t| then t else t[k := e]
  }

  /** A slot is needed and none is free: an area has to go. */
  ghost predicate Displaces(t: seq<VmaEntry>, e: VmaEntry) { NeedsSlot(t, e) && !HasRoom(t) }

  /** The area that goes: the first with the fewest pages. */
  function Victim(t: seq<VmaEntry>, e: VmaEntry): VmaEntry
    requires t != []
  {
    Overlaid(t, e)[Smallest(Overlaid(t, e))]
  }

  /** What registering an area may be asked of: disjoint areas, none of them empty, and no partial overlap. */
  ghost predicate Insertable(t: seq<VmaEntry>, e: VmaEntry) {
    && t != [] && e.valid && NoOverlap(t) && Fits(t, e)
    && forall i :: 0 <= i < |t| && t[i].valid ==> t[i].pages > 0
  }

  /** What registering an area is for: its addresses get its rights and all others keep theirs. */
  function Wanted(t: seq<VmaEntry>, e: VmaEntry, va: nat): Option<(nat, bool)> {
    if e.base <= va < e.base + e.pages * 4096 then Some((e.prot, e.lazy)) else Rights(t, va)
  }

  /** Registering an area, in any table: every address gets the wanted rights, except that when an area has to go
      exactly its addresses lose theirs. */
  lemma {:induction false} InsertFinds(t: seq<VmaEntry>, e: VmaEntry, va: nat)
    requires Insertable(t, e)
    ensures NoOverlap(Insert(t, e))
    ensures Rights(Insert(t, e), va) == if Displaces(t, e) && Victim(t, e).Covers(va) then None else Wanted(t, e, va)
  {
    var k := FirstStarting(t, e.base);
    if k == |t| {
      forall i, a | 0 <= i < |t| && t[i].Covers(a) ensures !e.Covers(a) { assert !Starts(t[i], e.base); }
      SlotFinds(t, e, va);
    } else {
      OverwriteFinds(t, k, e, va);
      if e.pages < t[k].pages { SplitFinds(t, k, e, va); }
    }
  }

  /** All addresses get the wanted rights exactly when no area has to go. */
  lemma {:induction false} InsertKeepsIff(t: seq<VmaEntry>, e: VmaEntry)
    requires Insertable(t, e) && e.pages > 0
    ensures (forall va {:trigger Wanted(t, e, va)} :: Rights(Insert(t, e), va) == Wanted(t, e, va)) <==> !Displaces(t, e)
  {
    forall va | !Displaces(t, e) ensures Rights(Insert(t, e), va) == Wanted(t, e, va) { InsertFinds(t, e, va); }
    if Displaces(t, e) {
      var v := Victim(t, e);
      VictimLoses(t, e);
      InsertFinds(t, e, v.base);
      assert Wanted(t, e, v.base) != None;
    }
  }

  /** An area that goes for another's sake leaves the addresses of the new one alone. */
  lemma {:induction false} VictimApart(t: seq<VmaEntry>, e: VmaEntry, va: nat)
    requires Insertable(t, e) && Victim(t, e) != e
    ensures e.Covers(va) ==> !Victim(t, e).Covers(va)
  {
    var k := FirstStarting(t, e.base);
    var i := Smallest(Overlaid(t, e));
    if k < |t| { OneAreaPerBase(t, k); }
    assert t[i] == Victim(t, e);
    assert t[i].valid && t[i].base == e.base ==> Starts(t[i], e.base);
  }

  /** The area that goes did have rights to lose. */
  lemma {:induction false} VictimLoses(t: seq<VmaEntry>, e: VmaEntry)
    requires Insertable(t, e) && e.pages > 0 && Displaces(t, e)
    ensures Victim(t, e).Covers(Victim(t, e).base) && Wanted(t, e, Victim(t, e).base) != None
  {
    var t1 := Overlaid(t, e);
    var i := Smallest(t1);
    assert t1[i] == e || t1[i] == t[i];
    if t1[i] != e { FindCovering(t, t1[i].base, i); }
  }

  /** Overwriting the area with the same base; only the old area's own tail is lost. */
  lemma {:induction false} OverwriteFinds(t: seq<VmaEntry>, k: nat, e: VmaEntry, va: nat)
    requires NoOverlap(t) && Fits(t, e) && k < |t| && e.valid && Starts(t[k], e.base)
    requires forall i :: 0 <= i < |t| && t[i].valid ==> t[i].pages > 0
    ensures NoOverlap(t[k := e])
    ensures Find(t[k := e], va) == if e.Covers(va) then Some(e) else if t[k].Covers(va) then None else Find(t, va)
    ensures t[k].Covers(va) ==> Find(t, va) == Some(t[k])
  {
    OneAreaPerBase(t, k);
    forall i, a | 0 <= i < |t| && i != k && t[i].Covers(a) ensures !e.Covers(a) { assert t[i].base != e.base; }
    ReplaceFinds(t, k, e, va);
    if t[k].Covers(va) { FindCovering(t, va, k); }
  }

  /** A shorter area over a longer one with the same base: the tail survives, in a slot of its own. */
  lemma {:induction false} SplitFinds(t: seq<VmaEntry>, k: nat, e: VmaEntry, va: nat)
    requires k < |t| && t[k].valid && e.valid && e.base == t[k].base && e.pages < t[k].pages
    requires NoOverlap(t) && NoOverlap(t[k := e])
    ensures NoOverlap(InsertOver(t, k, e))
    ensures var tail, t1 := Tail(t[k], e), t[k := e];
            Find(InsertOver(t, k, e), va) ==
              if tail.Covers(va) then Some(tail) else if !HasRoom(t) && t1[Smallest(t1)].Covers(va) then None else Find(t1, va)
  {
    var t1 := t[k := e];
    assert HasRoom(t) <==> HasRoom(t1) by {
      if i :| 0 <= i < |t| && !t[i].valid { assert !t1[i].valid; }
      if i :| 0 <= i < |t1| && !t1[i].valid { assert !t[i].valid; }
    }
    SlotFinds(t1, Tail(t[k], e), va);
  }

  lemma {:induction false} OneAreaPerBase(t: seq<VmaEntry>, k: nat)
    requires NoOverlap(t) && k < |t| && t[k].valid && forall i :: 0 <= i < |t| && t[i].valid ==> t[i].pages > 0
    ensures forall i :: 0 <= i < |t| && t[i].valid && t[i].base == t[k].base ==> i == k
  {
    assert t[k].Covers(t[k].base);
    forall i | 0 <= i < |t| && t[i].valid && t[i].base == t[k].base ensures i == k {
      assert t[i].Covers(t[k].base);
    }
  }

  /** The global table, a fixed array updated in place. */
  class VmaTable {
    const slots: array<VmaEntry>

    constructor ()
      ensures fresh(slots) && slots.Length == MAX_VMA && forall i :: 0 <= i < MAX_VMA ==> !slots[i].valid
    {
      slots := new VmaEntry[MAX_VMA](_ => VmaEntry(0, 0, 0, false, false));
    }

    method FindArea(va: nat) returns (r: Option<VmaEntry>)
      ensures r == Find(slots[..], va)
    {
      for i := 0 to slots.Length
        invariant forall j :: 0 <= j < i ==> !slots[j].Covers(va)
      {
        if slots[i].Covers(va) {
          assert FirstCovering(slots[..], va) == i;
          return Some(slots[i]);
        }
      }
      return None;
    }

    method InsertInSlot(e: VmaEntry)
      requires slots.Length > 0
      modifies slots
      ensures slots[..] == InsertSlot(old(slots[..]), e)
    {
      for i := 0 to slots.Length
        invariant slots[..] == old(slots[..])
        invariant forall j :: 0 <= j < i ==> slots[j].valid
      {
        if !slots[i].valid {
          assert FirstInvalid(slots[..]) == i;
          slots[i] := e;
          return;
        }
      }
      assert FirstInvalid(slots[..]) == slots.Length;
      var min := 0;
      for i := 1 to slots.Length
        invariant slots[..] == old(slots[..])
        invariant 0 <= min < i && min == Smallest(slots[..i])
      {
        assert slots[..i + 1][..i] == slots[..i];
        if slots[i].pages < slots[min].pages { min := i; }
      }
      assert slots[..slots.Length] == slots[..];
      slots[min] := e;
    }

    method InsertArea(base: nat, pages: nat, prot: nat, lazy: bool)
      requires slots.Length > 0
      modifies slots
      ensures slots[..] == Insert(old(slots[..]), VmaEntry(base, pages, prot, lazy, true))
    {
      var e := VmaEntry(base, pages, prot, lazy, true);
      var found := 0;
      while found < slots.Length && !Starts(slots[found], base)
        invariant 0 <= found <= slots.Length && slots[..] == old(slots[..])
        invariant forall j :: 0 <= j < found ==> !Starts(slots[j], base)
      {
        found := found + 1;
      }
      assert FirstStarting(slots[..], base) == found;
      if found == slots.Length {
        InsertInSlot(e);
      } else {
        var was := slots[found];
        slots[found] := e;
        assert slots[..] == old(slots[..])[found := e];
        if pages < was.pages {
          InsertInSlot(Tail(was, e));
        }
      }
    }
  }
}
