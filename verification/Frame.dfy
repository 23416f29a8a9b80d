/** The physical frame allocator: a bitmap of 64-bit words, one bit per 4 KB frame, 1 = free. */
module Frame {
  import opened Prelude

  const PAGE_SIZE: nat := 4096
  const BITMAP_WORDS: nat := 32768
  const MAX_FRAMES: nat := BITMAP_WORDS * 64

  /** The lowest-numbered frame of a non-empty pool: what first-fit must hand out. */
  ghost function LeastFree(free: set<nat>): (f: nat)
    requires free != {}
    ensures f in free && forall g :: g in free ==> f <= g
  {
    LeastExists(free);
    var f :| f in free && forall g :: g in free ==> f <= g;
    f
  }

  lemma {:induction false} LeastExists(free: set<nat>)
    requires free != {}
    ensures exists f :: f in free && forall g :: g in free ==> f <= g
    decreases free
  {
    var x :| x in free;
    var below := set g | g in free && g < x;
    if below != {} {
      assert x !in below;
      LeastExists(below);
      var f :| f in below && forall g :: g in below ==> f <= g;
      assert f in free && forall g :: g in free ==> f <= g by {
        forall g | g in free ensures f <= g {
          if g < x { assert g in below; }
        }
      }
    } else {
      assert forall g :: g in free && g < x ==> g in below;
    }
  }

  predicate FreeRun(free: set<nat>, start: nat, count: nat) {
    forall f :: start <= f < start + count ==> f in free
  }

  /** `count` consecutive frames, the lowest such run below MAX_FRAMES. */
  ghost predicate LeastRun(free: set<nat>, start: nat, count: nat) {
    && start + count <= MAX_FRAMES
    && FreeRun(free, start, count)
    && forall s: nat :: s < start ==> !FreeRun(free, s, count)
  }

  predicate Between(lo: nat, f: nat, hi: nat) { lo <= f < hi }

  /** The frames lo .. hi - 1. */
  ghost function Interval(lo: nat, hi: nat): set<nat> { set f | lo <= f < hi && Between(lo, f, hi) }

  lemma {:induction false} IntervalSize(lo: nat, n: nat)
    ensures |Interval(lo, lo + n)| == n
    decreases n
  {
    if n == 0 {
      assert Interval(lo, lo) == {};
    } else {
      IntervalSize(lo, n - 1);
      assert Interval(lo, lo + n) == Interval(lo, lo + n - 1) + {lo + n - 1};
    }
  }

  /** The lowest run of `count` free frames was at `start`, and exactly it has left the pool. */
  ghost predicate TookRun(before: set<nat>, after: set<nat>, start: nat, count: nat) {
    LeastRun(before, start, count) && after == before - Interval(start, start + count)
  }

  lemma {:induction false} RunSize(free: set<nat>, start: nat, count: nat)
    requires FreeRun(free, start, count)
    ensures |free - Interval(start, start + count)| == |free| - count
  {
    IntervalSize(start, count);
    assert Interval(start, start + count) <= free;
  }

  /** What the contiguous scan knows before it looks at `frame`: the current run, and no complete run yet. */
  ghost predicate Scanned(free: set<nat>, frame: nat, runLen: nat, count: nat) {
    && runLen <= frame && runLen < count
    && (forall f :: frame - runLen <= f < frame ==> f in free)
    && (runLen < frame ==> frame - runLen - 1 !in free)
    && forall s: nat :: s + count <= frame ==> !FreeRun(free, s, count)
  }

  lemma {:induction false} ScanFree(free: set<nat>, frame: nat, runLen: nat, count: nat)
    requires Scanned(free, frame, runLen, count) && frame in free && frame < MAX_FRAMES
    ensures runLen + 1 < count ==> Scanned(free, frame + 1, runLen + 1, count)
    ensures runLen + 1 == count ==> LeastRun(free, frame - runLen, count)
  {
    forall s: nat | s < frame - runLen && s + count <= frame + 1 ensures !FreeRun(free, s, count) {
      if s + count == frame + 1 { assert s <= frame - runLen - 1 < s + count; }
    }
  }

  lemma {:induction false} NoRun(free: set<nat>, runLen: nat, count: nat)
    requires Scanned(free, MAX_FRAMES, runLen, count) && forall f :: f in free ==> f < MAX_FRAMES
    ensures forall s: nat :: !FreeRun(free, s, count)
  {
    forall s: nat ensures !FreeRun(free, s, count) {
      if s + count > MAX_FRAMES { assert s + count - 1 !in free; }
    }
  }

  /** One boot memory-map entry. */
  datatype MemmapEntry = MemmapEntry(base: nat, length: nat, usable: bool) {
    function Start(): nat { base / PAGE_SIZE }
    function End(): nat { Min((base + length) / PAGE_SIZE, MAX_FRAMES) }
    ghost function Frames(): set<nat> { if usable then Interval(Start(), End()) else {} }
    function Count(): nat { if usable && Start() < End() then End() - Start() else 0 }
  }

  ghost function UsableFrames(entries: seq<MemmapEntry>): set<nat> {
    if entries == [] then {} else UsableFrames(entries[..|entries| - 1]) + entries[|entries| - 1].Frames()
  }

  /** The frames that may be handed out: those that end inside some usable entry and do not lie wholly before it, within
      the 8 GB the bitmap covers. */
  lemma {:induction false} UsableMeans(entries: seq<MemmapEntry>, f: nat)
    ensures f in UsableFrames(entries) <==>
              f < 0x20_0000 && exists i :: 0 <= i < |entries| && entries[i].usable
                                           && entries[i].base <= f * 4096 + 4095 && f * 4096 + 4096 <= entries[i].base + entries[i].length
  {
    if entries == [] {
    } else {
      var n := |entries| - 1;
      UsableMeans(entries[..n], f);
      assert forall i :: 0 <= i < n ==> entries[..n][i] == entries[i];
      EntryMeans(entries[n], f);
    }
  }

  lemma {:induction false} EntryMeans(e: MemmapEntry, f: nat)
    ensures f in e.Frames() <==> f < 0x20_0000 && e.usable && e.base <= f * 4096 + 4095 && f * 4096 + 4096 <= e.base + e.length
  {
    assert f in Interval(e.Start(), e.End()) <==> e.Start() <= f < e.End() by { assert e.Start() <= f < e.End() ==> Between(e.Start(), f, e.End()); }
  }

  ghost function CountedFrames(entries: seq<MemmapEntry>): nat {
    if entries == [] then 0 else CountedFrames(entries[..|entries| - 1]) + entries[|entries| - 1].Count()
  }

  class FrameAllocator {
    var bitmap: array<nat>
    var freeFrames: int

    ghost predicate Valid()
      reads this, bitmap
    {
      && bitmap.Length == BITMAP_WORDS
      && forall i :: 0 <= i < BITMAP_WORDS ==> bitmap[i] < Pow2(64)
    }

    /** What the bitmap means: the set of frames whose bit is 1. */
    ghost function Free(): set<nat>
      requires Valid()
      reads this, bitmap
    {
      set f: nat | f < MAX_FRAMES && FreeBit(f)
    }

    ghost predicate FreeBit(f: nat)
      requires Valid() && f < MAX_FRAMES
      reads this, bitmap
    {
      Bit(bitmap[f / 64], f % 64)
    }

    /** The statistics counter agrees with the bitmap. */
    ghost predicate Counted()
      requires Valid()
      reads this, bitmap
    {
      freeFrames == |Free()|
    }

    constructor ()
      ensures Valid() && fresh(bitmap) && Free() == {} && Counted()
    {
      bitmap := new nat[BITMAP_WORDS](_ => 0);
      freeFrames := 0;
      new;
      Pow2Positive(64);
      forall f: nat | f < MAX_FRAMES ensures !FreeBit(f) { ZeroHasNoBits(f % 64); }
      assert Free() == {};
    }

    method IsFree(frame: nat) returns (b: bool)
      requires Valid() && frame < MAX_FRAMES
      ensures b == (frame in Free())
    {
      b := Bit(bitmap[frame / 64], frame % 64);
    }

    method SetFree(frame: nat)
      requires Valid() && frame < MAX_FRAMES
      modifies bitmap
      ensures Valid() && Free() == old(Free()) + {frame}
    {
      var w := bitmap[frame / 64];
      SetBitFits(w, frame % 64, 64);
      bitmap[frame / 64] := SetBit(w, frame % 64);
      forall f: nat | f < MAX_FRAMES ensures FreeBit(f) == (f == frame || old(FreeBit(f)))
      {
        if f / 64 == frame / 64 { BitAfterSet(w, frame % 64, f % 64); }
      }
    }

    method SetUsed(frame: nat)
      requires Valid() && frame < MAX_FRAMES
      modifies bitmap
      ensures Valid() && Free() == old(Free()) - {frame}
    {
      var w := bitmap[frame / 64];
      ClearBitFits(w, frame % 64, 64);
      bitmap[frame / 64] := ClearBit(w, frame % 64);
      forall f: nat | f < MAX_FRAMES ensures FreeBit(f) == (f != frame && old(FreeBit(f)))
      {
        if f / 64 == frame / 64 { BitAfterClear(w, frame % 64, f % 64); }
      }
    }

    /** The inner loop of Init: free the frames start .. end - 1 and count them. */
    method FreeRange(start: nat, end: nat) returns (added: nat)
      requires Valid() && end <= MAX_FRAMES
      modifies bitmap
      ensures Valid() && Free() == old(Free()) + Interval(start, end)
      ensures added == if start < end then end - start else 0
    {
      var frame := start;
      added := 0;
      while frame < end
        invariant start <= frame <= Max(start, end) && added == frame - start
        invariant Valid() && forall f :: f in Free() <==> f in old(Free()) || Between(start, f, frame)
      {
        SetFree(frame);
        frame := frame + 1;
        added := added + 1;
      }
    }

    /** Boot: free exactly the usable frames; the counter adds up the entries. */
    method Init(entries: seq<MemmapEntry>)
      requires Valid() && Free() == {}
      modifies this`freeFrames, bitmap
      ensures Valid() && Free() == UsableFrames(entries)
      ensures freeFrames == CountedFrames(entries)
    {
      var free := 0;
      for n := 0 to |entries|
        invariant Valid() && Free() == UsableFrames(entries[..n]) && free == CountedFrames(entries[..n])
      {
        assert entries[..n + 1][..n] == entries[..n];
        var e := entries[n];
        if e.usable {
          var added := FreeRange(e.Start(), e.End());
          free := free + added;
        }
      }
      assert entries[..|entries|] == entries;
      freeFrames := free;
    }

    method AllocFrame() returns (r: Option<nat>)
      requires Valid()
      modifies this`freeFrames, bitmap
      ensures Valid()
      ensures r == if old(Free()) == {} then None else Some(LeastFree(old(Free())) * PAGE_SIZE)
      ensures r.Some? ==> Free() == old(Free()) - {LeastFree(old(Free()))}
      ensures r.None? ==> Free() == old(Free())
      ensures old(Counted()) ==> Counted()
    {
      for word := 0 to BITMAP_WORDS
        invariant Valid() && Free() == old(Free()) && freeFrames == old(freeFrames)
        invariant forall f :: f in Free() ==> word <= f / 64
      {
        var val := bitmap[word];
        if val == 0 {
          forall f | f in Free() ensures word + 1 <= f / 64 { ZeroHasNoBits(f % 64); }
        } else {
          TrailingZerosIsLowestBit(val);
          TrailingZerosFits(val, 64);
          var bit := TrailingZeros(val);
          var frame := word * 64 + bit;
          assert frame / 64 == word && frame % 64 == bit;
          assert frame in Free();
          forall g | g in Free() ensures frame <= g {
            if g / 64 == word { assert g % 64 >= bit; }
          }
          SetUsed(frame);
          freeFrames := freeFrames - 1;
          return Some(frame * PAGE_SIZE);
        }
      }
      return None;
    }

    method MarkUsed(start: nat, count: nat)
      requires Valid() && start + count <= MAX_FRAMES
      modifies bitmap
      ensures Valid() && Free() == old(Free()) - Interval(start, start + count)
    {
      for i := start to start + count
        invariant Valid() && forall f :: f in Free() <==> f in old(Free()) && !Between(start, f, i)
      {
        SetUsed(i);
      }
    }

    /** Mark the lowest free run used and take it off the counter. */
    method TakeRun(start: nat, count: nat)
      requires Valid() && LeastRun(Free(), start, count)
      modifies this`freeFrames, bitmap
      ensures Valid() && TookRun(old(Free()), Free(), start, count)
      ensures old(Counted()) ==> Counted()
    {
      RunSize(Free(), start, count);
      MarkUsed(start, count);
      freeFrames := freeFrames - count;
    }

    /** The scan of AllocContiguous: the lowest run of `count` free frames, if any. */
    method FindRun(count: nat) returns (r: Option<nat>)
      requires Valid() && count > 0
      ensures r.None? <==> forall s: nat :: !FreeRun(Free(), s, count)
      ensures r.Some? ==> LeastRun(Free(), r.value, count)
    {
      var runStart, runLen := 0, 0;
      for frame := 0 to MAX_FRAMES
        invariant Scanned(Free(), frame, runLen, count)
        invariant runLen > 0 ==> runStart == frame - runLen
      {
        var isFree := IsFree(frame);
        if isFree {
          ScanFree(Free(), frame, runLen, count);
          if runLen == 0 { runStart := frame; }
          runLen := runLen + 1;
          if runLen == count { return Some(runStart); }
        } else {
          runLen := 0;
        }
      }
      NoRun(Free(), runLen, count);
      return None;
    }

    method AllocContiguous(count: nat) returns (r: Option<nat>)
      requires Valid()
      modifies this`freeFrames, bitmap
      ensures Valid()
      ensures r.None? ==> Free() == old(Free()) && freeFrames == old(freeFrames)
      ensures r.None? <==> count == 0 || forall s: nat :: !FreeRun(old(Free()), s, count)
      ensures r.Some? ==> r.value % 4096 == 0 && TookRun(old(Free()), Free(), r.value / 4096, count)
      ensures old(Counted()) ==> Counted()
    {
      if count == 0 { return None; }
      var start := FindRun(count);
      if start.None? { return None; }
      r := Some(start.value * PAGE_SIZE);
      assert r.value / 4096 == start.value && r.value % 4096 == 0;
      TakeRun(r.value / 4096, count);
    }

    method FreeFrame(physAddr: nat)
      requires Valid()
      modifies this`freeFrames, bitmap
      ensures Valid()
      ensures Free() == if physAddr / PAGE_SIZE < MAX_FRAMES then old(Free()) + {physAddr / PAGE_SIZE} else old(Free())
      ensures old(Counted()) ==> Counted()
    {
      var frame := physAddr / PAGE_SIZE;
      if frame < MAX_FRAMES {
        var isFree := IsFree(frame);
        if !isFree {
          SetFree(frame);
          freeFrames := freeFrames + 1;
        } else {
          AddPresent(Free(), frame);
        }
      }
    }
  }

  lemma {:induction false} AddPresent(free: set<nat>, f: nat)
    requires f in free
    ensures free + {f} == free
  {
  }

  // ---------- when the boot counter is right ----------

  ghost predicate DisjointEntries(entries: seq<MemmapEntry>) {
    forall i, j :: 0 <= i < j < |entries| ==> entries[i].Frames() !! entries[j].Frames()
  }

  lemma {:induction false} EntryCount(e: MemmapEntry)
    ensures |e.Frames()| == e.Count()
  {
    if e.usable && e.Start() < e.End() {
      IntervalSize(e.Start(), e.End() - e.Start());
    } else {
      assert e.Frames() == {};
    }
  }

  lemma {:induction false} UsableMember(entries: seq<MemmapEntry>, f: nat)
    ensures f in UsableFrames(entries) <==> exists i :: 0 <= i < |entries| && f in entries[i].Frames()
  {
    if entries == [] {
    } else {
      var n := |entries| - 1;
      UsableMember(entries[..n], f);
      if f in UsableFrames(entries[..n]) {
        var i :| 0 <= i < n && f in entries[..n][i].Frames();
        assert f in entries[i].Frames();
      }
      if exists i :: 0 <= i < |entries| && f in entries[i].Frames() {
        var i :| 0 <= i < |entries| && f in entries[i].Frames();
        if i < n { assert f in entries[..n][i].Frames(); }
      }
    }
  }

  lemma {:induction false} DisjointExtend(entries: seq<MemmapEntry>)
    requires entries != []
    ensures var n := |entries| - 1;
            DisjointEntries(entries) <==> DisjointEntries(entries[..n]) && UsableFrames(entries[..n]) !! entries[n].Frames()
  {
    var n := |entries| - 1;
    var init := entries[..n];
    if DisjointEntries(entries) {
      forall i, j | 0 <= i < j < n ensures init[i].Frames() !! init[j].Frames() {
        assert entries[i].Frames() !! entries[j].Frames();
      }
      forall f | f in UsableFrames(init) ensures f !in entries[n].Frames() {
        UsableMember(init, f);
        var i :| 0 <= i < n && f in init[i].Frames();
        assert entries[i].Frames() !! entries[n].Frames();
      }
    }
    if DisjointEntries(init) && UsableFrames(init) !! entries[n].Frames() {
      forall i, j | 0 <= i < j < |entries| ensures entries[i].Frames() !! entries[j].Frames() {
        if j < n {
          assert init[i].Frames() !! init[j].Frames();
        } else {
          forall f | f in entries[i].Frames() ensures f !in entries[n].Frames() {
            assert f in init[i].Frames();
            UsableMember(init, f);
          }
        }
      }
    }
  }

  lemma {:induction false} UnionSize(a: set<nat>, b: set<nat>)
    ensures |a + b| <= |a| + |b|
    ensures |a + b| == |a| + |b| <==> a !! b
  {
    assert |a + b| == |a| + |b| - |a * b|;
    forall f | f in a && f in b ensures f in a * b { }
    if a !! b { assert a * b == {}; } else { assert a * b != {}; }
  }

  /** The boot counter equals the number of free frames exactly when no two usable entries overlap. */
  lemma {:induction false} CountedIffDisjoint(entries: seq<MemmapEntry>)
    ensures CountedFrames(entries) >= |UsableFrames(entries)|
    ensures CountedFrames(entries) == |UsableFrames(entries)| <==> DisjointEntries(entries)
  {
    if entries == [] {
    } else {
      var n := |entries| - 1;
      CountedIffDisjoint(entries[..n]);
      EntryCount(entries[n]);
      DisjointExtend(entries);
      UnionSize(UsableFrames(entries[..n]), entries[n].Frames());
      hide DisjointEntries;
    }
  }

  // ---------- histories of the allocator ----------

  datatype FrameOp = Alloc | AllocRun(count: nat) | Release(frame: nat)

  /** The frames one operation hands out from pool `free`. */
  ghost function HandedOut(free: set<nat>, op: FrameOp): set<nat> {
    match op
    case Alloc => if free == {} then {} else {LeastFree(free)}
    case AllocRun(count) => RunHandedOut(free, count)
    case Release(_) => {}
  }

  ghost function RunHandedOut(free: set<nat>, count: nat): (run: set<nat>)
    ensures run <= free
  {
    if count > 0 && exists s: nat :: LeastRun(free, s, count)
    then var s: nat :| LeastRun(free, s, count); Interval(s, s + count)
    else {}
  }

  ghost function After(free: set<nat>, op: FrameOp): set<nat> {
    match op
    case Release(f) => if f < MAX_FRAMES then free + {f} else free
    case _ => free - HandedOut(free, op)
  }

  /** The steps of a history are what the allocator's methods do: the least free frame, the least run of a positive
      number of frames if there is one, the one frame given back. */
  lemma {:induction false} HistoryMeans(free: set<nat>, after: set<nat>, start: nat, count: nat, f: nat)
    ensures After(free, Alloc) == if free == {} then free else free - {LeastFree(free)}
    ensures count == 0 || (forall s: nat :: !FreeRun(free, s, count)) ==> After(free, AllocRun(count)) == free
    ensures count > 0 && TookRun(free, after, start, count) ==>
              After(free, AllocRun(count)) == after && HandedOut(free, AllocRun(count)) == Interval(start, start + count)
    ensures After(free, Release(f)) == if f < 0x20_0000 then free + {f} else free
  {
    if count > 0 && TookRun(free, after, start, count) {
      forall s: nat | LeastRun(free, s, count) ensures s == start { }
    }
  }

  ghost function PoolAt(free: set<nat>, ops: seq<FrameOp>, i: nat): set<nat>
    requires i <= |ops|
  {
    if i == 0 then free else After(PoolAt(free, ops, i - 1), ops[i - 1])
  }

  lemma {:induction false} StaysUsed(free: set<nat>, ops: seq<FrameOp>, i: nat, j: nat, f: nat)
    requires i <= j <= |ops| && f !in PoolAt(free, ops, i)
    requires forall k :: i <= k < j ==> ops[k] != Release(f)
    ensures f !in PoolAt(free, ops, j)
    decreases j
  {
    if i == j {
    } else {
      StaysUsed(free, ops, i, j - 1, f);
    }
  }

  lemma {:induction false} HandoutTakes(free: set<nat>, op: FrameOp, f: nat)
    requires f in HandedOut(free, op)
    ensures f in free && f !in After(free, op)
  {
  }

  /** No frame is handed out twice without a release between. */
  lemma {:induction false} NoDoubleHandout(free: set<nat>, ops: seq<FrameOp>, i: nat, j: nat, f: nat)
    requires i < j < |ops|
    requires f in HandedOut(PoolAt(free, ops, i), ops[i]) && f in HandedOut(PoolAt(free, ops, j), ops[j])
    ensures exists k :: i < k < j && ops[k] == Release(f)
  {
    HandoutTakes(PoolAt(free, ops, i), ops[i], f);
    HandoutTakes(PoolAt(free, ops, j), ops[j], f);
    if forall k :: i + 1 <= k < j ==> ops[k] != Release(f) {
      StaysUsed(free, ops, i + 1, j, f);
    }
  }
}
