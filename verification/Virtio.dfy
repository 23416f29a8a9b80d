/** The VirtIO receive ring: a driver and a device hand eight buffers to each other, interleaved access by access. */
module Virtio {
  import opened Prelude

  const U16: nat := 0x1_0000
  const HDR_LEN: nat := 10
  const BUF_SIZE: nat := HDR_LEN + 1514
  const BUF_COUNT: nat := 8
  const F_WRITE: nat := 2

  // ---------- layout of the queue memory ----------

  function AvailOff(n: nat): nat { n * 16 }

  function PageUp(x: nat): nat { (x + 4095) / 4096 * 4096 }

  function UsedOff(n: nat): nat { PageUp(AvailOff(n) + 6 + n * 2) }

  function AllocSize(n: nat): nat { PageUp(UsedOff(n) + 6 + n * 8) }

  /** The fields the driver and the device reach through the base pointer. */
  datatype Field =
    | DescAddr(i: nat) | DescLen(i: nat) | DescFlags(i: nat) | DescNext(i: nat)
    | AvailIdx | AvailSlot(i: nat) | UsedIdx | UsedId(i: nat) | UsedLen(i: nat)

  predicate InQueue(f: Field, n: nat) { f.AvailIdx? || f.UsedIdx? || f.i < n }

  datatype Part = Table | Avail | UsedRing

  function PartOf(f: Field): Part {
    if f.DescAddr? || f.DescLen? || f.DescFlags? || f.DescNext? then Table
    else if f.AvailIdx? || f.AvailSlot? then Avail else UsedRing
  }

  function Base(p: Part, n: nat): nat { match p case Table => 0 case Avail => AvailOff(n) case UsedRing => UsedOff(n) }

  function End(p: Part, n: nat): nat { match p case Table => AvailOff(n) case Avail => UsedOff(n) case UsedRing => AllocSize(n) }

  /** Offset of a field from the start of its part. */
  function Rel(f: Field): nat {
    match f
    case DescAddr(i) => i * 16
    case DescLen(i) => i * 16 + 8
    case DescFlags(i) => i * 16 + 12
    case DescNext(i) => i * 16 + 14
    case AvailIdx => 2
    case AvailSlot(i) => 4 + i * 2
    case UsedIdx => 2
    case UsedId(i) => 4 + i * 8
    case UsedLen(i) => 4 + i * 8 + 4
  }

  function Width(f: Field): nat {
    match f
    case DescAddr(_) => 8
    case DescLen(_) => 4
    case UsedId(_) => 4
    case UsedLen(_) => 4
    case _ => 2
  }

  function Start(f: Field, n: nat): nat { Base(PartOf(f), n) + Rel(f) }

  lemma {:induction false} PartFits(f: Field, n: nat)
    requires InQueue(f, n)
    ensures Start(f, n) + Width(f) <= End(PartOf(f), n)
  {
    assert AvailOff(n) + 6 + n * 2 <= UsedOff(n);
    assert UsedOff(n) + 6 + n * 8 <= AllocSize(n);
    hide PageUp; hide UsedOff; hide AllocSize;
  }

  lemma {:induction false} RelDisjoint(f: Field, g: Field)
    requires f != g && PartOf(f) == PartOf(g)
    ensures Rel(f) + Width(f) <= Rel(g) || Rel(g) + Width(g) <= Rel(f)
  {
  }

  /** No two fields share a byte, and all lie inside the allocation. */
  lemma {:induction false} FieldsDisjoint(f: Field, g: Field, n: nat)
    requires InQueue(f, n) && InQueue(g, n)
    ensures Start(f, n) + Width(f) <= AllocSize(n)
    ensures f != g ==> Start(f, n) + Width(f) <= Start(g, n) || Start(g, n) + Width(g) <= Start(f, n)
  {
    hide Rel; hide Width; hide PartOf; hide InQueue;
    PartFits(f, n);
    PartFits(g, n);
    if f != g && PartOf(f) == PartOf(g) { RelDisjoint(f, g); }
    assert AvailOff(n) <= UsedOff(n) <= AllocSize(n);
    hide PageUp; hide UsedOff; hide AllocSize;
  }

  /** The layout of the legacy interface: the descriptors, 16 bytes each, directly before the available ring; the used
      ring at the first page boundary after that; two 16-bit words before the slots of either ring and one after; whole pages. */
  lemma {:induction false} LegacyLayout(i: nat, n: nat)
    ensures Start(DescAddr(0), n) == 0 && Start(DescAddr(i + 1), n) == Start(DescAddr(i), n) + 16
    ensures Start(DescLen(i), n) == Start(DescAddr(i), n) + 8 && Start(DescFlags(i), n) == Start(DescAddr(i), n) + 12
    ensures Start(DescNext(i), n) == Start(DescAddr(i), n) + 14
    ensures Start(AvailIdx, n) == Start(DescAddr(n), n) + 2 && Start(AvailSlot(i), n) == Start(DescAddr(n), n) + 4 + 2 * i
    ensures var used := Start(UsedIdx, n) - 2;
            && used % 4096 == 0 && Start(AvailSlot(n), n) + 2 <= used < Start(AvailSlot(n), n) + 2 + 4096
            && Start(UsedId(i), n) == used + 4 + 8 * i && Start(UsedLen(i), n) == used + 8 + 8 * i
            && AllocSize(n) % 4096 == 0 && Start(UsedId(n), n) + 2 <= AllocSize(n) < Start(UsedId(n), n) + 2 + 4096
  {
  }

  // ---------- u16 counters and ring slots ----------

  /** wrapping_add(1) */
  function Inc(x: nat): nat { if x + 1 == U16 then 0 else x + 1 }

  function Slot(x: nat, n: nat): (i: nat)
    requires n > 0
    ensures i < n
  {
    x % U16 % n
  }

  /** Steps from one counter value to another. */
  function Dist(from: nat, to: nat): nat
    requires from < U16
  {
    if from <= to then to - from else to + U16 - from
  }

  predicate PowerOfTwo(n: nat) { n >= BUF_COUNT && U16 % n == 0 }

  /** The `count` ring entries from counter value `from` on. */
  function Window<T>(ring: seq<T>, from: nat, count: nat): seq<T>
    requires |ring| > 0
  {
    seq(count, k requires 0 <= k < count => ring[Slot(from + k, |ring|)])
  }

  lemma {:induction false} SlotIsMod(x: nat, n: nat)
    requires PowerOfTwo(n)
    ensures Slot(x, n) == x % n
  {
    var m := U16 / n;
    assert U16 == m * n;
    var q, r := x / U16, x % U16;
    calc {
      x;
      q * U16 + r;
      q * (m * n) + (r / n * n + r % n);
      (q * m + r / n) * n + r % n;
    }
    ModUnique(x, q * m + r / n, n, r % n);
  }

  lemma {:induction false} ModsEqual(a: int, b: int, n: int)
    requires n > 0 && a % n == b % n && -n < b - a < n
    ensures a == b
  {
    var qa, qb, r := a / n, b / n, a % n;
    assert a == qa * n + r;
    assert b == qb * n + r;
    assert (qb - qa) * n == b - a;
    SmallMultiple(qb - qa, n);
  }

  lemma {:induction false} SlotsDiffer(x: nat, j: nat, k: nat, n: nat)
    requires PowerOfTwo(n) && j < k < j + n
    ensures Slot(x + j, n) != Slot(x + k, n)
  {
    hide Slot;
    SlotIsMod(x + j, n);
    SlotIsMod(x + k, n);
    if (x + j) % n == (x + k) % n { ModsEqual(x + j, x + k, n); }
  }

  lemma {:induction false} NextMod(x: nat, n: nat)
    requires 0 < n
    ensures (x + 1) % n == if x % n + 1 == n then 0 else x % n + 1
  {
    var q, r := x / n, x % n;
    assert x + 1 == q * n + (r + 1);
    if r + 1 < n { ModUnique(x + 1, q, n, r + 1); } else {
      assert x + 1 == (q + 1) * n;
      ModUnique(x + 1, q + 1, n, 0);
    }
  }

  predicate NextSlotFollows(x: nat, n: nat)
    requires n > 0
  {
    Slot(Inc(x), n) == if Slot(x, n) + 1 == n then 0 else Slot(x, n) + 1
  }

  lemma {:induction false} FollowsBeforeWrap(x: nat, n: nat)
    requires 0 < n && x < U16 - 1
    ensures NextSlotFollows(x, n)
  {
    NextMod(x, n);
  }

  lemma {:induction false} FollowsAtWrapIff(n: nat)
    requires 0 < n
    ensures NextSlotFollows(U16 - 1, n) <==> U16 % n == 0
  {
    NextMod(U16 - 1, n);
    ModUnique(0, 0, n, 0);
  }

  /** Only a ring whose size divides 2^16 keeps its slots in step when the counter wraps. */
  lemma {:induction false} StepsInOrderIff(n: nat)
    requires 0 < n
    ensures (forall x: nat :: x < U16 ==> NextSlotFollows(x, n)) <==> U16 % n == 0
  {
    hide NextSlotFollows;
    forall x: nat | x < U16 - 1 ensures NextSlotFollows(x, n) { FollowsBeforeWrap(x, n); }
    FollowsAtWrapIff(n);
  }

  lemma {:induction false} SlotShift(from: nat, k: nat, n: nat)
    requires n > 0
    ensures Slot(from + (k + 1), n) == Slot(Inc(from) + k, n)
  {
    assert from + 1 == U16 ==> (k + U16) % U16 == k % U16;
  }

  lemma {:induction false} WindowPop<T>(ring: seq<T>, from: nat, count: nat)
    requires |ring| > 0 && count > 0
    ensures Window(ring, from, count) == [ring[Slot(from, |ring|)]] + Window(ring, Inc(from), count - 1)
  {
    hide Slot; hide Inc;
    var w, t := Window(ring, from, count), Window(ring, Inc(from), count - 1);
    forall k | 0 <= k < |t| ensures t[k] == w[k + 1] { SlotShift(from, k, |ring|); }
  }

  lemma {:induction false} WindowSnoc<T>(ring: seq<T>, from: nat, count: nat)
    requires |ring| > 0
    ensures Window(ring, from, count + 1) == Window(ring, from, count) + [ring[Slot(from + count, |ring|)]]
  {
  }

  /** Writing the slot after a window that does not fill the ring leaves the window alone, whatever wraps. */
  lemma {:induction false} WindowKept<T>(ring: seq<T>, from: nat, count: nat, x: T)
    requires PowerOfTwo(|ring|) && count < |ring|
    ensures Window(ring[Slot(from + count, |ring|) := x], from, count) == Window(ring, from, count)
  {
    var ring' := ring[Slot(from + count, |ring|) := x];
    hide Slot; hide PowerOfTwo;
    var w, v := Window(ring', from, count), Window(ring, from, count);
    forall k | 0 <= k < count ensures v[k] == w[k] { SlotsDiffer(from, k, count, |ring|); }
  }

  lemma {:induction false} DistSteps(from: nat, to: nat, n: nat)
    requires from < U16 && to < U16 && n > 0
    ensures Dist(from, to) == 0 <==> from == to
    ensures Dist(from, to) > 0 ==> Dist(Inc(from), to) == Dist(from, to) - 1
    ensures Dist(from, to) < U16 - 1 ==> Dist(from, Inc(to)) == Dist(from, to) + 1
    ensures Slot(from + Dist(from, to), n) == Slot(to, n)
  {
    assert (to + U16) % U16 == to % U16;
  }

  // ---------- driver, device and shared memory ----------

  datatype Desc = Desc(addr: nat, len: nat, flags: nat)

  datatype Used = Used(id: nat, len: nat)

  /** Where a call of try_recv stands. */
  datatype Pc =
    | Idle
    | Copying(id: nat, total: nat, pkt: seq<Byte>)
    | Described(id: nat, pkt: seq<Byte>)
    | Placed(id: nat, pkt: seq<Byte>)

  /** `delivered` records what the device returned, `received` what try_recv returned. */
  datatype State = State(
    rx: seq<Byte>, desc: seq<Desc>, avail: seq<nat>, availIdx: nat, used: seq<Used>, usedIdx: nat,
    ai: nat, lu: nat, pc: Pc,
    next: nat, held: set<nat>,
    delivered: seq<seq<Byte>>, received: seq<seq<Byte>>)

  function BufDesc(id: nat): Desc { Desc(id * BUF_SIZE, BUF_SIZE, F_WRITE) }

  function PktLen(total: nat): nat { if total < HDR_LEN then 0 else total - HDR_LEN }

  /** The Ethernet frame in buffer `id`: what follows the header. */
  function Frame(rx: seq<Byte>, id: nat, total: nat): seq<Byte>
    requires |rx| == BUF_COUNT * BUF_SIZE && id < BUF_COUNT && total <= BUF_SIZE
  {
    rx[id * BUF_SIZE + HDR_LEN..id * BUF_SIZE + HDR_LEN + PktLen(total)]
  }

  datatype Action =
    | Take                                // device: fetch the next available id
    | Write(id: nat, off: nat, b: Byte)   // device: store a byte through the descriptor of an id it holds
    | Return(id: nat, len: nat)           // device: publish an id it holds in the used ring
    | Poll                                // driver: read used.idx and the used element
    | Copy                                // driver: one byte of the packet
    | Describe                            // driver: write_desc
    | Place                               // driver: avail_put and ai + 1
    | Commit                              // driver: avail_commit

  predicate Enabled(s: State, a: Action)
    requires Shape(s)
  {
    match a
    case Take => s.next != s.availIdx
    case Write(id, off, _) => id in s.held && off < s.desc[id].len && s.desc[id].flags == F_WRITE
    case Return(id, len) => id in s.held && len <= s.desc[id].len
    case Poll => s.pc.Idle?
    case Copy => s.pc.Copying? && |s.pc.pkt| < PktLen(s.pc.total)
    case Describe => s.pc.Copying? && |s.pc.pkt| == PktLen(s.pc.total)
    case Place => s.pc.Described?
    case Commit => s.pc.Placed?
  }

  function Act(s: State, a: Action): State
    requires Shape(s) && Enabled(s, a)
  {
    var n := |s.avail|;
    match a
    case Take => s.(held := s.held + {s.avail[Slot(s.next, n)]}, next := Inc(s.next))
    case Write(id, off, b) => s.(rx := s.rx[s.desc[id].addr + off := b])
    case Return(id, len) =>
      s.(used := s.used[Slot(s.usedIdx, n) := Used(id, len)], usedIdx := Inc(s.usedIdx), held := s.held - {id},
         delivered := s.delivered + [Frame(s.rx, id, len)])
    case Poll =>
      if s.usedIdx == s.lu then s
      else var u := s.used[Slot(s.lu, n)]; s.(pc := Copying(u.id, u.len, []), lu := Inc(s.lu))
    case Copy => s.(pc := Copying(s.pc.id, s.pc.total, s.pc.pkt + [s.rx[s.pc.id * BUF_SIZE + HDR_LEN + |s.pc.pkt|]]))
    case Describe => s.(desc := s.desc[s.pc.id := BufDesc(s.pc.id)], pc := Described(s.pc.id, s.pc.pkt))
    case Place => s.(avail := s.avail[Slot(s.ai, n) := s.pc.id], ai := Inc(s.ai), pc := Placed(s.pc.id, s.pc.pkt))
    case Commit => s.(availIdx := s.ai, pc := Idle, received := s.received + [s.pc.pkt])
  }

  // ---------- who owns which buffer ----------

  predicate Shape(s: State) {
    && PowerOfTwo(|s.avail|) && |s.used| == |s.avail| == |s.desc| && |s.rx| == BUF_COUNT * BUF_SIZE
    && s.availIdx < U16 && s.usedIdx < U16 && s.ai < U16 && s.lu < U16 && s.next < U16
    && (forall i :: 0 <= i < BUF_COUNT ==> s.desc[i] == BufDesc(i))
    && (forall id :: id in s.held ==> id < BUF_COUNT)
    && (!s.pc.Idle? ==> s.pc.id < BUF_COUNT)
    && (s.pc.Copying? ==> s.pc.total <= BUF_SIZE)
  }

  function Posted(s: State): seq<nat>
    requires |s.avail| > 0 && s.next < U16
  {
    Window(s.avail, s.next, Dist(s.next, s.availIdx))
  }

  function Unread(s: State): seq<Used>
    requires |s.used| > 0 && s.lu < U16
  {
    Window(s.used, s.lu, Dist(s.lu, s.usedIdx))
  }

  function Ids(us: seq<Used>): seq<nat> {
    if us == [] then [] else [us[0].id] + Ids(us[1..])
  }

  function InHand(pc: Pc): seq<nat> { if pc.Idle? then [] else [pc.id] }

  const IDS: set<nat> := set i: nat | i < BUF_COUNT

  ghost predicate Shared(posted: seq<nat>, held: set<nat>, unread: seq<Used>, hand: seq<nat>) {
    multiset(posted) + multiset(held) + multiset(Ids(unread)) + multiset(hand) == multiset(IDS)
  }

  /** Posted, held by the device, returned but unread, or in the driver's hand: every id in exactly one place. */
  ghost predicate Partition(s: State)
    requires Shape(s)
  {
    Shared(Posted(s), s.held, Unread(s), InHand(s.pc))
  }

  /** An id being placed already stands in the slot that the next commit publishes. */
  predicate Counters(s: State)
    requires Shape(s)
  {
    if s.pc.Placed? then s.ai == Inc(s.availIdx) && s.avail[Slot(s.availIdx, |s.avail|)] == s.pc.id else s.ai == s.availIdx
  }

  predicate Usable(us: seq<Used>) { forall u :: u in us ==> u.id < BUF_COUNT && u.len <= BUF_SIZE }

  function Frames(rx: seq<Byte>, us: seq<Used>): seq<seq<Byte>>
    requires |rx| == BUF_COUNT * BUF_SIZE && Usable(us)
  {
    if us == [] then [] else [Frame(rx, us[0].id, us[0].len)] + Frames(rx, us[1..])
  }

  /** The frame try_recv is working on. */
  function Current(rx: seq<Byte>, pc: Pc): seq<seq<Byte>>
    requires |rx| == BUF_COUNT * BUF_SIZE && (pc.Copying? ==> pc.id < BUF_COUNT && pc.total <= BUF_SIZE)
  {
    match pc
    case Idle => []
    case Copying(id, total, _) => [Frame(rx, id, total)]
    case _ => [pc.pkt]
  }

  /** Every delivered frame is received, being copied or unread in its buffer, in this order. */
  predicate History(s: State)
    requires Shape(s)
  {
    && Usable(Unread(s))
    && (s.pc.Copying? ==> s.pc.pkt <= Frame(s.rx, s.pc.id, s.pc.total))
    && s.delivered == s.received + Current(s.rx, s.pc) + Frames(s.rx, Unread(s))
  }

  ghost predicate Ok(s: State) { Shape(s) && Counters(s) && Partition(s) && History(s) }

  // ---------- ownership moves ----------

  lemma {:induction false} IdsSnoc(us: seq<Used>, u: Used)
    ensures Ids(us + [u]) == Ids(us) + [u.id]
  {
    if us != [] {
      IdsSnoc(us[1..], u);
      assert (us + [u])[1..] == us[1..] + [u];
    } else {
      assert (us + [u])[1..] == [];
    }
  }

  lemma {:induction false} FramesSnoc(rx: seq<Byte>, us: seq<Used>, u: Used)
    requires |rx| == BUF_COUNT * BUF_SIZE && Usable(us + [u])
    ensures Usable(us)
    ensures Frames(rx, us + [u]) == Frames(rx, us) + [Frame(rx, u.id, u.len)]
  {
    hide Frame;
    assert forall v :: v in us ==> v in us + [u];
    if us != [] {
      assert (us + [u])[1..] == us[1..] + [u];
      FramesSnoc(rx, us[1..], u);
    } else {
      assert (us + [u])[1..] == [];
    }
  }

  lemma {:induction false} IdsContain(us: seq<Used>)
    ensures |Ids(us)| == |us|
    ensures forall u :: u in us ==> u.id in Ids(us)
  {
    if us == [] {
    } else {
      IdsContain(us[1..]);
    }
  }

  lemma {:induction false} CountUp(k: nat, ids: set<nat>)
    requires forall i: nat :: i in ids <==> i < k
    ensures |ids| == k && multiset(seq(k, i => i)) == multiset(ids)
  {
    if k > 0 {
      CountUp(k - 1, ids - {k - 1});
      assert seq(k, i => i) == seq(k - 1, i => i) + [k - 1];
      assert multiset(ids) == multiset(ids - {k - 1}) + multiset{k - 1};
    } else {
      assert ids == {};
    }
  }

  lemma {:induction false} EightInAll(posted: seq<nat>, held: set<nat>, unread: seq<Used>, hand: seq<nat>)
    requires Shared(posted, held, unread, hand)
    ensures |posted| + |held| + |unread| + |hand| == BUF_COUNT
  {
    IdsContain(unread);
    assert |multiset(posted) + multiset(held) + multiset(Ids(unread)) + multiset(hand)| == |multiset(IDS)|;
    CountUp(BUF_COUNT, IDS);
  }

  function Owners(posted: seq<nat>, held: set<nat>, unread: seq<Used>, hand: seq<nat>, id: nat): nat {
    multiset(posted)[id] + multiset(held)[id] + multiset(Ids(unread))[id] + multiset(hand)[id]
  }

  lemma {:induction false} CountOwners(posted: seq<nat>, held: set<nat>, unread: seq<Used>, hand: seq<nat>, id: nat)
    requires Shared(posted, held, unread, hand)
    ensures Owners(posted, held, unread, hand, id) == if id < BUF_COUNT then 1 else 0
  {
    assert multiset(IDS)[id] == if id in IDS then 1 else 0;
    assert (multiset(posted) + multiset(held) + multiset(Ids(unread)) + multiset(hand))[id] == Owners(posted, held, unread, hand, id);
  }

  /** Every id below eight has exactly one owner, and no other id has any. */
  lemma {:induction false} OneOwner(posted: seq<nat>, held: set<nat>, unread: seq<Used>, hand: seq<nat>, id: nat)
    requires Shared(posted, held, unread, hand)
    ensures id in posted || id in held || id in Ids(unread) || id in hand <==> id < BUF_COUNT
    ensures id in held ==> id !in posted && id !in Ids(unread) && id !in hand
    ensures id in posted ==> id !in Ids(unread) && id !in hand
    ensures id in Ids(unread) ==> id !in hand
  {
    CountOwners(posted, held, unread, hand, id);
    assert id in posted <==> multiset(posted)[id] > 0;
    assert id in held <==> multiset(held)[id] > 0;
    assert id in Ids(unread) <==> multiset(Ids(unread))[id] > 0;
    assert id in hand <==> multiset(hand)[id] > 0;
    hide Shared;
  }

  // ---------- how each step moves the two queues ----------

  lemma {:induction false} MoveToDevice(id: nat, posted: seq<nat>, held: set<nat>, unread: seq<Used>, hand: seq<nat>)
    requires Shared([id] + posted, held, unread, hand) && id !in held
    ensures Shared(posted, held + {id}, unread, hand)
  {
    assert multiset([id] + posted) == multiset{id} + multiset(posted);
    assert multiset(held + {id}) == multiset(held) + multiset{id};
  }

  lemma {:induction false} MoveToUnread(u: Used, posted: seq<nat>, held: set<nat>, unread: seq<Used>, hand: seq<nat>)
    requires Shared(posted, held, unread, hand) && u.id in held
    ensures Shared(posted, held - {u.id}, unread + [u], hand)
  {
    IdsSnoc(unread, u);
    assert multiset(held) == multiset(held - {u.id}) + multiset{u.id};
    assert multiset(Ids(unread) + [u.id]) == multiset(Ids(unread)) + multiset{u.id};
  }

  lemma {:induction false} MoveToHand(u: Used, posted: seq<nat>, held: set<nat>, unread: seq<Used>)
    requires Shared(posted, held, [u] + unread, [])
    ensures Shared(posted, held, unread, [u.id])
  {
    assert ([u] + unread)[1..] == unread;
    assert multiset([u.id] + Ids(unread)) == multiset([u.id]) + multiset(Ids(unread));
  }

  lemma {:induction false} MoveToPosted(id: nat, posted: seq<nat>, held: set<nat>, unread: seq<Used>)
    requires Shared(posted, held, unread, [id])
    ensures Shared(posted + [id], held, unread, [])
  {
    assert multiset(posted + [id]) == multiset(posted) + multiset([id]);
  }

  /** Publishing the slot a counter points at appends it to the window that ends there. */
  lemma {:induction false} Publish<T>(ring: seq<T>, from: nat, idx: nat, x: T)
    requires PowerOfTwo(|ring|) && from < U16 && idx < U16 && Dist(from, idx) < BUF_COUNT
    ensures Window(ring[Slot(idx, |ring|) := x], from, Dist(from, idx)) == Window(ring, from, Dist(from, idx))
    ensures ring[Slot(idx, |ring|)] == x ==> Window(ring, from, Dist(from, Inc(idx))) == Window(ring, from, Dist(from, idx)) + [x]
    ensures Window(ring[Slot(idx, |ring|) := x], from, Dist(from, Inc(idx))) == Window(ring, from, Dist(from, idx)) + [x]
  {
    hide Window; hide Slot;
    DistSteps(from, idx, |ring|);
    WindowKept(ring, from, Dist(from, idx), x);
    WindowSnoc(ring, from, Dist(from, idx));
    WindowSnoc(ring[Slot(idx, |ring|) := x], from, Dist(from, idx));
  }

  lemma {:induction false} Consume<T>(ring: seq<T>, from: nat, idx: nat)
    requires |ring| > 0 && from < U16 && idx < U16 && from != idx
    ensures Window(ring, from, Dist(from, idx)) == [ring[Slot(from, |ring|)]] + Window(ring, Inc(from), Dist(Inc(from), idx))
  {
    hide Window; hide Slot;
    DistSteps(from, idx, |ring|);
    WindowPop(ring, from, Dist(from, idx));
  }

  /** The two queues as seen by a reader of the rings after a step. */
  ghost predicate Queues(s: State, posted: seq<nat>, unread: seq<Used>) {
    Shape(s) && Posted(s) == posted && Unread(s) == unread
  }

  lemma {:induction false} TakeMoves(s: State)
    requires Ok(s) && Enabled(s, Take)
    ensures Posted(s) != [] && Posted(s)[0] !in s.held
    ensures Act(s, Take).held == s.held + {Posted(s)[0]}
    ensures Queues(Act(s, Take), Posted(s)[1..], Unread(s))
    ensures Ok(Act(s, Take))
  {
    hide Window; hide Shared; hide Slot; hide Frames; hide Current;
    Consume(s.avail, s.next, s.availIdx);
    var id := Posted(s)[0];
    assert Posted(s) == [id] + Posted(s)[1..];
    OneOwner(Posted(s), s.held, Unread(s), InHand(s.pc), id);
    MoveToDevice(id, Posted(s)[1..], s.held, Unread(s), InHand(s.pc));
  }

  lemma {:induction false} ReturnMoves(s: State, id: nat, len: nat)
    requires Ok(s) && Enabled(s, Return(id, len))
    ensures Queues(Act(s, Return(id, len)), Posted(s), Unread(s) + [Used(id, len)])
    ensures Ok(Act(s, Return(id, len)))
  {
    hide Window; hide Shared; hide Slot; hide Frames; hide Current; hide Frame;
    EightInAll(Posted(s), s.held, Unread(s), InHand(s.pc));
    assert |s.held| > 0;
    assert Dist(s.lu, s.usedIdx) < BUF_COUNT by { assert |Unread(s)| == Dist(s.lu, s.usedIdx) by { WindowSize(s.used, s.lu, Dist(s.lu, s.usedIdx)); } }
    Publish(s.used, s.lu, s.usedIdx, Used(id, len));
    MoveToUnread(Used(id, len), Posted(s), s.held, Unread(s), InHand(s.pc));
    FramesSnoc(s.rx, Unread(s), Used(id, len));
  }

  lemma {:induction false} WindowSize<T>(ring: seq<T>, from: nat, count: nat)
    requires |ring| > 0
    ensures |Window(ring, from, count)| == count
  {
  }

  lemma {:induction false} PollMoves(s: State)
    requires Ok(s) && Enabled(s, Poll)
    ensures Unread(s) == [] <==> s.usedIdx == s.lu
    ensures Queues(Act(s, Poll), Posted(s), if Unread(s) == [] then [] else Unread(s)[1..])
    ensures Unread(s) != [] ==> Act(s, Poll).pc == Copying(Unread(s)[0].id, Unread(s)[0].len, [])
    ensures Ok(Act(s, Poll))
  {
    hide Window; hide Shared; hide Slot; hide Frame;
    WindowSize(s.used, s.lu, Dist(s.lu, s.usedIdx));
    if s.usedIdx != s.lu {
      Consume(s.used, s.lu, s.usedIdx);
      var u := Unread(s)[0];
      assert Unread(s) == [u] + Unread(s)[1..];
      MoveToHand(u, Posted(s), s.held, Unread(s)[1..]);
    }
  }

  lemma {:induction false} CopyMoves(s: State)
    requires Ok(s) && Enabled(s, Copy)
    ensures Queues(Act(s, Copy), Posted(s), Unread(s))
    ensures Ok(Act(s, Copy))
  {
    hide Window; hide Shared; hide Slot; hide Frames;
  }

  lemma {:induction false} DescribeMoves(s: State)
    requires Ok(s) && Enabled(s, Describe)
    ensures Queues(Act(s, Describe), Posted(s), Unread(s)) && Act(s, Describe).desc == s.desc
    ensures Ok(Act(s, Describe))
  {
    hide Window; hide Shared; hide Slot; hide Frames;
    assert s.pc.pkt == Frame(s.rx, s.pc.id, s.pc.total);
  }

  lemma {:induction false} PlaceMoves(s: State)
    requires Ok(s) && Enabled(s, Place)
    ensures Queues(Act(s, Place), Posted(s), Unread(s))
    ensures Ok(Act(s, Place))
  {
    hide Window; hide Shared; hide Slot; hide Frames; hide Frame;
    EightInAll(Posted(s), s.held, Unread(s), InHand(s.pc));
    WindowSize(s.avail, s.next, Dist(s.next, s.availIdx));
    Publish(s.avail, s.next, s.availIdx, s.pc.id);
  }

  lemma {:induction false} CommitMoves(s: State)
    requires Ok(s) && Enabled(s, Commit)
    ensures Queues(Act(s, Commit), Posted(s) + [s.pc.id], Unread(s))
    ensures Ok(Act(s, Commit))
  {
    hide Window; hide Shared; hide Slot; hide Frames; hide Frame;
    EightInAll(Posted(s), s.held, Unread(s), InHand(s.pc));
    WindowSize(s.avail, s.next, Dist(s.next, s.availIdx));
    Publish(s.avail, s.next, s.availIdx, s.pc.id);
    MoveToPosted(s.pc.id, Posted(s), s.held, Unread(s));
  }

  // ---------- the device writes only where nobody reads ----------

  lemma {:induction false} FrameKept(rx: seq<Byte>, id: nat, off: nat, b: Byte, other: nat, total: nat)
    requires |rx| == BUF_COUNT * BUF_SIZE && id < BUF_COUNT && off < BUF_SIZE
    requires other < BUF_COUNT && other != id && total <= BUF_SIZE
    ensures Frame(rx[id * BUF_SIZE + off := b], other, total) == Frame(rx, other, total)
  {
    var k := id * BUF_SIZE + off;
    assert k < other * BUF_SIZE || k >= other * BUF_SIZE + BUF_SIZE;
  }

  lemma {:induction false} FramesKept(rx: seq<Byte>, id: nat, off: nat, b: Byte, us: seq<Used>)
    requires |rx| == BUF_COUNT * BUF_SIZE && id < BUF_COUNT && off < BUF_SIZE
    requires Usable(us) && id !in Ids(us)
    ensures Frames(rx[id * BUF_SIZE + off := b], us) == Frames(rx, us)
  {
    hide Frame;
    if us == [] {
    } else {
      FrameKept(rx, id, off, b, us[0].id, us[0].len);
      FramesKept(rx, id, off, b, us[1..]);
    }
  }

  lemma {:induction false} WriteMoves(s: State, id: nat, off: nat, b: Byte)
    requires Ok(s) && Enabled(s, Write(id, off, b))
    ensures Queues(Act(s, Write(id, off, b)), Posted(s), Unread(s))
    ensures Ok(Act(s, Write(id, off, b)))
  {
    hide Window; hide Shared; hide Slot; hide Frames; hide Frame;
    OneOwner(Posted(s), s.held, Unread(s), InHand(s.pc), id);
    FramesKept(s.rx, id, off, b, Unread(s));
    if s.pc.Copying? { FrameKept(s.rx, id, off, b, s.pc.id, s.pc.total); }
  }

  // ---------- every run ----------

  predicate Runs(s: State, actions: seq<Action>)
    decreases |actions|
  {
    actions == [] || (Shape(s) && Enabled(s, actions[0]) && Runs(Act(s, actions[0]), actions[1..]))
  }

  function Run(s: State, actions: seq<Action>): State
    requires Runs(s, actions)
    decreases |actions|
  {
    if actions == [] then s else Run(Act(s, actions[0]), actions[1..])
  }

  lemma {:induction false} ActKeepsOk(s: State, a: Action)
    requires Ok(s) && Enabled(s, a)
    ensures Ok(Act(s, a))
  {
    hide Ok; hide Act; hide Enabled;
    match a
    case Take => TakeMoves(s);
    case Write(id, off, b) => WriteMoves(s, id, off, b);
    case Return(id, len) => ReturnMoves(s, id, len);
    case Poll => PollMoves(s);
    case Copy => CopyMoves(s);
    case Describe => DescribeMoves(s);
    case Place => PlaceMoves(s);
    case Commit => CommitMoves(s);
  }

  lemma {:induction false} RunKeepsOk(s: State, actions: seq<Action>)
    requires Ok(s) && Runs(s, actions)
    ensures Ok(Run(s, actions))
    decreases |actions|
  {
    hide Act; hide Enabled;
    if actions == [] {
    } else {
      ActKeepsOk(s, actions[0]);
      RunKeepsOk(Act(s, actions[0]), actions[1..]);
    }
  }

  /** The queue just after post_rx_all: buffers 0 to 7 posted in order, nothing else happened yet. */
  predicate Opened(s: State) {
    && Shape(s) && (forall i :: 0 <= i < BUF_COUNT ==> s.avail[i] == i)
    && s.ai == s.availIdx == BUF_COUNT && s.usedIdx == s.lu == s.next == 0
    && s.pc.Idle? && s.held == {} && s.delivered == s.received == []
  }

  lemma {:induction false} SmallSlot(x: nat, n: nat)
    requires x < BUF_COUNT <= n
    ensures Slot(x, n) == x
  {
  }

  lemma {:induction false} OpenedOk(s: State)
    requires Opened(s)
    ensures Ok(s)
  {
    hide Slot; hide Frame;
    forall k: nat | k < BUF_COUNT ensures Posted(s)[k] == k { SmallSlot(k, |s.avail|); }
    assert Posted(s) == seq(BUF_COUNT, i => i);
    assert Unread(s) == [];
    CountUp(BUF_COUNT, IDS);
  }

  /** How many of the four places hold the id. */
  function Places(s: State, id: nat): nat
    requires Shape(s)
  {
    Owners(Posted(s), s.held, Unread(s), InHand(s.pc), id)
  }

  /**
   * In every run of driver and device, each buffer has one owner, frames come out once, whole and in the order the
   * device returned them, and a frame not yet received is still unread in the ring or in the driver's hand.
   */
  lemma {:induction false} RxCorrect(s: State, actions: seq<Action>, id: nat)
    requires Opened(s) && Runs(s, actions)
    ensures var t := Run(s, actions);
            && Shape(t) && Places(t, id) == (if id < BUF_COUNT then 1 else 0)
            && t.received <= t.delivered
            && |t.delivered| == |t.received| + |InHand(t.pc)| + |Unread(t)|
            && (t.pc.Idle? && t.usedIdx == t.lu ==> t.received == t.delivered)
  {
    hide Shared; hide Opened; hide Window; hide Frame;
    OpenedOk(s);
    RunKeepsOk(s, actions);
    var t := Run(s, actions);
    CountOwners(Posted(t), t.held, Unread(t), InHand(t.pc), id);
    FramesSize(t.rx, Unread(t));
    WindowSize(t.used, t.lu, Dist(t.lu, t.usedIdx));
  }

  lemma {:induction false} FramesSize(rx: seq<Byte>, us: seq<Used>)
    requires |rx| == BUF_COUNT * BUF_SIZE && Usable(us)
    ensures |Frames(rx, us)| == |us|
  {
    hide Frame;
    if us == [] {
    } else {
      FramesSize(rx, us[1..]);
    }
  }

  // ---------- what the device stores is what arrives ----------

  /** The device stores the bytes of a packet from `k` on through the descriptor of a buffer, and returns it. */
  function StoreFrom(id: nat, data: seq<Byte>, k: nat): seq<Action>
    requires k <= |data|
    decreases |data| - k
  {
    if k == |data| then [Return(id, |data|)] else [Write(id, k, data[k])] + StoreFrom(id, data, k + 1)
  }

  lemma {:induction false} StoresFrom(s: State, id: nat, data: seq<Byte>, k: nat)
    requires Ok(s) && id in s.held && k <= |data| <= 1524
    requires forall j :: 0 <= j < k ==> s.rx[id * BUF_SIZE + j] == data[j]
    ensures Runs(s, StoreFrom(id, data, k))
    ensures Run(s, StoreFrom(id, data, k)).delivered == s.delivered + [if |data| < 10 then [] else data[10..]]
    decreases |data| - k
  {
    hide Shared; hide Window; hide Slot; hide Frames; hide Current; hide Partition; hide History; hide Counters;
    var acts := StoreFrom(id, data, k);
    if k == |data| {
      var t := Act(s, Return(id, |data|));
      assert acts[1..] == [];
      assert Runs(t, []) && Run(t, []) == t;
      FrameStored(s.rx, id, data);
    } else {
      var a := Write(id, k, data[k]);
      ActKeepsOk(s, a);
      assert acts[1..] == StoreFrom(id, data, k + 1);
      StoresFrom(Act(s, a), id, data, k + 1);
    }
  }

  lemma {:induction false} FrameStored(rx: seq<Byte>, id: nat, data: seq<Byte>)
    requires |rx| == BUF_COUNT * BUF_SIZE && id < BUF_COUNT && |data| <= 1524
    requires forall j :: 0 <= j < |data| ==> rx[id * BUF_SIZE + j] == data[j]
    ensures Frame(rx, id, |data|) == if |data| < 10 then [] else data[10..]
  {
  }

  /** A packet that the device stores in a buffer it holds, and returns, is delivered without its 10-byte header. */
  lemma {:induction false} DeliversStored(s: State, id: nat, data: seq<Byte>)
    requires Ok(s) && id in s.held && |data| <= 1524
    ensures Runs(s, StoreFrom(id, data, 0))
    ensures Run(s, StoreFrom(id, data, 0)).delivered == s.delivered + [if |data| < 10 then [] else data[10..]]
  {
    StoresFrom(s, id, data, 0);
  }

  // ---------- try_recv without interruption ----------

  function Copies(k: nat): seq<Action> { if k == 0 then [Describe, Place, Commit] else [Copy] + Copies(k - 1) }

  function RecvActions(total: nat): seq<Action> { [Poll] + Copies(PktLen(total)) }

  /** The state after a whole call that found something. */
  function Recv(s: State): State
    requires Shape(s) && s.used[Slot(s.lu, |s.used|)].id < |s.desc|
    requires s.used[Slot(s.lu, |s.used|)].id < BUF_COUNT && s.used[Slot(s.lu, |s.used|)].len <= BUF_SIZE
  {
    var u := s.used[Slot(s.lu, |s.used|)];
    s.(desc := s.desc[u.id := BufDesc(u.id)], avail := s.avail[Slot(s.ai, |s.avail|) := u.id], ai := Inc(s.ai),
       availIdx := Inc(s.ai), lu := Inc(s.lu), received := s.received + [Frame(s.rx, u.id, u.len)])
  }

  /** What is left of a call that has copied part of its packet. */
  lemma {:induction false} FinishCopy(s: State, k: nat)
    requires Ok(s) && s.pc.Copying? && |s.pc.pkt| + k == PktLen(s.pc.total)
    ensures Runs(s, Copies(k))
    ensures Run(s, Copies(k)) ==
              s.(pc := Idle, desc := s.desc[s.pc.id := BufDesc(s.pc.id)], avail := s.avail[Slot(s.ai, |s.avail|) := s.pc.id],
                 ai := Inc(s.ai), availIdx := Inc(s.ai), received := s.received + [Frame(s.rx, s.pc.id, s.pc.total)])
    decreases k
  {
    hide Shared; hide Window; hide Slot; hide Frames;
    if k > 0 {
      CopyMoves(s);
      assert Copies(k)[1..] == Copies(k - 1);
      FinishCopy(Act(s, Copy), k - 1);
    } else {
      DescribeMoves(s);
      PlaceMoves(Act(s, Describe));
      var p := Act(Act(s, Describe), Place);
      assert Copies(0)[1..] == [Place, Commit] && Copies(0)[1..][1..] == [Commit] && Copies(0)[1..][1..][1..] == [];
      var c := Act(p, Commit);
      assert Runs(p, [Commit]) && Run(p, [Commit]) == c by { assert Runs(c, []) && Run(c, []) == c; }
      assert s.pc.pkt == Frame(s.rx, s.pc.id, s.pc.total);
    }
  }

  lemma {:induction false} RecvIsRun(s: State)
    requires Ok(s) && s.pc.Idle? && s.usedIdx != s.lu
    ensures Usable(Unread(s)) && Unread(s) != [] && Unread(s)[0] == s.used[Slot(s.lu, |s.used|)]
    ensures Runs(s, RecvActions(Unread(s)[0].len)) && Run(s, RecvActions(Unread(s)[0].len)) == Recv(s)
  {
    hide Shared; hide Window; hide Slot; hide Frames; hide Frame;
    PollMoves(s);
    Consume(s.used, s.lu, s.usedIdx);
    var k := PktLen(Unread(s)[0].len);
    assert RecvActions(Unread(s)[0].len)[1..] == Copies(k);
    FinishCopy(Act(s, Poll), k);
  }

  /** The receive half of VirtioNet; what the device knows is ghost. */
  class RxQueue {
    const rx: array<Byte>
    const desc: array<Desc>
    const avail: array<nat>
    const used: array<Used>
    const qsize: nat
    var availIdx: nat
    var usedIdx: nat
    var ai: nat
    var lu: nat
    ghost var next: nat
    ghost var held: set<nat>
    ghost var delivered: seq<seq<Byte>>
    ghost var received: seq<seq<Byte>>

    ghost function View(): State
      reads this, rx, desc, avail, used
    {
      State(rx[..], desc[..], avail[..], availIdx, used[..], usedIdx, ai, lu, Idle, next, held, delivered, received)
    }

    /** Queue::init with the memory zeroed, then post_rx_all. */
    constructor (n: nat)
      requires PowerOfTwo(n)
      ensures fresh(rx) && fresh(desc) && fresh(avail) && fresh(used) && qsize == n
      ensures Opened(View())
    {
      rx := new Byte[BUF_COUNT * BUF_SIZE](_ => 0);
      desc := new Desc[n](_ => Desc(0, 0, 0));
      avail := new nat[n](_ => 0);
      used := new Used[n](_ => Used(0, 0));
      qsize := n;
      availIdx, usedIdx, ai, lu := 0, 0, 0, 0;
      next, held, delivered, received := 0, {}, [], [];
      new;
      PostRxAll();
    }

    method PostRxAll()
      requires PowerOfTwo(qsize) && desc.Length == avail.Length == used.Length == qsize && rx.Length == BUF_COUNT * BUF_SIZE
      requires ai == lu == availIdx == usedIdx == next == 0 && held == {} && delivered == received == []
      modifies this, desc, avail
      ensures Opened(View())
    {
      hide Slot;
      for i := 0 to BUF_COUNT
        invariant ai == i && lu == availIdx == usedIdx == next == 0 && held == {} && delivered == received == []
        invariant forall j :: 0 <= j < i ==> avail[j] == j && desc[j] == BufDesc(j)
      {
        SmallSlot(i, qsize);
        desc[i] := BufDesc(i);
        avail[Slot(ai, qsize)] := i;
        ai := Inc(ai);
      }
      availIdx := ai;
    }

    method CopyPacket(id: nat, total: nat) returns (pkt: seq<Byte>)
      requires rx.Length == BUF_COUNT * BUF_SIZE && id < BUF_COUNT && total <= BUF_SIZE
      ensures pkt == Frame(rx[..], id, total)
    {
      pkt := [];
      var n := if total < HDR_LEN then 0 else total - HDR_LEN;
      for i := 0 to n
        invariant pkt == rx[id * BUF_SIZE + HDR_LEN..id * BUF_SIZE + HDR_LEN + i]
      {
        pkt := pkt + [rx[id * BUF_SIZE + HDR_LEN + i]];
      }
    }

    method TryRecv() returns (r: Option<seq<Byte>>)
      requires Ok(View()) && qsize == avail.Length
      modifies this, desc, avail
      ensures r.None? <==> old(usedIdx) == old(lu)
      ensures r.None? ==> View() == old(View())
      ensures r.Some? ==> View() == old(Recv(View())) && received == old(received) + [r.value] && Ok(View())
    {
      hide Slot; hide Window; hide Shared; hide Frame; hide Frames; hide Current;
      if usedIdx == lu { return None; }
      ghost var s := View();
      RecvIsRun(s);
      RunKeepsOk(s, RecvActions(Unread(s)[0].len));
      assert Ok(Recv(s));
      var slot := Slot(lu, qsize);
      var id, total := used[slot].id, used[slot].len;
      lu := Inc(lu);
      var pkt := CopyPacket(id, total);
      desc[id] := BufDesc(id);
      avail[Slot(ai, qsize)] := id;
      ai := Inc(ai);
      availIdx := ai;
      received := received + [pkt];
      r := Some(pkt);
      assert View() == Recv(s);
    }
  }
}
