/** Switchless IPC: a single-slot doorbell protocol over a shared frame, interleaved byte by byte. */
module Switchless {
  import opened Prelude

  const FRAME_SIZE: nat := 4096
  const RECV_MAX: nat := 64
  const SW_SLOTS: nat := 64

  type Msg = seq<Byte>

  /** Where a send stands: waiting for the slot, or having copied `k` bytes. */
  datatype Sender = Idle | Spinning(data: Msg) | Copying(data: Msg, k: nat)

  /** Where a poll stands: the length read from the doorbell and the bytes copied so far. */
  datatype Receiver = Waiting | Reading(len: nat, out: Msg)

  /** One channel; `sent` and `received` record the completed sends and polls. */
  datatype Channel = Channel(frame: Msg, sender: Sender, receiver: Receiver, sent: seq<Msg>, received: seq<Msg>)

  datatype System = System(channels: map<nat, Channel>, bells: seq<nat>, nextCap: nat)

  function Slot(cap: nat): nat { cap % SW_SLOTS }

  function WriteLen(data: Msg): nat { Min(|data|, FRAME_SIZE) }

  function Cut(m: Msg): Msg { m[..Min(|m|, 64)] }

  datatype Step =
    | SendStart(cap: nat, data: Msg)  // look the buffer up
    | SendTry(cap: nat)               // one turn of the spin on the doorbell
    | SendByte(cap: nat)              // one byte of the copy into the frame
    | SendRing(cap: nat)              // store the length in the doorbell
    | PollStart(cap: nat)             // load the doorbell
    | PollByte(cap: nat)              // one byte of the copy out of the frame
    | PollEnd(cap: nat)               // clear the doorbell
    | Create(frame: Msg)              // a new channel over a frame with old contents, doorbell reset
    | TakeId                          // a shared buffer without a frame uses up an id
    | Drop(cap: nat)

  predicate Enabled(s: System, a: Step)
    requires |s.bells| == SW_SLOTS
  {
    match a
    case Create(frame) => |frame| == FRAME_SIZE
    case TakeId => true
    case Drop(cap) => cap in s.channels && s.channels[cap].sender == Idle && s.channels[cap].receiver == Waiting
    case _ =>
      a.cap in s.channels && var ch := s.channels[a.cap];
      match a
      case SendStart(_, _) => ch.sender == Idle
      case SendTry(_) => ch.sender.Spinning?
      case SendByte(_) => ch.sender.Copying? && ch.sender.k < WriteLen(ch.sender.data) && |ch.frame| == FRAME_SIZE
      case SendRing(_) => ch.sender.Copying? && ch.sender.k == WriteLen(ch.sender.data)
      case PollStart(_) => ch.receiver == Waiting
      case PollByte(_) => ch.receiver.Reading? && |ch.receiver.out| < Min(ch.receiver.len, RECV_MAX) && |ch.frame| == FRAME_SIZE
      case PollEnd(_) => ch.receiver.Reading? && |ch.receiver.out| == Min(ch.receiver.len, RECV_MAX)
      case _ => true
  }

  function Act(s: System, a: Step): System
    requires |s.bells| == SW_SLOTS && Enabled(s, a)
  {
    match a
    case Create(frame) =>
      System(s.channels[s.nextCap := Channel(frame, Idle, Waiting, [], [])], s.bells[Slot(s.nextCap) := 0], s.nextCap + 1)
    case TakeId => s.(nextCap := s.nextCap + 1)
    case Drop(cap) => s.(channels := s.channels - {cap})
    case _ =>
      var (ch, bell) := ChannelStep(s.channels[a.cap], s.bells[Slot(a.cap)], a);
      s.(channels := s.channels[a.cap := ch], bells := s.bells[Slot(a.cap) := bell])
  }

  /** A step of one channel touches that channel and its own doorbell. */
  function ChannelStep(ch: Channel, bell: nat, a: Step): (Channel, nat) {
    match a
    case SendStart(_, data) => (ch.(sender := Spinning(data)), bell)
    case SendTry(_) => (if bell == 0 && ch.sender.Spinning? then ch.(sender := Copying(ch.sender.data, 0)) else ch, bell)
    case SendByte(_) =>
      (if ch.sender.Copying? && ch.sender.k < |ch.frame| && ch.sender.k < |ch.sender.data|
       then ch.(frame := ch.frame[ch.sender.k := ch.sender.data[ch.sender.k]], sender := ch.sender.(k := ch.sender.k + 1))
       else ch, bell)
    case SendRing(_) =>
      if ch.sender.Copying?
      then (ch.(sender := Idle, sent := ch.sent + [ch.sender.data[..WriteLen(ch.sender.data)]]), WriteLen(ch.sender.data))
      else (ch, bell)
    case PollStart(_) => (if bell == 0 then ch else ch.(receiver := Reading(bell, [])), bell)
    case PollByte(_) =>
      (if ch.receiver.Reading? && |ch.receiver.out| < |ch.frame|
       then ch.(receiver := ch.receiver.(out := ch.receiver.out + [ch.frame[|ch.receiver.out|]])) else ch, bell)
    case PollEnd(_) =>
      if ch.receiver.Reading? then (ch.(receiver := Waiting, received := ch.received + [ch.receiver.out]), 0) else (ch, bell)
    case _ => (ch, bell)
  }

  /** A step of a sender or a receiver. */
  predicate OnChannel(a: Step) { !a.Create? && !a.TakeId? && !a.Drop? }

  // ---------- the invariant ----------

  /** What a receiver can ever see of the messages sent: the non-empty ones, cut to the receive buffer. */
  function Visible(sent: seq<Msg>): seq<Msg> {
    if sent == [] then []
    else
      var last := sent[|sent| - 1];
      Visible(sent[..|sent| - 1]) + if last == [] then [] else [Cut(last)]
  }

  /** The slot is free and everything visible has been received, or the slot holds exactly the last visible message. */
  ghost predicate ChannelOk(ch: Channel, bell: nat) {
    && |ch.frame| == FRAME_SIZE
    && (if bell == 0
        then ch.receiver == Waiting && ch.received == Visible(ch.sent)
        else && bell <= FRAME_SIZE && !ch.sender.Copying?
             && Visible(ch.sent) == ch.received + [Cut(ch.frame[..bell])]
             && (ch.receiver.Reading? ==>
                   ch.receiver.len == bell && |ch.receiver.out| <= Min(bell, RECV_MAX) && ch.receiver.out == ch.frame[..|ch.receiver.out|]))
    && (ch.sender.Copying? ==>
          ch.sender.k <= WriteLen(ch.sender.data) && ch.frame[..ch.sender.k] == ch.sender.data[..ch.sender.k])
  }

  ghost predicate SlotsDistinct(s: System) {
    forall c, d :: c in s.channels && d in s.channels && c % 64 == d % 64 ==> c == d
  }

  /** Every channel is in order, on a doorbell slot of its own. */
  ghost predicate Ok(s: System) {
    && |s.bells| == SW_SLOTS && SlotsDistinct(s)
    && forall c :: c in s.channels ==> ChannelOk(s.channels[c], s.bells[Slot(c)])
  }

  lemma {:induction false} RingKeepsOk(ch: Channel, bell: nat, cap: nat)
    requires ChannelOk(ch, bell) && ch.sender.Copying? && ch.sender.k == WriteLen(ch.sender.data)
    ensures var (ch', bell') := ChannelStep(ch, bell, SendRing(cap)); ChannelOk(ch', bell')
  {
    var m := ch.sender.data[..WriteLen(ch.sender.data)];
    assert ch.frame[..WriteLen(ch.sender.data)] == m;
  }

  lemma {:induction false} PollEndKeepsOk(ch: Channel, bell: nat, cap: nat)
    requires ChannelOk(ch, bell) && ch.receiver.Reading? && |ch.receiver.out| == Min(ch.receiver.len, RECV_MAX)
    ensures var (ch', bell') := ChannelStep(ch, bell, PollEnd(cap)); ChannelOk(ch', bell')
  {
    assert ch.receiver.out == Cut(ch.frame[..bell]);
  }

  lemma {:induction false} BytesKeepOk(ch: Channel, bell: nat, cap: nat)
    requires ChannelOk(ch, bell)
    ensures ch.sender.Copying? && ch.sender.k < WriteLen(ch.sender.data) ==>
              var (ch', bell') := ChannelStep(ch, bell, SendByte(cap)); ChannelOk(ch', bell')
    ensures ch.receiver.Reading? && |ch.receiver.out| < Min(ch.receiver.len, RECV_MAX) ==>
              var (ch', bell') := ChannelStep(ch, bell, PollByte(cap)); ChannelOk(ch', bell')
  {
  }

  lemma {:induction false} StepKeepsChannelOk(s: System, a: Step)
    requires Ok(s) && Enabled(s, a) && OnChannel(a)
    ensures var (ch, bell) := ChannelStep(s.channels[a.cap], s.bells[Slot(a.cap)], a); ChannelOk(ch, bell)
  {
    var ch, bell := s.channels[a.cap], s.bells[Slot(a.cap)];
    assert ChannelOk(ch, bell);
    match a {
      case SendByte(_) => BytesKeepOk(ch, bell, a.cap);
      case PollByte(_) => BytesKeepOk(ch, bell, a.cap);
      case SendRing(_) => RingKeepsOk(ch, bell, a.cap);
      case PollEnd(_) => PollEndKeepsOk(ch, bell, a.cap);
      case _ =>
    }
  }

  /** Every step keeps every channel in order, as long as live channels do not come to share a doorbell slot. */
  lemma {:induction false} ActKeepsOk(s: System, a: Step)
    requires Ok(s) && Enabled(s, a) && SlotsDistinct(Act(s, a))
    ensures Ok(Act(s, a))
  {
    if OnChannel(a) {
      StepKeepsChannelOk(s, a);
      hide ChannelOk;
      hide ChannelStep;
      hide Enabled;
    }
  }

  // ---------- runs ----------

  const Boot: System := System(map[], NoBells(), 1)

  function NoBells(): seq<nat> { seq(SW_SLOTS, _ => 0) }

  /** Each state follows from the one before by an enabled step; nothing keeps a new id off an occupied slot. */
  ghost predicate RunFrom(run: seq<System>, steps: seq<Step>) {
    && |run| == |steps| + 1
    && forall k {:trigger run[k + 1]} {:trigger steps[k]} :: 0 <= k < |steps| ==>
         |run[k].bells| == SW_SLOTS && Enabled(run[k], steps[k]) && run[k + 1] == Act(run[k], steps[k])
  }

  ghost predicate ValidRun(run: seq<System>, steps: seq<Step>) { RunFrom(run, steps) && run[0] == Boot }

  /** At no point of the run do two live channels share a doorbell slot. */
  ghost predicate NeverShared(run: seq<System>) { forall k :: 0 <= k < |run| ==> SlotsDistinct(run[k]) }

  lemma {:induction false} RunOk(run: seq<System>, steps: seq<Step>, k: nat)
    requires RunFrom(run, steps) && Ok(run[0]) && NeverShared(run) && k < |run|
    ensures Ok(run[k])
  {
    hide Act;
    hide Enabled;
    hide ChannelOk;
    hide SlotsDistinct;
    if k == 0 {
    } else {
      RunOk(run, steps, k - 1);
      assert run[k] == Act(run[k - 1], steps[k - 1]);
      ActKeepsOk(run[k - 1], steps[k - 1]);
    }
  }

  // ---------- what a send is given ----------

  /** A send of `data` is under way on the channel, after the messages `sent`. */
  predicate Sending(s: System, cap: nat, data: Msg, sent: seq<Msg>) {
    && cap in s.channels && cap < s.nextCap && s.channels[cap].sent == sent
    && !s.channels[cap].sender.Idle? && s.channels[cap].sender.data == data
  }

  lemma {:induction false} SendingKept(s: System, a: Step, cap: nat, data: Msg, sent: seq<Msg>)
    requires |s.bells| == SW_SLOTS && Enabled(s, a) && Sending(s, cap, data, sent) && a != SendRing(cap)
    ensures Sending(Act(s, a), cap, data, sent)
  {
  }

  /** In every run: the send that starts with `data` ends by ringing the bell for it and recording it, after all earlier
      messages, whole up to the size of a frame. */
  lemma {:induction false} SendsWhatItWasGiven(run: seq<System>, steps: seq<Step>, cap: nat, data: Msg, m: nat, k: nat)
    requires RunFrom(run, steps) && m < k < |steps| && steps[m] == SendStart(cap, data) && cap < run[m].nextCap
    requires forall j :: m < j < k ==> steps[j] != SendRing(cap)
    ensures Sending(run[k], cap, data, run[m].channels[cap].sent)
    ensures steps[k] == SendRing(cap) ==>
              && |run[k + 1].bells| == SW_SLOTS && run[k + 1].bells[cap % 64] == Min(|data|, 4096)
              && cap in run[k + 1].channels
              && run[k + 1].channels[cap].sent == run[m].channels[cap].sent + [data[..Min(|data|, 4096)]]
    decreases k
  {
    if k == m + 1 {
      assert run[m + 1] == Act(run[m], steps[m]);
    } else {
      SendsWhatItWasGiven(run, steps, cap, data, m, k - 1);
      assert run[k] == Act(run[k - 1], steps[k - 1]);
      SendingKept(run[k - 1], steps[k - 1], cap, data, run[m].channels[cap].sent);
    }
    assert Enabled(run[k], steps[k]) && run[k + 1] == Act(run[k], steps[k]);
  }

  /** What was received is a prefix of what was sent, without empty messages and each cut to 64 bytes. */
  predicate InOrder(ch: Channel) { ch.received <= Visible(ch.sent) }

  /** In every interleaving, on every channel: what was received is a prefix of what was sent (without empty
      messages, each cut to 64 bytes), and at most one message is in flight. */
  lemma {:induction false} ReceivedIsPrefix(run: seq<System>, steps: seq<Step>, k: nat, cap: nat)
    requires ValidRun(run, steps) && NeverShared(run) && k < |run| && cap in run[k].channels
    ensures var ch := run[k].channels[cap]; InOrder(ch) && |Visible(ch.sent)| <= |ch.received| + 1
  {
    hide Act;
    hide Enabled;
    RunOk(run, steps, k);
    assert ChannelOk(run[k].channels[cap], run[k].bells[Slot(cap)]);
  }

  predicate NoneEmpty(sent: seq<Msg>) { forall i :: 0 <= i < |sent| ==> sent[i] != [] }

  /** Non-empty messages are all visible, one for one and in order. */
  lemma {:induction false} VisibleAll(sent: seq<Msg>)
    requires NoneEmpty(sent)
    ensures |Visible(sent)| == |sent| && forall i :: 0 <= i < |sent| ==> Visible(sent)[i] == Cut(sent[i])
  {
    if sent == [] {
    } else {
      VisibleAll(sent[..|sent| - 1]);
    }
  }

  /** No read is torn: a poll in progress holds a prefix of the very message being delivered. */
  lemma {:induction false} NoTornRead(run: seq<System>, steps: seq<Step>, k: nat, cap: nat)
    requires ValidRun(run, steps) && NeverShared(run) && k < |run| && cap in run[k].channels && run[k].channels[cap].receiver.Reading?
    ensures var ch := run[k].channels[cap];
            && |Visible(ch.sent)| == |ch.received| + 1
            && ch.receiver.out <= Visible(ch.sent)[|ch.received|] && !ch.sender.Copying?
  {
    hide Act;
    hide Enabled;
    RunOk(run, steps, k);
    var ch, bell := run[k].channels[cap], run[k].bells[Slot(cap)];
    assert ChannelOk(ch, bell);
    assert ch.frame[..|ch.receiver.out|] <= Cut(ch.frame[..bell]);
  }

  /** All messages are visible exactly when none is empty. */
  lemma {:induction false} VisibleAllIff(sent: seq<Msg>)
    ensures |Visible(sent)| <= |sent|
    ensures |Visible(sent)| == |sent| <==> NoneEmpty(sent)
  {
    if sent == [] {
    } else {
      VisibleAllIff(sent[..|sent| - 1]);
      assert NoneEmpty(sent) <==> NoneEmpty(sent[..|sent| - 1]) && sent[|sent| - 1] != [];
    }
  }

  /** Every message arrives, whole up to the receive buffer and in order. */
  predicate AllArrived(ch: Channel) {
    |ch.received| == |ch.sent| && forall i :: 0 <= i < |ch.sent| ==> ch.received[i] == Cut(ch.sent[i])
  }

  /** In every interleaving: once a channel's bell is clear, every message sent on it has arrived exactly when none of them
      was empty; an empty one rings no bell and is lost. */
  lemma {:induction false} AllArriveIff(run: seq<System>, steps: seq<Step>, k: nat, cap: nat)
    requires ValidRun(run, steps) && NeverShared(run) && k < |run| && cap in run[k].channels
    requires |run[k].bells| == SW_SLOTS && run[k].bells[Slot(cap)] == 0
    ensures var ch := run[k].channels[cap];
            && (AllArrived(ch) <==> NoneEmpty(ch.sent))
            && (|ch.received| == |ch.sent| <==> NoneEmpty(ch.sent))
  {
    hide Act; hide Enabled; hide Visible;
    RunOk(run, steps, k);
    var ch := run[k].channels[cap];
    assert ChannelOk(ch, run[k].bells[Slot(cap)]);
    VisibleAllIff(ch.sent);
    if NoneEmpty(ch.sent) { VisibleAll(ch.sent); }
  }

  /** A run that loses a message: an empty one, sent on the first channel, leaves the bell clear and nothing to receive. */
  lemma {:induction false} EmptyMessageLost(frame: Msg) returns (run: seq<System>, steps: seq<Step>)
    requires |frame| == FRAME_SIZE
    ensures ValidRun(run, steps) && NeverShared(run)
    ensures var s := run[|run| - 1];
            && 1 in s.channels && s.channels[1].sent == [[]] && s.channels[1].received == []
            && |s.bells| == SW_SLOTS && s.bells[Slot(1)] == 0 && !AllArrived(s.channels[1])
  {
    var ch := Channel(frame, Idle, Waiting, [], []);
    var s1 := System(map[1 := ch], NoBells(), 2);
    var s2 := System(map[1 := ch.(sender := Spinning([]))], NoBells(), 2);
    var s3 := System(map[1 := ch.(sender := Copying([], 0))], NoBells(), 2);
    var s4 := System(map[1 := ch.(sent := [[]])], NoBells(), 2);
    run := [Boot, s1, s2, s3, s4];
    steps := [Create(frame), SendStart(1, []), SendTry(1), SendRing(1)];
    var empty: Msg := [];
    assert NoBells()[1 := 0] == NoBells() && empty[..0] == empty && ch.sent + [empty] == [empty];
    assert Act(Boot, steps[0]) == s1;
    assert Act(s1, steps[1]) == s2;
    assert Act(s2, steps[2]) == s3;
    assert Act(s3, steps[3]) == s4;
  }

  // ---------- shared doorbell slots ----------

  /** All bells clear, nobody in the middle of anything, all channels in order. */
  ghost predicate Quiet(s: System) {
    && |s.bells| == SW_SLOTS && (forall i :: 0 <= i < SW_SLOTS ==> s.bells[i] == 0)
    && forall c :: c in s.channels ==> s.channels[c].sender == Idle && ChannelOk(s.channels[c], 0)
  }

  predicate NoneCreated(steps: seq<Step>) { forall k :: 0 <= k < |steps| ==> !steps[k].Create? }

  ghost predicate AllInOrder(s: System) { forall cap :: cap in s.channels ==> InOrder(s.channels[cap]) }

  /** However the live channels go on, what each receives stays a prefix of what was sent on it. */
  ghost predicate StaysInOrder(s: System) {
    forall run: seq<System>, steps: seq<Step> {:trigger RunFrom(run, steps)} ::
      RunFrom(run, steps) && run[0] == s && NoneCreated(steps) ==> AllInOrder(run[|run| - 1])
  }

  /** Without new channels, distinct slots stay distinct. */
  lemma {:induction false} DistinctKept(run: seq<System>, steps: seq<Step>, k: nat)
    requires RunFrom(run, steps) && SlotsDistinct(run[0]) && NoneCreated(steps) && k < |run|
    ensures SlotsDistinct(run[k])
  {
    if k == 0 {
    } else {
      DistinctKept(run, steps, k - 1);
      assert run[k] == Act(run[k - 1], steps[k - 1]);
      hide ChannelStep;
    }
  }

  lemma {:induction false} JoinRuns(run: seq<System>, steps: seq<Step>, run': seq<System>, steps': seq<Step>)
    requires RunFrom(run, steps) && RunFrom(run', steps') && run'[0] == run[|run| - 1]
    ensures RunFrom(run + run'[1..], steps + steps')
  {
    hide Act; hide Enabled;
    var all, acts := run + run'[1..], steps + steps';
    forall k | 0 <= k < |acts|
      ensures |all[k].bells| == SW_SLOTS && Enabled(all[k], acts[k]) && all[k + 1] == Act(all[k], acts[k])
    {
      if k < |steps| {
        assert all[k] == run[k] && all[k + 1] == run[k + 1] && acts[k] == steps[k];
      } else {
        var j := k - |steps|;
        assert all[k] == run'[j] && all[k + 1] == run'[j + 1] && acts[k] == steps'[j];
      }
    }
  }

  const BYTE: Msg := [1]

  /** The channel after a send of one byte, and after a poll of one. */
  function AfterSend(ch: Channel): Channel
    requires |ch.frame| == FRAME_SIZE
  {
    ch.(frame := ch.frame[0 := 1], sent := ch.sent + [BYTE])
  }

  function AfterPoll(ch: Channel): Channel
    requires |ch.frame| == FRAME_SIZE
  {
    ch.(received := ch.received + [ch.frame[..1]])
  }

  lemma {:induction false} SendOne(s: System, c: nat) returns (run: seq<System>, steps: seq<Step>)
    requires |s.bells| == SW_SLOTS && c in s.channels && s.channels[c].sender == Idle && |s.channels[c].frame| == FRAME_SIZE
    requires s.bells[Slot(c)] == 0
    ensures RunFrom(run, steps) && run[0] == s && NoneCreated(steps)
    ensures run[|run| - 1] == s.(channels := s.channels[c := AfterSend(s.channels[c])], bells := s.bells[Slot(c) := 1])
  {
    var x := s.channels[c];
    var s1 := s.(channels := s.channels[c := x.(sender := Spinning(BYTE))]);
    var s2 := s.(channels := s.channels[c := x.(sender := Copying(BYTE, 0))]);
    var s3 := s.(channels := s.channels[c := x.(frame := x.frame[0 := 1], sender := Copying(BYTE, 1))]);
    var s4 := s.(channels := s.channels[c := AfterSend(x)], bells := s.bells[Slot(c) := 1]);
    run := [s, s1, s2, s3, s4];
    steps := [SendStart(c, BYTE), SendTry(c), SendByte(c), SendRing(c)];
    assert BYTE[..1] == BYTE && s.bells[Slot(c) := 0] == s.bells;
    assert Act(s, steps[0]) == s1;
    assert Act(s1, steps[1]) == s2;
    assert Act(s2, steps[2]) == s3;
    assert Act(s3, steps[3]) == s4;
  }

  lemma {:induction false} PollOne(s: System, d: nat) returns (run: seq<System>, steps: seq<Step>)
    requires |s.bells| == SW_SLOTS && d in s.channels && s.channels[d].receiver == Waiting && |s.channels[d].frame| == FRAME_SIZE
    requires s.bells[Slot(d)] == 1
    ensures RunFrom(run, steps) && run[0] == s && NoneCreated(steps)
    ensures run[|run| - 1] == s.(channels := s.channels[d := AfterPoll(s.channels[d])], bells := s.bells[Slot(d) := 0])
  {
    var y := s.channels[d];
    var s1 := s.(channels := s.channels[d := y.(receiver := Reading(1, []))]);
    var s2 := s.(channels := s.channels[d := y.(receiver := Reading(1, y.frame[..1]))]);
    var s3 := s.(channels := s.channels[d := AfterPoll(y)], bells := s.bells[Slot(d) := 0]);
    run := [s, s1, s2, s3];
    steps := [PollStart(d), PollByte(d), PollEnd(d)];
    var none: Msg := [];
    assert s.bells[Slot(d) := 1] == s.bells && none + [y.frame[0]] == y.frame[..1];
    assert Act(s, steps[0]) == s1;
    assert Act(s1, steps[1]) == s2;
    assert Act(s2, steps[2]) == s3;
  }

  /** Two idle channels on one slot: a byte sent on the first is received on the second, where nothing was sent. */
  lemma {:induction false} Misdelivered(s: System, c: nat, d: nat) returns (run: seq<System>, steps: seq<Step>)
    requires Quiet(s) && c in s.channels && d in s.channels && c != d && Slot(c) == Slot(d)
    ensures RunFrom(run, steps) && run[0] == s && NoneCreated(steps)
    ensures d in run[|run| - 1].channels && !InOrder(run[|run| - 1].channels[d])
  {
    hide RunFrom; hide NoneCreated;
    assert ChannelOk(s.channels[c], 0) && ChannelOk(s.channels[d], 0);
    var run1, steps1 := SendOne(s, c);
    var run2, steps2 := PollOne(run1[|run1| - 1], d);
    JoinRuns(run1, steps1, run2, steps2);
    run, steps := run1 + run2[1..], steps1 + steps2;
    RunSize(run1, steps1);
    RunSize(run2, steps2);
    NoneCreatedJoin(steps1, steps2);
    assert run[|run| - 1] == run2[|run2| - 1];
  }

  lemma {:induction false} RunSize(run: seq<System>, steps: seq<Step>)
    requires RunFrom(run, steps)
    ensures |run| == |steps| + 1
  {
  }

  lemma {:induction false} NoneCreatedJoin(a: seq<Step>, b: seq<Step>)
    requires NoneCreated(a) && NoneCreated(b)
    ensures NoneCreated(a + b)
  {
  }

  lemma {:induction false} OkInOrder(s: System)
    requires Ok(s)
    ensures AllInOrder(s)
  {
    forall cap | cap in s.channels ensures InOrder(s.channels[cap]) {
      assert ChannelOk(s.channels[cap], s.bells[Slot(cap)]);
    }
  }

  /** From a quiet state, every way of going on without new channels keeps every channel in order exactly when no two live
      channels share a doorbell slot. */
  lemma {:induction false} InOrderIffDistinct(s: System)
    requires Quiet(s)
    ensures StaysInOrder(s) <==> SlotsDistinct(s)
  {
    if SlotsDistinct(s) {
      forall run: seq<System>, steps: seq<Step> | RunFrom(run, steps) && run[0] == s && NoneCreated(steps)
        ensures AllInOrder(run[|run| - 1])
      {
        forall j | 0 <= j < |run| ensures SlotsDistinct(run[j]) { DistinctKept(run, steps, j); }
        RunOk(run, steps, |run| - 1);
        OkInOrder(run[|run| - 1]);
      }
    }
    if !SlotsDistinct(s) {
      var c, d :| c in s.channels && d in s.channels && Slot(c) == Slot(d) && c != d;
      var run, steps := Misdelivered(s, c, d);
      assert !AllInOrder(run[|run| - 1]);
    }
  }

  /** Sharing does come about: with 63 ids used up in between, the second channel gets id 65 and the slot of the first. */
  lemma {:induction false} SharingReachable(frame: Msg) returns (run: seq<System>, steps: seq<Step>)
    requires |frame| == FRAME_SIZE
    ensures ValidRun(run, steps)
    ensures var s := run[|run| - 1]; Quiet(s) && 1 in s.channels && 65 in s.channels && Slot(1) == Slot(65)
    ensures !StaysInOrder(run[|run| - 1])
  {
    var ch := Channel(frame, Idle, Waiting, [], []);
    var middle := seq(64, k requires 0 <= k < 64 => System(map[1 := ch], NoBells(), 2 + k));
    var last := System(map[1 := ch, 65 := ch], NoBells(), 66);
    run := [Boot] + middle + [last];
    steps := [Create(frame)] + seq(63, _ => TakeId) + [Create(frame)];
    assert NoBells()[1 := 0] == NoBells();
    assert map[1 := ch][65 := ch] == last.channels;
    forall k | 0 <= k < |steps|
      ensures |run[k].bells| == SW_SLOTS && Enabled(run[k], steps[k]) && run[k + 1] == Act(run[k], steps[k])
    {
      if k == 0 {
        assert run[1] == middle[0];
      } else if k < 64 {
        assert run[k] == middle[k - 1] && run[k + 1] == middle[k] && steps[k] == TakeId;
      } else {
        assert run[64] == middle[63] && run[65] == last && steps[64] == Create(frame);
      }
    }
    assert !SlotsDistinct(last) by { assert 1 in last.channels && 65 in last.channels; }
    InOrderIffDistinct(last);
  }
}
