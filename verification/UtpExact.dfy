/**
  How far a stream comes, exactly: to the first packet number that was never delivered. A send the
  host refuses uses up a number that never will be, so the stream ends there for good.
*/
module UtpExact {
  import opened Common
  import opened UtpStep
  import opened UtpPair
  import opened UtpArrival

  // ----- nothing is there that was not delivered

  ghost predicate OnlyThese(rx: Rx, c: Chan, nums: set<nat>) {
    forall num: nat :: Here(rx, c, num) ==> num in nums
  }

  lemma AdvanceOnly(rx: Rx, c: Chan, rx': Rx, num: nat)
    requires rx'.oob == rx.oob - {SeqOf(c, c.got)} && Here(rx', c.(got := c.got + 1), num)
    ensures Here(rx, c, num) || num == c.got
  {
    if num > c.got {
      SlotStays(c, SeqOf(c, num));
    }
    hide Wrap;
  }

  lemma {:induction false} DrainOnly(tx: Tx, rx: Rx, c: Chan, num: nat)
    requires ChanOk(tx, rx, c) && Here(Drain(rx), c.(got := c.got + DrainCount(rx)), num)
    ensures Here(rx, c, num)
    decreases |rx.oob|
  {
    hide Wrap, ChanOk, Here;
    var next := Wrap(rx.ackNr + 1);
    if next in rx.oob {
      var rx' := Rx(next, rx.recvBuf + rx.oob[next], rx.oob - {next});
      var c' := c.(got := c.got + 1);
      HeldIsNext(tx, rx, c);
      AdvanceOne(tx, rx, c, rx');
      NextIs(tx, rx, c);
      assert c.(got := c.got + DrainCount(rx)) == c'.(got := c'.got + DrainCount(rx'));
      DrainOnly(tx, rx', c', num);
      AdvanceOnly(rx, c, rx', num);
      HeldIsHere(rx, c);
    } else {
      assert c.(got := c.got + 0) == c;
    }
  }

  lemma HeldIsHere(rx: Rx, c: Chan)
    requires SeqOf(c, c.got) in rx.oob
    ensures Here(rx, c, c.got)
  {
    SlotOfNumber(c, c.got);
  }

  /** A delivery adds its own packet at most. */
  lemma DataOnly(s: Sock, tx: Tx, c: Chan, num: nat, payload: Bytes, other: nat)
    requires ChanOk(tx, s.rx, c) && Drained(s.rx)
    requires num < |c.hist| && c.hist[num] == Some(payload) && Timely(c, num)
    requires var seqNr := SeqOf(c, num);
      Here(OnData(s, seqNr, payload).rx, c.(got := c.got + Absorbed(s, seqNr, payload)), other)
    ensures Here(s.rx, c, other) || other == num
  {
    hide Wrap, Drain, DrainCount, ChanOk, SeqLe;
    var seqNr := SeqOf(c, num);
    assert c.(got := c.got + 0) == c;
    TimelyIsExact(c, num);
    if Takes(s, seqNr, payload) && InOrder(s.rx, seqNr) {
      InOrderIsNext(s, tx, c, num, payload);
      AppendOnly(tx, s.rx, c, payload, other);
    } else if Takes(s, seqNr, payload) {
      AheadIsItself(s, tx, c, num, payload);
    }
  }

  lemma AheadIsItself(s: Sock, tx: Tx, c: Chan, num: nat, payload: Bytes)
    requires ChanOk(tx, s.rx, c) && num < |c.hist| && Timely(c, num) && Takes(s, SeqOf(c, num), payload)
    ensures Slot(c, SeqOf(c, num)) == num
  {
    TimelyIsExact(c, num);
    if num >= c.got {
      SlotOfNumber(c, num);
    }
    hide Wrap;
  }

  lemma AppendOnly(tx: Tx, rx: Rx, c: Chan, payload: Bytes, num: nat)
    requires ChanOk(tx, rx, c) && Drained(rx) && c.got < |c.hist| && c.hist[c.got] == Some(payload)
    requires var rx' := Append(rx, SeqOf(c, c.got), payload);
      Here(Drain(rx'), c.(got := c.got + 1 + DrainCount(rx')), num)
    ensures Here(rx, c, num) || num == c.got
  {
    NextIs(tx, rx, c);
    var rx' := Append(rx, SeqOf(c, c.got), payload);
    var c' := c.(got := c.got + 1);
    assert rx'.oob == rx.oob - {SeqOf(c, c.got)};
    AdvanceOne(tx, rx, c, rx');
    hide Wrap, ChanOk, Drain, DrainCount, Here;
    assert c'.(got := c'.got + DrainCount(rx')) == c.(got := c.got + 1 + DrainCount(rx'));
    DrainOnly(tx, rx', c', num);
    AdvanceOnly(rx, c, rx', num);
  }

  // ----- steps and runs

  lemma DeliveryOnly(p: Pair, f: Flying, ledbat: Option<int>, nums: set<nat>)
    requires Aligned(p) && f in p.baNet && f.pkt.kind.Data? && Timely(p.ba, f.num) && OnlyThese(p.a.rx, p.ba, nums)
    ensures var q := PairReceive(p, f, ledbat); OnlyThese(q.a.rx, q.ba, nums + {f.num})
  {
    hide OnAck, OnData, Absorbed, ChanOk, Wrap, Here, Drained, Timely;
    OnAckFrame(p.a, f.pkt.ackNr, f.pkt.wnd, ledbat);
    assert FlyingOk(f, p.ba, p.ab);
    var s := OnAck(p.a, f.pkt.ackNr, f.pkt.wnd, ledbat);
    var q := PairReceive(p, f, ledbat);
    forall num: nat | Here(q.a.rx, q.ba, num)
      ensures num in nums + {f.num}
    {
      DataOnly(s, p.b.tx, p.ba, f.num, f.pkt.payload, num);
    }
  }

  lemma OwnOnly(p: Pair, op: Op, nums: set<nat>)
    requires Aligned(p) && Enabled(p, op) && OnlyThese(p.a.rx, p.ba, nums)
    ensures var q := Apply(p, op); OnlyThese(q.a.rx, q.ba, nums + New(op))
  {
    hide Apply, Aligned, Here, Timely, OnlyThese;
    if IsDelivery(op) {
      DeliveryIs(p, op);
      DeliveryOnly(p, op.f, op.ledbat, nums);
    } else {
      OtherOps(p, op);
      var q := Apply(p, op);
      SameOnly(p.a.rx, p.ba, q.a.rx, q.ba, nums);
      assert nums + {} == nums;
    }
  }

  lemma SameOnly(rx: Rx, c: Chan, rx': Rx, c': Chan, nums: set<nat>)
    requires OnlyThese(rx, c, nums) && rx'.oob == rx.oob && c'.got == c.got && c'.base == c.base
    ensures OnlyThese(rx', c', nums)
  {
    forall num: nat | Here(rx', c', num)
      ensures num in nums
    {
      assert Here(rx, c, num);
    }
  }

  lemma StepOnly(side: Side, p: Pair, act: Action, nums: set<nat>)
    requires Safe(p) && CanStep(p, act) && OnlyThese(Facing(p, side).a.rx, Facing(p, side).ba, nums)
    ensures var q := Facing(Step(p, act), side);
      OnlyThese(q.a.rx, q.ba, nums + if act.side == side then New(act.op) else {})
  {
    hide Apply, OnlyThese, Enabled, ChanOk, NetOk, Known;
    var v := Facing(p, side);
    if act.side == side {
      assert Aligned(v);
      OwnOnly(v, act.op, nums);
      assert Facing(Step(p, act), side) == Apply(v, act.op);
    } else {
      OtherFrame(v, act.op);
      var q := Swap(Apply(Swap(v), act.op));
      SameOnly(v.a.rx, v.ba, q.a.rx, q.ba, nums);
      assert Facing(Step(p, act), side) == q;
      assert nums + {} == nums;
    }
  }

  lemma {:induction false} RunOnly(side: Side, p: Pair, acts: seq<Action>, nums: set<nat>)
    requires Safe(p) && CanRun(p, acts) && OnlyThese(Facing(p, side).a.rx, Facing(p, side).ba, nums)
    ensures var q := Facing(Run(p, acts), side); OnlyThese(q.a.rx, q.ba, nums + Deliveries(side, acts))
    decreases |acts|
  {
    hide Safe, Step, CanStep, OnlyThese, Facing;
    if acts == [] {
      assert nums + {} == nums;
    } else {
      var more := if acts[0].side == side then New(acts[0].op) else {};
      StepKeeps(p, acts[0]);
      StepOnly(side, p, acts[0], nums);
      RunOnly(side, Step(p, acts[0]), acts[1..], nums + more);
      assert nums + more + Deliveries(side, acts[1..]) == nums + Deliveries(side, acts);
    }
  }

  lemma FreshHasNothing(p: Pair, side: Side)
    requires Fresh(p)
    ensures OnlyThese(Facing(p, side).a.rx, Facing(p, side).ba, {})
  {
  }

  /**
    On every run whose deliveries to one side find room, its stream has come to number n if and
    only if every number below n has been delivered to it: it stands at the first one missing.
  */
  lemma StreamIsExact(side: Side, p: Pair, acts: seq<Action>, n: nat)
    requires Fresh(p) && CanRun(p, acts) && WelcomeRun(side, p, acts)
    ensures n <= Facing(Run(p, acts), side).ba.got <==> forall i: nat :: i < n ==> i in Deliveries(side, acts)
  {
    hide Run, CanRun, WelcomeRun, Deliveries, ChanOk, NetOk, Known, Fresh, Concat;
    FreshIsAligned(p);
    FreshIsKnown(p);
    FreshHasNothing(p, side);
    RunOnly(side, p, acts, {});
    assert {} + Deliveries(side, acts) == Deliveries(side, acts);
    var q := Facing(Run(p, acts), side);
    assert forall i: nat :: i < q.ba.got ==> Here(q.a.rx, q.ba, i);
    if forall i: nat :: i < n ==> i in Deliveries(side, acts) {
      DeliveredArrives(side, p, acts, n);
    }
  }

  // ----- numbers used up in vain

  lemma ApplyKeepsHistory(p: Pair, op: Op)
    ensures p.ab.hist <= Apply(p, op).ab.hist && p.ba.hist == Apply(p, op).ba.hist
  {
    hide OnAck, OnData, OnPacket, Resend, Absorbed, Wrap, Build, AdvertisedWindow;
  }

  lemma {:induction false} HistoryGrows(p: Pair, acts: seq<Action>)
    ensures p.ab.hist <= Run(p, acts).ab.hist && p.ba.hist <= Run(p, acts).ba.hist
    decreases |acts|
  {
    hide Apply;
    if acts != [] {
      ApplyKeepsHistory(p, acts[0].op);
      ApplyKeepsHistory(Swap(p), acts[0].op);
      HistoryGrows(Step(p, acts[0]), acts[1..]);
    }
  }

  /** A number without a payload stops the stream, whatever happens afterwards. */
  lemma HoleStops(p: Pair, acts: seq<Action>, i: nat)
    requires Safe(p) && CanRun(p, acts) && i < |p.ab.hist| && p.ab.hist[i].None?
    ensures var q := Run(p, acts); q.ab.got <= i && Reassembled(q.b.rx, q.ab) <= Concat(p.ab.hist[..i])
  {
    RunKeeps(p, acts);
    HistoryGrows(p, acts);
    hide Run, CanRun, Concat, Known, NetOk, OobOk;
    var q := Run(p, acts);
    assert q.ab.hist[i] == p.ab.hist[i];
    assert q.ab.got <= i;
    var whole := p.ab.hist[..i];
    assert whole == q.ab.hist[..i];
    ConcatPrefix(whole, q.ab.got);
    assert whole[..q.ab.got] == q.ab.hist[..q.ab.got];
  }

  /**
    When the host refuses one data packet, its chunk goes back to the queue but its number is used
    up: on no run from there on does a byte of that queue reach the other end.
  */
  lemma RefusedSendStrands(p: Pair, acts: seq<Action>)
    requires Safe(p) && CanTransmit(p.a)
    requires CanRun(Apply(p, DoSend(false)), acts)
    ensures var q := Run(Apply(p, DoSend(false)), acts);
      Reassembled(q.b.rx, q.ab) <= Concat(p.ab.hist) && p.ab.accepted == Concat(p.ab.hist) + p.a.tx.sendBuf
  {
    hide Run, CanRun, Concat, CanTransmit, Known, NetOk, OobOk;
    var act := Action(SideA, DoSend(false));
    StepKeeps(p, act);
    var r := Apply(p, DoSend(false));
    RefusedIs(p);
    HoleStops(r, acts, |p.ab.hist|);
    assert r.ab.hist[..|p.ab.hist|] == p.ab.hist;
  }

  lemma RefusedIs(p: Pair)
    requires CanTransmit(p.a)
    ensures Apply(p, DoSend(false)).ab.hist == p.ab.hist + [None]
    ensures Apply(p, DoSend(false)).a.tx.sendBuf == p.a.tx.sendBuf
  {
    hide CanTransmit;
  }
}
