/**
  Where the accepted bytes are: in the send buffer, in an unacknowledged packet, or already
  with the receiver. The account holds on runs that never have 2^15 packets outstanding and
  deliver no ack older than 2^15 packets.
*/
module UtpFlight {
  import opened Common
  import opened UtpStep
  import opened UtpPair

  /** Payload bytes of the unacknowledged packets with a key below `n`. */
  function Load(m: Window, n: nat): nat
    requires n <= 0x10000
  {
    if n == 0 then 0 else Load(m, n - 1) + if n - 1 in m then m[n - 1].payloadLen else 0
  }

  function Total(m: Window): nat {
    Load(m, 0x10000)
  }

  /** Fewer than 2^15 numbers lie between the oldest unacknowledged packet and the next one. */
  predicate Narrow(tx: Tx) {
    forall k :: k in tx.unacked ==> 1 <= Wrap(tx.nextSeq - k) < 0x8000
  }

  ghost predicate Accounted(tx: Tx) {
    && tx.inFlight == Total(tx.unacked) <= MAX_WINDOW
    && tx.cwnd <= MAX_WINDOW
    && forall k :: k in tx.unacked ==> tx.unacked[k].payloadLen == |tx.unacked[k].packet.payload|
  }

  /** Packet number `i` waits for its ack under its own sequence number. */
  ghost predicate Held(tx: Tx, c: Chan, i: nat)
    requires i < |c.hist|
  {
    c.hist[i].Some? ==>
      && |c.hist| - i < 0x8000
      && SeqOf(c, i) in tx.unacked
      && tx.unacked[SeqOf(c, i)].packet.payload == c.hist[i].value
  }

  /** Every packet the receiver still lacks is held. */
  ghost predicate Conserved(tx: Tx, c: Chan) {
    forall i :: c.got <= i < |c.hist| ==> Held(tx, c, i)
  }

  ghost predicate FlightOk(tx: Tx, c: Chan, net: set<Flying>) {
    Accounted(tx) && Narrow(tx) && Conserved(tx, c) && Known(tx, net)
  }

  ghost predicate Full(p: Pair) {
    && Aligned(p)
    && FlightOk(p.a.tx, p.ab, p.abNet)
    && FlightOk(p.b.tx, p.ba, p.baNet)
  }

  // ----- sums over the window

  lemma {:induction false} LoadPut(m: Window, k: u16, u: Unacked, n: nat)
    requires n <= 0x10000
    ensures Load(m[k := u], n) == Load(m - {k}, n) + if k < n then u.payloadLen else 0
  {
    if n > 0 {
      LoadPut(m, k, u, n - 1);
    }
  }

  lemma {:induction false} LoadSame(m: Window, m': Window, n: nat)
    requires n <= 0x10000
    requires m.Keys == m'.Keys && forall k :: k in m ==> m[k].payloadLen == m'[k].payloadLen
    ensures Load(m, n) == Load(m', n)
  {
    if n > 0 {
      LoadSame(m, m', n - 1);
    }
  }

  lemma TotalPut(m: Window, k: u16, u: Unacked)
    requires k !in m
    ensures Total(m[k := u]) == Total(m) + u.payloadLen
  {
    LoadPut(m, k, u, 0x10000);
    assert m - {k} == m;
  }

  lemma TotalDrop(m: Window, k: u16)
    requires k in m
    ensures Total(m - {k}) == Total(m) - m[k].payloadLen
  {
    LoadPut(m, k, m[k], 0x10000);
    assert m[k := m[k]] == m;
  }

  /** Freeing packets keeps the in-flight counter exact, so its saturating subtraction never saturates. */
  lemma {:induction false} FreeKeepsTotal(tx: Tx, ack: u16, n: nat)
    requires n <= 0x10000 && tx.inFlight == Total(tx.unacked)
    ensures var t := FreeBelow(tx, ack, n);
      t.inFlight == Total(t.unacked) <= tx.inFlight
  {
    hide Total, SeqLe;
    if n > 0 {
      FreeKeepsTotal(tx, ack, n - 1);
      var t := FreeBelow(tx, ack, n - 1);
      if n - 1 in t.unacked && SeqLe(n - 1, ack) {
        TotalDrop(t.unacked, n - 1);
      }
    }
  }

  // ----- acks

  /** An ack delivered within 2^15 packets of the sender's next number. */
  predicate FreshAck(c: Chan, ackNum: int) {
    |c.hist| - ackNum <= 0x8000
  }

  /** The cumulative ack covers a packet the receiver lacks exactly when it is 2^15 packets old or older. */
  lemma AckIsExact(c: Chan, ackNum: nat, i: nat)
    requires ackNum <= i < ackNum + 0x10000
    ensures SeqLe(SeqOf(c, i), SeqOf(c, ackNum - 1)) <==> i >= ackNum + 0x8000
  {
    assert Wrap(SeqOf(c, ackNum - 1) - SeqOf(c, i)) == Wrap(ackNum - 1 - i);
  }

  lemma AckConserves(s: Sock, c: Chan, net: set<Flying>, ackNum: nat, wnd: nat, ledbat: Option<int>)
    requires FlightOk(s.tx, c, net) && ackNum <= c.got && FreshAck(c, ackNum)
    ensures FlightOk(OnAck(s, SeqOf(c, ackNum - 1), wnd, ledbat).tx, c, net)
  {
    hide Total, SeqLe, Wrap, FreeBelow;
    var ack := SeqOf(c, ackNum - 1);
    FreeBelowFrame(s.tx, ack, 0x10000);
    FreeKeepsTotal(s.tx, ack, 0x10000);
    var tx := OnAck(s, ack, wnd, ledbat).tx;
    forall i | c.got <= i < |c.hist|
      ensures Held(tx, c, i)
    {
      assert Held(s.tx, c, i);
      AckIsExact(c, ackNum, i);
    }
  }

  // ----- sending

  /** The distance of a held packet from the next number, in numbers and on the circle. */
  lemma Distance(c: Chan, i: nat)
    requires i < |c.hist| && |c.hist| - i <= 0x8000
    ensures Wrap(SeqOf(c, |c.hist|) - SeqOf(c, i)) == |c.hist| - i
  {
  }

  /** Using up one number without a payload. */
  lemma SkipConserves(tx: Tx, tx': Tx, c: Chan, c': Chan, net: set<Flying>)
    requires FlightOk(tx, c, net) && tx.nextSeq == SeqOf(c, |c.hist|)
    requires c' == c.(hist := c.hist + [None])
    requires tx' == tx.(nextSeq := SeqOf(c', |c'.hist|)) && Narrow(tx')
    ensures FlightOk(tx', c', net)
  {
    hide Total, Wrap;
    forall i | c'.got <= i < |c'.hist|
      ensures Held(tx', c', i)
    {
      if i < |c.hist| && c.hist[i].Some? {
        assert Held(tx, c, i);
        Distance(c', i);
      }
    }
  }

  /** Sending one payload under a number that is not in use. */
  lemma PutConserves(tx: Tx, tx': Tx, c: Chan, c': Chan, net: set<Flying>, u: Unacked, f: Flying)
    requires FlightOk(tx, c, net) && tx.nextSeq == SeqOf(c, |c.hist|)
    requires c' == c.(hist := c.hist + [Some(u.packet.payload)])
    requires u.payloadLen == |u.packet.payload| && f.pkt == u.packet
    requires tx.inFlight + u.payloadLen <= MAX_WINDOW
    requires tx'.nextSeq == SeqOf(c', |c'.hist|) && tx'.cwnd == tx.cwnd
    requires tx'.unacked == tx.unacked[tx.nextSeq := u] && tx'.inFlight == tx.inFlight + u.payloadLen
    requires Narrow(tx')
    ensures FlightOk(tx', c', net + {f})
  {
    var n := |c.hist|;
    assert tx.nextSeq !in tx.unacked by {
      assert Wrap(tx.nextSeq - tx.nextSeq) == 0;
    }
    hide Total, Wrap;
    TotalPut(tx.unacked, tx.nextSeq, u);
    assert tx.nextSeq == SeqOf(c', n);
    forall i | c'.got <= i < |c'.hist|
      ensures Held(tx', c', i)
    {
      if i == n {
        assert SeqOf(c', i) in tx'.unacked;
      } else if c.hist[i].Some? {
        assert Held(tx, c, i);
        assert SeqOf(c', i) in tx'.unacked;
        Distance(c', i);
      }
    }
    KnownGrows(tx, tx', net, f, u);
  }

  lemma SendConserves(p: Pair, ok: bool)
    requires Aligned(p) && FlightOk(p.a.tx, p.ab, p.abNet) && CanTransmit(p.a)
    requires Narrow(PairSend(p, ok).a.tx)
    ensures FlightOk(PairSend(p, ok).a.tx, PairSend(p, ok).ab, PairSend(p, ok).abNet)
  {
    hide Total, Wrap, Aligned, Narrow, Known, Conserved;
    SafeNumbers(p);
    NextSeqOf(p.ab, |p.ab.hist|);
    var q := PairSend(p, ok);
    var chunk := Chunk(p.a);
    if ok {
      PutConserves(p.a.tx, q.a.tx, p.ab, q.ab, p.abNet, Unacked(DataPacket(p.a), |chunk|, 0),
                   Flying(DataPacket(p.a), |p.ab.hist|, p.ba.got));
    } else {
      SkipConserves(p.a.tx, q.a.tx, p.ab, q.ab, p.abNet);
    }
  }

  // ----- the other steps

  /** A receiver that has more leaves less to hold. */
  lemma GotConserves(tx: Tx, c: Chan, c': Chan, net: set<Flying>)
    requires FlightOk(tx, c, net)
    requires c'.base == c.base && c'.hist == c.hist && c.got <= c'.got
    ensures FlightOk(tx, c', net)
  {
    forall i | c'.got <= i < |c'.hist|
      ensures Held(tx, c', i)
    {
      assert Held(tx, c, i);
    }
  }

  lemma NetConserves(tx: Tx, c: Chan, net: set<Flying>, net': set<Flying>)
    requires FlightOk(tx, c, net) && net <= net'
    ensures FlightOk(tx, c, net')
  {
  }

  lemma ResendConserves(s: Sock, expired: seq<u16>, c: Chan, net: set<Flying>)
    requires FlightOk(s.tx, c, net)
    ensures FlightOk(Resend(s, expired).tx, c, net)
  {
    hide Load, Wrap, Resend;
    ResendFrame(s, expired);
    var s' := Resend(s, expired);
    LoadSame(s.tx.unacked, s'.tx.unacked, 0x10000);
    forall i | c.got <= i < |c.hist|
      ensures Held(s'.tx, c, i)
    {
      assert Held(s.tx, c, i);
    }
  }

  // ----- whole runs

  /** The step delivers no stale ack and leaves both ends with fewer than 2^15 packets outstanding. */
  predicate TameOp(p: Pair, op: Op) {
    && (op.DoReceive? ==> FreshAck(p.ab, op.f.ackNum))
    && Narrow(Apply(p, op).a.tx)
  }

  predicate Tame(p: Pair, act: Action) {
    TameOp(if act.side.SideA? then p else Swap(p), act.op)
  }

  predicate TameRun(p: Pair, acts: seq<Action>)
    decreases |acts|
  {
    acts == [] || (CanStep(p, acts[0]) && Tame(p, acts[0]) && TameRun(Step(p, acts[0]), acts[1..]))
  }

  lemma FinConserves(p: Pair, ok: bool)
    requires Aligned(p) && FlightOk(p.a.tx, p.ab, p.abNet) && Narrow(PairFin(p, ok).a.tx)
    ensures FlightOk(PairFin(p, ok).a.tx, PairFin(p, ok).ab, PairFin(p, ok).abNet)
  {
    hide Total, Wrap, Aligned, Narrow, Known, Conserved, FlightOk;
    if !p.a.finSent && p.a.life.FinSent? {
      SafeNumbers(p);
      NextSeqOf(p.ab, |p.ab.hist|);
      var q := PairFin(p, ok);
      SkipConserves(p.a.tx, q.a.tx, p.ab, q.ab, p.abNet);
      NetConserves(q.a.tx, q.ab, p.abNet, q.abNet);
    }
  }

  lemma ReceiveConserves(p: Pair, f: Flying, ledbat: Option<int>)
    requires Full(p) && f in p.baNet && FreshAck(p.ab, f.ackNum)
    ensures var q := PairReceive(p, f, ledbat);
      FlightOk(q.a.tx, q.ab, q.abNet) && FlightOk(q.b.tx, q.ba, q.baNet)
  {
    hide ChanOk, FlightOk, OnAck, OnData, Wrap;
    assert FlyingOk(f, p.ba, p.ab);
    AckConserves(p.a, p.ab, p.abNet, f.ackNum, f.pkt.wnd, ledbat);
    OnDataFrame(OnAck(p.a, f.pkt.ackNr, f.pkt.wnd, ledbat), f.pkt.seqNr, f.pkt.payload);
    GotConserves(p.b.tx, p.ba, PairReceive(p, f, ledbat).ba, p.baNet);
  }

  lemma TickConserves(p: Pair, expired: seq<u16>, delayed: bool, ok: bool)
    requires Full(p)
    ensures var q := PairTick(p, expired, delayed, ok);
      FlightOk(q.a.tx, q.ab, q.abNet) && FlightOk(q.b.tx, q.ba, q.baNet)
  {
    hide FlightOk, Aligned;
    ResendConserves(p.a, expired, p.ab, p.abNet);
    var q := PairTick(p, expired, delayed, ok);
    NetConserves(q.a.tx, p.ab, p.abNet, q.abNet);
  }

  lemma ApplyConserves(p: Pair, op: Op)
    requires Full(p) && Enabled(p, op) && TameOp(p, op)
    ensures Full(Apply(p, op))
  {
    hide Aligned, Accounted, Narrow, Known, Timely;
    ApplyKeeps(p, op);
    var q := Apply(p, op);
    match op
    case DoAccept(data) =>
      GotConserves(p.a.tx, p.ab, q.ab, p.abNet);
      SendBufFrame(p.a.tx, q.a.tx, q.ab, p.abNet);
    case DoSend(ok) => if CanTransmit(p.a) { SendConserves(p, ok); }
    case DoAck(ok) => NetConserves(p.a.tx, p.ab, p.abNet, q.abNet);
    case DoTick(expired, delayed, ok) => TickConserves(p, expired, delayed, ok);
    case DoReceive(f, ledbat) => ReceiveConserves(p, f, ledbat);
    case DoSpoof(pkt) =>
    case DoRead(room) => GotConserves(p.b.tx, p.ba, q.ba, p.baNet);
    case DoClose =>
    case DoFin(ok) => FinConserves(p, ok);
    case DoIdle =>
  }

  lemma SendBufFrame(tx: Tx, tx': Tx, c: Chan, net: set<Flying>)
    requires FlightOk(tx, c, net) && tx' == tx.(sendBuf := tx'.sendBuf)
    ensures FlightOk(tx', c, net)
  {
    forall i | c.got <= i < |c.hist|
      ensures Held(tx', c, i)
    {
      assert Held(tx, c, i);
    }
  }

  lemma StepConserves(p: Pair, act: Action)
    requires Full(p) && CanStep(p, act) && Tame(p, act)
    ensures Full(Step(p, act))
  {
    hide ChanOk, NetOk, FlightOk, Apply, Enabled, TameOp;
    if act.side.SideA? {
      ApplyConserves(p, act.op);
    } else {
      assert Full(Swap(p));
      ApplyConserves(Swap(p), act.op);
    }
  }

  lemma {:induction false} RunConserves(p: Pair, acts: seq<Action>)
    requires Full(p) && TameRun(p, acts)
    ensures Full(Run(p, acts))
    decreases |acts|
  {
    hide Full, Step, CanStep, Tame;
    if acts != [] {
      StepConserves(p, acts[0]);
      RunConserves(Step(p, acts[0]), acts[1..]);
    }
  }

  lemma {:induction false} ConcatSplit(hist: seq<Option<Bytes>>, n: nat)
    requires n <= |hist|
    ensures Concat(hist) == Concat(hist[..n]) + Concat(hist[n..])
    decreases |hist|
  {
    if n == |hist| {
      assert hist[..n] == hist;
    } else {
      var front, last := hist[..|hist| - 1], hist[|hist| - 1];
      assert Concat(hist) == Concat(front) + Payload(last);
      hide Payload, Concat;
      ConcatSplit(front, n);
      assert front[..n] == hist[..n];
      assert hist[n..] == front[n..] + [last];
      ConcatSnoc(front[n..], last);
      Regroup(Concat(front[..n]), Concat(front[n..]), Payload(last));
    }
  }

  /** What one direction looks like: the stream is the received part, the outstanding packets, the queue. */
  ghost predicate Placed(tx: Tx, rx: Rx, c: Chan) {
    && c.got <= |c.hist|
    && c.accepted == Reassembled(rx, c) + Concat(c.hist[c.got..]) + tx.sendBuf
    && (forall i :: c.got <= i < |c.hist| && c.hist[i].Some? ==>
          SeqOf(c, i) in tx.unacked && tx.unacked[SeqOf(c, i)].packet.payload == c.hist[i].value)
    && tx.inFlight == Total(tx.unacked) <= MAX_WINDOW
  }

  lemma FullPlaces(tx: Tx, rx: Rx, c: Chan, net: set<Flying>)
    requires ChanOk(tx, rx, c) && FlightOk(tx, c, net)
    ensures Placed(tx, rx, c)
  {
    hide Wrap, Total;
    ConcatSplit(c.hist, c.got);
    forall i | c.got <= i < |c.hist| && c.hist[i].Some?
      ensures SeqOf(c, i) in tx.unacked && tx.unacked[SeqOf(c, i)].packet.payload == c.hist[i].value
    {
      assert Held(tx, c, i);
    }
  }

  /** No byte handed over is ever lost by a fresh pair on a tame run, and the in-flight count is exact and bounded. */
  lemma NothingIsLost(p: Pair, acts: seq<Action>)
    requires Fresh(p) && TameRun(p, acts)
    ensures var q := Run(p, acts);
      Placed(q.a.tx, q.b.rx, q.ab) && Placed(q.b.tx, q.a.rx, q.ba)
  {
    hide Run, TameRun, ChanOk, FlightOk, Placed;
    FreshIsFull(p);
    RunConserves(p, acts);
    var q := Run(p, acts);
    FullPlaces(q.a.tx, q.b.rx, q.ab, q.abNet);
    FullPlaces(q.b.tx, q.a.rx, q.ba, q.baNet);
  }

  lemma {:induction false} LoadEmpty(n: nat)
    requires n <= 0x10000
    ensures Load(map[], n) == 0
  {
    if n > 0 {
      LoadEmpty(n - 1);
    }
  }

  lemma FreshIsFull(p: Pair)
    requires Fresh(p)
    ensures Full(p)
  {
    FreshIsAligned(p);
    LoadEmpty(0x10000);
  }
}
