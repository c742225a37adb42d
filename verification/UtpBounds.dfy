/**
  What a connection can hold: neither window is overrun by a transmit, and on every run the receiver's
  buffers stay below a fixed size, however fast the other end sends and however slowly the session reads.
*/
module UtpBounds {
  import opened Common
  import opened UtpStep
  import opened UtpPair

  // ----- sending

  /** A transmit goes up to the smaller of the two windows, and sends only on an open connection. */
  lemma {:induction false} TransmitStaysInWindow(s: Sock, verdicts: seq<bool>)
    ensures var t := Transmit(s, verdicts).tx;
      t.inFlight == s.tx.inFlight || t.inFlight <= Min(s.tx.cwnd, s.tx.peerWnd)
    ensures s.life != Connected || s.finSent ==> Transmit(s, verdicts) == s && Transmitted(s, verdicts) == []
    decreases |s.tx.sendBuf|
  {
    hide Build, Wrap;
    if CanTransmit(s) && Verdict(verdicts) {
      assert |Chunk(s)| <= MAX_PAYLOAD;
      TransmitStaysInWindow(TransmitOne(s, true), Later(verdicts));
    }
  }

  // ----- receiving

  /** A full buffer, the packet that tipped it over, and all that was held back behind it. */
  const MOST := RECV_WINDOW + MAX_PAYLOAD * (1 + OOB_CAP)

  ghost predicate SmallOnes(oob: map<u16, Bytes>) {
    |oob| <= OOB_CAP && forall k :: k in oob ==> |oob[k]| <= MAX_PAYLOAD
  }

  ghost predicate Bounded(rx: Rx) {
    |rx.recvBuf| <= MOST && SmallOnes(rx.oob)
  }

  lemma SmallWithout(oob: map<u16, Bytes>, k: u16)
    requires SmallOnes(oob) && k in oob
    ensures SmallOnes(oob - {k}) && |oob - {k}| == |oob| - 1
  {
    assert (oob - {k}).Keys == oob.Keys - {k};
    assert |oob.Keys - {k}| == |oob.Keys| - 1;
  }

  lemma {:induction false} DrainIsBounded(rx: Rx)
    requires SmallOnes(rx.oob)
    ensures |Drain(rx).recvBuf| + MAX_PAYLOAD * |Drain(rx).oob| <= |rx.recvBuf| + MAX_PAYLOAD * |rx.oob|
    ensures SmallOnes(Drain(rx).oob)
    decreases |rx.oob|
  {
    hide Wrap;
    var next := Wrap(rx.ackNr + 1);
    if next in rx.oob {
      var rx' := Rx(next, rx.recvBuf + rx.oob[next], rx.oob - {next});
      assert Drain(rx) == Drain(rx');
      assert |rx.oob[next]| <= MAX_PAYLOAD;
      hide SmallOnes, Drain;
      SmallWithout(rx.oob, next);
      DrainIsBounded(rx');
    }
  }

  lemma SmallWith(oob: map<u16, Bytes>, k: u16, payload: Bytes)
    requires SmallOnes(oob) && |payload| <= MAX_PAYLOAD && |oob| < OOB_CAP
    ensures SmallOnes(oob[k := payload])
  {
    assert oob[k := payload].Keys == oob.Keys + {k};
    assert |oob.Keys + {k}| <= |oob.Keys| + 1;
  }

  lemma DataIsBounded(s: Sock, seqNr: u16, payload: Bytes)
    requires Bounded(s.rx) && |payload| <= MAX_PAYLOAD
    ensures Bounded(OnData(s, seqNr, payload).rx)
  {
    hide Drain, Wrap, SeqLe, InOrder;
    if Takes(s, seqNr, payload) {
      if InOrder(s.rx, seqNr) {
        DrainIsBounded(Append(s.rx, seqNr, payload));
      } else if |s.rx.oob| < OOB_CAP {
        hide SmallOnes;
        SmallWith(s.rx.oob, seqNr, payload);
      }
    }
  }

  // ----- runs

  ghost predicate SmallPackets(c: Chan) {
    forall i :: 0 <= i < |c.hist| && c.hist[i].Some? ==> |c.hist[i].value| <= MAX_PAYLOAD
  }

  ghost predicate Within(p: Pair) {
    Bounded(p.a.rx) && Bounded(p.b.rx) && SmallPackets(p.ab) && SmallPackets(p.ba)
  }

  lemma ApplyFrame(p: Pair, op: Op)
    ensures var q := Apply(p, op); q.b == p.b && q.ba.hist == p.ba.hist && (SmallPackets(p.ab) ==> SmallPackets(q.ab))
  {
    hide OnAck, OnData, OnPacket, Resend, Absorbed, Wrap, Build, AdvertisedWindow;
    if op.DoSend? && CanTransmit(p.a) {
      assert |Chunk(p.a)| <= MAX_PAYLOAD;
    }
  }

  /** What an end has received changes only when it takes data in or its session reads. */
  lemma ReceiveFrame(p: Pair, op: Op)
    requires Enabled(p, op) && !op.DoRead? && !(op.DoReceive? && op.f.pkt.kind.Data?)
    ensures Apply(p, op).a.rx == p.a.rx
  {
    hide OnAck, Resend, Wrap, CanTransmit, Build;
    if op.DoReceive? {
      OnAckFrame(p.a, op.f.pkt.ackNr, op.f.pkt.wnd, op.ledbat);
    }
    if op.DoTick? {
      ResendFrame(p.a, op.expired);
    }
  }

  lemma DeliveryIsBounded(p: Pair, f: Flying, ledbat: Option<int>)
    requires NetOk(p.baNet, p.ba, p.ab) && f in p.baNet && f.pkt.kind.Data? && Bounded(p.a.rx) && SmallPackets(p.ba)
    ensures Bounded(PairReceive(p, f, ledbat).a.rx)
  {
    hide OnAck, OnData, Absorbed, Bounded, Wrap;
    OnAckFrame(p.a, f.pkt.ackNr, f.pkt.wnd, ledbat);
    assert FlyingOk(f, p.ba, p.ab);
    DataIsBounded(OnAck(p.a, f.pkt.ackNr, f.pkt.wnd, ledbat), f.pkt.seqNr, f.pkt.payload);
  }

  lemma ApplyStaysWithin(p: Pair, op: Op)
    requires Aligned(p) && Enabled(p, op) && Within(p)
    ensures Within(Apply(p, op))
  {
    hide SmallOnes, ChanOk, Drained, NetOk, SmallPackets;
    ApplyFrame(p, op);
    assert SmallPackets(Apply(p, op).ba) by { SameSmall(p.ba, Apply(p, op).ba); }
    if op.DoReceive? && op.f.pkt.kind.Data? {
      DeliveryIsBounded(p, op.f, op.ledbat);
      hide PairReceive;
    } else if op.DoRead? {
      hide ReadLen;
    } else {
      ReceiveFrame(p, op);
      hide Apply;
    }
  }

  lemma SameSmall(c: Chan, c': Chan)
    requires SmallPackets(c) && c'.hist == c.hist
    ensures SmallPackets(c')
  {
  }

  lemma StepStaysWithin(p: Pair, act: Action)
    requires Safe(p) && CanStep(p, act) && Within(p)
    ensures Within(Step(p, act))
  {
    hide Apply, Enabled, ChanOk, NetOk, Known, Bounded, SmallPackets;
    if act.side.SideA? {
      ApplyStaysWithin(p, act.op);
    } else {
      assert Aligned(Swap(p));
      ApplyStaysWithin(Swap(p), act.op);
    }
  }

  lemma {:induction false} RunStaysWithin(p: Pair, acts: seq<Action>)
    requires Safe(p) && CanRun(p, acts) && Within(p)
    ensures Within(Run(p, acts))
    decreases |acts|
  {
    hide Safe, Step, CanStep, Within;
    if acts != [] {
      StepKeeps(p, acts[0]);
      StepStaysWithin(p, acts[0]);
      RunStaysWithin(Step(p, acts[0]), acts[1..]);
    }
  }

  /** On every run, whatever the network does, neither end ever buffers more than the receive window and 1025 packets. */
  lemma BuffersAreBounded(p: Pair, acts: seq<Action>)
    requires Fresh(p) && CanRun(p, acts)
    ensures var q := Run(p, acts);
      && |q.a.rx.recvBuf| <= 512 * 1024 + 1025 * 1400 && |q.b.rx.recvBuf| <= 512 * 1024 + 1025 * 1400
      && |q.a.rx.oob| <= 1024 && |q.b.rx.oob| <= 1024
  {
    assert Within(p);
    FreshIsAligned(p);
    FreshIsKnown(p);
    hide Run, CanRun, Safe, Fresh;
    RunStaysWithin(p, acts);
  }
}
