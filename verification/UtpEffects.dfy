/**
  What the sender's calls achieve: what an ack frees, how far a transmit goes, what is sent again.
*/
module UtpEffects {
  import opened Common
  import opened UtpStep
  import opened UtpPair
  import opened UtpFlight

  // ----- acks

  /** The packet with the lowest key is covered. */
  ghost predicate LowestCovered(tx: Tx, ack: u16) {
    exists k :: k in tx.unacked && SeqLe(k, ack) && forall j :: j in tx.unacked ==> k <= j
  }

  lemma LowestIsFirst(tx: Tx, ack: u16)
    ensures FreesSomething(tx, ack) <==> LowestCovered(tx, ack)
  {
    hide FirstKey, SeqLe;
    var first := FirstKey(tx.unacked, 0);
    if first.Some? {
      assert forall k :: k in tx.unacked && (forall j :: j in tx.unacked ==> k <= j) ==> k == first.value;
    }
  }

  /**
    An ack frees exactly the packets it covers, and takes over the peer's window, when the packet
    with the lowest key is among them; otherwise it frees nothing at all.
  */
  lemma AckFrees(s: Sock, ack: u16, wnd: nat, ledbat: Option<int>)
    ensures var t := OnAck(s, ack, wnd, ledbat).tx;
      && (LowestCovered(s.tx, ack) ==>
            && (forall k :: k in t.unacked <==> k in s.tx.unacked && !SeqLe(k, ack))
            && t.peerWnd == wnd
            && (ledbat.None? ==> t.cwnd == s.tx.cwnd)
            && (ledbat.Some? && MIN_WINDOW <= ledbat.value <= MAX_WINDOW ==> t.cwnd == ledbat.value)
            && (ledbat.Some? && ledbat.value < MIN_WINDOW ==> t.cwnd == MIN_WINDOW)
            && (ledbat.Some? && ledbat.value > MAX_WINDOW ==> t.cwnd == MAX_WINDOW))
      && (!LowestCovered(s.tx, ack) ==> t == s.tx)
  {
    LowestIsFirst(s.tx, ack);
    FreeBelowFrame(s.tx, ack, 0x10000);
    hide FreeBelow, FreesSomething, SeqLe, LowestCovered;
  }

  /** An ack of our SYN opens the connection; the ack of the last packet after FIN closes it; others leave the life cycle. */
  lemma AckMovesLife(s: Sock, ack: u16, wnd: nat, ledbat: Option<int>)
    ensures var s' := OnAck(s, ack, wnd, ledbat);
      && (s.life.SynSent? ==> (s'.life.Connected? <==> SeqLe(s.synSeq, ack)) && (s'.life.SynSent? <==> !SeqLe(s.synSeq, ack)))
      && (s.life.FinSent? ==> (s'.life.Closed? <==> LowestCovered(s.tx, ack) && s'.tx.unacked == map[]))
      && (s.life.FinSent? ==> s'.life.Closed? || s'.life.FinSent?)
      && (s.life.Connected? || s.life.Closed? ==> s'.life == s.life)
  {
    LowestIsFirst(s.tx, ack);
    hide FreeBelow, FreesSomething, SeqLe, LowestCovered;
  }

  /** What an ack covers is all gone afterwards exactly when it covered nothing or the packet with the lowest key. */
  lemma AckFreesAllOrNothing(s: Sock, ack: u16, wnd: nat, ledbat: Option<int>)
    ensures (forall k :: k in OnAck(s, ack, wnd, ledbat).tx.unacked ==> !SeqLe(k, ack))
      <==> LowestCovered(s.tx, ack) || forall k :: k in s.tx.unacked ==> !SeqLe(k, ack)
  {
    AckFrees(s, ack, wnd, ledbat);
    hide OnAck, SeqLe;
  }

  /** Keys in use do not straddle the wrap-around: all of them are below the next one. */
  predicate Unwrapped(tx: Tx) {
    forall k :: k in tx.unacked ==> k < tx.nextSeq
  }

  lemma WrapLess(x: int, d: nat)
    requires d < 0x8000
    ensures Wrap(Wrap(x) - d) == Wrap(x - d) && Wrap(d) == d
  {
  }

  lemma AckReaches(c: Chan, ackNum: nat, i: nat, d: nat)
    requires i < ackNum <= |c.hist| && |c.hist| - i <= d < 0x8000
    ensures SeqLe(Wrap(SeqOf(c, |c.hist|) - d), SeqOf(c, ackNum - 1))
  {
    hide Wrap;
    var x := c.base + |c.hist| - d;
    WrapLess(c.base + |c.hist|, d);
    WrapBack(c.base + ackNum - 1, x);
    WrapLess(0, c.base + ackNum - 1 - x);
  }

  /** While the keys in use do not straddle the wrap-around, an ack frees every packet the receiver has confirmed with it. */
  lemma AckFreesConfirmed(s: Sock, c: Chan, net: set<Flying>, ackNum: nat, wnd: nat, ledbat: Option<int>, i: nat)
    requires FlightOk(s.tx, c, net) && s.tx.nextSeq == SeqOf(c, |c.hist|) && Unwrapped(s.tx)
    requires i < ackNum <= c.got <= |c.hist| && |c.hist| - i < 0x8000
    ensures SeqOf(c, i) !in OnAck(s, SeqOf(c, ackNum - 1), wnd, ledbat).tx.unacked
  {
    hide OnAck, SeqLe, Accounted, Conserved, Known, Wrap, FirstKey;
    var ack := SeqOf(c, ackNum - 1);
    var key := SeqOf(c, i);
    AckFrees(s, ack, wnd, ledbat);
    AckReaches(c, ackNum, i, |c.hist| - i);
    KeyBack(c, i);
    if key in s.tx.unacked {
      Distance(c, i);
      var low := FirstKey(s.tx.unacked, 0).value;
      Straight(s.tx.nextSeq, low);
      Straight(s.tx.nextSeq, key);
      AckReaches(c, ackNum, i, s.tx.nextSeq - low);
      assert LowestCovered(s.tx, ack);
    }
  }

  lemma Straight(next: u16, k: u16)
    requires k < next
    ensures Wrap(next - k) == next - k && Wrap(next - (next - k)) == k
  {
  }

  lemma KeyBack(c: Chan, i: nat)
    requires i <= |c.hist|
    ensures Wrap(SeqOf(c, |c.hist|) - (|c.hist| - i)) == SeqOf(c, i)
  {
    WrapBack(c.base + |c.hist|, |c.hist| - i);
  }

  /** At the wrap-around an ack can be in vain: 65535 is confirmed and stays, because 0 is not and has the lower key. */
  lemma AckWaitsAtWrap(s: Sock, u: Unacked, v: Unacked, wnd: nat, ledbat: Option<int>)
    requires s.tx.unacked == map[65535 := u, 0 := v]
    ensures SeqLe(65535, 65535) && OnAck(s, 65535, wnd, ledbat).tx == s.tx
  {
    AckFrees(s, 65535, wnd, ledbat);
    assert 0 in s.tx.unacked && !SeqLe(0, 65535);
    hide OnAck;
    assert !LowestCovered(s.tx, 65535);
  }

  // ----- transmission

  function Payloads(pkts: seq<Packet>): Bytes {
    if pkts == [] then [] else pkts[0].payload + Payloads(pkts[1..])
  }

  ghost predicate Willing(verdicts: seq<bool>, n: nat) {
    |verdicts| >= n && forall i :: 0 <= i < n ==> verdicts[i]
  }

  /** Nothing is lost, repeated or reordered between the queue and the wire. */
  lemma {:induction false} TransmitSplitsQueue(s: Sock, verdicts: seq<bool>)
    ensures Payloads(Transmitted(s, verdicts)) + Transmit(s, verdicts).tx.sendBuf == s.tx.sendBuf
    decreases |s.tx.sendBuf|
  {
    hide Build, Wrap;
    if CanTransmit(s) && Verdict(verdicts) {
      var s' := TransmitOne(s, true);
      TransmitSplitsQueue(s', Later(verdicts));
      var rest := Transmitted(s', Later(verdicts));
      assert ([DataPacket(s)] + rest)[1..] == rest;
      assert DataPacket(s).payload == Chunk(s) by { PayloadIs(s); }
      Regroup(Chunk(s), Payloads(rest), Transmit(s', Later(verdicts)).tx.sendBuf);
      assert s.tx.sendBuf == Chunk(s) + s'.tx.sendBuf;
    }
  }

  lemma PayloadIs(s: Sock)
    ensures DataPacket(s).payload == Chunk(s) && DataPacket(s).seqNr == s.tx.nextSeq && DataPacket(s).kind == Data
  {
  }

  /** The packets are numbered in a row; all but the last carry as much as a packet can. */
  lemma {:induction false} TransmitPacksFully(s: Sock, verdicts: seq<bool>, j: nat)
    requires j < |Transmitted(s, verdicts)|
    ensures var pkts := Transmitted(s, verdicts);
      && pkts[j].kind == Data && pkts[j].seqNr == Wrap(s.tx.nextSeq + j)
      && 0 < |pkts[j].payload| <= 1400 && (j + 1 < |pkts| ==> |pkts[j].payload| == 1400)
    decreases |s.tx.sendBuf|
  {
    hide Build;
    PayloadIs(s);
    var s' := TransmitOne(s, true);
    var rest := Transmitted(s', Later(verdicts));
    if j > 0 {
      TransmitPacksFully(s', Later(verdicts), j - 1);
      WrapOn(s.tx.nextSeq, j);
    } else if rest != [] {
      assert CanTransmit(s');
    }
  }

  lemma WrapOn(x: u16, j: nat)
    requires j > 0
    ensures Wrap(Wrap(x + 1) + (j - 1)) == Wrap(x + j)
  {
  }

  /** With a host that takes everything, a transmit ends with an empty queue or a full window. */
  lemma {:induction false} TransmitFillsWindow(s: Sock, verdicts: seq<bool>)
    requires s.life.Connected? && !s.finSent && Willing(verdicts, |s.tx.sendBuf|)
    ensures var t := Transmit(s, verdicts).tx;
      t.sendBuf == [] || t.inFlight + 1400 > Min(s.tx.cwnd, s.tx.peerWnd)
    decreases |s.tx.sendBuf|
  {
    hide Build, Wrap;
    if CanTransmit(s) {
      assert Verdict(verdicts);
      TransmitFillsWindow(TransmitOne(s, true), Later(verdicts));
    }
  }

  // ----- retransmission

  predicate Distinct(ks: seq<u16>) {
    forall i, j :: 0 <= i < j < |ks| ==> ks[i] != ks[j]
  }

  /** Some expired packet has had its last attempt. */
  ghost predicate Exhausted(s: Sock, expired: seq<u16>) {
    exists k :: k in expired && k in s.tx.unacked && s.tx.unacked[k].attempts + 1 >= 8
  }

  function Outstanding(w: Window, expired: seq<u16>): seq<Packet> {
    if expired == [] then []
    else (if expired[0] in w then [w[expired[0]].packet] else []) + Outstanding(w, expired[1..])
  }

  lemma {:induction false} OutstandingSame(w: Window, w': Window, expired: seq<u16>)
    requires w.Keys == w'.Keys && forall k :: k in w ==> w[k].packet == w'[k].packet
    ensures Outstanding(w, expired) == Outstanding(w', expired)
    decreases |expired|
  {
    if expired != [] {
      OutstandingSame(w, w', expired[1..]);
    }
  }

  lemma BumpIs(s: Sock, k: u16)
    requires k in s.tx.unacked && s.tx.unacked[k].attempts + 1 < 8
    ensures var s' := Bump(s, k);
      && s'.life == s.life && s'.tx.unacked.Keys == s.tx.unacked.Keys
      && (forall j :: j in s.tx.unacked ==> s'.tx.unacked[j].packet == s.tx.unacked[j].packet)
      && (forall j :: j in s.tx.unacked && j != k ==> s'.tx.unacked[j] == s.tx.unacked[j])
      && s'.tx.unacked[k].attempts == s.tx.unacked[k].attempts + 1
  {
  }

  /** The connection is given up exactly when an expired packet has had its eighth attempt. */
  lemma {:induction false} ResendGivesUp(s: Sock, expired: seq<u16>)
    requires !s.life.Closed? && Distinct(expired)
    ensures Resend(s, expired).life.Closed? <==> Exhausted(s, expired)
    decreases |expired|
  {
    if expired != [] {
      var k, rest := expired[0], expired[1..];
      assert Distinct(rest) && k !in rest;
      assert forall j :: j in expired <==> j == k || j in rest;
      if k !in s.tx.unacked {
        ResendGivesUp(s, rest);
      } else if s.tx.unacked[k].attempts + 1 < 8 {
        BumpIs(s, k);
        ResendGivesUp(Bump(s, k), rest);
        assert Exhausted(s, expired) <==> Exhausted(Bump(s, k), rest);
      }
    }
  }

  /** Unless it is given up, every expired packet is sent again, in order, and counted once. */
  lemma {:induction false} ResendIsComplete(s: Sock, expired: seq<u16>)
    requires !s.life.Closed? && Distinct(expired) && !Exhausted(s, expired)
    ensures Resent(s, expired) == Outstanding(s.tx.unacked, expired)
    ensures Resend(s, expired).tx.unacked.Keys == s.tx.unacked.Keys
    ensures forall k :: k in s.tx.unacked ==>
      Resend(s, expired).tx.unacked[k].attempts == s.tx.unacked[k].attempts + if k in expired then 1 else 0
    decreases |expired|
  {
    if expired != [] {
      var k, rest := expired[0], expired[1..];
      assert Distinct(rest) && k !in rest;
      assert forall j :: j in expired <==> j == k || j in rest;
      if k !in s.tx.unacked {
        ResendIsComplete(s, rest);
      } else {
        BumpIs(s, k);
        var s' := Bump(s, k);
        hide Bump;
        ResendIsComplete(s', rest);
        OutstandingSame(s.tx.unacked, s'.tx.unacked, rest);
      }
    }
  }

  /** The socket after `n` time-outs of one packet, with nothing heard in between. */
  function TimedOut(s: Sock, k: u16, n: nat): Sock {
    if n == 0 then s else Resend(TimedOut(s, k, n - 1), [k])
  }

  /** A packet that is never acknowledged costs the connection at its eighth time-out, not before. */
  lemma {:induction false} EighthTimeoutCloses(s: Sock, k: u16, n: nat)
    requires !s.life.Closed? && k in s.tx.unacked && s.tx.unacked[k].attempts == 0
    ensures var s' := TimedOut(s, k, n);
      && (s'.life.Closed? <==> n >= 8)
      && (n < 8 ==> k in s'.tx.unacked && s'.tx.unacked[k].attempts == n)
  {
    if n > 0 {
      EighthTimeoutCloses(s, k, n - 1);
      var before := TimedOut(s, k, n - 1);
      if n <= 8 {
        assert [k][0] == k && Distinct([k]);
        ResendGivesUp(before, [k]);
        if n < 8 {
          ResendIsComplete(before, [k]);
        }
      }
    }
  }

  // ----- acks owed

  /** What a packet other than data does to a live socket, besides its ack. */
  lemma ControlPackets(s: Sock, pkt: Packet, ledbat: Option<int>)
    requires !s.life.Closed?
    ensures var s' := OnPacket(s, pkt, ledbat);
      && (pkt.kind.Reset? ==> s'.life.Closed? && s' == s.(life := Closed))
      && (pkt.kind.Fin? ==> s'.peerFin && s'.ackPending)
      && (pkt.kind.Syn? ==> s'.life.Connected? && s'.ackPending && s'.tx == s.tx && s'.rx == s.rx)
      && (pkt.kind.State? ==> s'.ackPending == s.ackPending && s'.peerFin == s.peerFin)
      && (!pkt.kind.Data? ==> s'.rx == s.rx)
  {
    OnAckFrame(s, pkt.ackNr, pkt.wnd, ledbat);
    hide OnData, FreeBelow, FreesSomething, SeqLe;
  }

  /** A data packet makes an ack due exactly when there is room and the stream has not passed its number. */
  lemma AckIsDue(s: Sock, tx: Tx, c: Chan, num: nat, payload: Bytes)
    requires ChanOk(tx, s.rx, c) && num < |c.hist| && c.hist[num] == Some(payload) && Timely(c, num)
    requires !s.life.Closed? && payload != [] && !s.ackPending
    ensures OnData(s, SeqOf(c, num), payload).ackPending
      <==> |s.rx.recvBuf| + |s.rx.oob| < 512 * 1024 && num >= c.got
  {
    TimelyIsExact(c, num);
    hide Wrap, Drain, SeqLe, ChanOk, InOrder;
  }

  /** So a repeated packet is met with silence: if the ack of the first copy is lost, no copy brings another. */
  lemma RepeatsAreSilent(s: Sock, tx: Tx, c: Chan, num: nat, payload: Bytes)
    requires ChanOk(tx, s.rx, c) && num < c.got && Timely(c, num)
    ensures OnData(s, SeqOf(c, num), payload) == s
  {
    TimelyIsExact(c, num);
    hide Wrap, Drain, SeqLe, ChanOk;
  }

  /** Once an ack is due, a tick with nothing queued, or late enough, sends one for everything received so far. */
  lemma DueAckIsSent(p: Pair, expired: seq<u16>, delayed: bool)
    requires Aligned(p) && p.a.ackPending && !Apply(p, DoTick(expired, delayed, true)).a.life.Closed?
    requires p.a.tx.sendBuf == [] || delayed
    ensures var q := Apply(p, DoTick(expired, delayed, true));
      && !q.a.ackPending
      && exists f :: f in q.abNet && f.pkt.kind.State? && f.ackNum == p.ba.got && f.pkt.ackNr == SeqOf(p.ba, p.ba.got - 1)
  {
    hide Resend, Wrap, Drained, NetOk, OobOk, Concat;
    ResendFrame(p.a, expired);
    ResendOwes(p.a, expired);
    var q := if Readable(p.a) then p.(a := Resend(p.a, expired)) else p;
    var f := Flying(AckPacket(q.a), 0, q.ba.got);
    assert f in Apply(p, DoTick(expired, delayed, true)).abNet;
  }

  lemma {:induction false} ResendOwes(s: Sock, expired: seq<u16>)
    ensures Resend(s, expired).ackPending == s.ackPending
    decreases |expired|
  {
    if expired != [] && !s.life.Closed? {
      if expired[0] !in s.tx.unacked {
        ResendOwes(s, expired[1..]);
      } else {
        ResendOwes(Bump(s, expired[0]), expired[1..]);
      }
    }
  }
}
