/**
  Two connected uTP sockets and the datagrams between them.

  The network is the set of all datagrams ever sent: delivering one does not remove it, so
  duplication and reordering are deliveries in any order and any number of times, and loss
  is a datagram that is never delivered. Each direction carries a history that gives every
  16-bit sequence number its unbounded packet number.
*/
module UtpPair {
  import opened Common
  import opened UtpStep

  /**
    One direction. `hist[i]` is the payload of packet number `i`, or None when the number was
    used up without a payload (a failed send, a FIN). The receiver has the first `got` packets
    in order; `taken` are the bytes its session has already read.
  */
  datatype Chan = Chan(base: u16, hist: seq<Option<Bytes>>, accepted: Bytes, got: nat, taken: Bytes)

  /** A datagram on the network with its unbounded packet number and ack number. */
  datatype Flying = Flying(pkt: Packet, num: nat, ackNum: nat)

  datatype Pair = Pair(a: Sock, b: Sock, ab: Chan, ba: Chan, abNet: set<Flying>, baNet: set<Flying>)

  function Swap(p: Pair): Pair {
    Pair(p.b, p.a, p.ba, p.ab, p.baNet, p.abNet)
  }

  function SeqOf(c: Chan, i: int): u16 {
    Wrap(c.base + i)
  }

  function Payload(h: Option<Bytes>): Bytes {
    if h.Some? then h.value else []
  }

  function Concat(hist: seq<Option<Bytes>>): Bytes {
    if hist == [] then [] else Concat(hist[..|hist| - 1]) + Payload(hist[|hist| - 1])
  }

  function Reassembled(rx: Rx, c: Chan): Bytes {
    c.taken + rx.recvBuf
  }

  // ----- steps of endpoint a; endpoint b takes the same steps in the swapped pair

  datatype Op =
    | DoAccept(data: Bytes)
    | DoSend(ok: bool)
    | DoAck(ok: bool)
    | DoTick(expired: seq<u16>, delayed: bool, ok: bool)
    | DoReceive(f: Flying, ledbat: Option<int>)
    | DoSpoof(pkt: Packet)
    | DoRead(room: nat)
    | DoClose
    | DoFin(ok: bool)
    | DoIdle

  function Say(p: Pair, pkt: Packet, num: nat): Pair {
    p.(abNet := p.abNet + {Flying(pkt, num, p.ba.got)})
  }

  /** One round of the transmit loop. */
  function PairSend(p: Pair, ok: bool): Pair
    requires CanTransmit(p.a)
  {
    var q := p.(a := TransmitOne(p.a, ok),
                ab := p.ab.(hist := p.ab.hist + [if ok then Some(Chunk(p.a)) else None]));
    if ok then Say(q, DataPacket(p.a), |p.ab.hist|) else q
  }

  function PairAck(p: Pair, ok: bool): Pair {
    var q := p.(a := SendAck(p.a, ok));
    if ok then Say(q, AckPacket(p.a), 0) else q
  }

  /** A retransmission repeats a datagram that is on the network already. */
  function PairTick(p: Pair, expired: seq<u16>, delayed: bool, ok: bool): Pair {
    var q := if Readable(p.a) then p.(a := Resend(p.a, expired)) else p;
    if OwesAck(q.a, delayed) then PairAck(q, ok) else q
  }

  function PairReceive(p: Pair, f: Flying, ledbat: Option<int>): Pair {
    var s := OnAck(p.a, f.pkt.ackNr, f.pkt.wnd, ledbat);
    p.(a := OnPacket(p.a, f.pkt, ledbat),
       ba := if f.pkt.kind.Data? then p.ba.(got := p.ba.got + Absorbed(s, f.pkt.seqNr, f.pkt.payload)) else p.ba)
  }

  function PairRead(p: Pair, room: nat): Pair {
    p.(a := Read(p.a, room),
       ba := p.ba.(taken := p.ba.taken + p.a.rx.recvBuf[..ReadLen(p.a, room)]))
  }

  function PairFin(p: Pair, ok: bool): Pair {
    if p.a.finSent || !p.a.life.FinSent? then p
    else
      var q := p.(a := SendFin(p.a), ab := p.ab.(hist := p.ab.hist + [None]));
      if ok then Say(q, FinPacket(p.a), 0) else q
  }

  function Apply(p: Pair, op: Op): Pair {
    match op
    case DoAccept(data) =>
      p.(a := Accept(p.a, data),
         ab := p.ab.(accepted := p.ab.accepted + if Accepts(p.a) then data else []))
    case DoSend(ok) => if CanTransmit(p.a) then PairSend(p, ok) else p
    case DoAck(ok) => PairAck(p, ok)
    case DoTick(expired, delayed, ok) => PairTick(p, expired, delayed, ok)
    case DoReceive(f, ledbat) => PairReceive(p, f, ledbat)
    case DoSpoof(pkt) => p.(a := OnPacket(p.a, pkt, None))
    case DoRead(room) => PairRead(p, room)
    case DoClose => p.(a := Close(p.a))
    case DoFin(ok) => PairFin(p, ok)
    case DoIdle => p.(a := p.a.(life := Closed))
  }

  /** A data packet arrives while its number is within half the circle of the receiver's ack. */
  predicate Timely(c: Chan, num: int) {
    c.got - 0x8000 <= num < c.got + 0x8000
  }

  /** Only datagrams that were sent arrive, except that SYN and RESET may come from anywhere. */
  predicate Enabled(p: Pair, op: Op) {
    match op
    case DoReceive(f, _) => f in p.baNet && (f.pkt.kind.Data? ==> Timely(p.ba, f.num))
    case DoSpoof(pkt) => pkt.kind.Syn? || pkt.kind.Reset?
    case _ => true
  }

  datatype Side = SideA | SideB
  datatype Action = Action(side: Side, op: Op)

  function Step(p: Pair, act: Action): Pair {
    if act.side.SideA? then Apply(p, act.op) else Swap(Apply(Swap(p), act.op))
  }

  predicate CanStep(p: Pair, act: Action) {
    Enabled(if act.side.SideA? then p else Swap(p), act.op)
  }

  function Run(p: Pair, acts: seq<Action>): Pair
    decreases |acts|
  {
    if acts == [] then p else Run(Step(p, acts[0]), acts[1..])
  }

  predicate CanRun(p: Pair, acts: seq<Action>)
    decreases |acts|
  {
    acts == [] || (CanStep(p, acts[0]) && CanRun(Step(p, acts[0]), acts[1..]))
  }

  /** Nothing sent yet, any initial sequence numbers, the two ends agree on them; a SYN-ACK may still be due. */
  predicate Fresh(p: Pair) {
    && FreshEnd(p.a, p.ab, p.ba) && FreshEnd(p.b, p.ba, p.ab)
    && p.abNet == {} && p.baNet == {}
  }

  predicate FreshEnd(s: Sock, out: Chan, into: Chan) {
    && (s.life.SynSent? || s.life.Connected?) && !s.finSent
    && s.tx == Tx(out.base, [], map[], 0, RECV_WINDOW, INIT_WINDOW)
    && s.rx == Rx(SeqOf(into, -1), [], map[])
    && out.hist == [] && out.accepted == [] && out.got == 0 && out.taken == []
  }

  // ----- what every step keeps

  /** The packet number at or after `got` that the out-of-order key `k` stands for. */
  function Slot(c: Chan, k: u16): int {
    c.got + Wrap(k - c.base - c.got)
  }

  ghost predicate OobOk(rx: Rx, c: Chan) {
    forall k :: k in rx.oob ==>
      Slot(c, k) < c.got + 0x8000 && Slot(c, k) < |c.hist| && c.hist[Slot(c, k)] == Some(rx.oob[k])
  }

  /** No buffered payload is waiting to be drained. */
  ghost predicate Drained(rx: Rx) {
    Wrap(rx.ackNr + 1) !in rx.oob
  }

  ghost predicate ChanOk(tx: Tx, rx: Rx, c: Chan) {
    && c.got <= |c.hist|
    && (forall i :: 0 <= i < c.got ==> c.hist[i].Some?)
    && tx.nextSeq == SeqOf(c, |c.hist|)
    && rx.ackNr == SeqOf(c, c.got - 1)
    && c.accepted == Concat(c.hist) + tx.sendBuf
    && Reassembled(rx, c) == Concat(c.hist[..c.got])
    && OobOk(rx, c)
  }

  ghost predicate FlyingOk(f: Flying, c: Chan, back: Chan) {
    && f.ackNum <= back.got && f.pkt.ackNr == SeqOf(back, f.ackNum - 1)
    && (f.pkt.kind.Data? ==>
          f.num < |c.hist| && c.hist[f.num] == Some(f.pkt.payload) && f.pkt.seqNr == SeqOf(c, f.num))
  }

  ghost predicate NetOk(net: set<Flying>, c: Chan, back: Chan) {
    forall f :: f in net ==> FlyingOk(f, c, back)
  }

  ghost predicate Aligned(p: Pair) {
    && ChanOk(p.a.tx, p.b.rx, p.ab) && ChanOk(p.b.tx, p.a.rx, p.ba)
    && Drained(p.a.rx) && Drained(p.b.rx)
    && NetOk(p.abNet, p.ab, p.ba) && NetOk(p.baNet, p.ba, p.ab)
  }

  /** A packet kept for retransmission is a datagram that is on the network. */
  ghost predicate Known(tx: Tx, net: set<Flying>) {
    forall k :: k in tx.unacked ==> exists f :: f in net && f.pkt == tx.unacked[k].packet
  }

  ghost predicate Safe(p: Pair) {
    Aligned(p) && Known(p.a.tx, p.abNet) && Known(p.b.tx, p.baNet)
  }

  // ----- lemmas about histories

  lemma ConcatSnoc(hist: seq<Option<Bytes>>, h: Option<Bytes>)
    ensures Concat(hist + [h]) == Concat(hist) + Payload(h)
  {
    assert (hist + [h])[..|hist|] == hist;
  }

  lemma {:induction false} ConcatPrefix(hist: seq<Option<Bytes>>, n: nat)
    requires n <= |hist|
    ensures Concat(hist[..n]) <= Concat(hist)
    decreases |hist|
  {
    if n == |hist| {
      assert hist[..n] == hist;
    } else {
      assert hist[..|hist| - 1][..n] == hist[..n];
      ConcatPrefix(hist[..|hist| - 1], n);
    }
  }

  /** Sequence arithmetic agrees with packet numbers exactly for timely packets. */
  lemma TimelyIsExact(c: Chan, num: int)
    requires c.got - 0x10000 <= num < c.got + 0x10000
    ensures Timely(c, num) <==> (SeqLe(SeqOf(c, num), SeqOf(c, c.got - 1)) <==> num < c.got)
  {
    WrapBack(c.base + c.got - 1, c.base + num);
    var d := c.got - 1 - num;
    assert Wrap(d) == if d >= 0x10000 then d - 0x10000 else if d < 0 then d + 0x10000 else d;
    hide Wrap;
  }

  /** Differences on the circle are differences of numbers, on the circle. */
  lemma WrapBack(x: int, y: int)
    ensures Wrap(Wrap(x) - Wrap(y)) == Wrap(x - y)
  {
  }

  lemma SlotOfNumber(c: Chan, num: int)
    requires c.got <= num < c.got + 0x10000
    ensures Slot(c, SeqOf(c, num)) == num
  {
  }

  lemma NextSeqOf(c: Chan, i: int)
    ensures Wrap(SeqOf(c, i) + 1) == SeqOf(c, i + 1)
  {
  }

  lemma SlotStays(c: Chan, k: u16)
    requires k != SeqOf(c, c.got)
    ensures Slot(c.(got := c.got + 1), k) == Slot(c, k)
  {
  }

  // ----- receiving

  lemma OobAdvances(rx: Rx, c: Chan, rx': Rx)
    requires OobOk(rx, c)
    requires rx'.oob == rx.oob - {SeqOf(c, c.got)}
    ensures OobOk(rx', c.(got := c.got + 1))
  {
    forall k | k in rx'.oob
      ensures Slot(c.(got := c.got + 1), k) == Slot(c, k)
    {
      SlotStays(c, k);
    }
  }

  /** One packet joins the contiguous prefix. */
  lemma AdvanceOne(tx: Tx, rx: Rx, c: Chan, rx': Rx)
    requires ChanOk(tx, rx, c)
    requires c.got < |c.hist| && c.hist[c.got].Some?
    requires rx'.ackNr == Wrap(rx.ackNr + 1)
    requires rx'.recvBuf == rx.recvBuf + c.hist[c.got].value
    requires rx'.oob == rx.oob - {rx'.ackNr}
    ensures ChanOk(tx, rx', c.(got := c.got + 1))
  {
    hide Wrap, OobOk, Concat;
    var c' := c.(got := c.got + 1);
    NextSeqOf(c, c.got - 1);
    assert Reassembled(rx', c') == Concat(c.hist[..c'.got]) by {
      assert c.hist[..c'.got] == c.hist[..c.got] + [c.hist[c.got]];
      ConcatSnoc(c.hist[..c.got], c.hist[c.got]);
    }
    OobAdvances(rx, c, rx');
  }

  lemma HeldIsNext(tx: Tx, rx: Rx, c: Chan)
    requires ChanOk(tx, rx, c) && !Drained(rx)
    ensures c.got < |c.hist| && c.hist[c.got] == Some(rx.oob[Wrap(rx.ackNr + 1)])
  {
    hide Wrap;
    NextSeqOf(c, c.got - 1);
    SlotOfNumber(c, c.got);
  }

  lemma {:induction false} DrainKeeps(tx: Tx, rx: Rx, c: Chan)
    requires ChanOk(tx, rx, c)
    ensures ChanOk(tx, Drain(rx), c.(got := c.got + DrainCount(rx)))
    ensures Drained(Drain(rx))
    decreases |rx.oob|
  {
    hide Wrap, ChanOk;
    var next := Wrap(rx.ackNr + 1);
    if next in rx.oob {
      var rx' := Rx(next, rx.recvBuf + rx.oob[next], rx.oob - {next});
      var c' := c.(got := c.got + 1);
      HeldIsNext(tx, rx, c);
      AdvanceOne(tx, rx, c, rx');
      DrainKeeps(tx, rx', c');
      assert c.(got := c.got + DrainCount(rx)) == c'.(got := c'.got + DrainCount(rx'));
    }
  }

  /** A timely packet ahead of the next one is filed under its own number. */
  lemma OutOfOrderKeeps(rx: Rx, c: Chan, num: nat, payload: Bytes)
    requires OobOk(rx, c) && Drained(rx) && rx.ackNr == SeqOf(c, c.got - 1)
    requires c.got < num < |c.hist| && c.hist[num] == Some(payload) && Timely(c, num)
    ensures var rx' := rx.(oob := rx.oob[SeqOf(c, num) := payload]);
      OobOk(rx', c) && Drained(rx')
  {
    hide Wrap;
    SlotOfNumber(c, num);
    SlotOfNumber(c, c.got);
    NextSeqOf(c, c.got - 1);
  }

  lemma InOrderKeeps(tx: Tx, rx: Rx, c: Chan, payload: Bytes)
    requires ChanOk(tx, rx, c) && Drained(rx)
    requires c.got < |c.hist| && c.hist[c.got] == Some(payload)
    ensures var rx' := Append(rx, SeqOf(c, c.got), payload);
      ChanOk(tx, Drain(rx'), c.(got := c.got + 1 + DrainCount(rx'))) && Drained(Drain(rx'))
  {
    hide Wrap, Concat, OobOk, DrainCount, Drain;
    NextSeqOf(c, c.got - 1);
    var rx' := Append(rx, SeqOf(c, c.got), payload);
    var c' := c.(got := c.got + 1);
    assert rx'.oob == rx.oob - {rx'.ackNr};
    AdvanceOne(tx, rx, c, rx');
    DrainKeeps(tx, rx', c');
    assert c'.(got := c'.got + DrainCount(rx')) == c.(got := c.got + 1 + DrainCount(rx'));
  }

  /** Delivering the data packet numbered `num`. */
  lemma DataKeeps(s: Sock, tx: Tx, c: Chan, num: nat, payload: Bytes)
    requires ChanOk(tx, s.rx, c) && Drained(s.rx)
    requires num < |c.hist| && c.hist[num] == Some(payload) && Timely(c, num)
    ensures var seqNr := SeqOf(c, num);
      var s' := OnData(s, seqNr, payload);
      ChanOk(tx, s'.rx, c.(got := c.got + Absorbed(s, seqNr, payload))) && Drained(s'.rx)
  {
    hide Wrap, Concat, Drain, DrainCount, OobOk, Drained;
    var seqNr := SeqOf(c, num);
    TimelyIsExact(c, num);
    NextSeqOf(c, c.got - 1);
    if Takes(s, seqNr, payload) {
      if num == c.got {
        InOrderKeeps(tx, s.rx, c, payload);
      } else {
        SlotOfNumber(c, num);
        SlotOfNumber(c, c.got);
        OutOfOrderKeeps(s.rx, c, num, payload);
        assert c.(got := c.got + 0) == c;
      }
    } else {
      assert c.(got := c.got + 0) == c;
    }
  }

  // ----- what acks and retransmissions leave alone

  lemma {:induction false} FreeBelowFrame(tx: Tx, ack: u16, n: nat)
    requires n <= 0x10000
    ensures var t := FreeBelow(tx, ack, n);
      && t.nextSeq == tx.nextSeq && t.sendBuf == tx.sendBuf && t.cwnd == tx.cwnd && t.peerWnd == tx.peerWnd
      && t.unacked == map k | k in tx.unacked && !(k < n && SeqLe(k, ack)) :: tx.unacked[k]
  {
    if n > 0 {
      FreeBelowFrame(tx, ack, n - 1);
    }
  }

  lemma OnAckFrame(s: Sock, ack: u16, wnd: nat, ledbat: Option<int>)
    ensures var s' := OnAck(s, ack, wnd, ledbat);
      s'.rx == s.rx && s'.tx.nextSeq == s.tx.nextSeq && s'.tx.sendBuf == s.tx.sendBuf
  {
    FreeBelowFrame(s.tx, ack, 0x10000);
  }

  /** Retransmission changes nothing but attempt counts and the life cycle. */
  lemma {:induction false} ResendFrame(s: Sock, expired: seq<u16>)
    ensures var s' := Resend(s, expired);
      && s'.rx == s.rx && s'.tx == s.tx.(unacked := s'.tx.unacked)
      && s'.tx.unacked.Keys == s.tx.unacked.Keys
      && forall k :: k in s.tx.unacked ==>
           s'.tx.unacked[k].packet == s.tx.unacked[k].packet && s'.tx.unacked[k].payloadLen == s.tx.unacked[k].payloadLen
    decreases |expired|
  {
    if expired != [] && !s.life.Closed? {
      if expired[0] !in s.tx.unacked {
        ResendFrame(s, expired[1..]);
      } else {
        var s' := Bump(s, expired[0]);
        assert s'.tx.unacked.Keys == s.tx.unacked.Keys;
        ResendFrame(s', expired[1..]);
      }
    }
  }

  // ----- every step keeps the pair safe

  lemma NetGrows(net: set<Flying>, c: Chan, back: Chan, c': Chan, back': Chan)
    requires NetOk(net, c, back)
    requires c'.base == c.base && c.hist <= c'.hist
    requires back'.base == back.base && back.got <= back'.got
    ensures NetOk(net, c', back')
  {
  }

  lemma SayKeeps(p: Pair, pkt: Packet, num: nat)
    requires Aligned(p)
    requires FlyingOk(Flying(pkt, num, p.ba.got), p.ab, p.ba)
    ensures Aligned(Say(p, pkt, num))
  {
  }

  /** Using up one packet number, with or without a payload. */
  lemma NumberKeeps(p: Pair, s: Sock, h: Option<Bytes>)
    requires Aligned(p)
    requires s.rx == p.a.rx && s.tx.nextSeq == Wrap(p.a.tx.nextSeq + 1)
    requires p.a.tx.sendBuf == Payload(h) + s.tx.sendBuf
    ensures Aligned(p.(a := s, ab := p.ab.(hist := p.ab.hist + [h])))
  {
    hide OobOk, FlyingOk, Wrap, Concat;
    var c := p.ab;
    var c' := c.(hist := c.hist + [h]);
    ConcatSnoc(c.hist, h);
    NextSeqOf(c, |c.hist|);
    assert c'.hist[..c.got] == c.hist[..c.got];
    assert c.accepted == Concat(c'.hist) + s.tx.sendBuf;
    OobGrows(p.b.rx, c, c');
    NetGrows(p.abNet, c, p.ba, c', p.ba);
    NetGrows(p.baNet, p.ba, c, p.ba, c');
  }

  lemma OobGrows(rx: Rx, c: Chan, c': Chan)
    requires OobOk(rx, c) && c'.base == c.base && c'.got == c.got && c.hist <= c'.hist
    ensures OobOk(rx, c')
  {
    forall k | k in rx.oob
      ensures Slot(c', k) < c'.got + 0x8000 && Slot(c', k) < |c'.hist| && c'.hist[Slot(c', k)] == Some(rx.oob[k])
    {
      assert Slot(c', k) == Slot(c, k);
    }
  }

  lemma SendKeeps(p: Pair, ok: bool)
    requires Aligned(p) && CanTransmit(p.a)
    ensures Aligned(PairSend(p, ok))
  {
    hide Aligned, Wrap;
    var s := TransmitOne(p.a, ok);
    var h := if ok then Some(Chunk(p.a)) else None;
    var q := p.(a := s, ab := p.ab.(hist := p.ab.hist + [h]));
    NumberKeeps(p, s, h);
    if ok {
      assert FlyingOk(Flying(DataPacket(p.a), |p.ab.hist|, p.ba.got), q.ab, q.ba) by {
        SafeNumbers(p);
      }
      SayKeeps(q, DataPacket(p.a), |p.ab.hist|);
    }
  }

  lemma SafeNumbers(p: Pair)
    requires Aligned(p)
    ensures p.a.tx.nextSeq == SeqOf(p.ab, |p.ab.hist|) && p.a.rx.ackNr == SeqOf(p.ba, p.ba.got - 1)
  {
  }

  lemma AckKeeps(p: Pair, ok: bool)
    requires Aligned(p)
    ensures Aligned(PairAck(p, ok))
  {
  }

  lemma ReceiveKeeps(p: Pair, f: Flying, ledbat: Option<int>)
    requires Aligned(p) && f in p.baNet && (f.pkt.kind.Data? ==> Timely(p.ba, f.num))
    ensures Aligned(PairReceive(p, f, ledbat))
  {
    hide OnAck, OnData, Absorbed, Concat, Wrap, OobOk;
    OnAckFrame(p.a, f.pkt.ackNr, f.pkt.wnd, ledbat);
    assert FlyingOk(f, p.ba, p.ab);
    if f.pkt.kind.Data? {
      var s := OnAck(p.a, f.pkt.ackNr, f.pkt.wnd, ledbat);
      DataKeeps(s, p.b.tx, p.ba, f.num, f.pkt.payload);
      OnDataFrame(s, f.pkt.seqNr, f.pkt.payload);
      var q := PairReceive(p, f, ledbat);
      NetGrows(p.abNet, p.ab, p.ba, q.ab, q.ba);
      NetGrows(p.baNet, p.ba, p.ab, q.ba, q.ab);
    }
  }

  lemma OnDataFrame(s: Sock, seqNr: u16, payload: Bytes)
    ensures OnData(s, seqNr, payload).tx == s.tx
  {
  }

  lemma ReadKeeps(p: Pair, room: nat)
    requires Aligned(p)
    ensures Aligned(PairRead(p, room))
  {
    hide Concat, Wrap, FlyingOk;
    var q := PairRead(p, room);
    assert Reassembled(q.a.rx, q.ba) == Reassembled(p.a.rx, p.ba);
    OobGrows(q.a.rx, p.ba, q.ba);
    NetGrows(p.abNet, p.ab, p.ba, q.ab, q.ba);
    NetGrows(p.baNet, p.ba, p.ab, q.ba, q.ab);
  }

  lemma FinKeeps(p: Pair, ok: bool)
    requires Aligned(p)
    ensures Aligned(PairFin(p, ok))
  {
    hide Aligned, Wrap;
    if !p.a.finSent && p.a.life.FinSent? {
      NumberKeeps(p, SendFin(p.a), None);
      if ok {
        SafeNumbers(p);
        SayKeeps(p.(a := SendFin(p.a), ab := p.ab.(hist := p.ab.hist + [None])), FinPacket(p.a), 0);
      }
    }
  }

  lemma TickKeeps(p: Pair, expired: seq<u16>, delayed: bool, ok: bool)
    requires Aligned(p)
    ensures Aligned(PairTick(p, expired, delayed, ok))
  {
    ResendFrame(p.a, expired);
    var q := if Readable(p.a) then p.(a := Resend(p.a, expired)) else p;
    AckKeeps(q, ok);
  }

  lemma AcceptKeeps(p: Pair, data: Bytes)
    requires Aligned(p)
    ensures Aligned(Apply(p, DoAccept(data)))
  {
    hide Concat, Wrap, FlyingOk;
    var q := Apply(p, DoAccept(data));
    OobGrows(p.b.rx, p.ab, q.ab);
    NetGrows(p.abNet, p.ab, p.ba, q.ab, q.ba);
    NetGrows(p.baNet, p.ba, p.ab, q.ba, q.ab);
    hide OobOk, NetOk;
  }

  /** Steps that touch neither stream: only the life cycle and the ack flag change. */
  lemma QuietKeeps(p: Pair, s: Sock)
    requires Aligned(p) && s.tx == p.a.tx && s.rx == p.a.rx
    ensures Aligned(p.(a := s))
  {
    hide ChanOk, NetOk, Drained;
  }

  lemma ApplyKeeps(p: Pair, op: Op)
    requires Aligned(p) && Enabled(p, op)
    ensures Aligned(Apply(p, op))
  {
    hide Aligned, PairSend, PairAck, PairTick, PairReceive, PairRead, PairFin, Timely, Accept;
    match op
    case DoAccept(data) => AcceptKeeps(p, data);
    case DoSend(ok) => if CanTransmit(p.a) { SendKeeps(p, ok); }
    case DoAck(ok) => AckKeeps(p, ok);
    case DoTick(expired, delayed, ok) => TickKeeps(p, expired, delayed, ok);
    case DoReceive(f, ledbat) => ReceiveKeeps(p, f, ledbat);
    case DoSpoof(pkt) => QuietKeeps(p, OnPacket(p.a, pkt, None));
    case DoRead(room) => ReadKeeps(p, room);
    case DoClose => QuietKeeps(p, Close(p.a));
    case DoFin(ok) => FinKeeps(p, ok);
    case DoIdle => QuietKeeps(p, p.a.(life := Closed));
  }

  // ----- what is kept for retransmission has been sent

  lemma KnownGrows(tx: Tx, tx': Tx, net: set<Flying>, f: Flying, u: Unacked)
    requires Known(tx, net) && f.pkt == u.packet && tx'.unacked == tx.unacked[tx.nextSeq := u]
    ensures Known(tx', net + {f})
  {
    forall k | k in tx'.unacked
      ensures exists g :: g in net + {f} && g.pkt == tx'.unacked[k].packet
    {
      if k == tx.nextSeq {
        assert f in net + {f};
      } else {
        var g :| g in net && g.pkt == tx.unacked[k].packet;
        assert g in net + {f};
      }
    }
  }

  lemma KnownLess(tx: Tx, tx': Tx, net: set<Flying>, net': set<Flying>)
    requires Known(tx, net) && net <= net' && Fewer(tx', tx)
    ensures Known(tx', net')
  {
    forall k | k in tx'.unacked
      ensures exists f :: f in net' && f.pkt == tx'.unacked[k].packet
    {
      var f :| f in net && f.pkt == tx.unacked[k].packet;
      assert f in net';
    }
  }

  /** Retransmission puts nothing on the network that was not there already. */
  lemma {:induction false} ResentIsKnown(s: Sock, expired: seq<u16>, net: set<Flying>)
    requires Known(s.tx, net)
    ensures forall pkt :: pkt in Resent(s, expired) ==> exists f :: f in net && f.pkt == pkt
    decreases |expired|
  {
    if expired != [] && !s.life.Closed? {
      if expired[0] !in s.tx.unacked {
        ResentIsKnown(s, expired[1..], net);
      } else {
        ResentIsKnown(Bump(s, expired[0]), expired[1..], net);
      }
    }
  }

  lemma SendKnown(p: Pair, ok: bool)
    requires Known(p.a.tx, p.abNet) && CanTransmit(p.a)
    ensures Known(PairSend(p, ok).a.tx, PairSend(p, ok).abNet)
  {
    hide Known, Wrap;
    var q := PairSend(p, ok);
    if ok {
      KnownGrows(p.a.tx, q.a.tx, p.abNet, Flying(DataPacket(p.a), |p.ab.hist|, p.ba.got), Unacked(DataPacket(p.a), |Chunk(p.a)|, 0));
    } else {
      SameIsFewer(p.a.tx, q.a.tx);
      KnownLess(p.a.tx, q.a.tx, p.abNet, q.abNet);
    }
  }

  /** Every packet in the second window is in the first. */
  ghost predicate Fewer(tx': Tx, tx: Tx) {
    forall k :: k in tx'.unacked ==> k in tx.unacked && tx'.unacked[k].packet == tx.unacked[k].packet
  }

  lemma PacketFrees(s: Sock, pkt: Packet, ledbat: Option<int>)
    ensures Fewer(OnPacket(s, pkt, ledbat).tx, s.tx)
  {
    hide OnAck, OnData, Fewer;
    SameIsFewer(s.tx, s.tx);
    AckFrees(s, pkt.ackNr, pkt.wnd, ledbat);
    OnDataFrame(OnAck(s, pkt.ackNr, pkt.wnd, ledbat), pkt.seqNr, pkt.payload);
  }

  lemma AckFrees(s: Sock, ack: u16, wnd: nat, ledbat: Option<int>)
    ensures Fewer(OnAck(s, ack, wnd, ledbat).tx, s.tx)
  {
    FreeBelowFrame(s.tx, ack, 0x10000);
    hide FreeBelow, SeqLe, FreesSomething;
  }

  lemma TickFrees(p: Pair, expired: seq<u16>, delayed: bool, ok: bool)
    ensures var q := PairTick(p, expired, delayed, ok);
      Fewer(q.a.tx, p.a.tx) && p.abNet <= q.abNet && q.b == p.b && q.baNet == p.baNet
  {
    hide Resend;
    ResendFrame(p.a, expired);
  }

  /** No step keeps a packet that was not sent, and none takes a datagram off the network. */
  lemma ApplyKnown(p: Pair, op: Op)
    requires Known(p.a.tx, p.abNet)
    ensures var q := Apply(p, op);
      Known(q.a.tx, q.abNet) && p.abNet <= q.abNet && q.b.tx == p.b.tx && q.baNet == p.baNet
  {
    hide Known, Wrap, OnPacket, OnAck, Absorbed, CanTransmit, PairTick, Fewer, AckPacket, FinPacket;
    var q := Apply(p, op);
    if op.DoSend? {
      if CanTransmit(p.a) {
        SendKnown(p, op.ok);
      }
    } else {
      match op {
        case DoTick(expired, delayed, ok) => TickFrees(p, expired, delayed, ok);
        case DoReceive(f, ledbat) => PacketFrees(p.a, f.pkt, ledbat);
        case DoSpoof(pkt) => PacketFrees(p.a, pkt, None);
        case _ => SameIsFewer(p.a.tx, q.a.tx);
      }
      KnownLess(p.a.tx, q.a.tx, p.abNet, q.abNet);
    }
  }

  lemma SameIsFewer(tx: Tx, tx': Tx)
    requires tx'.unacked == tx.unacked
    ensures Fewer(tx', tx)
  {
  }

  // ----- whole runs

  lemma StepKeeps(p: Pair, act: Action)
    requires Safe(p) && CanStep(p, act)
    ensures Safe(Step(p, act))
  {
    hide ChanOk, NetOk, Apply, Enabled, Known;
    if act.side.SideA? {
      ApplyKeeps(p, act.op);
      ApplyKnown(p, act.op);
    } else {
      assert Aligned(Swap(p));
      ApplyKeeps(Swap(p), act.op);
      ApplyKnown(Swap(p), act.op);
    }
  }

  lemma {:induction false} RunKeeps(p: Pair, acts: seq<Action>)
    requires Safe(p) && CanRun(p, acts)
    ensures Safe(Run(p, acts))
    decreases |acts|
  {
    hide Safe, Step, CanStep;
    if acts != [] {
      StepKeeps(p, acts[0]);
      RunKeeps(Step(p, acts[0]), acts[1..]);
    }
  }

  /** On every run, whatever either end resends is a datagram that is on the network already. */
  lemma ResentWasSent(p: Pair, acts: seq<Action>, expired: seq<u16>)
    requires Fresh(p) && CanRun(p, acts)
    ensures var q := Run(p, acts);
      && (forall pkt :: pkt in Resent(q.a, expired) ==> exists f :: f in q.abNet && f.pkt == pkt)
      && (forall pkt :: pkt in Resent(q.b, expired) ==> exists f :: f in q.baNet && f.pkt == pkt)
  {
    hide Run, CanRun, Aligned, Known;
    FreshIsAligned(p);
    FreshIsKnown(p);
    RunKeeps(p, acts);
    var q := Run(p, acts);
    ResentIsKnown(q.a, expired, q.abNet);
    ResentIsKnown(q.b, expired, q.baNet);
  }

  lemma SafePrefix(tx: Tx, rx: Rx, c: Chan)
    requires ChanOk(tx, rx, c)
    ensures Reassembled(rx, c) <= c.accepted
  {
    ConcatPrefix(c.hist, c.got);
  }

  /**
    Whatever the network and the host do to a fresh pair, each receiver's stream is a prefix of
    what the other end's session handed over, across wrap-around, retransmission and failed sends.
  */
  lemma StreamIsPrefix(p: Pair, acts: seq<Action>)
    requires Fresh(p) && CanRun(p, acts)
    ensures var q := Run(p, acts);
      Reassembled(q.b.rx, q.ab) <= q.ab.accepted && Reassembled(q.a.rx, q.ba) <= q.ba.accepted
  {
    hide Run, CanRun, ChanOk, Known;
    FreshIsAligned(p);
    FreshIsKnown(p);
    RunKeeps(p, acts);
    var q := Run(p, acts);
    SafePrefix(q.a.tx, q.b.rx, q.ab);
    SafePrefix(q.b.tx, q.a.rx, q.ba);
  }

  lemma FreshIsKnown(p: Pair)
    requires Fresh(p)
    ensures Known(p.a.tx, p.abNet) && Known(p.b.tx, p.baNet)
  {
  }

  lemma FreshIsAligned(p: Pair)
    requires Fresh(p)
    ensures Aligned(p)
  {
  }

  // ----- the transmit loop is a run of rounds

  function Rounds(s: Sock, verdicts: seq<bool>): seq<Action>
    decreases |s.tx.sendBuf|
  {
    if !CanTransmit(s) then []
    else if Verdict(verdicts) then [Action(SideA, DoSend(true))] + Rounds(TransmitOne(s, true), Later(verdicts))
    else [Action(SideA, DoSend(false))]
  }

  /** One call of the loop is a run of single sends: same socket, and what it sends is on the network. */
  lemma {:induction false} TransmitIsRounds(p: Pair, verdicts: seq<bool>)
    ensures var q := Run(p, Rounds(p.a, verdicts));
      && CanRun(p, Rounds(p.a, verdicts))
      && q.a == Transmit(p.a, verdicts)
      && p.abNet <= q.abNet
      && forall pkt :: pkt in Transmitted(p.a, verdicts) ==> exists f :: f in q.abNet && f.pkt == pkt
    decreases |p.a.tx.sendBuf|
  {
    if CanTransmit(p.a) {
      var ok := Verdict(verdicts);
      var act := Action(SideA, DoSend(ok));
      var acts := Rounds(p.a, verdicts);
      var p' := Step(p, act);
      assert acts[0] == act;
      if ok {
        assert acts[1..] == Rounds(p'.a, Later(verdicts));
        TransmitIsRounds(p', Later(verdicts));
        var f := Flying(DataPacket(p.a), |p.ab.hist|, p.ba.got);
        assert f in p'.abNet;
      } else {
        assert acts[1..] == [];
      }
    }
  }

  // ----- how a pair comes about

  /** The initiator after some attempts to send its SYN. */
  function Dialled(s: Sock, verdicts: seq<bool>): Sock
    decreases |verdicts|
  {
    if verdicts == [] then s else Dialled(SendSyn(s, verdicts[0]), verdicts[1..])
  }

  lemma {:induction false} DialledIs(s: Sock, verdicts: seq<bool>)
    requires s.tx.nextSeq == s.synSeq || s.tx.nextSeq == Wrap(s.synSeq + 1)
    ensures var d := Dialled(s, verdicts);
      && d == s.(tx := s.tx.(nextSeq := d.tx.nextSeq))
      && d.tx.nextSeq == if true in verdicts then Wrap(s.synSeq + 1) else s.tx.nextSeq
    decreases |verdicts|
  {
    if verdicts != [] {
      DialledIs(SendSyn(s, verdicts[0]), verdicts[1..]);
      assert true in verdicts <==> verdicts[0] || true in verdicts[1..];
    }
  }

  function OpenChan(base: u16): Chan {
    Chan(base, [], [], 0, [])
  }

  /** The two sockets at the moment a SYN that went out reaches the other side. */
  function Opened(verdicts: seq<bool>): Pair {
    var a := Dialled(Dial(NewSock()), verdicts);
    var b := Answer(NewSock(), SynPacket(a));
    Pair(a, b, OpenChan(a.tx.nextSeq), OpenChan(b.tx.nextSeq), {}, {})
  }

  /**
    However many SYNs were refused or lost before one arrived, the pair it opens is fresh: the two
    ends agree on both streams' first numbers before either has heard an acknowledgement.
  */
  lemma OpenedIsFresh(verdicts: seq<bool>)
    requires true in verdicts
    ensures Fresh(Opened(verdicts))
  {
    DialledIs(Dial(NewSock()), verdicts);
  }

  /** Repeating the SYN afterwards, sent or not, changes neither end's numbers. */
  lemma RepeatedSynIsQuiet(verdicts: seq<bool>, more: seq<bool>)
    requires true in verdicts
    ensures var a := Opened(verdicts).a;
      Dialled(a, more) == a
  {
    DialledIs(Dial(NewSock()), verdicts);
    DialledIs(Opened(verdicts).a, more);
  }

  /** Whatever follows the opening, streams are prefixes. */
  lemma OpenedStreamsArePrefixes(verdicts: seq<bool>, acts: seq<Action>)
    requires true in verdicts && CanRun(Opened(verdicts), acts)
    ensures var q := Run(Opened(verdicts), acts);
      Reassembled(q.b.rx, q.ab) <= q.ab.accepted && Reassembled(q.a.rx, q.ba) <= q.ba.accepted
  {
    OpenedIsFresh(verdicts);
    StreamIsPrefix(Opened(verdicts), acts);
  }
}
