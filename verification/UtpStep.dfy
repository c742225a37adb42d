/**
  One uTP endpoint (BEP 29) as a value, and what each call on it does.

  A socket is split into its sending half `Tx` and its receiving half `Rx`. Everything
  the source reads from a clock enters as a parameter: whether a LEDBAT update is due and
  the window it asks for, which packets have timed out, whether the delayed-ack timer has
  fired. Whether a datagram could be handed to the host is a `verdict`.
*/
module UtpStep {
  import opened Common

  const MAX_PAYLOAD := 1400
  const RECV_WINDOW := 512 * 1024
  const MIN_WINDOW := 2 * MAX_PAYLOAD
  const MAX_WINDOW := 1024 * 1024
  const INIT_WINDOW := 4 * MAX_PAYLOAD
  const OOB_CAP := 1024
  const MAX_DATA_RETRIES := 8

  type u16 = x: int | 0 <= x < 0x10000

  function Wrap(x: int): (r: u16) {
    x % 0x10000
  }

  /** At or before, in half of the 16-bit circle. */
  predicate SeqLe(a: u16, b: u16) {
    Wrap(b - a) < 0x8000
  }

  datatype Kind = Data | Fin | State | Reset | Syn
  datatype Packet = Packet(kind: Kind, seqNr: u16, ackNr: u16, wnd: nat, payload: Bytes)
  datatype Unacked = Unacked(packet: Packet, payloadLen: nat, attempts: nat)
  type Window = map<u16, Unacked>

  datatype Tx = Tx(nextSeq: u16, sendBuf: Bytes, unacked: Window, inFlight: nat, peerWnd: nat, cwnd: nat)
  datatype Rx = Rx(ackNr: u16, recvBuf: Bytes, oob: map<u16, Bytes>)
  datatype Life = SynSent | Connected | FinSent | Closed
  datatype Sock = Sock(life: Life, synSeq: u16, tx: Tx, rx: Rx, ackPending: bool, peerFin: bool, finSent: bool)

  // ----- building packets

  function AdvertisedWindow(rx: Rx): (w: nat) {
    Max(0, RECV_WINDOW - (|rx.recvBuf| + |rx.oob| * MAX_PAYLOAD))
  }

  function Build(s: Sock, kind: Kind, seqNr: u16, payload: Bytes): Packet {
    Packet(kind, seqNr, s.rx.ackNr, AdvertisedWindow(s.rx), payload)
  }

  // ----- opening a connection

  function NewSock(): Sock {
    Sock(SynSent, 0, Tx(0, [], map[], 0, RECV_WINDOW, INIT_WINDOW), Rx(0, [], map[]), false, false, false)
  }

  /** The initiator expects the other stream to start at its own SYN's number. */
  function Dial(s: Sock): Sock {
    s.(rx := s.rx.(ackNr := Wrap(s.synSeq - 1)))
  }

  function SynPacket(s: Sock): Packet {
    Packet(Syn, s.synSeq, 0, AdvertisedWindow(s.rx), [])
  }

  /** The first SYN the host takes uses up its sequence number; later ones repeat it. */
  function SendSyn(s: Sock, ok: bool): Sock {
    if ok && s.tx.nextSeq == s.synSeq then s.(tx := s.tx.(nextSeq := Wrap(s.synSeq + 1))) else s
  }

  /** The socket made for a SYN that belongs to no connection, before it acknowledges. */
  function Answer(s: Sock, syn: Packet): Sock {
    s.(life := Connected, rx := s.rx.(ackNr := syn.seqNr), ackPending := true)
  }

  // ----- acknowledgements

  /** Least key at or above `from`: the first entry of the ordered map when `from` is 0. */
  function FirstKey(m: Window, from: nat): (k: Option<u16>)
    requires from <= 0x10000
    ensures k.None? ==> forall j :: j in m ==> j < from
    ensures k.Some? ==> k.value in m && from <= k.value && forall j :: j in m && from <= j ==> k.value <= j
    decreases 0x10000 - from
  {
    if from == 0x10000 then None
    else if from in m then Some(from)
    else FirstKey(m, from + 1)
  }

  /** Drops the packets with a key below `n` that the cumulative ack covers, in key order. */
  function FreeBelow(tx: Tx, ack: u16, n: nat): (t: Tx)
    requires n <= 0x10000
  {
    if n == 0 then tx
    else
      var t := FreeBelow(tx, ack, n - 1);
      if n - 1 in t.unacked && SeqLe(n - 1, ack) then
        t.(unacked := t.unacked - {n - 1}, inFlight := Max(0, t.inFlight - t.unacked[n - 1].payloadLen))
      else t
  }

  function Clamp(x: int): (r: nat)
    ensures MIN_WINDOW <= r <= MAX_WINDOW
  {
    if x < MIN_WINDOW then MIN_WINDOW else if x > MAX_WINDOW then MAX_WINDOW else x
  }

  predicate FreesSomething(tx: Tx, ack: u16) {
    var first := FirstKey(tx.unacked, 0);
    first.Some? && SeqLe(first.value, ack)
  }

  /** The cumulative ack; `ledbat` is the window the delay estimate asks for, when an update is due. */
  function OnAck(s: Sock, ack: u16, wnd: nat, ledbat: Option<int>): Sock {
    var life := if s.life.SynSent? && SeqLe(s.synSeq, ack) then Connected else s.life;
    if !FreesSomething(s.tx, ack) then s.(life := life)
    else
      var t := FreeBelow(s.tx, ack, 0x10000);
      var cwnd := if ledbat.Some? then Clamp(ledbat.value) else t.cwnd;
      s.(tx := t.(peerWnd := wnd, cwnd := cwnd),
         life := if life.FinSent? && t.unacked == map[] then Closed else life)
  }

  // ----- incoming data

  /** Moves buffered out-of-order payloads that have become contiguous into the stream. */
  function Drain(rx: Rx): Rx
    decreases |rx.oob|
  {
    var next := Wrap(rx.ackNr + 1);
    if next in rx.oob then Drain(Rx(next, rx.recvBuf + rx.oob[next], rx.oob - {next})) else rx
  }

  function DrainCount(rx: Rx): nat
    decreases |rx.oob|
  {
    var next := Wrap(rx.ackNr + 1);
    if next in rx.oob then 1 + DrainCount(Rx(next, rx.recvBuf + rx.oob[next], rx.oob - {next})) else 0
  }

  /** Data that is neither empty, nor beyond the buffer, nor a duplicate. */
  predicate Takes(s: Sock, seqNr: u16, payload: Bytes) {
    !s.life.Closed? && payload != [] && |s.rx.recvBuf| + |s.rx.oob| < RECV_WINDOW && !SeqLe(seqNr, s.rx.ackNr)
  }

  predicate InOrder(rx: Rx, seqNr: u16) {
    seqNr == Wrap(rx.ackNr + 1)
  }

  function Append(rx: Rx, seqNr: u16, payload: Bytes): Rx {
    Rx(seqNr, rx.recvBuf + payload, rx.oob)
  }

  function OnData(s: Sock, seqNr: u16, payload: Bytes): Sock {
    if !Takes(s, seqNr, payload) then s
    else if InOrder(s.rx, seqNr) then s.(rx := Drain(Append(s.rx, seqNr, payload)), ackPending := true)
    else if |s.rx.oob| < OOB_CAP then s.(rx := s.rx.(oob := s.rx.oob[seqNr := payload]), ackPending := true)
    else s.(ackPending := true)
  }

  /** How many packet numbers the contiguous prefix grows by. */
  function Absorbed(s: Sock, seqNr: u16, payload: Bytes): nat {
    if Takes(s, seqNr, payload) && InOrder(s.rx, seqNr) then 1 + DrainCount(Append(s.rx, seqNr, payload)) else 0
  }

  /** Dispatch on the packet type. A SYN is acknowledged by the caller. */
  function OnPacket(s: Sock, p: Packet, ledbat: Option<int>): Sock {
    match p.kind
    case Syn => if s.life.Closed? then s else s.(life := Connected, ackPending := true)
    case State => OnAck(s, p.ackNr, p.wnd, ledbat)
    case Data => OnData(OnAck(s, p.ackNr, p.wnd, ledbat), p.seqNr, p.payload)
    case Fin => OnAck(s, p.ackNr, p.wnd, ledbat).(peerFin := true, ackPending := true)
    case Reset => s.(life := Closed)
  }

  // ----- outgoing data

  predicate CanTransmit(s: Sock) {
    s.life.Connected? && !s.finSent && s.tx.inFlight + MAX_PAYLOAD <= Min(s.tx.cwnd, s.tx.peerWnd) && s.tx.sendBuf != []
  }

  function Chunk(s: Sock): Bytes {
    s.tx.sendBuf[..Min(|s.tx.sendBuf|, MAX_PAYLOAD)]
  }

  function DataPacket(s: Sock): Packet {
    Build(s, Data, s.tx.nextSeq, Chunk(s))
  }

  /** One round of the transmit loop: the sequence number is used up whether or not the send succeeds. */
  function TransmitOne(s: Sock, ok: bool): Sock
    requires CanTransmit(s)
  {
    var seqNr := s.tx.nextSeq;
    var chunk := Chunk(s);
    var t := s.tx.(nextSeq := Wrap(seqNr + 1));
    if ok then
      s.(tx := t.(sendBuf := s.tx.sendBuf[|chunk|..],
                  unacked := t.unacked[seqNr := Unacked(DataPacket(s), |chunk|, 0)],
                  inFlight := t.inFlight + |chunk|))
    else s.(tx := t)
  }

  function Verdict(verdicts: seq<bool>): bool {
    verdicts != [] && verdicts[0]
  }

  function Later(verdicts: seq<bool>): seq<bool> {
    if verdicts == [] then [] else verdicts[1..]
  }

  /** The whole transmit loop; it stops at the first failed send. */
  function Transmit(s: Sock, verdicts: seq<bool>): Sock
    decreases |s.tx.sendBuf|
  {
    if !CanTransmit(s) then s
    else if Verdict(verdicts) then Transmit(TransmitOne(s, true), Later(verdicts))
    else TransmitOne(s, false)
  }

  /** The datagrams the transmit loop hands to the host, in order. */
  function Transmitted(s: Sock, verdicts: seq<bool>): seq<Packet>
    decreases |s.tx.sendBuf|
  {
    if CanTransmit(s) && Verdict(verdicts) then
      [DataPacket(s)] + Transmitted(TransmitOne(s, true), Later(verdicts))
    else []
  }

  function AckPacket(s: Sock): Packet {
    Build(s, State, s.tx.nextSeq, [])
  }

  function SendAck(s: Sock, ok: bool): Sock {
    if ok then s.(ackPending := false) else s
  }

  function FinPacket(s: Sock): Packet {
    Build(s, Fin, s.tx.nextSeq, [])
  }

  function SendFin(s: Sock): Sock {
    if s.finSent then s
    else s.(finSent := true, life := FinSent, tx := s.tx.(nextSeq := Wrap(s.tx.nextSeq + 1)))
  }

  // ----- retransmission

  /** One more attempt on the packet with key `k`. */
  function Bump(s: Sock, k: u16): Sock
    requires k in s.tx.unacked
  {
    var u := s.tx.unacked[k];
    var s' := s.(tx := s.tx.(unacked := s.tx.unacked[k := u.(attempts := u.attempts + 1)]));
    if u.attempts + 1 >= MAX_DATA_RETRIES then s'.(life := Closed) else s'
  }

  /** Resends the timed-out packets in turn; too many attempts on one closes the connection at once. */
  function Resend(s: Sock, expired: seq<u16>): Sock
    decreases |expired|
  {
    if expired == [] || s.life.Closed? then s
    else if expired[0] !in s.tx.unacked then Resend(s, expired[1..])
    else Resend(Bump(s, expired[0]), expired[1..])
  }

  /** The datagrams offered to the host by `Resend`. */
  function Resent(s: Sock, expired: seq<u16>): seq<Packet>
    decreases |expired|
  {
    if expired == [] || s.life.Closed? then []
    else if expired[0] !in s.tx.unacked then Resent(s, expired[1..])
    else
      var s' := Bump(s, expired[0]);
      if s'.life.Closed? then [] else [s.tx.unacked[expired[0]].packet] + Resent(s', expired[1..])
  }

  /** Whether the delayed ack is flushed at the end of a tick. */
  predicate OwesAck(s: Sock, delayed: bool) {
    s.ackPending && !s.life.Closed? && (s.tx.sendBuf == [] || delayed)
  }

  // ----- the session's side

  predicate Accepts(s: Sock) {
    (s.life.Connected? || s.life.FinSent?) && !s.finSent
  }

  function Accept(s: Sock, data: Bytes): Sock {
    if Accepts(s) then s.(tx := s.tx.(sendBuf := s.tx.sendBuf + data)) else s
  }

  predicate Readable(s: Sock) {
    s.life.Connected? || s.life.FinSent?
  }

  /** Number of bytes one read hands over. */
  function ReadLen(s: Sock, room: nat): (n: nat)
    ensures n <= |s.rx.recvBuf| && n <= room
  {
    if Readable(s) then Min(room, |s.rx.recvBuf|) else 0
  }

  function Read(s: Sock, room: nat): Sock {
    s.(rx := s.rx.(recvBuf := s.rx.recvBuf[ReadLen(s, room)..]))
  }

  function Close(s: Sock): Sock {
    s.(life := if s.life.Connected? then FinSent else Closed)
  }
}
