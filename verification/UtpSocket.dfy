/**
  The uTP socket as the object that the transport drives. Each method does what the step
  function of the same name says; the host answers every send from its list of verdicts.
*/
module UtpSocket {
  import opened Common
  import S = UtpStep

  type u16 = S.u16
  type Packet = S.Packet

  /** The datagrams of `pkts` that the host takes. */
  function Heard(pkts: seq<Packet>, verdicts: seq<bool>): seq<Packet>
    decreases |pkts|
  {
    if pkts == [] then []
    else (if S.Verdict(verdicts) then [pkts[0]] else []) + Heard(pkts[1..], S.Later(verdicts))
  }

  function After(n: nat, verdicts: seq<bool>): seq<bool> {
    if n <= |verdicts| then verdicts[n..] else []
  }

  /** What the resend loop still has to do, before and after one entry. */
  lemma ResendUnfolds(s: S.Sock, expired: seq<u16>, i: nat, verdicts: seq<bool>)
    requires i < |expired| && !s.life.Closed?
    ensures var rest := expired[i + 1..];
      if expired[i] !in s.tx.unacked then
        S.Resend(s, expired[i..]) == S.Resend(s, rest) && S.Resent(s, expired[i..]) == S.Resent(s, rest)
      else
        var s' := S.Bump(s, expired[i]);
        var pkt := s.tx.unacked[expired[i]].packet;
        if s'.life.Closed? then
          && S.Resend(s, expired[i..]) == s' && S.Resent(s, expired[i..]) == []
          && Heard([], verdicts) == [] && After(0, verdicts) == verdicts
        else
          && S.Resend(s, expired[i..]) == S.Resend(s', rest)
          && Heard(S.Resent(s, expired[i..]), verdicts)
             == (if S.Verdict(verdicts) then [pkt] else []) + Heard(S.Resent(s', rest), S.Later(verdicts))
          && After(|S.Resent(s, expired[i..])|, verdicts) == After(|S.Resent(s', rest)|, S.Later(verdicts))
  {
    assert expired[i..][1..] == expired[i + 1..];
  }

  lemma ResendNone(s: S.Sock, expired: seq<u16>, verdicts: seq<bool>)
    ensures var rest := expired[|expired|..];
      S.Resend(s, rest) == s && Heard(S.Resent(s, rest), verdicts) == [] && After(|S.Resent(s, rest)|, verdicts) == verdicts
  {
  }

  /** What a read gives. */
  datatype Received = NotOpen | EndOfStream | Nothing | Got(data: Bytes)

  class UdpHost {
    var verdicts: seq<bool>
    var wire: seq<Packet>

    method UdpSend(pkt: Packet) returns (ok: bool)
      modifies this
      ensures ok == S.Verdict(old(verdicts)) && verdicts == S.Later(old(verdicts))
      ensures wire == old(wire) + if ok then [pkt] else []
    {
      ok := |verdicts| > 0 && verdicts[0];
      if |verdicts| > 0 {
        verdicts := verdicts[1..];
      }
      if ok {
        wire := wire + [pkt];
      }
    }
  }

  class UtpSocket {
    var life: S.Life
    var synSeq: u16
    var nextSeq: u16
    var ackNr: u16
    var recvBuf: Bytes
    var oob: map<u16, Bytes>
    var sendBuf: Bytes
    var unacked: S.Window
    var inFlight: nat
    var peerWnd: nat
    var cwnd: nat
    var ackPending: bool
    var peerFin: bool
    var finSent: bool

    ghost function TxView(): S.Tx
      reads this
    {
      S.Tx(nextSeq, sendBuf, unacked, inFlight, peerWnd, cwnd)
    }

    ghost function RxView(): S.Rx
      reads this
    {
      S.Rx(ackNr, recvBuf, oob)
    }

    ghost function View(): S.Sock
      reads this
    {
      S.Sock(life, synSeq, TxView(), RxView(), ackPending, peerFin, finSent)
    }

    constructor ()
      ensures View() == S.NewSock()
    {
      life, synSeq, nextSeq, ackNr := S.SynSent, 0, 0, 0;
      recvBuf, oob, sendBuf, unacked := [], map[], [], map[];
      inFlight, peerWnd, cwnd := 0, S.RECV_WINDOW, S.INIT_WINDOW;
      ackPending, peerFin, finSent := false, false, false;
    }

    /** What the transport sets on a socket it opens. */
    method Dial()
      modifies this`ackNr
      ensures View() == S.Dial(old(View()))
    {
      ackNr := S.Wrap(synSeq - 1);
    }

    method SendSyn(host: UdpHost)
      modifies this`nextSeq, host
      ensures View() == S.SendSyn(old(View()), S.Verdict(old(host.verdicts)))
      ensures host.wire == old(host.wire) + Heard([S.SynPacket(old(View()))], old(host.verdicts))
    {
      var pkt := BuildPacket(S.Syn, synSeq, []);
      var ok := host.UdpSend(pkt.(ackNr := 0));
      if ok {
        if nextSeq == synSeq {
          nextSeq := S.Wrap(synSeq + 1);
        }
      }
    }

    /** What the transport sets on a socket it makes for a SYN, and the acknowledgement it sends at once. */
    method Answer(host: UdpHost, syn: Packet)
      modifies this`life, this`ackNr, this`ackPending, host
      ensures View() == S.SendAck(S.Answer(old(View()), syn), S.Verdict(old(host.verdicts)))
      ensures host.wire == old(host.wire) + Heard([S.AckPacket(S.Answer(old(View()), syn))], old(host.verdicts))
    {
      life := S.Connected;
      ackNr := syn.seqNr;
      ackPending := true;
      SendAck(host);
    }

    method BuildPacket(kind: S.Kind, seqNr: u16, payload: Bytes) returns (pkt: Packet)
      ensures pkt == S.Build(View(), kind, seqNr, payload)
      ensures pkt.kind == kind && pkt.seqNr == seqNr && pkt.payload == payload && pkt.ackNr == ackNr
      ensures |recvBuf| + 1400 * |oob| <= 512 * 1024 ==> pkt.wnd + |recvBuf| + 1400 * |oob| == 512 * 1024
      ensures |recvBuf| + 1400 * |oob| > 512 * 1024 ==> pkt.wnd == 0
    {
      var used := |recvBuf| + |oob| * S.MAX_PAYLOAD;
      pkt := S.Packet(kind, seqNr, ackNr, if used <= S.RECV_WINDOW then S.RECV_WINDOW - used else 0, payload);
    }

    method OnAck(ack: u16, wnd: nat, ledbat: Option<int>)
      modifies this
      ensures View() == S.OnAck(old(View()), ack, wnd, ledbat)
    {
      hide S.FreeBelow, S.SeqLe, S.Clamp;
      if life.SynSent? && S.SeqLe(synSeq, ack) {
        life := S.Connected;
      }
      var first := S.FirstKey(unacked, 0);
      if first.Some? && S.SeqLe(first.value, ack) {
        FreeAcked(ack);
        peerWnd := wnd;
        if ledbat.Some? {
          cwnd := S.Clamp(ledbat.value);
        }
        if life.FinSent? && unacked == map[] {
          life := S.Closed;
        }
      }
    }

    /** Removes every packet the ack covers, in key order. */
    method FreeAcked(ack: u16)
      modifies this`unacked, this`inFlight
      ensures TxView() == S.FreeBelow(old(TxView()), ack, 0x10000)
    {
      for s := 0 to 0x10000
        invariant TxView() == S.FreeBelow(old(TxView()), ack, s)
      {
        if s in unacked && S.SeqLe(s, ack) {
          var len := unacked[s].payloadLen;
          inFlight := if len <= inFlight then inFlight - len else 0;
          unacked := unacked - {s};
        }
      }
    }

    /** Accepts a payload and moves whatever has become contiguous into the stream. */
    method OnData(seqNr: u16, payload: Bytes)
      modifies this`ackNr, this`recvBuf, this`oob, this`ackPending
      ensures View() == S.OnData(old(View()), seqNr, payload)
    {
      hide S.Wrap, S.Drain;
      if life.Closed? || payload == [] {
        return;
      }
      if |recvBuf| + |oob| >= S.RECV_WINDOW {
        return;
      }
      if S.SeqLe(seqNr, ackNr) {
        return;
      }
      if seqNr == S.Wrap(ackNr + 1) {
        ackNr := seqNr;
        recvBuf := recvBuf + payload;
        DrainOob();
        ackPending := true;
      } else {
        if |oob| < S.OOB_CAP {
          oob := oob[seqNr := payload];
        }
        ackPending := true;
      }
    }

    method DrainOob()
      modifies this`ackNr, this`recvBuf, this`oob
      ensures RxView() == S.Drain(old(RxView()))
    {
      hide S.Wrap;
      while S.Wrap(ackNr + 1) in oob
        invariant S.Drain(RxView()) == S.Drain(old(RxView()))
        decreases |oob|
      {
        var next := S.Wrap(ackNr + 1);
        ackNr, recvBuf, oob := next, recvBuf + oob[next], oob - {next};
      }
    }

    /** Dispatches one packet; a SYN on a live connection is acknowledged at once. */
    method OnPacket(host: UdpHost, p: Packet, ledbat: Option<int>)
      modifies this, host
      ensures var s := S.OnPacket(old(View()), p, ledbat);
        if p.kind.Syn? && s.life.Connected? && s.ackPending then
          && View() == S.SendAck(s, S.Verdict(old(host.verdicts)))
          && host.wire == old(host.wire) + Heard([S.AckPacket(s)], old(host.verdicts))
        else View() == s && host.wire == old(host.wire)
    {
      match p.kind {
      case Syn =>
        if !life.Closed? {
          life := S.Connected;
          ackPending := true;
        }
      case State => OnAck(p.ackNr, p.wnd, ledbat);
      case Data =>
        OnAck(p.ackNr, p.wnd, ledbat);
        OnData(p.seqNr, p.payload);
      case Fin =>
        OnAck(p.ackNr, p.wnd, ledbat);
        peerFin := true;
        ackPending := true;
      case Reset =>
        life := S.Closed;
      }
      if life.Connected? && ackPending && p.kind.Syn? {
        SendAck(host);
      }
    }

    method SendAck(host: UdpHost)
      modifies this`ackPending, host
      ensures View() == S.SendAck(old(View()), S.Verdict(old(host.verdicts)))
      ensures host.verdicts == S.Later(old(host.verdicts))
      ensures host.wire == old(host.wire) + Heard([S.AckPacket(old(View()))], old(host.verdicts))
    {
      var pkt := BuildPacket(S.State, nextSeq, []);
      var ok := host.UdpSend(pkt);
      if ok {
        ackPending := false;
      }
    }

    /** Packetises queued bytes until the window or the queue is exhausted, or a send fails. */
    method Transmit(host: UdpHost)
      modifies this`sendBuf, this`nextSeq, this`unacked, this`inFlight, host
      ensures View() == S.Transmit(old(View()), old(host.verdicts))
      ensures host.wire == old(host.wire) + S.Transmitted(old(View()), old(host.verdicts))
    {
      hide S.TransmitOne;
      if !life.Connected? || finSent {
        return;
      }
      while inFlight + S.MAX_PAYLOAD <= Min(cwnd, peerWnd) && |sendBuf| > 0
        invariant S.Transmit(View(), host.verdicts) == S.Transmit(old(View()), old(host.verdicts))
        invariant host.wire + S.Transmitted(View(), host.verdicts)
                  == old(host.wire) + S.Transmitted(old(View()), old(host.verdicts))
        decreases |sendBuf|
      {
        var ok := SendOne(host);
        if !ok {
          return;
        }
      }
    }

    /** Sends the next chunk under the next sequence number; a failed send puts the chunk back. */
    method SendOne(host: UdpHost) returns (ok: bool)
      requires S.CanTransmit(View())
      modifies this`sendBuf, this`nextSeq, this`unacked, this`inFlight, host
      ensures ok == S.Verdict(old(host.verdicts)) && host.verdicts == S.Later(old(host.verdicts))
      ensures View() == S.TransmitOne(old(View()), ok)
      ensures ok ==> |sendBuf| < old(|sendBuf|)
      ensures host.wire == old(host.wire) + if ok then [S.DataPacket(old(View()))] else []
    {
      hide S.Wrap;
      var take := Min(|sendBuf|, S.MAX_PAYLOAD);
      var payload := sendBuf[..take];
      var seqNr := nextSeq;
      var pkt := BuildPacket(S.Data, seqNr, payload);
      sendBuf := sendBuf[take..];
      nextSeq := S.Wrap(nextSeq + 1);
      ok := host.UdpSend(pkt);
      if ok {
        unacked := unacked[seqNr := S.Unacked(pkt, |payload|, 0)];
        inFlight := inFlight + |payload|;
      } else {
        sendBuf := payload + sendBuf;
      }
    }

    /** Resends what has timed out, then flushes an owed ack. */
    method TickRetransmit(host: UdpHost, expired: seq<u16>, delayed: bool)
      modifies this`unacked, this`life, this`ackPending, host
      ensures var s := old(View());
        var resent := if S.Readable(s) then S.Resent(s, expired) else [];
        var s' := if S.Readable(s) then S.Resend(s, expired) else s;
        var verdicts' := After(|resent|, old(host.verdicts));
        var acks := if S.OwesAck(s', delayed) then [S.AckPacket(s')] else [];
        && View() == (if acks != [] then S.SendAck(s', S.Verdict(verdicts')) else s')
        && host.wire == old(host.wire) + Heard(resent, old(host.verdicts)) + Heard(acks, verdicts')
    {
      if life.Connected? || life.FinSent? {
        var closed := ResendExpired(host, expired);
        if closed {
          return;
        }
      }
      if ackPending && !life.Closed? && (|sendBuf| == 0 || delayed) {
        SendAck(host);
      }
    }

    method ResendExpired(host: UdpHost, expired: seq<u16>) returns (closed: bool)
      requires !life.Closed?
      modifies this`unacked, this`life, host
      ensures View() == S.Resend(old(View()), expired)
      ensures closed <==> life.Closed?
      ensures host.wire == old(host.wire) + Heard(S.Resent(old(View()), expired), old(host.verdicts))
      ensures host.verdicts == After(|S.Resent(old(View()), expired)|, old(host.verdicts))
    {
      hide S.Bump, S.Resend, S.Resent, After, Heard, S.Verdict, S.Later;
      assert expired[0..] == expired;
      var i := 0;
      while i < |expired|
        invariant 0 <= i <= |expired| && !life.Closed?
        invariant S.Resend(View(), expired[i..]) == S.Resend(old(View()), expired)
        invariant host.wire + Heard(S.Resent(View(), expired[i..]), host.verdicts)
                  == old(host.wire) + Heard(S.Resent(old(View()), expired), old(host.verdicts))
        invariant After(|S.Resent(View(), expired[i..])|, host.verdicts)
                  == After(|S.Resent(old(View()), expired)|, old(host.verdicts))
      {
        var s := expired[i];
        ResendUnfolds(View(), expired, i, host.verdicts);
        if s in unacked {
          var pkt := BumpAttempts(s);
          if life.Closed? {
            return true;
          }
          var _ := host.UdpSend(pkt);
        }
        i := i + 1;
      }
      ResendNone(View(), expired, host.verdicts);
      return false;
    }

    method BumpAttempts(k: u16) returns (pkt: Packet)
      requires k in unacked
      modifies this`unacked, this`life
      ensures View() == S.Bump(old(View()), k) && pkt == old(unacked)[k].packet
    {
      var u := unacked[k];
      unacked := unacked[k := u.(attempts := u.attempts + 1)];
      if u.attempts + 1 >= S.MAX_DATA_RETRIES {
        life := S.Closed;
      }
      pkt := u.packet;
    }

    method SendFin(host: UdpHost)
      modifies this`finSent, this`nextSeq, this`life, host
      ensures View() == S.SendFin(old(View()))
      ensures old(finSent) ==> host.wire == old(host.wire)
      ensures !old(finSent) ==> host.wire == old(host.wire) + Heard([S.FinPacket(old(View()))], old(host.verdicts))
    {
      if finSent {
        return;
      }
      var pkt := BuildPacket(S.Fin, nextSeq, []);
      finSent := true;
      nextSeq := S.Wrap(nextSeq + 1);
      var _ := host.UdpSend(pkt);
      life := S.FinSent;
    }

    method Send(data: Bytes) returns (taken: Option<nat>)
      modifies this`sendBuf
      ensures View() == S.Accept(old(View()), data)
      ensures taken == if (life.Connected? || life.FinSent?) && !finSent then Some(|data|) else None
      ensures sendBuf == old(sendBuf) + if taken.Some? then data else []
    {
      if (life.Connected? || life.FinSent?) && !finSent {
        sendBuf := sendBuf + data;
        return Some(|data|);
      }
      return None;
    }

    /** Bytes come out in order; without any, the outcome tells a stream not open yet, one at its end and one that waits. */
    method Recv(room: nat) returns (r: Received)
      modifies this`recvBuf
      ensures View() == S.Read(old(View()), room)
      ensures r.NotOpen? <==> life.SynSent?
      ensures r.EndOfStream? <==> life.Closed? || (S.Readable(View()) && old(recvBuf) == [] && peerFin)
      ensures r.Nothing? <==> S.Readable(View()) && old(recvBuf) == [] && !peerFin
      ensures r.Got? ==> r.data == old(recvBuf)[..Min(room, |old(recvBuf)|)] && r.data + recvBuf == old(recvBuf)
    {
      match life {
        case SynSent => r := NotOpen;
        case Closed => r := EndOfStream;
        case _ =>
          if |recvBuf| == 0 {
            r := if peerFin then EndOfStream else Nothing;
          } else {
            var n := Min(room, |recvBuf|);
            r := Got(recvBuf[..n]);
            recvBuf := recvBuf[n..];
          }
      }
    }

    method Close()
      modifies this`life
      ensures View() == S.Close(old(View()))
    {
      life := if life.Connected? then S.FinSent else S.Closed;
    }
  }
}
