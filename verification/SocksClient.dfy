/**
 * The non-blocking SOCKS5 client (`src/socks.rs`): however the proxy's bytes
 * are chunked and however often the socket refuses, the handshake writes
 * exactly its script and ends exactly with the proxy's conversation.
 */
module SocksClient {
  import opened Common
  import opened SocksFrames

  /** What the socket does with one call: handles up to `n` bytes, or reports an error. */
  datatype Verdict = Takes(n: nat) | Fails(error: Error)

  predicate Moves(v: Verdict) {
    v.Takes? && v.n > 0
  }

  predicate Breaks(v: Verdict) {
    v.Fails? && v.error != WouldBlock
  }

  ghost predicate MovesSince(tape: nat -> Verdict, k: nat) {
    exists j: nat :: j >= k && Moves(tape(j))
  }

  /** A socket direction that never refuses for ever. */
  ghost predicate Fair(tape: nat -> Verdict) {
    forall k: nat :: MovesSince(tape, k)
  }

  ghost function Goal(tape: nat -> Verdict, k: nat): (j: nat)
    requires Fair(tape)
    ensures j >= k && Moves(tape(j))
  {
    assert MovesSince(tape, k);
    var j: nat :| j >= k && Moves(tape(j));
    j
  }

  /** One socket to the proxy; its verdicts are arbitrary, call after call, without end. */
  class Socket {
    const stream: Bytes
    const sends: nat -> Verdict
    const recvs: nat -> Verdict
    var pos: nat
    var sent: Bytes
    var sendCalls: nat
    var recvCalls: nat

    constructor (stream: Bytes, sends: nat -> Verdict, recvs: nat -> Verdict)
      ensures this.stream == stream && this.sends == sends && this.recvs == recvs
      ensures pos == 0 && sent == [] && sendCalls == 0 && recvCalls == 0
    {
      this.stream, this.sends, this.recvs := stream, sends, recvs;
      pos, sent, sendCalls, recvCalls := 0, [], 0, 0;
    }

    method Send(data: Bytes) returns (v: Verdict)
      modifies this
      ensures sendCalls == old(sendCalls) + 1 && recvCalls == old(recvCalls) && pos == old(pos)
      ensures sends(old(sendCalls)).Fails? ==> v == sends(old(sendCalls)) && sent == old(sent)
      ensures sends(old(sendCalls)).Takes? ==>
                v == Takes(Min(sends(old(sendCalls)).n, |data|)) && sent == old(sent) + data[..v.n]
    {
      v := sends(sendCalls);
      sendCalls := sendCalls + 1;
      if v.Takes? {
        v := Takes(Min(v.n, |data|));
        sent := sent + data[..v.n];
      }
    }

    method Recv(want: nat) returns (v: Verdict, data: Bytes)
      requires pos <= |stream|
      modifies this
      ensures recvCalls == old(recvCalls) + 1 && sendCalls == old(sendCalls) && sent == old(sent)
      ensures pos <= |stream|
      ensures recvs(old(recvCalls)).Fails? ==> v == recvs(old(recvCalls)) && pos == old(pos) && data == []
      ensures recvs(old(recvCalls)).Takes? ==>
                v == Takes(Min(Min(recvs(old(recvCalls)).n, want), |stream| - old(pos))) && pos == old(pos) + v.n
      ensures data == stream[old(pos)..pos]
    {
      v, data := recvs(recvCalls), [];
      recvCalls := recvCalls + 1;
      if v.Takes? {
        v := Takes(Min(Min(v.n, want), |stream| - pos));
        data := stream[pos..pos + v.n];
        pos := pos + v.n;
      }
    }
  }

  datatype Status = InProgress | Finished

  datatype Result<T> = Ok(value: T) | Err(error: Error)

  class Socks5Client {
    const target: Target
    const cfg: Proxy
    const deadline: nat
    var phase: Phase
    var out: Bytes
    var outOff: nat
    var rx: Bytes

    /** Client and connection together. */
    ghost function View(h: Socket): Talk
      reads this, h
    {
      Talk(cfg, target, h.stream, h.pos, h.sent, phase, out, outOff, rx)
    }

    constructor (target: Target, cfg: Proxy, now: nat)
      ensures this.target == target && this.cfg == cfg
      ensures deadline == Min(now + cfg.timeout, 0xFFFF_FFFF_FFFF_FFFF)
      ensures phase == SendGreeting && out == GreetingFrame(cfg) && outOff == 0 && rx == []
      ensures AtRest()
      ensures forall h: Socket :: h.pos == 0 && h.sent == [] ==> Follows(View(h))
    {
      var methods: Bytes := [0];
      if cfg.username.Some? {
        methods := methods + [2];
      }
      this.target, this.cfg := target, cfg;
      phase := SendGreeting;
      out := [5, |methods|] + methods;
      outOff := 0;
      rx := [];
      deadline := Min(now + cfg.timeout, 0xFFFF_FFFF_FFFF_FFFF);
      new;
      assert out == GreetingFrame(cfg);
      hide GreetingFrame, Follows;
      forall h: Socket | h.pos == 0 && h.sent == [] ensures Follows(View(h)) {
        Starts(cfg, target, h.stream);
      }
    }

    /** Between calls no complete reply waits, no frame is fully written, the buffer is bounded. */
    ghost predicate AtRest()
      reads this
    {
      |rx| <= MAX_FRAME && Starved(phase, rx) && (out != [] ==> outOff < |out|)
    }

    /** Bytes the handshake still has to move. */
    ghost function Owed(h: Socket): int
      reads this, h
    {
      |Whole(View(h))| - |h.sent| + |h.stream| - h.pos
    }

    /** Why a call may fail: the proxy does not go along, or the socket broke. */
    ghost predicate Excused(h: Socket, e: Error)
      reads this, h
    {
      || (e in {Protocol, Handshake} && !Willing(View(h)))
      || (h.sendCalls > 0 && h.sends(h.sendCalls - 1) == Fails(e) && e != WouldBlock)
      || (h.recvCalls > 0 && h.recvs(h.recvCalls - 1) == Fails(e) && e != WouldBlock)
    }

    /** Send until the frame is out or the socket refuses. */
    method SendFrame(h: Socket) returns (r: Result<bool>)
      requires Follows(View(h))
      modifies h, this`outOff
      ensures Follows(View(h)) && h.pos == old(h.pos) && h.recvCalls == old(h.recvCalls)
      ensures old(outOff) <= outOff <= |out|
      ensures |h.sent| - old(|h.sent|) == outOff - old(outOff)
      ensures r.Ok? ==> r.value == (outOff > old(outOff))
      ensures r.Ok? && outOff == old(outOff) && outOff < |out| ==>
                h.sendCalls == old(h.sendCalls) + 1 && !Moves(h.sends(old(h.sendCalls)))
      ensures old(outOff) == |out| ==> r.Ok? && h.sendCalls == old(h.sendCalls)
      ensures r.Err? ==> Excused(h, r.error)
    {
      hide Follows, Willing;
      FollowsScript(View(h));
      var sentAny := false;
      while outOff < |out|
        invariant Follows(View(h)) && h.pos == old(h.pos) && h.recvCalls == old(h.recvCalls)
        invariant old(outOff) <= outOff <= |out|
        invariant sentAny == (outOff > old(outOff))
        invariant |h.sent| - old(|h.sent|) == outOff - old(outOff)
        invariant !sentAny ==> h.sendCalls == old(h.sendCalls)
        decreases |out| - outOff
      {
        ghost var before := View(h);
        var v := h.Send(out[outOff..]);
        if v == Takes(0) || v == Fails(WouldBlock) {
          assert h.sent == before.sent;
          break;
        }
        if v.Fails? {
          return Err(v.error);
        }
        Sends(before, v.n);
        outOff := outOff + v.n;
        sentAny := true;
      }
      r := Ok(sentAny);
    }

    method AfterSend(ghost h: Socket)
      requires Follows(View(h)) && out != [] && outOff >= |out|
      modifies this
      ensures View(h) == old(View(h)).(phase := Awaiting(old(phase)), out := [], off := 0)
      ensures Follows(View(h)) && Receiving(phase) && Rank(phase) < Rank(old(phase))
    {
      FollowsScript(View(h));
      FrameIsOut(View(h));
      hide Follows;
      match phase {
        case SendGreeting => phase := RecvMethod;
        case SendAuth => phase := RecvAuth;
        case SendConnect => phase := RecvReply;
        case _ =>
      }
      out := [];
      outOff := 0;
    }

    method BuildAuth()
      modifies this`out, this`outOff, this`phase
      ensures phase == SendAuth && out == AuthFrame(cfg) && outOff == 0
    {
      var user, pass := OrEmpty(cfg.username), OrEmpty(cfg.password);
      var ulen, plen := Min(|user|, 255), Min(|pass|, 255);
      out := [1];
      out := out + [ulen];
      out := out + user[..ulen];
      out := out + [plen];
      out := out + pass[..plen];
      outOff := 0;
      phase := SendAuth;
    }

    method BuildConnect()
      modifies this`out, this`outOff, this`phase
      ensures phase == SendConnect && out == ConnectFrame(target) && outOff == 0
    {
      out := [5, 1, 0];
      match target {
        case Ip(V4(ip, port)) =>
          out := out + [1] + ip + BigEndian(port);
          assert out == ConnectFrame(target);
        case Ip(V6(ip, port)) =>
          out := out + [4] + ip + BigEndian(port);
          assert out == ConnectFrame(target);
        case Domain(host, port) =>
          var n := Min(|host|, 255);
          out := out + [3] + [n] + host[..n] + BigEndian(port);
          assert out == ConnectFrame(target);
      }
      outOff := 0;
      phase := SendConnect;
    }

    /** The answer to the greeting. */
    method OnMethod(ghost h: Socket) returns (r: Result<bool>)
      requires Follows(View(h)) && phase == RecvMethod
      modifies this
      ensures r.Err? ==> r.error in {Protocol, Handshake} && !Willing(View(h)) && View(h) == old(View(h))
      ensures r.Ok? ==> Follows(View(h)) && Starved(phase, rx) && !r.value && |rx| <= old(|rx|)
      ensures r.Ok? ==> View(h) == old(View(h)) || (Rank(phase) < Rank(old(phase)) && outOff == 0 && out != [])
      ensures phase != Done
    {
      ghost var v := View(h);
      hide Follows, Willing, ConnectFrame, AuthFrame;
      if |rx| < 2 {
        return Ok(false);
      }
      if rx[0] != 5 {
        MethodRefused(v);
        return Err(Protocol);
      }
      if rx[1] == 0 {
        MethodChosen(v, SendConnect);
        BuildConnect();
      } else if rx[1] == 2 && cfg.username.Some? {
        MethodChosen(v, SendAuth);
        BuildAuth();
      } else {
        MethodRefused(v);
        return Err(Handshake);
      }
      rx := rx[2..];
      FollowsScript(View(h));
      r := Ok(false);
    }

    /** The answer to the credentials. */
    method OnAuth(ghost h: Socket) returns (r: Result<bool>)
      requires Follows(View(h)) && phase == RecvAuth
      modifies this
      ensures r.Err? ==> r.error in {Protocol, Handshake} && !Willing(View(h)) && View(h) == old(View(h))
      ensures r.Ok? ==> Follows(View(h)) && Starved(phase, rx) && !r.value && |rx| <= old(|rx|)
      ensures r.Ok? ==> View(h) == old(View(h)) || (Rank(phase) < Rank(old(phase)) && outOff == 0 && out != [])
      ensures phase != Done
    {
      ghost var v := View(h);
      hide Follows, Willing, ConnectFrame, AuthFrame;
      if |rx| < 2 {
        return Ok(false);
      }
      if rx[0] != 1 || rx[1] != 0 {
        AuthRefused(v);
        return Err(Handshake);
      }
      AuthAccepted(v);
      BuildConnect();
      rx := rx[2..];
      FollowsScript(View(h));
      r := Ok(false);
    }

    /** The answer to CONNECT. */
    method OnReply(ghost h: Socket) returns (r: Result<bool>)
      requires Follows(View(h)) && phase == RecvReply
      modifies this
      ensures r.Err? ==> r.error in {Protocol, Handshake} && !Willing(View(h)) && View(h) == old(View(h))
      ensures r.Ok? ==> Follows(View(h)) && Starved(phase, rx) && r.value == (phase == Done) && |rx| <= old(|rx|)
      ensures r.Ok? ==> View(h) == old(View(h)) || phase == Done
    {
      ghost var v := View(h);
      hide Follows, Willing;
      if |rx| < 4 {
        return Ok(false);
      }
      if rx[0] != 5 {
        ReplyRefuses(v);
        return Err(Protocol);
      }
      if rx[1] != 0 {
        ReplyRefuses(v);
        return Err(Handshake);
      }
      var extra: nat;
      match rx[3] {
        case 1 => extra := 6;
        case 4 => extra := 18;
        case 3 =>
          if |rx| < 5 {
            return Ok(false);
          }
          extra := 1 + rx[4] as int + 2;
        case _ =>
          ReplyRefuses(v);
          return Err(Protocol);
      }
      if |rx| < 4 + extra {
        return Ok(false);
      }
      ReplyGrants(v, 4 + extra);
      rx := rx[4 + extra..];
      phase := Done;
      r := Ok(true);
    }

    /** Take one reply off `rx`, if a whole one is there; true once the handshake is over. */
    method ConsumeFrame(ghost h: Socket) returns (r: Result<bool>)
      requires Follows(View(h)) && phase != Done
      modifies this
      ensures r.Err? ==> r.error in {Protocol, Handshake} && !Willing(View(h)) && View(h) == old(View(h))
      ensures r.Ok? ==> Follows(View(h)) && Starved(phase, rx) && r.value == (phase == Done) && |rx| <= old(|rx|)
      ensures r.Ok? && phase == old(phase) ==> View(h) == old(View(h))
      ensures r.Ok? && phase != old(phase) ==> Rank(phase) < Rank(old(phase))
      ensures r.Ok? && phase != old(phase) && phase != Done ==> outOff == 0 && out != []
    {
      hide Follows, Willing;
      match phase {
        case RecvMethod => r := OnMethod(h);
        case RecvAuth => r := OnAuth(h);
        case RecvReply => r := OnReply(h);
        case _ => r := Ok(false);
      }
    }

    /** Send what the socket takes of the current frame; once it is out, go on to its reply. */
    method Transmit(h: Socket) returns (r: Result<bool>)
      requires Follows(View(h)) && AtRest() && phase != Done
      modifies this, h
      ensures r.Err? ==> Excused(h, r.error)
      ensures r.Ok? ==> Follows(View(h)) && (phase != Done ==> AtRest())
      ensures h.sent <= Whole(View(h)) && h.pos == old(h.pos) && h.recvCalls == old(h.recvCalls)
      ensures |h.sent| >= old(|h.sent|)
      ensures r.Ok? ==> r.value == (|h.sent| > old(|h.sent|))
      ensures r == Ok(false) ==> phase == old(phase) && rx == old(rx) && out == old(out) && outOff == old(outOff)
      ensures r == Ok(false) && out == [] ==> h.sendCalls == old(h.sendCalls)
      ensures r == Ok(false) && out != [] ==> h.sendCalls == old(h.sendCalls) + 1 && !Moves(h.sends(old(h.sendCalls)))
      ensures r.Ok? && phase != old(phase) ==> Rank(phase) < Rank(old(phase))
      ensures r == Ok(true) && phase == old(phase) ==> out == old(out) && outOff > old(outOff)
    {
      hide Follows, Willing, Starved, Rank, Script;
      FollowsScript(View(h));
      r := SendFrame(h);
      FollowsScript(View(h));
      if r.Ok? && out != [] && outOff >= |out| {
        AfterSend(h);
        var done := ConsumeFrame(h);
        if done.Err? {
          r := Err(done.error);
        }
      }
    }

    /** Buffer a chunk and take a reply off if that completes one. */
    method TakeIn(ghost h: Socket, data: Bytes) returns (r: Result<bool>)
      requires Follows(View(h).(rx := rx + data)) && |rx| + |data| <= MAX_FRAME && data != [] && phase != Done
      requires out != [] ==> outOff < |out|
      modifies this
      ensures r.Err? ==> r.error in {Protocol, Handshake} && !Willing(View(h))
      ensures r.Ok? ==> Follows(View(h)) && r.value == (phase == Done) && (phase != Done ==> AtRest())
      ensures r.Ok? && phase != old(phase) ==> Rank(phase) < Rank(old(phase))
      ensures r.Ok? && phase == old(phase) ==> out == old(out) && outOff == old(outOff) && |rx| > old(|rx|)
    {
      hide Follows, Willing, Starved, Rank, Script;
      rx := rx + data;
      r := ConsumeFrame(h);
    }

    /** Receive until the socket has nothing more, taking replies off as they complete. */
    method Receive(h: Socket) returns (r: Result<bool>)
      requires Follows(View(h)) && AtRest() && phase != Done
      modifies this, h
      ensures r.Err? ==> Excused(h, r.error)
      ensures r.Ok? ==> Follows(View(h)) && (phase != Done ==> AtRest())
      ensures h.sent == old(h.sent) && h.sendCalls == old(h.sendCalls)
      ensures h.pos >= old(h.pos)
      ensures r.Ok? ==> r.value == (h.pos > old(h.pos))
      ensures r == Ok(false) ==> phase == old(phase) && rx == old(rx) && out == old(out) && outOff == old(outOff)
      ensures r == Ok(false) ==> h.recvCalls == old(h.recvCalls) + 1
      ensures r == Ok(false) ==> h.pos == |h.stream| || !Moves(h.recvs(old(h.recvCalls)))
      ensures r.Ok? && phase != old(phase) ==> Rank(phase) < Rank(old(phase))
      ensures r == Ok(true) && phase == old(phase) ==> out == old(out) && outOff == old(outOff) && |rx| > old(|rx|)
    {
      hide Follows, Willing, Starved, Rank, Script;
      FollowsScript(View(h));
      var budget := 8 * 1024;
      var recvAny := false;
      while budget > 0
        invariant 0 <= budget <= 8 * 1024
        invariant budget == 0 ==> recvAny
        invariant Follows(View(h)) && AtRest() && phase != Done
        invariant h.sent == old(h.sent) && h.sendCalls == old(h.sendCalls)
        invariant old(h.pos) <= h.pos <= |h.stream|
        invariant recvAny == (h.pos > old(h.pos))
        invariant phase != old(phase) ==> Rank(phase) < Rank(old(phase))
        invariant phase == old(phase) ==> out == old(out) && outOff == old(outOff)
        invariant phase == old(phase) && recvAny ==> |rx| > old(|rx|)
        invariant !recvAny ==> h.recvCalls == old(h.recvCalls) && phase == old(phase) && rx == old(rx)
        decreases budget
      {
        ghost var before := View(h);
        FollowsScript(before);
        var want := Min(512, budget);
        var v, data := h.Recv(want);
        if v == Takes(0) || v == Fails(WouldBlock) {
          break;
        }
        if v.Fails? {
          return Err(v.error);
        }
        budget := budget - v.n;
        recvAny := true;
        Receives(before, h.pos);
        if |rx| + v.n > MAX_FRAME {
          TooLong(View(h));
          return Err(Protocol);
        }
        var done := TakeIn(h, data);
        if done.Err? {
          return Err(done.error);
        }
        if done.value {
          return Ok(true);
        }
      }
      r := Ok(recvAny);
    }

    /** What one call found when it moved nothing. */
    ghost predicate Refused(h: Socket, sends: nat, recvs: nat)
      reads this, h
    {
      && (out == [] ==> h.sendCalls == sends)
      && (out != [] ==> h.sendCalls == sends + 1 && !Moves(h.sends(sends)))
      && h.recvCalls == recvs + 1
      && (h.pos == |h.stream| || !Moves(h.recvs(recvs)))
    }

    /**
     * Drive the handshake as far as the socket lets it. It always returns, it
     * finishes only at the end of a conversation, and it stops short only
     * where the socket made it.
     */
    method Pump(h: Socket, now: nat) returns (r: Result<Status>)
      requires Follows(View(h)) && (phase != Done ==> AtRest())
      modifies this, h
      ensures r.Err? ==> (r.error == Timeout && now > deadline) || Excused(h, r.error)
      ensures r.Ok? ==> Follows(View(h)) && (phase != Done ==> AtRest())
      ensures r.Ok? ==> r.value.Finished? == (phase == Done)
      ensures h.sent <= Whole(View(h))
      ensures |h.sent| >= old(|h.sent|) && h.pos >= old(h.pos)
      ensures r == Ok(InProgress) && Owed(h) == old(Owed(h)) ==>
                Refused(h, old(h.sendCalls), old(h.recvCalls)) && out == old(out)
    {
      hide Follows, Willing, Starved, Rank, Script;
      FollowsScript(View(h));
      if phase == Done {
        return Ok(Finished);
      }
      if now > deadline {
        return Err(Timeout);
      }
      while true
        invariant Follows(View(h)) && AtRest() && phase != Done
        invariant |h.sent| >= old(|h.sent|) && h.pos >= old(h.pos)
        invariant h.sent <= Whole(View(h))
        invariant Owed(h) == old(Owed(h)) ==>
                    out == old(out) && h.sendCalls == old(h.sendCalls) && h.recvCalls == old(h.recvCalls)
        decreases Rank(phase), |out| - outOff, MAX_FRAME - |rx|
      {
        FollowsScript(View(h));
        var phaseBefore := phase;
        var sentAny := Transmit(h);
        if sentAny.Err? {
          return Err(sentAny.error);
        }
        if phase == Done {
          return Ok(Finished);
        }
        FollowsScript(View(h));
        var recvAny := Receive(h);
        if recvAny.Err? {
          return Err(recvAny.error);
        }
        if phase == Done {
          return Ok(Finished);
        }
        FollowsScript(View(h));
        if !sentAny.value && !recvAny.value && phase == phaseBefore {
          return Ok(InProgress);
        }
      }
    }

    /**
     * The loop that pumps a connection until its handshake is over: against a
     * proxy that goes along and a socket that keeps moving, every pattern of
     * chunks and refusals before the deadline ends with the whole script
     * written and the whole conversation read.
     */
    method Drive(h: Socket, clock: nat -> nat) returns (r: Result<Status>)
      requires Follows(View(h)) && (phase != Done ==> AtRest())
      requires Willing(View(h))
      requires forall k :: clock(k) <= deadline
      requires forall k :: !Breaks(h.sends(k)) && !Breaks(h.recvs(k))
      requires Fair(h.sends) && Fair(h.recvs)
      modifies this, h
      ensures r == Ok(Finished) && phase == Done
      ensures h.sent == Script(cfg, target, h.stream)
      ensures h.pos == |h.stream| && rx == []
    {
      hide Follows, Starved, Script, Fair, Rank, Conversation;
      var tick := 0;
      ghost var sendGoal := Goal(h.sends, h.sendCalls);
      ghost var recvGoal := Goal(h.recvs, h.recvCalls);
      FollowsScript(View(h));
      while phase != Done
        invariant Follows(View(h)) && (phase != Done ==> AtRest())
        invariant h.sent <= Whole(View(h)) && h.pos <= |h.stream|
        invariant sendGoal >= h.sendCalls && Moves(h.sends(sendGoal))
        invariant recvGoal >= h.recvCalls && Moves(h.recvs(recvGoal))
        decreases Owed(h), if out != [] then sendGoal - h.sendCalls else recvGoal - h.recvCalls
      {
        ghost var owed := Owed(h);
        r := Pump(h, clock(tick));
        tick := tick + 1;
        if r.Err? {
          assert false;
        }
        FollowsScript(View(h));
        if r.value.Finished? {
          break;
        }
        if Owed(h) == owed {
          if out == [] {
            StillOwed(View(h));
          } else {
            recvGoal := Goal(h.recvs, h.recvCalls);
          }
        } else {
          sendGoal := Goal(h.sends, h.sendCalls);
          recvGoal := Goal(h.recvs, h.recvCalls);
        }
      }
      DoneIsAll(View(h));
      r := Ok(Finished);
    }
  }
}
