/**
 * The frames of the SOCKS5 handshake: what the client writes, what a proxy
 * must answer, and how far a handshake has come (`src/socks.rs`).
 */
module SocksFrames {
  import opened Common

  type Port = p: int | 0 <= p < 65536

  datatype Address = V4(ip4: Bytes, port4: Port) | V6(ip6: Bytes, port6: Port)

  datatype Target = Ip(addr: Address) | Domain(host: Bytes, port: Port)

  predicate TargetOk(t: Target) {
    match t
    case Ip(V4(ip, _)) => |ip| == 4
    case Ip(V6(ip, _)) => |ip| == 16
    case Domain(_, _) => true
  }

  datatype Proxy = Proxy(username: Option<Bytes>, password: Option<Bytes>, timeout: nat)

  datatype Phase = SendGreeting | RecvMethod | SendAuth | RecvAuth | SendConnect | RecvReply | Done

  datatype Error = Timeout | Protocol | Handshake | WouldBlock | Io

  const MAX_FRAME: nat := 1024

  // ---------------------------------------------------------------------
  // What the client writes
  // ---------------------------------------------------------------------

  function BigEndian(p: Port): (b: Bytes)
    ensures |b| == 2 && b[0] as int * 256 + b[1] as int == p
  {
    [p / 256, p % 256]
  }

  function OrEmpty(b: Option<Bytes>): Bytes {
    match b case None => [] case Some(x) => x
  }

  /** The part of a field that a one-byte length can announce. */
  function Cut(b: Bytes): (r: Bytes)
    ensures |r| <= 255 && r <= b
    ensures r == b <==> |b| <= 255
  {
    b[..Min(|b|, 255)]
  }

  function GreetingFrame(cfg: Proxy): Bytes {
    var methods := [0] + (if cfg.username.Some? then [2] else []);
    [5, |methods|] + methods
  }

  function AuthFrame(cfg: Proxy): Bytes {
    var user, pass := Cut(OrEmpty(cfg.username)), Cut(OrEmpty(cfg.password));
    [1, |user|] + user + [|pass|] + pass
  }

  function ConnectFrame(t: Target): Bytes {
    [5, 1, 0] +
    match t
    case Ip(V4(ip, port)) => [1] + ip + BigEndian(port)
    case Ip(V6(ip, port)) => [4] + ip + BigEndian(port)
    case Domain(host, port) => [3, |Cut(host)|] + Cut(host) + BigEndian(port)
  }

  // ---------------------------------------------------------------------
  // How a proxy reads it
  // ---------------------------------------------------------------------

  /** Section 3 of RFC 1928: version, how many methods, that many methods, and nothing after them. */
  function ReadGreeting(s: Bytes): Option<seq<byte>> {
    if |s| < 2 || s[0] != 5 || s[1] == 0 || |s| != 2 + s[1] as int then None else Some(s[2..])
  }

  /** The proxy is offered no authentication first, and user name and password exactly when there is a user name. */
  lemma GreetingIsRead(cfg: Proxy)
    ensures var methods := ReadGreeting(GreetingFrame(cfg));
      && methods.Some? && |methods.value| > 0 && methods.value[0] == 0
      && (2 in methods.value <==> cfg.username.Some?)
      && (forall m :: m in methods.value ==> m == 0 || m == 2)
      && forall i, j :: 0 <= i < j < |methods.value| ==> methods.value[i] != methods.value[j]
  {
    var s := GreetingFrame(cfg);
    if cfg.username.Some? {
      assert s == [5, 2, 0, 2] && s[2..] == [0, 2];
    } else {
      assert s == [5, 1, 0] && s[2..] == [0];
    }
  }

  /** Section 4 of RFC 1928: a CONNECT request, and nothing after it. */
  function ReadConnect(s: Bytes): Option<Target> {
    if |s| < 5 || s[0] != 5 || s[1] != 1 || s[2] != 0 then None
    else if s[3] == 1 && |s| == 10 then
      Some(Ip(V4(s[4..8], s[8] as int * 256 + s[9] as int)))
    else if s[3] == 4 && |s| == 22 then
      Some(Ip(V6(s[4..20], s[20] as int * 256 + s[21] as int)))
    else if s[3] == 3 && |s| == 7 + s[4] as int then
      Some(Domain(s[5..5 + s[4] as int], s[|s| - 2] as int * 256 + s[|s| - 1] as int))
    else None
  }

  /** Section 2 of RFC 1929: user name and password. */
  function ReadAuth(s: Bytes): Option<(Bytes, Bytes)> {
    if |s| < 3 || s[0] != 1 || |s| < 3 + s[1] as int then None
    else
      var u := s[1] as int;
      if |s| != 3 + u + s[2 + u] as int then None
      else Some((s[2..2 + u], s[3 + u..]))
  }

  function CutTarget(t: Target): Target {
    match t case Ip(_) => t case Domain(h, p) => Domain(Cut(h), p)
  }

  lemma ConnectByName(host: Bytes, port: Port)
    ensures ReadConnect(ConnectFrame(Domain(host, port))) == Some(Domain(Cut(host), port))
  {
    var s, h, p := ConnectFrame(Domain(host, port)), Cut(host), BigEndian(port);
    assert s == ([5, 1, 0, 3, |h|] + h) + p;
    assert s[5..5 + |h|] == h;
    assert s[5 + |h|] == p[0] && s[6 + |h|] == p[1];
    hide BigEndian;
  }

  lemma ConnectByNumber(addr: Address)
    requires TargetOk(Ip(addr))
    ensures ReadConnect(ConnectFrame(Ip(addr))) == Some(Ip(addr))
  {
    var s := ConnectFrame(Ip(addr));
    match addr {
      case V4(ip, _) => assert s[4..8] == ip;
      case V6(ip, _) => assert s[4..20] == ip;
    }
  }

  /** The proxy is asked for the caller's target, exactly when its name fits the length byte. */
  lemma ConnectIsRead(t: Target)
    requires TargetOk(t)
    ensures ReadConnect(ConnectFrame(t)) == Some(CutTarget(t))
    ensures ReadConnect(ConnectFrame(t)) == Some(t) <==> (t.Domain? ==> |t.host| <= 255)
  {
    hide ReadConnect, ConnectFrame;
    match t {
      case Ip(addr) => ConnectByNumber(addr);
      case Domain(host, port) => ConnectByName(host, port);
    }
  }

  /** The proxy is given the caller's credentials, exactly when both fit their length bytes. */
  lemma AuthIsRead(cfg: Proxy)
    ensures ReadAuth(AuthFrame(cfg)) == Some((Cut(OrEmpty(cfg.username)), Cut(OrEmpty(cfg.password))))
    ensures ReadAuth(AuthFrame(cfg)) == Some((OrEmpty(cfg.username), OrEmpty(cfg.password)))
            <==> |OrEmpty(cfg.username)| <= 255 && |OrEmpty(cfg.password)| <= 255
  {
    var user, pass := Cut(OrEmpty(cfg.username)), Cut(OrEmpty(cfg.password));
    var s := AuthFrame(cfg);
    assert s[2..2 + |user|] == user;
    assert s[3 + |user|..] == pass;
  }

  // ---------------------------------------------------------------------
  // What a proxy must answer
  // ---------------------------------------------------------------------

  /** Section 6 of RFC 1928: a reply that grants the request, complete and alone. */
  predicate Granted(s: Bytes) {
    |s| >= 7 && s[0] == 5 && s[1] == 0 &&
    (  (s[3] == 1 && |s| == 10)
    || (s[3] == 4 && |s| == 22)
    || (s[3] == 3 && |s| == 7 + s[4] as int))
  }

  /** How many bytes of replies come before the reply to CONNECT. */
  function Preamble(s: Bytes): nat {
    if |s| >= 2 && s[1] == 2 then 4 else 2
  }

  /** The replies before the one to CONNECT, as a proxy that goes along sends them. */
  predicate Admitted(hasUser: bool, s: Bytes) {
    |s| >= Preamble(s) && s[0] == 5 &&
    (s[1] == 0 || (s[1] == 2 && hasUser && s[2] == 1 && s[3] == 0))
  }

  /** A whole stream of a proxy that goes along: nothing missing, nothing after. */
  predicate Conversation(hasUser: bool, s: Bytes) {
    Admitted(hasUser, s) && Granted(s[Preamble(s)..])
  }

  lemma ConversationIsShort(hasUser: bool, s: Bytes)
    requires Conversation(hasUser, s)
    ensures |s| <= 266 <= MAX_FRAME
  {
  }

  /** Everything the client writes when the proxy answers `s`. */
  function Script(cfg: Proxy, t: Target, s: Bytes): Bytes {
    GreetingFrame(cfg) + (if Preamble(s) == 4 then AuthFrame(cfg) else []) + ConnectFrame(t)
  }

  // ---------------------------------------------------------------------
  // How far a handshake has come
  // ---------------------------------------------------------------------

  function Rank(p: Phase): nat {
    match p
    case SendGreeting => 6
    case RecvMethod => 5
    case SendAuth => 4
    case RecvAuth => 3
    case SendConnect => 2
    case RecvReply => 1
    case Done => 0
  }

  /** The frame being written in a phase. */
  function FrameOf(cfg: Proxy, t: Target, p: Phase): Bytes {
    match p
    case SendGreeting => GreetingFrame(cfg)
    case SendAuth => AuthFrame(cfg)
    case SendConnect => ConnectFrame(t)
    case _ => []
  }

  /** The frames written before the current one. */
  function Written(cfg: Proxy, t: Target, s: Bytes, p: Phase): Bytes {
    match p
    case SendGreeting => []
    case RecvMethod => GreetingFrame(cfg)
    case SendAuth => GreetingFrame(cfg)
    case RecvAuth => GreetingFrame(cfg) + AuthFrame(cfg)
    case SendConnect => GreetingFrame(cfg) + (if Preamble(s) == 4 then AuthFrame(cfg) else [])
    case _ => Script(cfg, t, s)
  }

  /** The first `used` bytes of the proxy's stream are what brought the client to phase `p`. */
  predicate Reached(cfg: Proxy, s: Bytes, used: nat, p: Phase) {
    used <= |s| &&
    match p
    case SendGreeting => used == 0
    case RecvMethod => used == 0
    case SendAuth => used == 2 && s[0] == 5 && s[1] == 2 && cfg.username.Some?
    case RecvAuth => used == 2 && s[0] == 5 && s[1] == 2 && cfg.username.Some?
    case SendConnect => used == Preamble(s) && Admitted(cfg.username.Some?, s)
    case RecvReply => used == Preamble(s) && Admitted(cfg.username.Some?, s)
    case Done => Conversation(cfg.username.Some?, s[..used])
  }

  /** The length of the reply a receiving phase waits for, once its head `rx` tells. */
  function ReplyLength(p: Phase, rx: Bytes): Option<nat> {
    match p
    case RecvMethod => Some(2)
    case RecvAuth => Some(2)
    case RecvReply =>
      if |rx| < 4 then None
      else if rx[3] == 1 then Some(10)
      else if rx[3] == 4 then Some(22)
      else if |rx| < 5 then None
      else Some(7 + rx[4] as int)
    case _ => None
  }

  /** A receiving phase that rests holds no complete reply. */
  predicate Starved(p: Phase, rx: Bytes) {
    var n := ReplyLength(p, rx);
    n.Some? ==> |rx| < n.value
  }

  lemma GrantsAreWhole(s: Bytes, used: nat)
    requires used <= |s| && Granted(s[..used]) && Granted(s)
    ensures used == |s|
  {
  }

  /** No conversation is a proper prefix of another, so a client never stops early. */
  lemma ConversationsAreWhole(hasUser: bool, s: Bytes, used: nat)
    requires used <= |s| && Conversation(hasUser, s[..used]) && Conversation(hasUser, s)
    ensures used == |s|
  {
    var n := Preamble(s);
    assert s[..used][n..] == s[n..used];
    hide Granted;
    assert s[n..][..used - n] == s[n..used];
    GrantsAreWhole(s[n..], used - n);
  }

  // ---------------------------------------------------------------------
  // The whole state of a handshake
  // ---------------------------------------------------------------------

  /** Client and connection together: `pos` bytes of the proxy's stream received, `sent` bytes written. */
  datatype Talk = Talk(cfg: Proxy, target: Target, stream: Bytes, pos: nat, sent: Bytes,
                       phase: Phase, out: Bytes, off: nat, rx: Bytes)

  function Used(v: Talk): int {
    v.pos - |v.rx|
  }

  function Whole(v: Talk): Bytes {
    Script(v.cfg, v.target, v.stream)
  }

  predicate Fits(v: Talk) {
    |v.rx| <= v.pos <= |v.stream| && v.off <= |v.out|
  }

  /** Everything written and read so far is a handshake that has come to the phase. */
  ghost predicate Follows(v: Talk) {
    && Fits(v)
    && v.rx == v.stream[Used(v)..v.pos]
    && Reached(v.cfg, v.stream, Used(v), v.phase)
    && v.out == FrameOf(v.cfg, v.target, v.phase)
    && v.sent == Written(v.cfg, v.target, v.stream, v.phase) + v.out[..v.off]
  }

  /** The proxy goes along to the end. */
  predicate Willing(v: Talk) {
    Conversation(v.cfg.username.Some?, v.stream)
  }

  predicate Receiving(p: Phase) {
    p.RecvMethod? || p.RecvAuth? || p.RecvReply?
  }

  lemma Starts(cfg: Proxy, t: Target, s: Bytes)
    ensures Follows(Talk(cfg, t, s, 0, [], SendGreeting, GreetingFrame(cfg), 0, []))
  {
  }

  /** Whatever is written, it is the script, from its start. */
  lemma FollowsScript(v: Talk)
    requires Follows(v)
    ensures Fits(v) && v.sent <= Whole(v)
    ensures v.phase.Done? ==> v.sent == Whole(v)
    ensures Receiving(v.phase) || v.phase.Done? <==> v.out == []
  {
    match v.phase {
      case SendConnect => assert Whole(v) == Written(v.cfg, v.target, v.stream, SendConnect) + v.out;
      case _ =>
    }
  }

  lemma Sends(v: Talk, n: nat)
    requires Follows(v) && v.off + n <= |v.out|
    ensures Follows(v.(off := v.off + n, sent := v.sent + v.out[v.off..][..n]))
  {
    hide Reached, FrameOf, Written;
    assert v.out[..v.off] + v.out[v.off..][..n] == v.out[..v.off + n];
    Regroup(Written(v.cfg, v.target, v.stream, v.phase), v.out[..v.off], v.out[v.off..][..n]);
  }

  lemma Receives(v: Talk, pos: nat)
    requires Follows(v) && v.pos <= pos <= |v.stream|
    ensures Follows(v.(pos := pos, rx := v.rx + v.stream[v.pos..pos]))
  {
    hide Reached, FrameOf, Written;
    var rx := v.rx + v.stream[v.pos..pos];
    assert rx == v.stream[Used(v)..pos];
    assert pos - |rx| == Used(v);
  }

  /** The phase that awaits the answer to the frame being written. */
  function Awaiting(p: Phase): Phase {
    match p
    case SendGreeting => RecvMethod
    case SendAuth => RecvAuth
    case SendConnect => RecvReply
    case _ => p
  }

  lemma FrameIsOut(v: Talk)
    requires Follows(v) && v.out != [] && v.off == |v.out|
    ensures Follows(v.(phase := Awaiting(v.phase), out := [], off := 0))
    ensures Receiving(Awaiting(v.phase)) && Rank(Awaiting(v.phase)) < Rank(v.phase)
  {
    assert v.out[..v.off] == v.out;
    match v.phase {
      case SendConnect => assert Whole(v) == Written(v.cfg, v.target, v.stream, SendConnect) + v.out;
      case _ =>
    }
  }

  lemma Unread(v: Talk, k: nat)
    requires Follows(v) && k < |v.rx|
    ensures v.rx[k] == v.stream[Used(v) + k]
  {
    hide Reached, FrameOf, Written;
  }

  /** The proxy picked a method: the next frame is built, two bytes are used. */
  lemma MethodChosen(v: Talk, next: Phase)
    requires Follows(v) && v.phase.RecvMethod? && |v.rx| >= 2 && v.rx[0] == 5
    requires (v.rx[1] == 0 && next.SendConnect?) || (v.rx[1] == 2 && v.cfg.username.Some? && next.SendAuth?)
    ensures Follows(v.(phase := next, out := FrameOf(v.cfg, v.target, next), off := 0, rx := v.rx[2..]))
  {
    Unread(v, 0);
    Unread(v, 1);
    assert v.rx[2..] == v.stream[2..v.pos];
  }

  lemma MethodRefused(v: Talk)
    requires Follows(v) && v.phase.RecvMethod? && |v.rx| >= 2
    requires v.rx[0] != 5 || !(v.rx[1] == 0 || (v.rx[1] == 2 && v.cfg.username.Some?))
    ensures !Willing(v)
  {
    Unread(v, 0);
    Unread(v, 1);
  }

  lemma AuthAccepted(v: Talk)
    requires Follows(v) && v.phase.RecvAuth? && |v.rx| >= 2 && v.rx[0] == 1 && v.rx[1] == 0
    ensures Follows(v.(phase := SendConnect, out := ConnectFrame(v.target), off := 0, rx := v.rx[2..]))
  {
    Unread(v, 0);
    Unread(v, 1);
    assert v.rx[2..] == v.stream[4..v.pos];
  }

  lemma AuthRefused(v: Talk)
    requires Follows(v) && v.phase.RecvAuth? && |v.rx| >= 2 && (v.rx[0] != 1 || v.rx[1] != 0)
    ensures !Willing(v)
  {
    Unread(v, 0);
    Unread(v, 1);
  }

  /** The granting reply, right after the preamble, closes the conversation. */
  lemma ReplyGrants(v: Talk, n: nat)
    requires Follows(v) && v.phase.RecvReply? && |v.rx| >= 4 && v.rx[0] == 5 && v.rx[1] == 0
    requires ReplyLength(RecvReply, v.rx) == Some(n) && n <= |v.rx| && v.rx[3] in {1, 3, 4}
    ensures Follows(v.(phase := Done, rx := v.rx[n..]))
  {
    var used := Used(v);
    ReplyIsGranted(v.rx, n);
    Slices(v.stream, used, v.pos, n);
    CutKeepsPreamble(v.cfg.username.Some?, v.stream, used + n);
    hide Granted, Admitted, Preamble, ConnectFrame, AuthFrame, GreetingFrame;
    assert Conversation(v.cfg.username.Some?, v.stream[..used + n]);
  }

  lemma Slices(s: Bytes, a: nat, b: nat, n: nat)
    requires a + n <= b <= |s|
    ensures s[..a + n][a..] == s[a..b][..n]
    ensures s[a..b][n..] == s[a + n..b]
  {
  }

  lemma ReplyIsGranted(rx: Bytes, n: nat)
    requires |rx| >= 4 && rx[0] == 5 && rx[1] == 0 && rx[3] in {1, 3, 4}
    requires ReplyLength(RecvReply, rx) == Some(n) && n <= |rx|
    ensures Granted(rx[..n])
  {
  }

  lemma CutKeepsPreamble(hasUser: bool, s: Bytes, n: nat)
    requires Admitted(hasUser, s) && Preamble(s) <= n <= |s|
    ensures Admitted(hasUser, s[..n]) && Preamble(s[..n]) == Preamble(s)
  {
  }

  /** A reply with another version, an error code or an unknown address type is no grant. */
  lemma ReplyRefuses(v: Talk)
    requires Follows(v) && v.phase.RecvReply? && |v.rx| >= 4
    requires v.rx[0] != 5 || v.rx[1] != 0 || v.rx[3] !in {1, 3, 4}
    ensures !Willing(v)
  {
    Unread(v, 0);
    Unread(v, 1);
    Unread(v, 3);
    var s := v.stream[Used(v)..];
    assert s[0] == v.rx[0] && s[1] == v.rx[1] && s[3] == v.rx[3];
  }

  /** A willing proxy still owes bytes to a client that waits for a reply. */
  lemma StillOwed(v: Talk)
    requires Follows(v) && Willing(v) && Receiving(v.phase) && Starved(v.phase, v.rx)
    ensures v.pos < |v.stream|
  {
    hide FrameOf, Written;
    var rest := v.stream[Used(v)..];
    assert v.rx <= rest;
    if v.phase.RecvReply? {
      ShortOfGrant(rest, v.rx);
    }
    hide Granted;
  }

  lemma ShortOfGrant(s: Bytes, rx: Bytes)
    requires Granted(s) && rx <= s && Starved(RecvReply, rx)
    ensures |rx| < |s|
  {
  }

  /** Done means that the whole conversation is read and the whole script written. */
  lemma DoneIsAll(v: Talk)
    requires Follows(v) && Willing(v) && v.phase.Done?
    ensures v.rx == [] && v.pos == |v.stream| && v.sent == Whole(v)
  {
    ConversationsAreWhole(v.cfg.username.Some?, v.stream, Used(v));
    FollowsScript(v);
  }

  lemma TooLong(v: Talk)
    requires |v.stream| > MAX_FRAME
    ensures !Willing(v)
  {
    if Willing(v) {
      ConversationIsShort(v.cfg.username.Some?, v.stream);
    }
  }
}
