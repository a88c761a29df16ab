/** The connection driver (smb.go): one step for every frame, and the transcript that its preauth hash stands for. */
module SmbConn {
  import opened Bytes
  import opened SmbFrame
  import opened SmbAuth
  import opened SmbTree
  import opened SmbSign
  import N = SmbNegotiate

  datatype Session = Session(auth: Auth, shares: Shares)

  /** Everything the driver is given: the NTLM and key functions, the shares, the signer and the cipher. */
  datatype Driver = Driver(
    auth: Conf, shares: ShareConf, guid: bytes,
    mac: Mac,
    decrypt: (bytes, bytes) -> Option<bytes>,
    encrypt: (bytes, u64, bytes) -> Option<bytes>)

  ghost predicate ValidDriver(d: Driver) {
    |d.guid| == 16 && ValidMac(d.mac) && forall k, l, x {:trigger d.auth.kdf(k, l, x)} :: |d.auth.kdf(k, l, x)| == 16
  }

  /** The random values of one step. */
  datatype Fresh = Fresh(sessionId: u64, salt: bytes, challenge: bytes, fid: bytes)

  predicate ValidFresh(f: Fresh) { |f.salt| == 32 }

  const TRANSFORM: bytes := [0xFD, 83, 77, 66]

  predicate IsTransform(frame: bytes) { |frame| >= 4 && frame[..4] == TRANSFORM }

  // -- A step -------------------------------------------------------------------------------------------------------

  /** The message in a frame. */
  function Unwrap(d: Driver, s: Option<Session>, frame: bytes): Option<bytes> {
    if !IsTransform(frame) then Some(frame)
    else if s.None? || |s.value.auth.keys.c2s| != 16 then None
    else d.decrypt(s.value.auth.keys.c2s, frame)
  }

  predicate MustSign(a: Auth) { a.complete && a.signing && !a.guest }

  /** A signed request of a session that signs must verify. */
  predicate Acceptable(d: Driver, s: Option<Session>, msg: bytes, h: Header) {
    s.Some? && MustSign(s.value.auth) && HasSigned(h.flags) ==> Verify(d.mac, s.value.auth.keys.signing, msg)
  }

  /** What a command makes of the session before the response is finished: None closes the connection. */
  datatype Handled = Handled(session: Option<Session>, resp: bytes, status: u32)

  function Negotiate(d: Driver, msg: bytes, h: Header, f: Fresh): Option<Handled>
    requires ValidFresh(f) && |d.guid| == 16
  {
    match N.Negotiated(msg)
    case Accepted(p) =>
      var session := Session(NewAuth(f.sessionId, p.dialect, p.cipher), NO_SHARES);
      Some(Handled(Some(session), N.Response(N.Server(d.guid, f.salt), h, p), SUCCESS))
    case _ => None
  }

  function SetUp(d: Driver, s: Session, msg: bytes, h: Header, f: Fresh): Handled {
    var folded := s.auth.(preauth := Fold(d.auth, s.auth.preauth, msg));
    var l := SessionSetup(d.auth, folded, h, msg, f.challenge);
    Handled(Some(s.(auth := l.auth)), l.resp, l.status)
  }

  function TreeCommand(d: Driver, s: Session, msg: bytes, h: Header, f: Fresh): Handled {
    var (shares, reply) := Apply(d.shares, s.auth.user, s.shares, ParseRequest(h, msg), f.fid);
    Handled(Some(s.(shares := shares)), ReplyBytes(h, h.command, reply), reply.status)
  }

  function Unsupported(s: Option<Session>, h: Header): Handled {
    Handled(s, ReplyBytes(h, h.command, Refuse(NOT_SUPPORTED)), NOT_SUPPORTED)
  }

  function Dispatch(d: Driver, s: Option<Session>, msg: bytes, h: Header, f: Fresh): Option<Handled>
    requires ValidFresh(f) && |d.guid| == 16
  {
    if h.command == NEGOTIATE then Negotiate(d, msg, h, f)
    else if h.command == SESSION_SETUP then (if s.None? then None else Some(SetUp(d, s.value, msg, h, f)))
    else if IsTreeCommand(h.command) then
      (if s.None? || !s.value.auth.complete then None else Some(TreeCommand(d, s.value, msg, h, f)))
    else Some(Unsupported(s, h))
  }

  function WithPreauth(s: Option<Session>, preauth: bytes): Option<Session> {
    if s.None? then None else Some(s.value.(auth := s.value.auth.(preauth := preauth)))
  }

  /** The folding of the finished response. */
  function FoldResponse(d: Driver, s: Option<Session>, h: Header, msg: bytes, resp: bytes, status: u32): Option<Session> {
    if s.None? then None
    else if h.command == NEGOTIATE then WithPreauth(s, Fold(d.auth, Fold(d.auth, s.value.auth.preauth, msg), resp))
    else if h.command == SESSION_SETUP && status == MORE_PROCESSING then WithPreauth(s, Fold(d.auth, s.value.auth.preauth, resp))
    else s
  }

  predicate Signs(a: Auth) { MustSign(a) && |a.keys.signing| == 16 }

  /** The response as the client reads it: signed where the session signs. */
  function Signed(d: Driver, s: Option<Session>, resp: bytes): bytes {
    if s.Some? && Signs(s.value.auth) then Sign(d.mac, s.value.auth.keys.signing, resp) else resp
  }

  /** What is written for it: in an encrypted exchange the ciphertext, if there is one. */
  function OnTheWire(d: Driver, s: Option<Session>, resp: bytes, encrypted: bool): bytes {
    var signed := Signed(d, s, resp);
    if s.Some? && encrypted && |s.value.auth.keys.s2c| == 16 then
      match d.encrypt(s.value.auth.keys.s2c, s.value.auth.sessionId, signed)
      case Some(out) => out
      case None => signed
    else signed
  }

  /** An answered exchange: request and response outside of any encryption, as the client wrote the one and reads the other,
      and the octets that were sent back. */
  datatype Exchange = Exchange(req: bytes, resp: bytes, sent: bytes)

  /** The session, the exchanges so far, and the messages that the preauth hash of the session has folded. */
  datatype Conn = Conn(session: Option<Session>, log: seq<Exchange>, folded: seq<bytes>, live: bool)

  const NEW_CONN: Conn := Conn(None, [], [], true)

  function FoldedNext(folded: seq<bytes>, h: Header, msg: bytes, resp: bytes, status: u32): seq<bytes> {
    if h.command == NEGOTIATE then [msg, resp]
    else if h.command == SESSION_SETUP then folded + (if status == MORE_PROCESSING then [msg, resp] else [msg])
    else folded
  }

  /** The connection after one more frame. */
  function Receive(d: Driver, conn: Conn, frame: bytes, f: Fresh): Conn
    requires ValidFresh(f) && |d.guid| == 16
  {
    if !conn.live then conn
    else match Unwrap(d, conn.session, frame)
         case None => conn.(live := false)
         case Some(msg) =>
           match Parse(msg)
           case None => conn.(live := false)
           case Some(h) =>
             if !Acceptable(d, conn.session, msg, h) then conn.(live := false)
             else match Dispatch(d, conn.session, msg, h, f)
                  case None => conn.(live := false)
                  case Some(r) => Answer(d, conn, h, msg, r, IsTransform(frame))
  }

  function SessionIdOf(s: Option<Session>): Option<u64> { if s.None? then None else Some(s.value.auth.sessionId) }

  /** The second half of a step: the rewrite, the folding, signing and encryption. */
  function Answer(d: Driver, conn: Conn, h: Header, msg: bytes, r: Handled, encrypted: bool): Conn {
    var resp := Patched(r.resp, h, SessionIdFor(h, SessionIdOf(r.session)));
    var s := FoldResponse(d, r.session, h, msg, resp, r.status);
    Conn(s, conn.log + [Exchange(msg, Signed(d, s, resp), OnTheWire(d, s, resp, encrypted))],
         FoldedNext(conn.folded, h, msg, resp, r.status), true)
  }

  datatype Input = Input(frame: bytes, rand: Fresh)

  function Run(d: Driver, conn: Conn, inputs: seq<Input>): Conn
    requires |d.guid| == 16 && forall i | 0 <= i < |inputs| :: ValidFresh(inputs[i].rand)
    decreases |inputs|
  {
    if inputs == [] then conn else Run(d, Receive(d, conn, inputs[0].frame, inputs[0].rand), inputs[1..])
  }

  // -- The transcript ---------------------------------------------------------------------------------------------

  function CommandOf(msg: bytes): Option<u16> { if Parse(msg).None? then None else Some(Parse(msg).value.command) }

  function StatusOf(msg: bytes): Option<u32> { if Parse(msg).None? then None else Some(Parse(msg).value.status) }

  /** The messages the preauth hash covers, read off the exchanges alone, as the client does: from the last NEGOTIATE on,
      that exchange, every SESSION_SETUP request, and every response that asks for more processing. */
  function Transcript(log: seq<Exchange>): seq<bytes> {
    if log == [] then []
    else
      var x, before := log[|log| - 1], Transcript(log[..|log| - 1]);
      if CommandOf(x.req) == Some(NEGOTIATE) then [x.req, x.resp]
      else if CommandOf(x.req) == Some(SESSION_SETUP) then
        before + (if StatusOf(x.resp) == Some(MORE_PROCESSING) then [x.req, x.resp] else [x.req])
      else before
  }

  function FoldAll(c: Conf, start: bytes, msgs: seq<bytes>): bytes {
    if msgs == [] then start else Fold(c, FoldAll(c, start, msgs[..|msgs| - 1]), msgs[|msgs| - 1])
  }

  /** The hash a client computes from what it sent and received. */
  function ClientHash(c: Conf, log: seq<Exchange>): bytes { FoldAll(c, Zeros(64), Transcript(log)) }

  lemma FoldOne(c: Conf, start: bytes, msgs: seq<bytes>, m: bytes)
    ensures FoldAll(c, start, msgs + [m]) == Fold(c, FoldAll(c, start, msgs), m)
  {
    assert (msgs + [m])[..|msgs|] == msgs;
  }

  lemma TranscriptNext(log: seq<Exchange>, x: Exchange)
    ensures var before := Transcript(log);
            Transcript(log + [x]) ==
            if CommandOf(x.req) == Some(NEGOTIATE) then [x.req, x.resp]
            else if CommandOf(x.req) == Some(SESSION_SETUP) then
              before + (if StatusOf(x.resp) == Some(MORE_PROCESSING) then [x.req, x.resp] else [x.req])
            else before
  {
    assert (log + [x])[..|log|] == log;
  }

  lemma ClientHashNext(c: Conf, log: seq<Exchange>, x: Exchange)
    ensures ClientHash(c, log + [x]) ==
            if CommandOf(x.req) == Some(NEGOTIATE) then Fold(c, Fold(c, Zeros(64), x.req), x.resp)
            else if CommandOf(x.req) == Some(SESSION_SETUP) then
              (if StatusOf(x.resp) == Some(MORE_PROCESSING) then Fold(c, Fold(c, ClientHash(c, log), x.req), x.resp)
               else Fold(c, ClientHash(c, log), x.req))
            else ClientHash(c, log)
  {
    hide CommandOf, StatusOf, Fold, Transcript;
    TranscriptNext(log, x);
    var before, zero := Transcript(log), Zeros(64);
    FoldOne(c, zero, before, x.req);
    FoldOne(c, zero, before + [x.req], x.resp);
    assert before + [x.req] + [x.resp] == before + [x.req, x.resp];
    var none: seq<bytes> := [];
    assert FoldAll(c, zero, none) == zero;
    FoldOne(c, zero, none, x.req);
    FoldOne(c, zero, [x.req], x.resp);
    assert none + [x.req] == [x.req] && [x.req] + [x.resp] == [x.req, x.resp];
  }

  // -- The invariant --------------------------------------------------------------------------------------------------

  /** Until it is authenticated, a session has no keys, no tree, no file and no job, and its preauth hash is the one the
      client computes from the exchanges. */
  predicate Inv(d: Driver, conn: Conn) {
    conn.session.Some? && !conn.session.value.auth.complete ==>
      && conn.session.value.auth.preauth == ClientHash(d.auth, conn.log)
      && conn.session.value.auth.keys == NO_KEYS
      && conn.session.value.shares == NO_SHARES
  }

  /** Before authentication nothing is signed or encrypted. */
  lemma PlainOnTheWire(d: Driver, s: Option<Session>, resp: bytes, encrypted: bool)
    requires s.Some? ==> !s.value.auth.complete && s.value.auth.keys == NO_KEYS
    ensures Signed(d, s, resp) == OnTheWire(d, s, resp, encrypted) == resp
  {
    hide Sign;
  }

  lemma PatchedStatus(resp: bytes, h: Header, sid: u64)
    requires Parse(resp).Some?
    ensures StatusOf(Patched(resp, h, sid)) == StatusOf(resp)
  {
    hide Parse, Patched;
    PatchedHeader(resp, h, sid);
  }

  lemma SignedStatus(d: Driver, key: bytes, msg: bytes)
    requires ValidMac(d.mac) && Parse(msg).Some?
    ensures StatusOf(Sign(d.mac, key, msg)) == StatusOf(msg)
  {
    hide Parse, Sign, Verify, WithSigned;
    SignedVerifies(d.mac, key, msg);
  }

  /** A new session's hash covers the NEGOTIATE exchange as it was sent. */
  lemma NegotiateKeeps(d: Driver, conn: Conn, h: Header, msg: bytes, f: Fresh, encrypted: bool)
    requires ValidFresh(f) && |d.guid| == 16 && Parse(msg) == Some(h) && h.command == NEGOTIATE
    requires Negotiate(d, msg, h, f).Some?
    ensures var next := Answer(d, conn, h, msg, Negotiate(d, msg, h, f).value, encrypted);
            Inv(d, next) && next.session.Some? && !next.session.value.auth.complete
  {
    hide Patched, Fold, ClientHash, N.Response, N.Negotiated, Parse;
    var r := Negotiate(d, msg, h, f).value;
    var resp := Patched(r.resp, h, SessionIdFor(h, SessionIdOf(r.session)));
    var s := FoldResponse(d, r.session, h, msg, resp, r.status);
    PlainOnTheWire(d, s, resp, encrypted);
    ClientHashNext(d.auth, conn.log, Exchange(msg, resp, resp));
  }

  /** SESSION_SETUP in a session that is not yet authenticated: either it still is not, and the hash has followed the
      exchange; or it is now, and its keys are those of the client's hash up to and including this request. */
  lemma SetUpKeeps(d: Driver, conn: Conn, h: Header, msg: bytes, f: Fresh)
    requires ValidDriver(d) && Inv(d, conn) && Parse(msg) == Some(h) && h.command == SESSION_SETUP
    requires conn.session.Some? && !conn.session.value.auth.complete
    ensures var next := Answer(d, conn, h, msg, SetUp(d, conn.session.value, msg, h, f), false);
            && Inv(d, next) && next.session.Some?
            && (next.session.value.auth.complete ==> KeysBound(d, next))
  {
    hide Patched, Fold, ClientHash, Parse, SessionSetup, KeysFor, Sign;
    var s0 := conn.session.value;
    var folded := s0.auth.(preauth := Fold(d.auth, s0.auth.preauth, msg));
    LegOutcome(d.auth, folded, h, msg, f.challenge);
    var l := SessionSetup(d.auth, folded, h, msg, f.challenge);
    var r := SetUp(d, s0, msg, h, f);
    var sid := SessionIdFor(h, SessionIdOf(r.session));
    var resp := Patched(l.resp, h, sid);
    PatchedStatus(l.resp, h, sid);
    PatchedHeader(l.resp, h, sid);
    var s := FoldResponse(d, r.session, h, msg, resp, r.status);
    if l.status == SUCCESS {
      SignedStatus(d, s.value.auth.keys.signing, resp);
    } else {
      PlainOnTheWire(d, s, resp, false);
    }
    ClientHashNext(d.auth, conn.log, Exchange(msg, Signed(d, s, resp), OnTheWire(d, s, resp, false)));
  }

  /** The keys are derived from the session key and the client's hash. */
  predicate KeysBound(d: Driver, conn: Conn)
    requires conn.session.Some?
  {
    conn.session.value.auth.keys == KeysFor(d.auth, conn.session.value.auth.sessionKey, ClientHash(d.auth, conn.log))
  }

  /** Any other command leaves an unauthenticated session, or none, as it is. */
  lemma OtherKeeps(d: Driver, conn: Conn, h: Header, msg: bytes, f: Fresh, encrypted: bool)
    requires Inv(d, conn) && Parse(msg) == Some(h) && h.command != NEGOTIATE && h.command != SESSION_SETUP
    requires conn.session.None? || !conn.session.value.auth.complete
    ensures Inv(d, Answer(d, conn, h, msg, Unsupported(conn.session, h), encrypted))
  {
    hide Patched, Fold, ClientHash, Parse, ReplyBytes, Refuse, Signed, OnTheWire;
    var resp := Patched(ReplyBytes(h, h.command, Refuse(NOT_SUPPORTED)), h, SessionIdFor(h, SessionIdOf(conn.session)));
    ClientHashNext(d.auth, conn.log, Exchange(msg, Signed(d, conn.session, resp), OnTheWire(d, conn.session, resp, encrypted)));
  }

  /** An authenticated session stays so until the next NEGOTIATE. */
  lemma CompleteStays(d: Driver, conn: Conn, h: Header, msg: bytes, f: Fresh, encrypted: bool)
    requires ValidFresh(f) && |d.guid| == 16 && conn.session.Some? && conn.session.value.auth.complete
    requires h.command != NEGOTIATE && Dispatch(d, conn.session, msg, h, f).Some?
    ensures var next := Answer(d, conn, h, msg, Dispatch(d, conn.session, msg, h, f).value, encrypted);
            next.session.Some? && next.session.value.auth.complete
  {
    hide Patched, Fold, ReplyBytes, Refuse, OnTheWire, Apply, ParseRequest, SetupResponse, KeysFor, NtlmOf;
  }

  /** An encrypted frame is not accepted before there are keys. */
  lemma UnwrapNeedsKeys(d: Driver, conn: Conn, frame: bytes)
    requires Inv(d, conn) && IsTransform(frame) && (conn.session.None? || !conn.session.value.auth.complete)
    ensures Unwrap(d, conn.session, frame) == None
  {
    hide ClientHash;
  }

  lemma ReceiveKeeps(d: Driver, conn: Conn, frame: bytes, f: Fresh)
    requires ValidDriver(d) && ValidFresh(f) && Inv(d, conn)
    ensures Inv(d, Receive(d, conn, frame, f))
    ensures var next := Receive(d, conn, frame, f);
            Authenticates(conn, next) ==> KeysBound(d, next)
  {
    hide Inv, Patched, Fold, ClientHash, Parse, Answer, SetUp, Negotiate, ReplyBytes, Refuse, KeysBound;
    Closing(d, conn);
    var early := conn.session.None? || !conn.session.value.auth.complete;
    if early && IsTransform(frame) {
      UnwrapNeedsKeys(d, conn, frame);
    } else if conn.live && Unwrap(d, conn.session, frame).Some? && Parse(Unwrap(d, conn.session, frame).value).Some? {
      var msg := Unwrap(d, conn.session, frame).value;
      var h := Parse(msg).value;
      var r := Dispatch(d, conn.session, msg, h, f);
      if r.Some? {
        var encrypted := IsTransform(frame);
        var next := Answer(d, conn, h, msg, r.value, encrypted);
        if h.command == NEGOTIATE {
          NegotiateKeeps(d, conn, h, msg, f, encrypted);
        } else if !early {
          CompleteStays(d, conn, h, msg, f, encrypted);
          CompleteInv(d, next);
        } else if h.command == SESSION_SETUP {
          SetUpKeeps(d, conn, h, msg, f);
        } else {
          OtherKeeps(d, conn, h, msg, f, encrypted);
          OtherSession(d, conn, h, msg, encrypted);
        }
      }
    }
  }

  /** The step after which a session is authenticated for the first time. */
  predicate Authenticates(conn: Conn, next: Conn) {
    conn.session.Some? && !conn.session.value.auth.complete && next.session.Some? && next.session.value.auth.complete
  }

  lemma Closing(d: Driver, conn: Conn)
    requires Inv(d, conn)
    ensures Inv(d, conn.(live := false))
  {
    hide ClientHash;
  }

  lemma CompleteInv(d: Driver, conn: Conn)
    requires conn.session.Some? && conn.session.value.auth.complete
    ensures Inv(d, conn)
  {
    hide ClientHash;
  }

  lemma OtherSession(d: Driver, conn: Conn, h: Header, msg: bytes, encrypted: bool)
    requires h.command != NEGOTIATE && h.command != SESSION_SETUP
    ensures Answer(d, conn, h, msg, Unsupported(conn.session, h), encrypted).session
         == conn.session
  {
    hide Patched, Fold, ReplyBytes, Refuse, OnTheWire;
  }

  /** A run is taken one frame after the other; a closed connection stays as it is. */
  lemma {:induction false} RunNext(d: Driver, conn: Conn, inputs: seq<Input>, x: Input)
    requires |d.guid| == 16 && ValidFresh(x.rand) && forall i | 0 <= i < |inputs| :: ValidFresh(inputs[i].rand)
    ensures Run(d, conn, inputs + [x]) == Receive(d, Run(d, conn, inputs), x.frame, x.rand)
    decreases |inputs|
  {
    hide Receive;
    if inputs == [] {
      assert inputs + [x] == [x] && [x][1..] == [];
    } else {
      assert (inputs + [x])[1..] == inputs[1..] + [x];
      RunNext(d, Receive(d, conn, inputs[0].frame, inputs[0].rand), inputs[1..], x);
    }
  }

  lemma {:induction false} RunKeeps(d: Driver, conn: Conn, inputs: seq<Input>)
    requires ValidDriver(d) && Inv(d, conn) && forall i | 0 <= i < |inputs| :: ValidFresh(inputs[i].rand)
    ensures Inv(d, Run(d, conn, inputs))
    decreases |inputs|
  {
    hide Inv, Receive;
    if inputs != [] {
      ReceiveKeeps(d, conn, inputs[0].frame, inputs[0].rand);
      RunKeeps(d, Receive(d, conn, inputs[0].frame, inputs[0].rand), inputs[1..]);
    }
  }

  /** After any frames whatever: until the session is first authenticated its hash is the one the client computes, and it
      owns no tree, print tree, file or job; and the frame that authenticates it gives it the keys that follow from the
      session key and the client's hash, with that very request included. */
  lemma TranscriptInvariant(d: Driver, inputs: seq<Input>, frame: bytes, f: Fresh)
    requires ValidDriver(d) && ValidFresh(f) && forall i | 0 <= i < |inputs| :: ValidFresh(inputs[i].rand)
    ensures var conn := Run(d, NEW_CONN, inputs);
            var next := Receive(d, conn, frame, f);
            && (conn.session.Some? && !conn.session.value.auth.complete ==>
                  && conn.session.value.auth.preauth == ClientHash(d.auth, conn.log)
                  && conn.session.value.shares == NO_SHARES)
            && (Authenticates(conn, next) ==>
                  next.session.value.auth.keys ==
                  KeysFor(d.auth, next.session.value.auth.sessionKey, ClientHash(d.auth, next.log)))
  {
    hide Run, Receive, ClientHash, KeysFor;
    RunKeeps(d, NEW_CONN, inputs);
    ReceiveKeeps(d, Run(d, NEW_CONN, inputs), frame, f);
  }

  /** Without authentication a command on trees or files ends the connection: nothing is answered, nothing changes. */
  lemma TreeCommandsNeedAuthentication(d: Driver, conn: Conn, frame: bytes, f: Fresh)
    requires ValidFresh(f) && |d.guid| == 16 && (conn.session.None? || !conn.session.value.auth.complete)
    requires var msg := Unwrap(d, conn.session, frame);
             msg.Some? && Parse(msg.value).Some? && IsTreeCommand(Parse(msg.value).value.command)
    ensures Receive(d, conn, frame, f) == conn.(live := false)
  {
    hide Patched, Fold, Parse, Answer, SetUp, Negotiate, ReplyBytes, Refuse, Verify;
  }

  /** The law ends with the first authentication. In a session that signs, a further first leg (an unsigned request) is
      answered with a signed response, while the hash has folded the unsigned one: it no longer is what the client reads. */
  lemma ReauthenticationFoldsOtherBytes(d: Driver, conn: Conn, h: Header, msg: bytes, f: Fresh, encrypted: bool)
    requires ValidMac(d.mac) && conn.session.Some? && MustSign(conn.session.value.auth)
    requires |conn.session.value.auth.keys.signing| == 16
    requires h.command == SESSION_SETUP && !HasSigned(h.flags)
    requires NtlmOf(msg).Some? && NtlmOf(msg).value.0 == NTLM_NEGOTIATE
    ensures var a := conn.session.value.auth;
            var folded := Patched(SetupResponse(h, a.sessionId, MORE_PROCESSING, 0, d.auth.challengeToken(f.challenge)), h,
                                  SessionIdFor(h, Some(a.sessionId)));
            var next := Answer(d, conn, h, msg, SetUp(d, conn.session.value, msg, h, f), encrypted);
            && next.session.value.auth.preauth == Fold(d.auth, Fold(d.auth, a.preauth, msg), folded)
            && next.log == conn.log + [Exchange(msg, Sign(d.mac, a.keys.signing, folded), OnTheWire(d, next.session, folded, encrypted))]
            && Sign(d.mac, a.keys.signing, folded) != folded
  {
    hide Patched, Fold, Parse, NtlmOf, SetupResponse, Sign, Verify, WithSigned, WithResponseFlag;
    var a := conn.session.value.auth;
    var resp := SetupResponse(h, a.sessionId, MORE_PROCESSING, 0, d.auth.challengeToken(f.challenge));
    var sid := SessionIdFor(h, Some(a.sessionId));
    var folded := Patched(resp, h, sid);
    SetupFlags(h, a.sessionId, MORE_PROCESSING, 0, d.auth.challengeToken(f.challenge));
    PatchedHeader(resp, h, sid);
    FlagBits(h.flags);
    FlagsField(folded);
    SignedVerifies(d.mac, a.keys.signing, folded);
  }

  lemma FlagsField(msg: bytes)
    requires Parse(msg).Some?
    ensures Parse(msg).value.flags == U32LE(msg, 16)
  {
  }

  lemma SetupFlags(h: Header, sessionId: u64, status: u32, flags: u16, secBuf: bytes)
    ensures var r := SetupResponse(h, sessionId, status, flags, secBuf);
            Parse(r).Some? && Parse(r).value.flags == WithResponseFlag(h.flags) && U32LE(r, 16) == WithResponseFlag(h.flags)
  {
    hide Encode, Parse;
    HeaderRoundTrip(Header(0, status, SESSION_SETUP, 1, WithResponseFlag(h.flags), 0, h.messageId, h.treeId, sessionId, NO_SIGNATURE),
                    Put16LE(9) + Put16LE(flags) + Put16LE(72) + Put16LE(|secBuf| % 0x1_0000) + secBuf);
    FlagsField(SetupResponse(h, sessionId, status, flags, secBuf));
  }

  lemma Quotient(x: int, d: int, q: int, r: int)
    requires d == 2 || d == 8
    requires x == d * q + r && 0 <= r < d
    ensures x / d == q && x % d == r
  {
  }

  lemma NextOdd(flags: u32)
    requires flags % 2 == 0
    ensures (flags + 1) / 8 == flags / 8 && (flags + 1) % 2 == 1
  {
    var x: int := flags;
    var h := x / 2;
    var q, r := h / 4, h % 4;
    Quotient(x, 8, q, 2 * r);
    Quotient(x + 1, 8, q, 2 * r + 1);
    Quotient(x + 1, 2, h, 1);
  }

  lemma FlagBits(flags: u32)
    requires !HasSigned(flags)
    ensures var r := WithResponseFlag(WithResponseFlag(flags));
            !HasSigned(r) && WithSigned(r) != r
  {
    if flags % 2 == 0 {
      NextOdd(flags);
    }
  }
}
