/** The preauth hash beyond the first authentication: exactly when server and client fold the same octets. */
module SmbTranscript {
  import opened Bytes
  import opened SmbFrame
  import opened SmbAuth
  import opened SmbSign
  import T = SmbTree
  import opened SmbConn
  import N = SmbNegotiate

  // -- One response ---------------------------------------------------------------------------------------------------

  /** Signing does not change the response: it is not to be signed, or it carries the flag already and its MAC happens to be
      the empty signature. */
  predicate Bare(d: Driver, a: Auth, resp: bytes)
    requires |resp| >= HEADER_SIZE
  {
    Signs(a) ==> HasSigned(U32LE(resp, 16)) && d.mac(a.keys.signing, resp) == NO_SIGNATURE
  }

  lemma SignedFlags(mac: Mac, key: bytes, resp: bytes)
    requires ValidMac(mac) && Parse(resp).Some? && !HasSigned(U32LE(resp, 16))
    ensures Sign(mac, key, resp) != resp
  {
    hide Sign, Verify, U16LE, U32LE, U64LE;
    SignedVerifies(mac, key, resp);
    FlagsField(resp);
  }

  /** Signing leaves a response as it is if and only if it has the flag, and the signature it carries is its MAC. */
  lemma SignKeeps(mac: Mac, key: bytes, resp: bytes)
    requires ValidMac(mac) && Parse(resp).Some? && resp[48..64] == NO_SIGNATURE
    ensures Sign(mac, key, resp) == resp <==> HasSigned(U32LE(resp, 16)) && mac(key, resp) == NO_SIGNATURE
  {
    if HasSigned(U32LE(resp, 16)) {
      hide U16LE, U32LE, U64LE, Put32LE, HasSigned;
      Put32OfGet(resp, 16);
      assert Splice(resp, 16, Put32LE(U32LE(resp, 16))) == resp;
      assert Blank(resp) == resp;
      var sig := mac(key, resp);
      var signed := Splice(resp, 48, sig);
      assert signed[48..64] == sig;
      assert sig == NO_SIGNATURE ==> signed == resp;
    } else {
      SignedFlags(mac, key, resp);
    }
  }

  /** What the client reads is the response that the server folds if and only if that is bare; its status in any case. */
  lemma BareIsRead(d: Driver, s: Session, resp: bytes)
    requires ValidMac(d.mac) && Parse(resp).Some? && resp[48..64] == NO_SIGNATURE
    ensures Signed(d, Some(s), resp) == resp <==> Bare(d, s.auth, resp)
    ensures StatusOf(Signed(d, Some(s), resp)) == StatusOf(resp)
  {
    hide Sign, U16LE, U32LE, U64LE, HasSigned, Parse;
    if Signs(s.auth) {
      SignKeeps(d.mac, s.auth.keys.signing, resp);
      SignedStatus(d, s.auth.keys.signing, resp);
    }
  }

  // -- One step -------------------------------------------------------------------------------------------------------

  /** Server and client have folded the same messages. */
  predicate Agrees(conn: Conn) { conn.folded == Transcript(conn.log) }

  /** A first leg: an NTLM NEGOTIATE, which is answered by a challenge. */
  predicate FirstLeg(h: Header, msg: bytes) {
    h.command == SESSION_SETUP && NtlmOf(msg).Some? && NtlmOf(msg).value.0 == NTLM_NEGOTIATE
  }

  /** The finished response to a first leg. */
  function Challenge(d: Driver, a: Auth, h: Header, f: Fresh): (resp: bytes)
    ensures |resp| >= HEADER_SIZE
  {
    Patched(SetupResponse(h, a.sessionId, MORE_PROCESSING, 0, d.auth.challengeToken(f.challenge)), h, SessionIdFor(h, Some(a.sessionId)))
  }

  /** The request in a frame, where the connection takes it. */
  function Taken(d: Driver, conn: Conn, frame: bytes): Option<(Header, bytes)> {
    match Unwrap(d, conn.session, frame)
    case None => None
    case Some(msg) =>
      match Parse(msg)
      case None => None
      case Some(h) => if conn.live && Acceptable(d, conn.session, msg, h) then Some((h, msg)) else None
  }

  /** If the frame is a first leg, signing will not change its challenge: known before the frame is handled. */
  predicate Heard(d: Driver, conn: Conn, x: Input) {
    var t := Taken(d, conn, x.frame);
    t.Some? && conn.session.Some? && FirstLeg(t.value.0, t.value.1) ==>
      Bare(d, conn.session.value.auth, Challenge(d, conn.session.value.auth, t.value.0, x.rand))
  }

  lemma SetupSignature(h: Header, sessionId: u64, status: u32, flags: u16, secBuf: bytes, sid: u64)
    ensures var r := Patched(SetupResponse(h, sessionId, status, flags, secBuf), h, sid);
            Parse(r).Some? && StatusOf(r) == Some(status) && r[48..64] == NO_SIGNATURE
  {
    hide Encode, Parse, Patched;
    var r := SetupResponse(h, sessionId, status, flags, secBuf);
    var head := Header(0, status, SESSION_SETUP, 1, WithResponseFlag(h.flags), 0, h.messageId, h.treeId, sessionId, NO_SIGNATURE);
    HeaderRoundTrip(head, Put16LE(9) + Put16LE(flags) + Put16LE(72) + Put16LE(|secBuf| % 0x1_0000) + secBuf);
    PatchedHeader(r, h, sid);
    SignatureField(Patched(r, h, sid));
  }

  lemma SignatureField(msg: bytes)
    requires Parse(msg).Some?
    ensures Parse(msg).value.signature == msg[48..64]
  {
  }

  /** Every SESSION_SETUP is answered by a response of that form; the challenge exactly for a first leg. */
  lemma LegForm(c: Conf, a: Auth, h: Header, req: bytes, challenge: bytes)
    requires h.command == SESSION_SETUP
    ensures var l := SessionSetup(c, a, h, req, challenge);
            && (l.status == MORE_PROCESSING <==> FirstLeg(h, req))
            && (FirstLeg(h, req) ==> l == LegOne(c, a, h, challenge))
            && l.auth.preauth == a.preauth
            && exists flags, sec :: l.resp == SetupResponse(h, a.sessionId, l.status, flags, sec)
  {
    hide SetupResponse, NtlmOf, KeysFor;
  }

  /** What a SESSION_SETUP adds on either side. */
  lemma SetUpAgrees(d: Driver, conn: Conn, h: Header, msg: bytes, f: Fresh, encrypted: bool)
    requires ValidDriver(d) && Parse(msg) == Some(h) && h.command == SESSION_SETUP && conn.session.Some?
    requires Agrees(conn)
    ensures var a := conn.session.value.auth;
            Agrees(Answer(d, conn, h, msg, SetUp(d, conn.session.value, msg, h, f), encrypted)) <==>
            (FirstLeg(h, msg) ==> Bare(d, a, Challenge(d, a, h, f)))
  {
    hide Patched, Fold, Parse, SessionSetup, SetupResponse, Signed, OnTheWire, Bare, NtlmOf, Transcript;
    var a := conn.session.value.auth;
    var folded := a.(preauth := Fold(d.auth, a.preauth, msg));
    var l := SessionSetup(d.auth, folded, h, msg, f.challenge);
    LegForm(d.auth, folded, h, msg, f.challenge);
    var r := SetUp(d, conn.session.value, msg, h, f);
    var sid := SessionIdFor(h, SessionIdOf(r.session));
    var resp := Patched(l.resp, h, sid);
    var flags, sec :| l.resp == SetupResponse(h, a.sessionId, l.status, flags, sec);
    SetupSignature(h, a.sessionId, l.status, flags, sec, sid);
    var s := FoldResponse(d, r.session, h, msg, resp, r.status);
    BareIsRead(d, s.value, resp);
    var read := Signed(d, s, resp);
    TranscriptNext(conn.log, Exchange(msg, read, OnTheWire(d, s, resp, encrypted)));
    if FirstLeg(h, msg) {
      BareIgnoresHash(d, a, s.value.auth, resp);
      SameStart(conn.folded, [msg, resp], [msg, read]);
      assert [msg, resp][1] == resp && [msg, read][1] == read;
    }
  }

  lemma SameStart(a: seq<bytes>, b: seq<bytes>, c: seq<bytes>)
    ensures a + b == a + c <==> b == c
  {
    if a + b == a + c {
      assert (a + b)[|a|..] == b && (a + c)[|a|..] == c;
    }
  }

  lemma BareIgnoresHash(d: Driver, a: Auth, b: Auth, resp: bytes)
    requires |resp| >= HEADER_SIZE
    requires a.keys == b.keys && a.sessionId == b.sessionId && a.complete == b.complete && a.signing == b.signing && a.guest == b.guest
    ensures Bare(d, a, resp) <==> Bare(d, b, resp)
  {
    hide Sign, HasSigned;
  }

  lemma NegotiateAgrees(d: Driver, conn: Conn, h: Header, msg: bytes, f: Fresh, encrypted: bool)
    requires ValidFresh(f) && |d.guid| == 16 && Parse(msg) == Some(h) && h.command == NEGOTIATE
    requires Negotiate(d, msg, h, f).Some?
    ensures Agrees(Answer(d, conn, h, msg, Negotiate(d, msg, h, f).value, encrypted))
  {
    hide Patched, Fold, N.Response, N.Negotiated, Parse, Transcript;
    var r := Negotiate(d, msg, h, f).value;
    var resp := Patched(r.resp, h, SessionIdFor(h, SessionIdOf(r.session)));
    var s := FoldResponse(d, r.session, h, msg, resp, r.status);
    PlainOnTheWire(d, s, resp, encrypted);
    TranscriptNext(conn.log, Exchange(msg, resp, resp));
  }

  lemma OtherAgrees(d: Driver, conn: Conn, h: Header, msg: bytes, r: Handled, encrypted: bool)
    requires Parse(msg) == Some(h) && h.command != NEGOTIATE && h.command != SESSION_SETUP && Agrees(conn)
    ensures Agrees(Answer(d, conn, h, msg, r, encrypted))
  {
    hide Patched, Fold, Parse, Signed, OnTheWire, Transcript;
    var resp := Patched(r.resp, h, SessionIdFor(h, SessionIdOf(r.session)));
    var s := FoldResponse(d, r.session, h, msg, resp, r.status);
    TranscriptNext(conn.log, Exchange(msg, Signed(d, s, resp), OnTheWire(d, s, resp, encrypted)));
  }

  /** One frame keeps server and client together if and only if it is heard: it is no first leg, or one whose challenge is
      not changed by signing. */
  lemma StepAgrees(d: Driver, conn: Conn, x: Input)
    requires ValidDriver(d) && ValidFresh(x.rand) && Agrees(conn)
    ensures Agrees(Receive(d, conn, x.frame, x.rand)) <==> Heard(d, conn, x)
  {
    hide Agrees, Answer, SetUp, Negotiate, TreeCommand, Unsupported, Parse, Acceptable, Unwrap, Bare, Challenge, NtlmOf;
    ClosedAgrees(conn);
    var t := Taken(d, conn, x.frame);
    if t.Some? {
      var (h, msg) := t.value;
      var encrypted := IsTransform(x.frame);
      var r := Dispatch(d, conn.session, msg, h, x.rand);
      if r.Some? {
        if h.command == NEGOTIATE {
          NegotiateAgrees(d, conn, h, msg, x.rand, encrypted);
        } else if h.command == SESSION_SETUP {
          SetUpAgrees(d, conn, h, msg, x.rand, encrypted);
        } else {
          OtherAgrees(d, conn, h, msg, r.value, encrypted);
        }
      }
    }
  }

  lemma ClosedAgrees(conn: Conn)
    requires Agrees(conn)
    ensures Agrees(conn.(live := false))
  {
  }

  // -- Runs -----------------------------------------------------------------------------------------------------------

  predicate ValidInputs(inputs: seq<Input>) { forall i | 0 <= i < |inputs| :: ValidFresh(inputs[i].rand) }

  /** Every frame of a run is heard in the state it meets. */
  predicate AllHeard(d: Driver, conn: Conn, inputs: seq<Input>)
    requires |d.guid| == 16 && ValidInputs(inputs)
    decreases |inputs|
  {
    inputs != [] ==>
      Heard(d, conn, inputs[0]) && AllHeard(d, Receive(d, conn, inputs[0].frame, inputs[0].rand), inputs[1..])
  }

  /** At every point of a run server and client have folded the same messages. */
  predicate AlwaysAgree(d: Driver, conn: Conn, inputs: seq<Input>)
    requires |d.guid| == 16 && ValidInputs(inputs)
    decreases |inputs|
  {
    Agrees(conn) && (inputs != [] ==> AlwaysAgree(d, Receive(d, conn, inputs[0].frame, inputs[0].rand), inputs[1..]))
  }

  /** Server and client fold the same messages all along a run if and only if every first leg in it is heard. */
  lemma {:induction false} AgreementIsHearing(d: Driver, conn: Conn, inputs: seq<Input>)
    requires ValidDriver(d) && ValidInputs(inputs) && Agrees(conn)
    ensures AlwaysAgree(d, conn, inputs) <==> AllHeard(d, conn, inputs)
    decreases |inputs|
  {
    hide Agrees, Receive, Heard;
    if inputs != [] {
      var next := Receive(d, conn, inputs[0].frame, inputs[0].rand);
      StepAgrees(d, conn, inputs[0]);
      if Agrees(next) {
        AgreementIsHearing(d, next, inputs[1..]);
      }
    }
  }

  lemma {:induction false} AgreesAtEnd(d: Driver, conn: Conn, inputs: seq<Input>)
    requires |d.guid| == 16 && ValidInputs(inputs) && AlwaysAgree(d, conn, inputs)
    ensures Agrees(Run(d, conn, inputs))
    decreases |inputs|
  {
    hide Agrees, Receive;
    if inputs != [] {
      AgreesAtEnd(d, Receive(d, conn, inputs[0].frame, inputs[0].rand), inputs[1..]);
    }
  }

  // -- The hash -------------------------------------------------------------------------------------------------------

  /** The preauth hash of a session is that of the messages folded. */
  predicate Folds(d: Driver, conn: Conn) {
    conn.session.Some? ==> conn.session.value.auth.preauth == FoldAll(d.auth, Zeros(64), conn.folded)
  }

  lemma TwoFolds(c: Conf, start: bytes, msgs: seq<bytes>, a: bytes, b: bytes)
    ensures FoldAll(c, start, msgs + [a, b]) == Fold(c, Fold(c, FoldAll(c, start, msgs), a), b)
    ensures FoldAll(c, start, [a, b]) == Fold(c, Fold(c, start, a), b)
  {
    hide Fold;
    FoldOne(c, start, msgs, a);
    FoldOne(c, start, msgs + [a], b);
    assert msgs + [a] + [b] == msgs + [a, b];
    var none: seq<bytes> := [];
    FoldOne(c, start, none, a);
    FoldOne(c, start, none + [a], b);
    assert none + [a] + [b] == [a, b];
  }

  lemma AnswerFolds(d: Driver, conn: Conn, h: Header, msg: bytes, f: Fresh, r: Handled, encrypted: bool)
    requires ValidFresh(f) && |d.guid| == 16 && Folds(d, conn) && Dispatch(d, conn.session, msg, h, f) == Some(r)
    ensures Folds(d, Answer(d, conn, h, msg, r, encrypted))
  {
    hide Patched, Fold, FoldAll, OnTheWire, N.Response, N.Negotiated, SessionSetup, T.Apply, T.ParseRequest, T.ReplyBytes;
    var resp := Patched(r.resp, h, SessionIdFor(h, SessionIdOf(r.session)));
    TwoFolds(d.auth, Zeros(64), conn.folded, msg, resp);
    FoldOne(d.auth, Zeros(64), conn.folded, msg);
    if h.command == SESSION_SETUP && conn.session.Some? {
      var a := conn.session.value.auth;
      LegOutcome(d.auth, a.(preauth := Fold(d.auth, a.preauth, msg)), h, msg, f.challenge);
    }
  }

  lemma StepFolds(d: Driver, conn: Conn, x: Input)
    requires |d.guid| == 16 && ValidFresh(x.rand) && Folds(d, conn)
    ensures Folds(d, Receive(d, conn, x.frame, x.rand))
  {
    hide Folds, Answer, Dispatch, Parse, Acceptable, Unwrap;
    ClosedFolds(d, conn);
    var t := Taken(d, conn, x.frame);
    if t.Some? {
      var (h, msg) := t.value;
      var r := Dispatch(d, conn.session, msg, h, x.rand);
      if r.Some? {
        AnswerFolds(d, conn, h, msg, x.rand, r.value, IsTransform(x.frame));
      }
    }
  }

  lemma ClosedFolds(d: Driver, conn: Conn)
    requires Folds(d, conn)
    ensures Folds(d, conn.(live := false))
  {
  }

  lemma {:induction false} RunFolds(d: Driver, conn: Conn, inputs: seq<Input>)
    requires |d.guid| == 16 && ValidInputs(inputs) && Folds(d, conn)
    ensures Folds(d, Run(d, conn, inputs))
    decreases |inputs|
  {
    hide Folds, Receive;
    if inputs != [] {
      StepFolds(d, conn, inputs[0]);
      RunFolds(d, Receive(d, conn, inputs[0].frame, inputs[0].rand), inputs[1..]);
    }
  }

  /** The hash law, before and after authentication: in a run in which every first leg is heard, a session's hash is at the
      end the one the client computes from what it wrote and read; and a frame that is then answered with success gives
      the session, for the first time or again, the keys of that hash with the frame included. */
  lemma HashLaw(d: Driver, inputs: seq<Input>, x: Input)
    requires ValidDriver(d) && ValidInputs(inputs) && ValidFresh(x.rand)
    requires AllHeard(d, NEW_CONN, inputs)
    ensures var conn := Run(d, NEW_CONN, inputs);
            && (conn.session.Some? ==> conn.session.value.auth.preauth == ClientHash(d.auth, conn.log))
            && (Succeeds(d, conn, x) ==> KeysBound(d, Receive(d, conn, x.frame, x.rand)))
  {
    hide Run, Receive, AllHeard, AlwaysAgree, ClientHash, Succeeds, KeysBound;
    AgreementIsHearing(d, NEW_CONN, inputs);
    AgreesAtEnd(d, NEW_CONN, inputs);
    RunFolds(d, NEW_CONN, inputs);
    var conn := Run(d, NEW_CONN, inputs);
    HashOfFolded(d, conn);
    if Succeeds(d, conn, x) {
      SuccessBinds(d, conn, x);
    }
  }

  lemma HashOfFolded(d: Driver, conn: Conn)
    requires Agrees(conn) && Folds(d, conn)
    ensures conn.session.Some? ==> conn.session.value.auth.preauth == ClientHash(d.auth, conn.log)
  {
    hide Transcript, FoldAll;
  }

  /** The frame is a SESSION_SETUP that is answered with success. */
  predicate Succeeds(d: Driver, conn: Conn, x: Input) {
    var t := Taken(d, conn, x.frame);
    && t.Some? && conn.session.Some? && t.value.0.command == SESSION_SETUP
    && SetUp(d, conn.session.value, t.value.1, t.value.0, x.rand).status == SUCCESS
  }

  lemma SuccessBinds(d: Driver, conn: Conn, x: Input)
    requires ValidDriver(d) && ValidFresh(x.rand) && Agrees(conn) && Folds(d, conn) && Succeeds(d, conn, x)
    ensures var next := Receive(d, conn, x.frame, x.rand); next.session.Some? && KeysBound(d, next)
  {
    hide Patched, Fold, ClientHash, Parse, SessionSetup, KeysFor, OnTheWire, Acceptable, Unwrap, Agrees, Folds, NtlmOf, Bare, Challenge;
    var (h, msg) := Taken(d, conn, x.frame).value;
    var a := conn.session.value.auth;
    var folded := a.(preauth := Fold(d.auth, a.preauth, msg));
    LegOutcome(d.auth, folded, h, msg, x.rand.challenge);
    LegForm(d.auth, folded, h, msg, x.rand.challenge);
    var next := Receive(d, conn, x.frame, x.rand);
    assert Heard(d, conn, x);
    StepAgrees(d, conn, x);
    StepFolds(d, conn, x);
    HashOfFolded(d, next);
  }
}
