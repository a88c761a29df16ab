/** The session and the connection in the source's own form: fields that the handlers update (smb_session.go, smb_tree.go)
    and the loop that drives them (smb.go). */
module SmbServer {
  import opened Bytes
  import opened SmbFrame
  import opened SmbAuth
  import opened SmbSign
  import opened SmbTree
  import SmbConn
  import N = SmbNegotiate

  class SmbSession {
    var sessionId: u64
    var dialect: u16
    var cipher: u16
    var user: Name
    var domain: Name
    var guest: bool
    var sessionKey: bytes
    var signingKey: bytes
    var c2sKey: bytes
    var s2cKey: bytes
    var preauth: bytes
    var serverChallenge: bytes
    var authComplete: bool
    var signingRequired: bool
    var encryptData: bool
    var trees: map<u32, seq<u16>>
    var printTrees: set<u32>
    var nextTreeId: u32
    var handles: map<bytes, Handle>
    var jobs: seq<Captured>

    function AuthValue(): Auth
      reads `sessionId, `dialect, `cipher, `user, `domain, `guest, `sessionKey, `signingKey, `c2sKey, `s2cKey,
            `preauth, `serverChallenge, `authComplete, `signingRequired, `encryptData
    {
      Auth(sessionId, dialect, cipher, user, domain, guest, sessionKey, Keys(signingKey, c2sKey, s2cKey), preauth,
           serverChallenge, authComplete, signingRequired, encryptData)
    }

    function SharesValue(): Shares
      reads `trees, `printTrees, `nextTreeId, `handles, `jobs
    {
      Shares(trees, printTrees, nextTreeId, handles, jobs)
    }

    constructor (sessionId: u64)
      ensures AuthValue() == NewAuth(sessionId, 0, 0) && SharesValue() == NO_SHARES
    {
      this.sessionId, dialect, cipher := sessionId, 0, 0;
      user, domain, guest, sessionKey := [], [], false, [];
      signingKey, c2sKey, s2cKey := [], [], [];
      preauth, serverChallenge := Zeros(64), [];
      authComplete, signingRequired, encryptData := false, false, false;
      trees, printTrees, nextTreeId, handles, jobs := map[], {}, 0, map[], [];
    }

    method UpdatePreauth(c: Conf, msg: bytes)
      modifies `preauth
      ensures AuthValue() == old(AuthValue()).(preauth := Fold(c, old(preauth), msg))
    {
      preauth := c.hash(preauth + msg);
    }

    method DeriveSessionKeys(c: Conf, sbk: bytes)
      modifies `signingKey, `c2sKey, `s2cKey
      ensures AuthValue() == old(AuthValue()).(keys := KeysFor(c, sbk, old(preauth)))
    {
      var ctx := preauth;
      signingKey := c.kdf(sbk, SIGNING_LABEL, ctx);
      c2sKey := c.kdf(sbk, C2S_LABEL, ctx);
      s2cKey := c.kdf(sbk, S2C_LABEL, ctx);
    }

    /** The first fields a leg sets: who it is, and the session key. */
    method Identify(usr: Name, dom: Name, isGuest: bool, sbk: bytes)
      modifies `user, `domain, `guest, `sessionKey
      ensures AuthValue() == old(AuthValue()).(user := usr, domain := dom, guest := isGuest, sessionKey := sbk)
    {
      user := usr;
      domain := dom;
      guest := isGuest;
      sessionKey := sbk;
    }

    /** The last: the session is authenticated, and how its traffic is protected. */
    method Complete(sign: bool, encrypt: bool)
      modifies `authComplete, `signingRequired, `encryptData
      ensures AuthValue() == old(AuthValue()).(complete := true, signing := sign, encrypts := encrypt)
    {
      authComplete := true;
      signingRequired := sign;
      encryptData := encrypt;
    }

    method FinishGuestSession(c: Conf, h: Header) returns (resp: bytes, status: u32)
      modifies `user, `domain, `guest, `sessionKey, `signingKey, `c2sKey, `s2cKey, `authComplete, `signingRequired, `encryptData
      ensures Leg(AuthValue(), resp, status) == Guest(c, old(AuthValue()), h)
    {
      hide KeysFor, SetupResponse, Zeros;
      ghost var a := AuthValue();
      var sbk := Zeros(16);
      Identify(user, domain, true, sbk);
      DeriveSessionKeys(c, sbk);
      Complete(false, encryptData);
      status := SUCCESS;
      resp := SetupResponse(h, sessionId, SUCCESS, GUEST_FLAG, c.successToken);
    }

    method HandleLeg1(c: Conf, h: Header, challenge: bytes) returns (resp: bytes, status: u32)
      modifies `serverChallenge
      ensures Leg(AuthValue(), resp, status) == LegOne(c, old(AuthValue()), h, challenge)
    {
      hide SetupResponse;
      serverChallenge := challenge;
      var token := c.challengeToken(challenge);
      status := MORE_PROCESSING;
      resp := SetupResponse(h, sessionId, MORE_PROCESSING, 0, token);
    }

    /** No verified user: a guest, unless the configuration demands authentication. */
    method HandleUnverified(c: Conf, h: Header) returns (resp: bytes, status: u32)
      modifies `user, `domain, `guest, `sessionKey, `signingKey, `c2sKey, `s2cKey, `authComplete, `signingRequired, `encryptData
      ensures Leg(AuthValue(), resp, status) == Unverified(c, old(AuthValue()), h)
    {
      hide Guest, SetupResponse;
      if !c.requireAuth {
        resp, status := FinishGuestSession(c, h);
        return;
      }
      return SetupResponse(h, sessionId, ACCESS_DENIED, 0, []), ACCESS_DENIED;
    }

    method HandleLeg2(c: Conf, h: Header, ntlm: bytes) returns (resp: bytes, status: u32)
      modifies `user, `domain, `guest, `sessionKey, `signingKey, `c2sKey, `s2cKey, `authComplete, `signingRequired, `encryptData
      ensures Leg(AuthValue(), resp, status) == LegTwo(c, old(AuthValue()), h, ntlm)
    {
      hide KeysFor, SetupResponse, Unverified;
      var parsed := c.parseAuth(ntlm);
      if parsed == None {
        resp, status := HandleUnverified(c, h);
        return;
      }
      var (dom, usr) := parsed.value;
      var key := c.verify(usr, serverChallenge, ntlm);
      if key == None {
        resp, status := HandleUnverified(c, h);
        return;
      }
      Identify(usr, dom, guest, key.value);
      DeriveSessionKeys(c, key.value);
      Complete(c.sign, c.encrypt);
      status := SUCCESS;
      resp := SetupResponse(h, sessionId, SUCCESS, 0, c.successToken);
    }

    method HandleSessionSetup(c: Conf, h: Header, req: bytes, challenge: bytes) returns (resp: bytes, status: u32)
      modifies `user, `domain, `guest, `sessionKey, `signingKey, `c2sKey, `s2cKey, `serverChallenge, `authComplete,
               `signingRequired, `encryptData
      ensures Leg(AuthValue(), resp, status) == SessionSetup(c, old(AuthValue()), h, req, challenge)
    {
      hide LegOne, LegTwo, SetupResponse, SecBuf, ExtractNtlm, MessageType;
      var secBuf := SecBuf(req);
      if secBuf == None {
        return SetupResponse(h, sessionId, ACCESS_DENIED, 0, []), ACCESS_DENIED;
      }
      var ntlm := ExtractNtlm(secBuf.value);
      if ntlm == None {
        return SetupResponse(h, sessionId, ACCESS_DENIED, 0, []), ACCESS_DENIED;
      }
      var kind := MessageType(ntlm.value);
      if kind == Some(NTLM_NEGOTIATE) {
        resp, status := HandleLeg1(c, h, challenge);
      } else if kind == Some(NTLM_AUTHENTICATE) {
        resp, status := HandleLeg2(c, h, ntlm.value);
      } else {
        return SetupResponse(h, sessionId, ACCESS_DENIED, 0, []), ACCESS_DENIED;
      }
    }

    method HandleTreeConnect(c: ShareConf, req: bytes) returns (reply: Reply)
      modifies `trees, `printTrees, `nextTreeId
      ensures (SharesValue(), reply) == Apply(c, user, old(SharesValue()), ParseTreeConnect(req), [])
    {
      hide Refuse, LastSegment, Units, Put16LE, Put32LE;
      if |req| < HEADER_SIZE + 8 || U16LE(req, HEADER_SIZE) != 9 {
        return Refuse(INVALID_PARAMETER);
      }
      var raw := Field(req, U16LE(req, HEADER_SIZE + 4), U16LE(req, HEADER_SIZE + 6));
      if raw == None {
        return Refuse(INVALID_PARAMETER);
      }
      var path := Units(raw.value);
      var share := LastSegment(path);
      var isPipe, isPrint := c.isPipe(share), c.isPrint(share);
      if !isPipe && !isPrint {
        return Refuse(NAME_NOT_FOUND);
      }
      nextTreeId := (nextTreeId + 1) % 0x1_0000_0000;
      if nextTreeId == 0 {
        nextTreeId := 1;
      }
      var treeId := nextTreeId;
      trees := trees[treeId := path];
      var shareType := SHARE_PIPE;
      if isPrint {
        shareType := SHARE_PRINT;
        printTrees := printTrees + {treeId};
      }
      reply := Reply(SUCCESS, Some(treeId), Put16LE(16) + [shareType, 0] + Zeros(8) + Put32LE(ALL_ACCESS));
    }

    method HandleCreate(c: ShareConf, h: Header, req: bytes, fid: bytes) returns (reply: Reply)
      modifies `handles
      ensures (SharesValue(), reply) == Apply(c, user, old(SharesValue()), ParseCreate(h, req), fid)
    {
      hide Refuse, Accept, Units, Put16LE, Put32LE;
      if |req| < HEADER_SIZE + 56 || U16LE(req, HEADER_SIZE) != 57 {
        return Refuse(INVALID_PARAMETER);
      }
      var nameLen := U16LE(req, HEADER_SIZE + 46);
      var name: seq<u16> := [];
      if nameLen > 0 {
        var raw := Field(req, U16LE(req, HEADER_SIZE + 44), nameLen);
        if raw == None {
          return Refuse(INVALID_PARAMETER);
        }
        name := Units(raw.value);
      }
      name := TrimBackslash(name);
      var isPrintTree := h.treeId in printTrees;
      if !isPrintTree && !c.isSpoolss(name) {
        return Refuse(ACCESS_DENIED);
      }
      var file := if isPrintTree then SpoolHandle(name, []) else RpcHandle(NEW_PIPE, []);
      handles := handles[fid := file];
      reply := Accept(Put16LE(89) + Zeros(2) + Put32LE(1) + Zeros(56) + fid + Zeros(8));
    }

    method HandleWrite(c: ShareConf, req: bytes) returns (reply: Reply)
      modifies `handles, `jobs
      ensures (SharesValue(), reply) == Apply(c, user, old(SharesValue()), ParseWrite(req), [])
    {
      hide Refuse, Accept, WriteBody, WriteTo;
      if |req| < HEADER_SIZE + 48 || U16LE(req, HEADER_SIZE) != 49 {
        return Refuse(INVALID_PARAMETER);
      }
      var data := Field(req, U16LE(req, HEADER_SIZE + 2), U32LE(req, HEADER_SIZE + 4));
      if data == None {
        return Refuse(INVALID_PARAMETER);
      }
      var fid := req[HEADER_SIZE + 16..HEADER_SIZE + 32];
      if fid !in handles {
        return Refuse(ACCESS_DENIED);
      }
      var (file, done) := WriteTo(handles[fid], data.value, c.cap);
      handles := handles[fid := file];
      jobs := jobs + done;
      reply := Accept(WriteBody(data.value));
    }

    method HandleRead(c: ShareConf, req: bytes) returns (reply: Reply)
      modifies `handles
      ensures (SharesValue(), reply) == Apply(c, user, old(SharesValue()), ParseRead(req), [])
    {
      hide Refuse, Accept, ReadBody, ReadFrom;
      if |req| < HEADER_SIZE + 48 || U16LE(req, HEADER_SIZE) != 49 {
        return Refuse(INVALID_PARAMETER);
      }
      var length := U32LE(req, HEADER_SIZE + 4);
      var fid := req[HEADER_SIZE + 16..HEADER_SIZE + 32];
      if fid !in handles {
        return Refuse(ACCESS_DENIED);
      }
      var (file, data) := ReadFrom(handles[fid], length);
      handles := handles[fid := file];
      reply := Accept(ReadBody(data));
    }

    method HandleClose(c: ShareConf, req: bytes) returns (reply: Reply)
      modifies `handles, `jobs
      ensures (SharesValue(), reply) == Apply(c, user, old(SharesValue()), ParseClose(req), [])
    {
      hide Refuse, Accept;
      if |req| < HEADER_SIZE + 24 || U16LE(req, HEADER_SIZE) != 24 {
        return Refuse(INVALID_PARAMETER);
      }
      var fid := req[HEADER_SIZE + 8..HEADER_SIZE + 24];
      if fid !in handles {
        return Refuse(ACCESS_DENIED);
      }
      var file := handles[fid];
      if file.SpoolHandle? && |file.buf| > 0 {
        jobs := jobs + [FromSpool(file.doc, user, file.buf)];
      } else {
        assert jobs + [] == jobs;
      }
      handles := handles - {fid};
      reply := Accept(Put16LE(60) + Zeros(58));
    }

    method HandleTreeDisconnect(c: ShareConf, h: Header) returns (reply: Reply)
      modifies `trees, `printTrees
      ensures (SharesValue(), reply) == Apply(c, user, old(SharesValue()), TreeDisconnect(h.treeId), [])
    {
      hide Refuse, Accept;
      trees := trees - {h.treeId};
      printTrees := printTrees - {h.treeId};
      reply := Accept(Put16LE(4) + Zeros(2));
    }
  }

  class SmbConnection {
    var session: SmbSession?
    var live: bool
    ghost const driver: SmbConn.Driver
    ghost var inputs: seq<SmbConn.Input>
    ghost var log: seq<SmbConn.Exchange>
    ghost var folded: seq<bytes>

    ghost function SessionValue(): Option<SmbConn.Session>
      reads `session, if session == null then {} else {session}
    {
      if session == null then None else Some(SmbConn.Session(session.AuthValue(), session.SharesValue()))
    }

    ghost function Value(): SmbConn.Conn
      reads this, if session == null then {} else {session}
    {
      SmbConn.Conn(SessionValue(), log, folded, live)
    }

    /** The connection is where the frames it has handled lead a new one. */
    ghost predicate Valid()
      reads this, if session == null then {} else {session}
    {
      && |driver.guid| == 16 && (forall i | 0 <= i < |inputs| :: SmbConn.ValidFresh(inputs[i].rand))
      && Value() == SmbConn.Run(driver, SmbConn.NEW_CONN, inputs)
    }

    constructor (d: SmbConn.Driver)
      requires |d.guid| == 16
      ensures Valid() && driver == d && inputs == [] && live && session == null
    {
      session, live := null, true;
      driver, inputs, log, folded := d, [], [], [];
    }

    /** NEGOTIATE replaces the session by a new one. */
    method Negotiate(d: SmbConn.Driver, msg: bytes, h: Header, f: SmbConn.Fresh) returns (resp: Option<bytes>)
      requires SmbConn.ValidFresh(f) && |d.guid| == 16 && Parse(msg) == Some(h)
      modifies `session
      ensures fresh(session) || session == old(session)
      ensures resp == None <==> SmbConn.Negotiate(d, msg, h, f).None?
      ensures resp == None ==> session == old(session)
      ensures resp.Some? ==> Some(SmbConn.Handled(SessionValue(), resp.value, SUCCESS)) == SmbConn.Negotiate(d, msg, h, f)
    {
      hide N.Negotiated, N.Response, Parse;
      var r, _ := N.HandleNegotiate(N.Server(d.guid, f.salt), msg);
      if r == None {
        return None;
      }
      var nr := N.HandleNegotiateResult(msg);
      session := new SmbSession(f.sessionId);
      session.dialect, session.cipher := nr.value.dialect, nr.value.cipher;
      resp := r;
    }

    method SetUp(d: SmbConn.Driver, msg: bytes, h: Header, f: SmbConn.Fresh) returns (resp: bytes, status: u32)
      requires session != null
      modifies session
      ensures SmbConn.Handled(SessionValue(), resp, status) == SmbConn.SetUp(d, old(SessionValue()).value, msg, h, f)
    {
      hide Fold, SessionSetup;
      assert session.AuthValue().preauth == session.preauth;
      hide SmbSession.AuthValue;
      session.UpdatePreauth(d.auth, msg);
      resp, status := session.HandleSessionSetup(d.auth, h, msg, f.challenge);
    }

    method TreeCommand(d: SmbConn.Driver, msg: bytes, h: Header, f: SmbConn.Fresh) returns (resp: bytes, status: u32)
      requires session != null && IsTreeCommand(h.command)
      modifies session
      ensures SmbConn.Handled(SessionValue(), resp, status) == SmbConn.TreeCommand(d, old(SessionValue()).value, msg, h, f)
    {
      hide Apply, ReplyBytes, ParseTreeConnect, ParseCreate, ParseWrite, ParseRead, ParseClose;
      var reply := CallHandler(d, msg, h, f);
      resp, status := ReplyBytes(h, h.command, reply), reply.status;
    }

    method CallHandler(d: SmbConn.Driver, msg: bytes, h: Header, f: SmbConn.Fresh) returns (reply: Reply)
      requires session != null && IsTreeCommand(h.command)
      modifies session
      ensures session.AuthValue() == old(session.AuthValue())
      ensures (session.SharesValue(), reply) ==
              Apply(d.shares, old(session.user), old(session.SharesValue()), ParseRequest(h, msg), f.fid)
    {
      hide Apply, ParseTreeConnect, ParseCreate, ParseWrite, ParseRead, ParseClose;
      if h.command != CREATE {
        OnlyCreateCreates(h, msg);
        OnlyCreateMints(d.shares, session.user, session.SharesValue(), ParseRequest(h, msg), f.fid);
      }
      if h.command == TREE_CONNECT {
        reply := session.HandleTreeConnect(d.shares, msg);
      } else if h.command == CREATE {
        reply := session.HandleCreate(d.shares, h, msg, f.fid);
      } else if h.command == WRITE {
        reply := session.HandleWrite(d.shares, msg);
      } else if h.command == READ {
        reply := session.HandleRead(d.shares, msg);
      } else if h.command == CLOSE {
        reply := session.HandleClose(d.shares, msg);
      } else if h.command == TREE_DISCONNECT {
        reply := session.HandleTreeDisconnect(d.shares, h);
      } else {
        AckKeeps(d.shares, session.user, session.SharesValue(), f.fid);
        reply := Accept(Put16LE(4) + Zeros(2));
      }
    }

    /** The dispatch on the command; None closes the connection. */
    method Dispatch(d: SmbConn.Driver, msg: bytes, h: Header, f: SmbConn.Fresh) returns (r: Option<(bytes, u32)>)
      requires SmbConn.ValidFresh(f) && |d.guid| == 16 && Parse(msg) == Some(h)
      modifies `session, session
      ensures fresh(session) || session == old(session)
      ensures var want := SmbConn.Dispatch(d, old(SessionValue()), msg, h, f);
              if r.None? then want.None? && SessionValue() == old(SessionValue())
              else want == Some(SmbConn.Handled(SessionValue(), r.value.0, r.value.1))
    {
      hide Parse, SmbConn.Negotiate, SmbConn.SetUp, SmbConn.TreeCommand, ReplyBytes;
      if h.command == NEGOTIATE {
        var resp := Negotiate(d, msg, h, f);
        return if resp == None then None else Some((resp.value, SUCCESS));
      } else if h.command == SESSION_SETUP {
        if session == null {
          return None;
        }
        var resp, status := SetUp(d, msg, h, f);
        return Some((resp, status));
      } else if IsTreeCommand(h.command) {
        if session == null || !session.authComplete {
          return None;
        }
        var resp, status := TreeCommand(d, msg, h, f);
        return Some((resp, status));
      }
      return Some((ReplyBytes(h, h.command, Refuse(NOT_SUPPORTED)), NOT_SUPPORTED));
    }

    /** The rewrite, the folding, signing and encryption. */
    method Finish(d: SmbConn.Driver, h: Header, msg: bytes, handled: bytes, status: u32, encrypted: bool) returns (out: bytes)
      requires live
      modifies `log, `folded, if session == null then {} else {session}
      ensures session == old(session)
      ensures Value() == SmbConn.Answer(d, old(Value()), h, msg, SmbConn.Handled(old(SessionValue()), handled, status), encrypted)
      ensures |log| == |old(log)| + 1 && log[|old(log)|].sent == out
    {
      hide Patched, Fold, Sign, SmbConn.OnTheWire, SmbConn.Signed, SmbConn.FoldedNext;
      var resp := Patched(handled, h, SessionIdFor(h, if session == null then None else Some(session.sessionId)));
      if session != null {
        if h.command == NEGOTIATE {
          session.UpdatePreauth(d.auth, msg);
          session.UpdatePreauth(d.auth, resp);
        } else if h.command == SESSION_SETUP && status == MORE_PROCESSING {
          session.UpdatePreauth(d.auth, resp);
        }
      }
      out := Protect(d, resp, encrypted);
      log := log + [SmbConn.Exchange(msg, SmbConn.Signed(d, SessionValue(), resp), out)];
      folded := SmbConn.FoldedNext(folded, h, msg, resp, status);
    }

    method Protect(d: SmbConn.Driver, resp: bytes, encrypted: bool) returns (out: bytes)
      ensures out == SmbConn.OnTheWire(d, SessionValue(), resp, encrypted)
    {
      hide Sign;
      out := resp;
      if session == null {
        return;
      }
      if session.authComplete && session.signingRequired && !session.guest && |session.signingKey| == 16 {
        out := Sign(d.mac, session.signingKey, out);
      }
      if encrypted && |session.s2cKey| == 16 {
        var enc := d.encrypt(session.s2cKey, session.sessionId, out);
        if enc.Some? {
          out := enc.value;
        }
      }
    }

    /** The message in a frame, decrypted when it has to be. */
    method Unwrap(d: SmbConn.Driver, frame: bytes) returns (msg: Option<bytes>)
      ensures msg == SmbConn.Unwrap(d, SessionValue(), frame)
    {
      if !SmbConn.IsTransform(frame) {
        return Some(frame);
      }
      if session == null || |session.c2sKey| != 16 {
        return None;
      }
      msg := d.decrypt(session.c2sKey, frame);
    }

    /** The signature of a request, where one is demanded. */
    method Acceptable(d: SmbConn.Driver, msg: bytes, h: Header) returns (ok: bool)
      ensures ok <==> SmbConn.Acceptable(d, SessionValue(), msg, h)
    {
      hide Verify;
      ok := true;
      if session != null && session.authComplete && session.signingRequired && !session.guest && HasSigned(h.flags) {
        ok := Verify(d.mac, session.signingKey, msg);
      }
    }

    /** One turn of the loop of handleSMBConn: None closes the connection. */
    method HandleFrame(d: SmbConn.Driver, frame: bytes, f: SmbConn.Fresh) returns (out: Option<bytes>)
      requires SmbConn.ValidFresh(f) && |d.guid| == 16 && live
      modifies `session, `live, `log, `folded, session
      ensures fresh(session) || session == old(session)
      ensures Value() == SmbConn.Receive(d, old(Value()), frame, f)
      ensures out == None <==> !live
      ensures out.Some? ==> |log| > 0 && log[|log| - 1].sent == out.value
    {
      hide Parse, SmbConn.Dispatch, SmbConn.Answer, SmbConn.Acceptable, SmbConn.Unwrap, SessionValue;
      ghost var before := Value();
      var msg := Unwrap(d, frame);
      if msg == None {
        live := false;
        return None;
      }
      var h := Parse(msg.value);
      if h == None {
        live := false;
        return None;
      }
      var ok := Acceptable(d, msg.value, h.value);
      if !ok {
        live := false;
        return None;
      }
      var r := Dispatch(d, msg.value, h.value, f);
      if r == None {
        live := false;
        return None;
      }
      ghost var handled := SmbConn.Handled(SessionValue(), r.value.0, r.value.1);
      AnswerNeedsTheLog(d, before, Value(), h.value, msg.value, handled, SmbConn.IsTransform(frame));
      var answer := Finish(d, h.value, msg.value, r.value.0, r.value.1, SmbConn.IsTransform(frame));
      out := Some(answer);
    }

    /** Once around the loop: the connection stays where its frames lead. */
    method HandleNext(d: SmbConn.Driver, frame: bytes, f: SmbConn.Fresh) returns (out: Option<bytes>)
      requires Valid() && d == driver && SmbConn.ValidFresh(f) && live
      modifies this, session
      ensures Valid() && inputs == old(inputs) + [SmbConn.Input(frame, f)]
      ensures fresh(session) || session == old(session)
      ensures out == None <==> !live
      ensures out.Some? ==> |log| > 0 && log[|log| - 1].sent == out.value
    {
      hide SmbConn.Run, SmbConn.Receive, SmbConn.ValidFresh, SessionValue;
      ghost var x := SmbConn.Input(frame, f);
      SmbConn.RunNext(d, SmbConn.NEW_CONN, inputs, x);
      out := HandleFrame(d, frame, f);
      inputs := inputs + [x];
    }
  }

  /** Whatever frames it has been given: until its session is authenticated for the first time, the session's preauth hash is
      the one the client computes from what it wrote and read, and it owns no tree, no file and no job. */
  lemma ConnectionFollowsTranscript(conn: SmbConnection)
    requires conn.Valid() && SmbConn.ValidDriver(conn.driver)
    requires conn.session != null && !conn.session.authComplete
    ensures conn.session.preauth == SmbConn.ClientHash(conn.driver.auth, conn.log)
    ensures conn.session.trees == map[] && conn.session.printTrees == {} && conn.session.handles == map[] && conn.session.jobs == []
  {
    hide SmbConn.Run, SmbConn.ClientHash;
    SmbConn.RunKeeps(conn.driver, SmbConn.NEW_CONN, conn.inputs);
  }

  /** The frame that authenticates its session gives it the keys of the session key and the client's hash, with that very
      frame included; the next step is that of HandleFrame. */
  lemma ConnectionKeysBound(conn: SmbConnection, frame: bytes, f: SmbConn.Fresh)
    requires conn.Valid() && SmbConn.ValidDriver(conn.driver) && SmbConn.ValidFresh(f)
    ensures var next := SmbConn.Receive(conn.driver, conn.Value(), frame, f);
            SmbConn.Authenticates(conn.Value(), next) ==>
              next.session.value.auth.keys ==
              KeysFor(conn.driver.auth, next.session.value.auth.sessionKey, SmbConn.ClientHash(conn.driver.auth, next.log))
  {
    hide SmbConn.Run, SmbConn.Receive, SmbConn.ClientHash, KeysFor;
    SmbConn.TranscriptInvariant(conn.driver, conn.inputs, frame, f);
  }

  lemma OnlyCreateCreates(h: Header, msg: bytes)
    requires h.command != CREATE
    ensures !ParseRequest(h, msg).Create?
  {
  }

  lemma AnswerNeedsTheLog(d: SmbConn.Driver, a: SmbConn.Conn, b: SmbConn.Conn, h: Header, msg: bytes, r: SmbConn.Handled, encrypted: bool)
    requires a.log == b.log && a.folded == b.folded
    ensures SmbConn.Answer(d, a, h, msg, r, encrypted) == SmbConn.Answer(d, b, h, msg, r, encrypted)
  {
  }

  lemma OnlyCreateMints(c: ShareConf, user: seq<u16>, s: Shares, r: Request, fid: bytes)
    requires !r.Create?
    ensures Apply(c, user, s, r, fid) == Apply(c, user, s, r, [])
  {
  }

  lemma AckKeeps(c: ShareConf, user: seq<u16>, s: Shares, fid: bytes)
    ensures Apply(c, user, s, Acknowledge, fid) == (s, Accept(Put16LE(4) + Zeros(2)))
  {
  }
}
