/** SNMPv3 messages under the user-based security model (snmpv3.go): building, parsing, and the MAC that is
    stamped into an already encoded message. */
module Snmpv3 {
  import opened Bytes
  import opened Ber

  datatype Message = Message(
    msgId: u32, maxSize: u32, flags: byte, engineId: bytes, boots: u32, time: u32, userName: bytes,
    authParams: bytes, privParams: bytes, payload: bytes, encrypted: bool)

  function Uint32(v: int64): u32 { v % 0x1_0000_0000 }

  // -- Building ---------------------------------------------------------------------------------------

  function GlobalData(m: Message): bytes {
    Tlv(TAG_INTEGER, IntContent(m.msgId)) + Tlv(TAG_INTEGER, IntContent(m.maxSize))
    + Tlv(TAG_OCTETS, [m.flags]) + Tlv(TAG_INTEGER, IntContent(3))
  }

  /** The USM fields before msgAuthenticationParameters. */
  function UsmHead(m: Message): bytes {
    Tlv(TAG_OCTETS, m.engineId) + Tlv(TAG_INTEGER, IntContent(m.boots))
    + Tlv(TAG_INTEGER, IntContent(m.time)) + Tlv(TAG_OCTETS, m.userName)
  }

  function Usm(m: Message): bytes {
    UsmHead(m) + Tlv(TAG_OCTETS, m.authParams) + Tlv(TAG_OCTETS, m.privParams)
  }

  function MsgData(m: Message): bytes {
    if m.encrypted then Tlv(TAG_OCTETS, m.payload) else m.payload
  }

  /** The fields before msgSecurityParameters. */
  function MsgHead(m: Message): bytes { Tlv(TAG_INTEGER, IntContent(3)) + Tlv(TAG_SEQUENCE, GlobalData(m)) }

  function MsgBody(m: Message): bytes {
    MsgHead(m) + Tlv(TAG_OCTETS, Tlv(TAG_SEQUENCE, Usm(m))) + MsgData(m)
  }

  function BuildV3(m: Message): bytes { Tlv(TAG_SEQUENCE, MsgBody(m)) }

  // -- Parsing ----------------------------------------------------------------------------------------

  function ParseGlobal(g: bytes): Option<(u32, u32, byte)> {
    match Field(g, 0)
    case None => None
    case Some(id) =>
    match Field(g, id.3)
    case None => None
    case Some(max) =>
    match Field(g, max.3)
    case None => None
    case Some(flags) =>
    if |flags.1| < 1 || Field(g, flags.3).None? then None
    else Some((Uint32(DecodeInt(id.1)), Uint32(DecodeInt(max.1)), flags.1[0]))
  }

  /** The USM fields, and where in secOct the authentication parameters lie. */
  datatype UsmFields = UsmFields(
    engineId: bytes, boots: u32, time: u32, userName: bytes, authParams: bytes, privParams: bytes, authAt: nat)

  function ParseUsm(secOct: bytes): Option<UsmFields> {
    match Field(secOct, 0)
    case None => None
    case Some(sq) =>
    var s := sq.1;
    match Field(s, 0)
    case None => None
    case Some(eng) =>
    match Field(s, eng.3)
    case None => None
    case Some(boots) =>
    match Field(s, boots.3)
    case None => None
    case Some(tm) =>
    match Field(s, tm.3)
    case None => None
    case Some(user) =>
    match Field(s, user.3)
    case None => None
    case Some(ap) =>
    match Field(s, ap.3)
    case None => None
    case Some(pp) =>
    Some(UsmFields(eng.1, Uint32(DecodeInt(boots.1)), Uint32(DecodeInt(tm.1)), user.1, ap.1, pp.1, sq.2 + ap.2))
  }

  /** The message, and the position of its authentication parameters in b: what the code recovers from the
      capacities of the two slices. */
  function ParseV3(b: bytes): Option<(Message, nat)> {
    match Field(b, 0)
    case None => None
    case Some(outer) =>
    var msg := outer.1;
    match Field(msg, 0)
    case None => None
    case Some(version) =>
    match Field(msg, version.3)
    case None => None
    case Some(global) =>
    match ParseGlobal(global.1)
    case None => None
    case Some(g) =>
    match Field(msg, global.3)
    case None => None
    case Some(sec) =>
    match ParseUsm(sec.1)
    case None => None
    case Some(u) =>
    match Field(msg, sec.3)
    case None => None
    case Some(data) =>
    Some((Message(g.0, g.1, g.2, u.engineId, u.boots, u.time, u.userName, u.authParams, u.privParams,
                  if data.0 == TAG_OCTETS then data.1 else Tlv(data.0, data.1), data.0 == TAG_OCTETS),
          outer.2 + sec.2 + u.authAt))
  }

  // -- The message law ---------------------------------------------------------------------------------

  lemma IntFieldIs(v: u32)
    ensures Uint32(DecodeInt(IntContent(v))) == v && |IntContent(v)| <= 8
  {
    IntRoundTrip(v);
  }

  lemma GlobalRoundTrip(m: Message)
    ensures ParseGlobal(GlobalData(m)) == Some((m.msgId, m.maxSize, m.flags))
  {
    hide Tlv, IntContent, DecodeInt, Uint32, Field;
    var g := GlobalData(m);
    var t1, t2 := Tlv(TAG_INTEGER, IntContent(m.msgId)), Tlv(TAG_INTEGER, IntContent(m.maxSize));
    var t3, t4 := Tlv(TAG_OCTETS, [m.flags]), Tlv(TAG_INTEGER, IntContent(3));
    IntFieldIs(m.msgId);
    IntFieldIs(m.maxSize);
    IntFieldIs(3);
    assert g == [] + t1 + (t2 + t3 + t4) && g == t1 + t2 + (t3 + t4) && g == (t1 + t2) + t3 + t4 && g == (t1 + t2 + t3) + t4 + [];
    FieldIs(g, [], TAG_INTEGER, IntContent(m.msgId), t2 + t3 + t4);
    FieldIs(g, t1, TAG_INTEGER, IntContent(m.maxSize), t3 + t4);
    FieldIs(g, t1 + t2, TAG_OCTETS, [m.flags], t4);
    FieldIs(g, t1 + t2 + t3, TAG_INTEGER, IntContent(3), []);
  }

  /** Where the authentication parameters begin within the USM sequence's content. */
  function AuthInUsm(m: Message): nat { |UsmHead(m)| + |Tlv(TAG_OCTETS, m.authParams)| - |m.authParams| }

  lemma UsmRoundTrip(m: Message)
    requires |Usm(m)| < 0x1_0000_0000
    ensures var t := Tlv(TAG_SEQUENCE, Usm(m));
            ParseUsm(t) == Some(UsmFields(m.engineId, m.boots, m.time, m.userName, m.authParams, m.privParams,
                                          |t| - |Usm(m)| + AuthInUsm(m)))
  {
    hide Tlv, IntContent, DecodeInt, Uint32, Field;
    var s := Usm(m);
    var t1, t2 := Tlv(TAG_OCTETS, m.engineId), Tlv(TAG_INTEGER, IntContent(m.boots));
    var t3, t4 := Tlv(TAG_INTEGER, IntContent(m.time)), Tlv(TAG_OCTETS, m.userName);
    var t5, t6 := Tlv(TAG_OCTETS, m.authParams), Tlv(TAG_OCTETS, m.privParams);
    TlvIsLonger(TAG_OCTETS, m.engineId);
    TlvIsLonger(TAG_OCTETS, m.userName);
    TlvIsLonger(TAG_OCTETS, m.authParams);
    TlvIsLonger(TAG_OCTETS, m.privParams);
    IntFieldIs(m.boots);
    IntFieldIs(m.time);
    assert s == [] + t1 + (t2 + t3 + t4 + t5 + t6) && s == t1 + t2 + (t3 + t4 + t5 + t6);
    assert s == (t1 + t2) + t3 + (t4 + t5 + t6) && s == (t1 + t2 + t3) + t4 + (t5 + t6);
    assert s == UsmHead(m) + t5 + t6 && s == (UsmHead(m) + t5) + t6 + [];
    FieldIs(s, [], TAG_OCTETS, m.engineId, t2 + t3 + t4 + t5 + t6);
    FieldIs(s, t1, TAG_INTEGER, IntContent(m.boots), t3 + t4 + t5 + t6);
    FieldIs(s, t1 + t2, TAG_INTEGER, IntContent(m.time), t4 + t5 + t6);
    FieldIs(s, t1 + t2 + t3, TAG_OCTETS, m.userName, t5 + t6);
    FieldIs(s, UsmHead(m), TAG_OCTETS, m.authParams, t6);
    FieldIs(s, UsmHead(m) + t5, TAG_OCTETS, m.privParams, []);
    var t := Tlv(TAG_SEQUENCE, s);
    assert t == [] + t + [];
    FieldIs(t, [], TAG_SEQUENCE, s, []);
  }

  /** The position of the authentication parameters in the built message. */
  function AuthAt(m: Message): nat {
    var sec := Tlv(TAG_SEQUENCE, Usm(m));
    |BuildV3(m)| - |MsgBody(m)| + |MsgHead(m)| + (|Tlv(TAG_OCTETS, sec)| - |sec|) + (|sec| - |Usm(m)|) + AuthInUsm(m)
  }

  /** A payload that can travel: anything when encrypted, else one element that is not an octet string. */
  ghost predicate Travels(m: Message) {
    m.encrypted || exists tag: byte, c: bytes :: tag != TAG_OCTETS && m.payload == Tlv(tag, c)
  }

  lemma FramingRoundTrip(m: Message)
    requires |BuildV3(m)| < 0x1_0000_0000
    ensures var msg := MsgBody(m);
            var sec := Tlv(TAG_SEQUENCE, Usm(m));
            var b1 := Field(BuildV3(m), 0);
            && b1 == Some((TAG_SEQUENCE, msg, |BuildV3(m)| - |msg|, |BuildV3(m)|))
            && var v := Field(msg, 0);
            && v.Some? && var g := Field(msg, v.value.3);
            && g.Some? && g.value.1 == GlobalData(m)
            && var s := Field(msg, g.value.3);
            && s == Some((TAG_OCTETS, sec, |MsgHead(m)| + |Tlv(TAG_OCTETS, sec)| - |sec|, |MsgHead(m)| + |Tlv(TAG_OCTETS, sec)|))
            && msg[s.value.3..] == MsgData(m)
  {
    hide Tlv, IntContent, Field, GlobalData, Usm;
    var b, msg := BuildV3(m), MsgBody(m);
    var t1, t2 := Tlv(TAG_INTEGER, IntContent(3)), Tlv(TAG_SEQUENCE, GlobalData(m));
    var sec := Tlv(TAG_SEQUENCE, Usm(m));
    var t3, t4 := Tlv(TAG_OCTETS, sec), MsgData(m);
    TlvIsLonger(TAG_SEQUENCE, msg);
    TlvIsLonger(TAG_SEQUENCE, GlobalData(m));
    TlvIsLonger(TAG_SEQUENCE, Usm(m));
    TlvIsLonger(TAG_OCTETS, sec);
    IntFieldIs(3);
    assert b == [] + b + [];
    FieldIs(b, [], TAG_SEQUENCE, msg, []);
    assert msg == [] + t1 + (t2 + t3 + t4) && msg == t1 + t2 + (t3 + t4) && msg == (t1 + t2) + t3 + t4;
    FieldIs(msg, [], TAG_INTEGER, IntContent(3), t2 + t3 + t4);
    FieldIs(msg, t1, TAG_SEQUENCE, GlobalData(m), t3 + t4);
    FieldIs(msg, t1 + t2, TAG_OCTETS, sec, t4);
  }

  /** Parsing what was built returns every field, and finds the authentication parameters where they are;
      exactly when the payload can travel. */
  lemma MessageRoundTrip(m: Message)
    requires |BuildV3(m)| < 0x1_0000_0000
    ensures ParseV3(BuildV3(m)) == Some((m, AuthAt(m))) <==> Travels(m)
  {
    hide Tlv, IntContent, ParseGlobal, ParseUsm, Field, GlobalData, Usm, AuthInUsm, BuildV3;
    FramingRoundTrip(m);
    GlobalRoundTrip(m);
    assert |Usm(m)| < 0x1_0000_0000 by { UsmIsShorter(m); }
    UsmRoundTrip(m);
    var msg := MsgBody(m);
    var head := msg[..|msg| - |MsgData(m)|];
    assert msg == head + MsgData(m) + [];
    if m.encrypted {
      BodyIsShorter(m);
      TlvIsLonger(TAG_OCTETS, m.payload);
      FieldIs(msg, head, TAG_OCTETS, m.payload, []);
    } else if Travels(m) {
      var tag: byte, c: bytes :| tag != TAG_OCTETS && m.payload == Tlv(tag, c);
      BodyIsShorter(m);
      TlvIsLonger(tag, c);
      FieldIs(msg, head, tag, c, []);
    }
  }

  lemma BodyIsShorter(m: Message)
    ensures |MsgBody(m)| < |BuildV3(m)|
  {
    hide MsgBody;
    TlvIsLonger(TAG_SEQUENCE, MsgBody(m));
  }

  lemma UsmIsShorter(m: Message)
    ensures |Usm(m)| < |BuildV3(m)|
  {
    hide Tlv, Usm;
    BodyIsShorter(m);
    TlvIsLonger(TAG_SEQUENCE, Usm(m));
    TlvIsLonger(TAG_OCTETS, Tlv(TAG_SEQUENCE, Usm(m)));
  }

  // -- The MAC -------------------------------------------------------------------------------------------

  /** An authentication protocol: its MAC function, truncated to macLen octets. */
  datatype AuthProto = AuthProto(macLen: nat, sign: (bytes, bytes) -> bytes) {
    ghost predicate Valid() { forall key: bytes, msg: bytes :: |sign(key, msg)| == macLen }
  }

  function Zeroed(n: nat): bytes { seq(n, i => 0) }

  /** b with x written over the octets at pos. */
  function Stamp(b: bytes, pos: nat, x: bytes): bytes
    requires pos + |x| <= |b|
  {
    b[..pos] + x + b[pos + |x|..]
  }

  /** zeroAuthParams: b with the len octets at pos cleared. */
  function ZeroAuth(b: bytes, pos: nat, len: nat): bytes {
    if pos + len > |b| then b else Stamp(b, pos, Zeroed(len))
  }

  predicate VerifyAuth(a: AuthProto, key: bytes, full: bytes, got: bytes, pos: nat) {
    |got| == a.macLen && a.sign(key, ZeroAuth(full, pos, |got|)) == got
  }

  method ClearAuth(full: bytes, pos: nat, len: nat) returns (cp: bytes)
    ensures cp == ZeroAuth(full, pos, len)
  {
    if pos + len > |full| {
      return full;
    }
    cp := full;
    for i := 0 to len
      invariant cp == Stamp(full, pos, Zeroed(i))
    {
      cp := cp[pos + i := 0];
      assert cp == Stamp(full, pos, Zeroed(i + 1));
    }
  }

  function BlockHead(tag: byte, pre: bytes, n: nat, post: bytes): bytes { [tag] + BerLen(|pre| + n + |post|) + pre }

  /** A stretch of an element's content, seen from outside the element. */
  lemma TlvBlock(tag: byte, pre: bytes, x: bytes, post: bytes)
    ensures Tlv(tag, pre + x + post) == BlockHead(tag, pre, |x|, post) + x + post
  {
    hide BerLen;
    assert |pre + x + post| == |pre| + |x| + |post|;
  }

  /** The octets of a built message before its authentication parameters; only their number matters. */
  function AuthHead(m: Message, n: nat): bytes {
    var t6 := Tlv(TAG_OCTETS, m.privParams);
    var h1 := UsmHead(m) + BlockHead(TAG_OCTETS, [], n, []);
    var h2 := BlockHead(TAG_SEQUENCE, h1, n, t6);
    var h3 := MsgHead(m) + BlockHead(TAG_OCTETS, h2, n, t6);
    BlockHead(TAG_SEQUENCE, h3, n, t6 + MsgData(m))
  }

  lemma AuthIsABlock(m: Message)
    ensures BuildV3(m) == AuthHead(m, |m.authParams|) + m.authParams + (Tlv(TAG_OCTETS, m.privParams) + MsgData(m))
    ensures |AuthHead(m, |m.authParams|)| == AuthAt(m)
  {
    hide Tlv, BlockHead, IntContent, GlobalData;
    var x, n := m.authParams, |m.authParams|;
    var t6 := Tlv(TAG_OCTETS, m.privParams);
    var h1 := UsmHead(m) + BlockHead(TAG_OCTETS, [], n, []);
    var h2 := BlockHead(TAG_SEQUENCE, h1, n, t6);
    var h3 := MsgHead(m) + BlockHead(TAG_OCTETS, h2, n, t6);
    var empty: bytes := [];
    assert x == empty + x + empty;
    TlvBlock(TAG_OCTETS, empty, x, empty);
    assert Tlv(TAG_OCTETS, x) == BlockHead(TAG_OCTETS, empty, n, empty) + x;
    assert Usm(m) == h1 + x + t6;
    TlvBlock(TAG_SEQUENCE, h1, x, t6);
    var q := Tlv(TAG_SEQUENCE, Usm(m));
    assert q == h2 + x + t6;
    TlvBlock(TAG_OCTETS, h2, x, t6);
    assert MsgBody(m) == h3 + x + (t6 + MsgData(m));
    TlvBlock(TAG_SEQUENCE, h3, x, t6 + MsgData(m));
  }

  /** Rebuilding a message with other authentication parameters of the same length is stamping them in. */
  lemma StampIsRebuild(m: Message, x: bytes)
    requires |x| == |m.authParams|
    ensures AuthAt(m) + |x| <= |BuildV3(m)|
    ensures BuildV3(m.(authParams := x)) == Stamp(BuildV3(m), AuthAt(m), x)
    ensures AuthAt(m.(authParams := x)) == AuthAt(m)
  {
    hide BuildV3, AuthAt, AuthHead, Tlv, MsgData;
    SurroundingsStay(m, x, |x|);
    AuthIsABlock(m);
    AuthIsABlock(m.(authParams := x));
  }

  lemma SurroundingsStay(m: Message, x: bytes, n: nat)
    ensures AuthHead(m.(authParams := x), n) == AuthHead(m, n)
    ensures MsgData(m.(authParams := x)) == MsgData(m)
  {
    hide Tlv, BlockHead, IntContent;
  }

  /** The last steps of assembleV3Response: encode, and when authentication is wanted, parse the encoding to find
      where the MAC goes, sign with that place cleared, and copy the MAC into it. */
  method Assemble(m: Message, a: AuthProto, key: bytes, wantAuth: bool) returns (msg: array<byte>)
    requires |BuildV3(m)| < 0x1_0000_0000 && Travels(m)
    requires wantAuth ==> a.Valid() && |m.authParams| == a.macLen
    ensures fresh(msg)
    ensures !wantAuth ==> msg[..] == BuildV3(m)
    ensures wantAuth ==>
              var mac := a.sign(key, ZeroAuth(BuildV3(m), AuthAt(m), a.macLen));
              && msg[..] == BuildV3(m.(authParams := mac))
              && ParseV3(msg[..]) == Some((m.(authParams := mac), AuthAt(m)))
              && VerifyAuth(a, key, msg[..], mac, AuthAt(m))
  {
    hide ParseV3, BuildV3, AuthAt;
    var encoded := BuildV3(m);
    msg := new byte[|encoded|](i requires 0 <= i < |encoded| => encoded[i]);
    assert msg[..] == encoded;
    if wantAuth {
      MessageRoundTrip(m);
      var parsed := ParseV3(encoded);
      var pos := parsed.value.1;
      var cleared := ClearAuth(encoded, pos, |parsed.value.0.authParams|);
      var mac := a.sign(key, cleared);
      StampIsRebuild(m, mac);
      CopyInto(msg, pos, mac);
      SignedMessageVerifies(m, a, key, mac);
    }
  }

  /** copy(msg[pos:pos+len(x)], x). */
  method CopyInto(msg: array<byte>, pos: nat, x: bytes)
    requires pos + |x| <= msg.Length
    modifies msg
    ensures msg[..] == Stamp(old(msg[..]), pos, x)
  {
    for i := 0 to |x|
      invariant msg[..] == Stamp(old(msg[..]), pos, x[..i])
    {
      msg[pos + i] := x[i];
      assert msg[..] == Stamp(old(msg[..]), pos, x[..i + 1]);
    }
    assert x[..|x|] == x;
  }

  lemma StampStamp(b: bytes, pos: nat, x: bytes, y: bytes)
    requires |x| == |y| && pos + |x| <= |b|
    ensures Stamp(Stamp(b, pos, x), pos, y) == Stamp(b, pos, y)
  {
  }

  /** Stamping the MAC into an encoded message changes no other parsed field, and the receiver that holds the
      key accepts it; it accepts no other stamp. */
  lemma SignedMessageVerifies(m: Message, a: AuthProto, key: bytes, x: bytes)
    requires a.Valid() && |m.authParams| == a.macLen && Travels(m) && |BuildV3(m)| < 0x1_0000_0000
    requires |x| == a.macLen
    ensures var mac := a.sign(key, ZeroAuth(BuildV3(m), AuthAt(m), a.macLen));
            && AuthAt(m) + |x| <= |BuildV3(m)|
            && var stamped := Stamp(BuildV3(m), AuthAt(m), x);
            && ParseV3(stamped) == Some((m.(authParams := x), AuthAt(m)))
            && (VerifyAuth(a, key, stamped, x, AuthAt(m)) <==> x == mac)
  {
    hide ParseV3, BuildV3, AuthAt;
    StampIsRebuild(m, x);
    var m' := m.(authParams := x);
    assert Travels(m');
    assert |BuildV3(m')| < 0x1_0000_0000 by { assert |Stamp(BuildV3(m), AuthAt(m), x)| == |BuildV3(m)|; }
    MessageRoundTrip(m');
    StampStamp(BuildV3(m), AuthAt(m), x, Zeroed(a.macLen));
  }

  // -- Scoped PDUs -----------------------------------------------------------------------------------------

  function ScopedPdu(contextEngine: bytes, contextName: bytes, pdu: bytes): bytes {
    Tlv(TAG_SEQUENCE, Tlv(TAG_OCTETS, contextEngine) + Tlv(TAG_OCTETS, contextName) + pdu)
  }

  /** serveScopedPDU over any PDU server. */
  function ServeScoped(scoped: bytes, serve: (byte, bytes) -> Option<bytes>): Option<bytes> {
    match Field(scoped, 0)
    case None => None
    case Some(sq) =>
    match Field(sq.1, 0)
    case None => None
    case Some(eng) =>
    match Field(sq.1, eng.3)
    case None => None
    case Some(name) =>
    match Field(sq.1, name.3)
    case None => None
    case Some(pdu) =>
    match serve(pdu.0, pdu.1)
    case None => None
    case Some(resp) => Some(ScopedPdu(eng.1, name.1, resp))
  }

  /** The answer is scoped to the context that was asked, and the server sees the inner PDU unchanged. */
  lemma ScopedRoundTrip(contextEngine: bytes, contextName: bytes, tag: byte, pdu: bytes, serve: (byte, bytes) -> Option<bytes>)
    requires |ScopedPdu(contextEngine, contextName, Tlv(tag, pdu))| < 0x1_0000_0000
    ensures ServeScoped(ScopedPdu(contextEngine, contextName, Tlv(tag, pdu)), serve)
         == match serve(tag, pdu) case None => None case Some(resp) => Some(ScopedPdu(contextEngine, contextName, resp))
  {
    hide Tlv, Field;
    var t1, t2, t3 := Tlv(TAG_OCTETS, contextEngine), Tlv(TAG_OCTETS, contextName), Tlv(tag, pdu);
    var s := t1 + t2 + t3;
    var t := Tlv(TAG_SEQUENCE, s);
    TlvIsLonger(TAG_SEQUENCE, s);
    TlvIsLonger(TAG_OCTETS, contextEngine);
    TlvIsLonger(TAG_OCTETS, contextName);
    TlvIsLonger(tag, pdu);
    assert t == [] + t + [];
    FieldIs(t, [], TAG_SEQUENCE, s, []);
    assert s == [] + t1 + (t2 + t3) && s == t1 + t2 + t3 && s == (t1 + t2) + t3 + [];
    FieldIs(s, [], TAG_OCTETS, contextEngine, t2 + t3);
    FieldIs(s, t1, TAG_OCTETS, contextName, t3);
    FieldIs(s, t1 + t2, tag, pdu, []);
  }
}
