/** Direct-TCP framing and the 64-octet SMB2 header (smb_frame.go), and the header rewrite that every response goes
    through (smb.go). */
module SmbFrame {
  import opened Bytes

  const NEGOTIATE: u16 := 0
  const SESSION_SETUP: u16 := 1
  const LOGOFF: u16 := 2
  const TREE_CONNECT: u16 := 3
  const TREE_DISCONNECT: u16 := 4
  const CREATE: u16 := 5
  const CLOSE: u16 := 6
  const FLUSH: u16 := 7
  const READ: u16 := 8
  const WRITE: u16 := 9

  const SUCCESS: u32 := 0
  const MORE_PROCESSING: u32 := 0xC000_0016
  const ACCESS_DENIED: u32 := 0xC000_0022
  const NOT_SUPPORTED: u32 := 0xC000_00BB

  const HEADER_SIZE: nat := 64
  const MAX_FRAME: nat := 0x10_0000
  const MAX_PAYLOAD: nat := 0xFF_FFFF
  const MAGIC: bytes := [0xFE, 83, 77, 66]
  const RESERVED: bytes := [0, 0, 0, 0]

  datatype Header = Header(creditCharge: u16, status: u32, command: u16, creditResp: u16, flags: u32, nextCommand: u32,
                           messageId: u64, treeId: u32, sessionId: u64, signature: bytes)

  const NO_SIGNATURE: bytes := [0, 0, 0, 0, 0, 0, 0, 0, 0, 0, 0, 0, 0, 0, 0, 0]

  predicate ValidHeader(h: Header) { |h.signature| == 16 }

  function Encode(h: Header): (b: bytes)
    requires ValidHeader(h)
    ensures |b| == HEADER_SIZE
  {
    MAGIC + Put16LE(64) + Put16LE(h.creditCharge) + Put32LE(h.status) + Put16LE(h.command) + Put16LE(h.creditResp)
    + Put32LE(h.flags) + Put32LE(h.nextCommand) + Put64LE(h.messageId) + RESERVED + Put32LE(h.treeId)
    + Put64LE(h.sessionId) + h.signature
  }

  function Parse(b: bytes): (h: Option<Header>)
    ensures h.Some? ==> |b| >= HEADER_SIZE && ValidHeader(h.value)
  {
    if |b| < HEADER_SIZE || b[..4] != MAGIC then None
    else Some(Header(U16LE(b, 6), U32LE(b, 8), U16LE(b, 12), U16LE(b, 14), U32LE(b, 16), U32LE(b, 20), U64LE(b, 24),
                     U32LE(b, 36), U64LE(b, 40), b[48..64]))
  }

  lemma HeaderRoundTrip(h: Header, body: bytes)
    requires ValidHeader(h)
    ensures Parse(Encode(h) + body) == Some(h)
  {
    hide Put16LE, Put32LE, Put64LE, U16LE, U32LE, U64LE;
    var b := Encode(h) + body;
    assert b[..4] == MAGIC;
    assert b[6..8] == Put16LE(h.creditCharge) && b[12..14] == Put16LE(h.command) && b[14..16] == Put16LE(h.creditResp);
    assert b[8..12] == Put32LE(h.status) && b[16..20] == Put32LE(h.flags) && b[20..24] == Put32LE(h.nextCommand);
    assert b[24..32] == Put64LE(h.messageId) && b[36..40] == Put32LE(h.treeId) && b[40..48] == Put64LE(h.sessionId);
    assert b[48..64] == h.signature;
    Get16LE(b, 6, h.creditCharge);
    Get32LE(b, 8, h.status);
    Get16LE(b, 12, h.command);
    Get16LE(b, 14, h.creditResp);
    Get32LE(b, 16, h.flags);
    Get32LE(b, 20, h.nextCommand);
    Get64LE(b, 24, h.messageId);
    Get32LE(b, 36, h.treeId);
    Get64LE(b, 40, h.sessionId);
  }

  // -- The response rewrite --------------------------------------------------------------------------------------

  /** SERVER_TO_REDIR is the lowest bit. */
  function WithResponseFlag(flags: u32): u32 { if flags % 2 == 0 then flags + 1 else flags }

  function Credits(charge: u16): u16 { if charge < 1 then 1 else charge }

  /** What patchResponseHeader leaves of a response: sid is the request's session id, or the session's for 0. */
  function Patched(resp: bytes, req: Header, sid: u64): (r: bytes)
    ensures |r| == |resp|
  {
    if |resp| < HEADER_SIZE then resp
    else resp[..14] + Put16LE(Credits(req.creditCharge)) + Put32LE(WithResponseFlag(U32LE(resp, 16))) + resp[20..24]
         + Put64LE(req.messageId) + resp[32..40] + Put64LE(sid) + resp[48..]
  }

  /** The rewrite sets four fields and keeps all else: the status and tree id the handler chose, and the body. */
  lemma PatchedHeader(resp: bytes, req: Header, sid: u64)
    requires Parse(resp).Some?
    ensures Parse(Patched(resp, req, sid)) ==
            Some(Parse(resp).value.(creditResp := Credits(req.creditCharge), flags := WithResponseFlag(U32LE(resp, 16)),
                                    messageId := req.messageId, sessionId := sid))
    ensures Patched(resp, req, sid)[64..] == resp[64..]
  {
    hide Put16LE, Put32LE, Put64LE, WithResponseFlag;
    PatchedFields(resp, req, sid);
    var r := Patched(resp, req, sid);
    assert r[..14] == resp[..14];
    assert r[..4] == resp[..14][..4] == resp[..4];
    assert forall i | 0 <= i < 14 :: r[i] == resp[..14][i];
    assert forall i | 20 <= i < 24 :: r[i] == resp[i];
    assert forall i | 32 <= i < 40 :: r[i] == resp[i];
    assert forall i | 48 <= i < |r| :: r[i] == resp[i];
    assert r[48..64] == resp[48..64];
  }

  lemma PatchedFields(resp: bytes, req: Header, sid: u64)
    requires |resp| >= HEADER_SIZE
    ensures var r := Patched(resp, req, sid);
            && U16LE(r, 14) == Credits(req.creditCharge) && U32LE(r, 16) == WithResponseFlag(U32LE(resp, 16))
            && U64LE(r, 24) == req.messageId && U64LE(r, 40) == sid
  {
    hide Put16LE, Put32LE, Put64LE, U16LE, U32LE, U64LE;
    var r := Patched(resp, req, sid);
    assert r[14..16] == Put16LE(Credits(req.creditCharge));
    assert r[16..20] == Put32LE(WithResponseFlag(U32LE(resp, 16)));
    assert r[24..32] == Put64LE(req.messageId);
    assert r[40..48] == Put64LE(sid);
    Get16LE(r, 14, Credits(req.creditCharge));
    Get32LE(r, 16, WithResponseFlag(U32LE(resp, 16)));
    Get64LE(r, 24, req.messageId);
    Get64LE(r, 40, sid);
  }

  /** b with v in place of the octets from i on. */
  function Splice(b: bytes, i: nat, v: bytes): (r: bytes)
    requires i + |v| <= |b|
    ensures |r| == |b|
  {
    b[..i] + v + b[i + |v|..]
  }

  method Put(a: array<byte>, i: nat, v: bytes)
    requires i + |v| <= a.Length
    modifies a
    ensures a[..] == Splice(old(a[..]), i, v)
  {
    var k := 0;
    while k < |v|
      invariant 0 <= k <= |v|
      invariant a[..i] == old(a[..i]) && a[i + |v|..] == old(a[i + |v|..])
      invariant a[i..i + k] == v[..k]
    {
      a[i + k] := v[k];
      k := k + 1;
    }
    assert a[..] == a[..i] + a[i..i + |v|] + a[i + |v|..];
  }

  lemma PatchedBySplices(b: bytes, c: bytes, f: bytes, m: bytes, s: bytes)
    requires |b| >= HEADER_SIZE && |c| == 2 && |f| == 4 && |m| == 8 && |s| == 8
    ensures Splice(Splice(Splice(Splice(b, 24, m), 14, c), 16, f), 40, s) ==
            b[..14] + c + f + b[20..24] + m + b[32..40] + s + b[48..]
  {
    var b1 := Splice(b, 24, m);
    var b2 := Splice(b1, 14, c);
    assert b2 == b[..14] + c + b[16..24] + m + b[32..];
    var b3 := Splice(b2, 16, f);
    assert b3 == b[..14] + c + f + b[20..24] + m + b[32..];
  }

  /** patchResponseHeader, in place. */
  method PatchResponseHeader(resp: array<byte>, req: Header, session: Option<u64>)
    modifies resp
    ensures resp[..] == Patched(old(resp[..]), req, SessionIdFor(req, session))
  {
    hide Put16LE, Put32LE, Put64LE, Splice;
    if resp.Length < HEADER_SIZE {
      return;
    }
    ghost var b := resp[..];
    Put(resp, 24, Put64LE(req.messageId));
    Put(resp, 14, Put16LE(Credits(req.creditCharge)));
    FlagsUntouched(b, Put64LE(req.messageId), Put16LE(Credits(req.creditCharge)));
    var flags := U32LE(resp[..], 16);
    Put(resp, 16, Put32LE(WithResponseFlag(flags)));
    var sid := SessionIdFor(req, session);
    Put(resp, 40, Put64LE(sid));
    PatchedBySplices(b, Put16LE(Credits(req.creditCharge)), Put32LE(WithResponseFlag(flags)), Put64LE(req.messageId), Put64LE(sid));
  }

  lemma FlagsUntouched(b: bytes, m: bytes, c: bytes)
    requires |b| >= HEADER_SIZE && |m| == 8 && |c| == 2
    ensures U32LE(Splice(Splice(b, 24, m), 14, c), 16) == U32LE(b, 16)
  {
  }

  /** The session id a response carries. */
  function SessionIdFor(req: Header, session: Option<u64>): u64 {
    if req.sessionId == 0 && session.Some? then session.value else req.sessionId
  }

  // -- Direct-TCP frames -------------------------------------------------------------------------------------------

  function Put24BE(n: nat): (b: bytes)
    requires n <= MAX_PAYLOAD
    ensures |b| == 3
  {
    [n / 0x1_0000, n / 0x100 % 0x100, n % 0x100]
  }

  function U24BE(b: bytes): nat
    requires |b| >= 3
  {
    b[0] as int * 0x1_0000 + b[1] as int * 0x100 + b[2] as int
  }

  /** writeTCPFrame: nothing can be written for a payload that the length field cannot hold. */
  function WriteFrame(payload: bytes): Option<bytes> {
    if |payload| > MAX_PAYLOAD then None else Some([0] + Put24BE(|payload|) + payload)
  }

  datatype ReadResult = Frame(payload: bytes, rest: bytes) | ReadError

  function ReadFrame(input: bytes): ReadResult {
    if |input| < 4 || input[0] != 0 then ReadError
    else
      var n := U24BE(input[1..]);
      if n > MAX_FRAME || |input| < 4 + n then ReadError else Frame(input[4..4 + n], input[4 + n..])
  }

  /** A frame is read back, and the stream is left after it, exactly when it is within the reader's limit. */
  lemma FrameRoundTrip(payload: bytes, rest: bytes)
    requires |payload| <= MAX_PAYLOAD
    ensures ReadFrame(WriteFrame(payload).value + rest) == Frame(payload, rest) <==> |payload| <= MAX_FRAME
  {
    var n := |payload|;
    var input := WriteFrame(payload).value + rest;
    assert input[1..][..3] == Put24BE(n);
    assert input[1..][0] == n / 0x1_0000 && input[1..][1] == n / 0x100 % 0x100 && input[1..][2] == n % 0x100;
    assert n / 0x1_0000 == n / 0x100 / 0x100;
    assert U24BE(input[1..]) == n;
    assert input[4..4 + n] == payload && input[4 + n..] == rest;
  }
}
