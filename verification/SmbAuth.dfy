/** SESSION_SETUP (smb_session.go): finding the NTLM message, the two legs, guests, and the keys. The hash, the key
    derivation and the verification of an NTLM response are parameters. */
module SmbAuth {
  import opened Bytes
  import opened SmbFrame

  type Name = seq<u16>

  const SIGNATURE: bytes := [78, 84, 76, 77, 83, 83, 80, 0]
  const NTLM_NEGOTIATE: u32 := 1
  const NTLM_AUTHENTICATE: u32 := 3
  const GUEST_FLAG: u16 := 1

  const SIGNING_LABEL: bytes := [83, 77, 66, 83, 105, 103, 110, 105, 110, 103, 75, 101, 121, 0]
  const C2S_LABEL: bytes := [83, 77, 66, 67, 50, 83, 67, 105, 112, 104, 101, 114, 75, 101, 121, 0]
  const S2C_LABEL: bytes := [83, 77, 66, 83, 50, 67, 67, 105, 112, 104, 101, 114, 75, 101, 121, 0]

  datatype Conf = Conf(
    hash: bytes -> bytes,                          // SHA-512
    kdf: (bytes, bytes, bytes) -> bytes,           // key, label, context: 16 octets
    challengeToken: bytes -> bytes,                // the wrapped NTLM CHALLENGE for a server challenge
    successToken: bytes,
    parseAuth: bytes -> Option<(Name, Name)>,      // domain and user of an NTLM AUTHENTICATE
    verify: (Name, bytes, bytes) -> Option<bytes>, // user, server challenge, message: the session base key
    requireAuth: bool, sign: bool, encrypt: bool)

  datatype Auth = Auth(sessionId: u64, dialect: u16, cipher: u16, user: Name, domain: Name, guest: bool, sessionKey: bytes,
                       keys: Keys, preauth: bytes, challenge: bytes, complete: bool, signing: bool, encrypts: bool)

  datatype Keys = Keys(signing: bytes, c2s: bytes, s2c: bytes)

  const NO_KEYS: Keys := Keys([], [], [])

  function NewAuth(sessionId: u64, dialect: u16, cipher: u16): Auth {
    Auth(sessionId, dialect, cipher, [], [], false, [], NO_KEYS, Zeros(64), [], false, false, false)
  }

  /** updatePreauth. */
  function Fold(c: Conf, preauth: bytes, msg: bytes): bytes { c.hash(preauth + msg) }

  function KeysFor(c: Conf, sbk: bytes, preauth: bytes): Keys {
    Keys(c.kdf(sbk, SIGNING_LABEL, preauth), c.kdf(sbk, C2S_LABEL, preauth), c.kdf(sbk, S2C_LABEL, preauth))
  }

  // -- The NTLM message of a request --------------------------------------------------------------------------------

  /** The security buffer of a request. */
  function SecBuf(req: bytes): Option<bytes> {
    if |req| < HEADER_SIZE + 25 || U16LE(req, HEADER_SIZE) != 25 then None
    else
      var start := U16LE(req, HEADER_SIZE + 12) as int;
      var end := start + U16LE(req, HEADER_SIZE + 14) as int;
      if start < HEADER_SIZE || end > |req| then None else Some(req[start..end])
  }

  /** extractNTLM: everything from the signature on. */
  function ExtractNtlm(secBuf: bytes): Option<bytes> {
    match Find(secBuf, SIGNATURE, 0)
    case None => None
    case Some(i) => Some(secBuf[i..])
  }

  function MessageType(msg: bytes): Option<u32> { if |msg| < 12 || msg[..8] != SIGNATURE then None else Some(U32LE(msg, 8)) }

  /** A token is found inside whatever wraps it, as long as the signature does not occur earlier. */
  lemma TokenIsFound(wrap: bytes, token: bytes, after: bytes)
    requires |token| >= 12 && token[..8] == SIGNATURE
    requires forall j | 0 <= j < |wrap| :: !At(wrap + token + after, SIGNATURE, j)
    ensures ExtractNtlm(wrap + token + after) == Some(token + after)
    ensures MessageType(token + after) == Some(U32LE(token, 8))
  {
    var b := wrap + token + after;
    assert b[|wrap|..] == token + after;
    assert b[|wrap|..|wrap| + 8] == token[..8];
    assert At(b, SIGNATURE, |wrap|);
    FindIsFirst(b, SIGNATURE, 0);
    assert (token + after)[..8] == token[..8];
  }

  // -- The legs -------------------------------------------------------------------------------------------------------

  /** buildSessionSetupResponse. */
  function SetupResponse(h: Header, sessionId: u64, status: u32, flags: u16, secBuf: bytes): (r: bytes)
    ensures |r| >= HEADER_SIZE
  {
    Encode(Header(0, status, SESSION_SETUP, 1, WithResponseFlag(h.flags), 0, h.messageId, h.treeId, sessionId, NO_SIGNATURE))
    + (Put16LE(9) + Put16LE(flags) + Put16LE(72) + Put16LE(|secBuf| % 0x1_0000) + secBuf)
  }

  /** The session, the response and its status after one SESSION_SETUP. */
  datatype Leg = Leg(auth: Auth, resp: bytes, status: u32)

  function Refused(a: Auth, h: Header): Leg {
    Leg(a, SetupResponse(h, a.sessionId, ACCESS_DENIED, 0, []), ACCESS_DENIED)
  }

  function LegOne(c: Conf, a: Auth, h: Header, challenge: bytes): Leg {
    Leg(a.(challenge := challenge), SetupResponse(h, a.sessionId, MORE_PROCESSING, 0, c.challengeToken(challenge)), MORE_PROCESSING)
  }

  /** finishGuestSession. */
  function Guest(c: Conf, a: Auth, h: Header): Leg {
    var sbk := Zeros(16);
    Leg(a.(guest := true, sessionKey := sbk, keys := KeysFor(c, sbk, a.preauth), complete := true, signing := false),
        SetupResponse(h, a.sessionId, SUCCESS, GUEST_FLAG, c.successToken), SUCCESS)
  }

  function Unverified(c: Conf, a: Auth, h: Header): Leg { if c.requireAuth then Refused(a, h) else Guest(c, a, h) }

  function LegTwo(c: Conf, a: Auth, h: Header, ntlm: bytes): Leg {
    match c.parseAuth(ntlm)
    case None => Unverified(c, a, h)
    case Some((domain, user)) =>
      match c.verify(user, a.challenge, ntlm)
      case None => Unverified(c, a, h)
      case Some(sbk) =>
        Leg(a.(user := user, domain := domain, sessionKey := sbk, keys := KeysFor(c, sbk, a.preauth), complete := true,
               signing := c.sign, encrypts := c.encrypt),
            SetupResponse(h, a.sessionId, SUCCESS, 0, c.successToken), SUCCESS)
  }

  /** handleSessionSetup. */
  function SessionSetup(c: Conf, a: Auth, h: Header, req: bytes, challenge: bytes): Leg {
    match NtlmOf(req)
    case None => Refused(a, h)
    case Some((kind, ntlm)) =>
      if kind == NTLM_NEGOTIATE then LegOne(c, a, h, challenge)
      else if kind == NTLM_AUTHENTICATE then LegTwo(c, a, h, ntlm)
      else Refused(a, h)
  }

  /** The NTLM message of a request and its type. */
  function NtlmOf(req: bytes): Option<(u32, bytes)> {
    match SecBuf(req)
    case None => None
    case Some(sec) =>
      match ExtractNtlm(sec)
      case None => None
      case Some(ntlm) =>
        match MessageType(ntlm)
        case None => None
        case Some(kind) => Some((kind, ntlm))
  }

  /** The status that is returned is the one the response carries, and a session that has just become authenticated
      has its keys from the hash it had. */
  lemma LegOutcome(c: Conf, a: Auth, h: Header, req: bytes, challenge: bytes)
    ensures var l := SessionSetup(c, a, h, req, challenge);
            && |l.resp| >= HEADER_SIZE && Parse(l.resp).Some? && Parse(l.resp).value.status == l.status
            && Parse(l.resp).value.command == SESSION_SETUP
            && l.auth.preauth == a.preauth && l.auth.sessionId == a.sessionId
            && (l.status == SUCCESS ==> l.auth.complete && l.auth.keys == KeysFor(c, l.auth.sessionKey, a.preauth))
            && (l.status != SUCCESS ==> l.auth == a.(challenge := l.auth.challenge))
            && l.status in {SUCCESS, MORE_PROCESSING, ACCESS_DENIED}
  {
    hide Encode, Parse, KeysFor, NtlmOf, WithResponseFlag;
    var l := SessionSetup(c, a, h, req, challenge);
    forall status, flags, sec | l.resp == SetupResponse(h, a.sessionId, status, flags, sec)
      ensures Parse(l.resp).Some? && Parse(l.resp).value.status == status && Parse(l.resp).value.command == SESSION_SETUP
    {
      StatusOnWire(h, a.sessionId, status, flags, sec);
    }
  }

  lemma StatusOnWire(h: Header, sessionId: u64, status: u32, flags: u16, secBuf: bytes)
    ensures var r := SetupResponse(h, sessionId, status, flags, secBuf);
            Parse(r).Some? && Parse(r).value.status == status && Parse(r).value.command == SESSION_SETUP
  {
    hide Encode, Parse;
    HeaderRoundTrip(Header(0, status, SESSION_SETUP, 1, WithResponseFlag(h.flags), 0, h.messageId, h.treeId, sessionId, NO_SIGNATURE),
                    Put16LE(9) + Put16LE(flags) + Put16LE(72) + Put16LE(|secBuf| % 0x1_0000) + secBuf);
  }
}
