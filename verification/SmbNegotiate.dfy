/** NEGOTIATE (smb_negotiate.go): dialect selection, the two request parsers, the response builder and the parser of
    its context list. */
module SmbNegotiate {
  import opened Bytes
  import opened SmbFrame

  const D202: u16 := 0x0202
  const D210: u16 := 0x0210
  const D300: u16 := 0x0300
  const D302: u16 := 0x0302
  const D311: u16 := 0x0311

  /** Highest first. */
  const SUPPORTED: seq<u16> := [D311, D302, D300, D210, D202]

  const PREAUTH_INTEGRITY: u16 := 1
  const ENCRYPTION: u16 := 2
  const SHA512: u16 := 1
  const CCM: u16 := 1
  const GCM: u16 := 2

  const REQUEST_SIZE: nat := 36
  const RESPONSE_SIZE: u16 := 65

  // -- Dialects -----------------------------------------------------------------------------------------------------

  function FirstOffered(supported: seq<u16>, offered: seq<u16>): Option<u16> {
    if supported == [] then None
    else if supported[0] in offered then Some(supported[0])
    else FirstOffered(supported[1..], offered)
  }

  function SelectDialect(offered: seq<u16>): Option<u16> { FirstOffered(SUPPORTED, offered) }

  method Select(offered: seq<u16>) returns (chosen: Option<u16>)
    ensures chosen == SelectDialect(offered)
  {
    var i := 0;
    while i < |SUPPORTED|
      invariant 0 <= i <= |SUPPORTED|
      invariant FirstOffered(SUPPORTED[i..], offered) == SelectDialect(offered)
    {
      var k := 0;
      while k < |offered|
        invariant 0 <= k <= |offered| && SUPPORTED[i] !in offered[..k]
      {
        if offered[k] == SUPPORTED[i] {
          return Some(SUPPORTED[i]);
        }
        k := k + 1;
      }
      assert offered[..k] == offered && SUPPORTED[i..][1..] == SUPPORTED[i + 1..];
      i := i + 1;
    }
    return None;
  }

  /** The choice is the highest mutual dialect, and there is none exactly when no offered dialect is supported. */
  lemma HighestMutual(offered: seq<u16>)
    ensures var c := SelectDialect(offered);
            && (c.None? <==> forall d | d in offered :: d !in SUPPORTED)
            && (c.Some? ==> c.value in offered && c.value in SUPPORTED && forall d | d in offered && d in SUPPORTED :: d <= c.value)
  {
    Unrolled(offered);
  }

  lemma Unrolled(offered: seq<u16>)
    ensures SelectDialect(offered) ==
            if D311 in offered then Some(D311) else if D302 in offered then Some(D302) else if D300 in offered then Some(D300)
            else if D210 in offered then Some(D210) else if D202 in offered then Some(D202) else None
  {
    var s1, s2, s3, s4 := [D302, D300, D210, D202], [D300, D210, D202], [D210, D202], [D202];
    assert SUPPORTED[1..] == s1 && s1[1..] == s2 && s2[1..] == s3 && s3[1..] == s4 && s4[1..] == [];
    assert FirstOffered(s4, offered) == if D202 in offered then Some(D202) else None;
    assert FirstOffered(s3, offered) == if D210 in offered then Some(D210) else FirstOffered(s4, offered);
    assert FirstOffered(s2, offered) == if D300 in offered then Some(D300) else FirstOffered(s3, offered);
    assert FirstOffered(s1, offered) == if D302 in offered then Some(D302) else FirstOffered(s2, offered);
  }

  /** Neither the order of the offer nor repetitions matter. */
  lemma OrderIsIrrelevant(a: seq<u16>, b: seq<u16>)
    requires forall d | d in SUPPORTED :: d in a <==> d in b
    ensures SelectDialect(a) == SelectDialect(b)
  {
    Unrolled(a);
    Unrolled(b);
  }

  // -- Context lists ------------------------------------------------------------------------------------------------

  /** A negotiate context: its type, and all its octets from the header on. */
  datatype Context = Context(kind: u16, raw: bytes)
  {
    function Data(): bytes { if |raw| >= 8 then raw[8..] else [] }
  }

  function Align(pos: nat): (q: nat)
    ensures pos <= q < pos + 8 && (q + HEADER_SIZE) % 8 == 0
    ensures (pos + HEADER_SIZE) % 8 == 0 ==> q == pos
  {
    pos + (8 - pos % 8) % 8
  }

  /** The contexts that the loop of either parser visits: at most n, each on an 8-octet boundary, until one does not
      fit. */
  function Contexts(body: bytes, pos: nat, n: nat): seq<Context>
    decreases n
  {
    var p := Align(pos);
    if n == 0 || p + 8 > |body| then []
    else
      var end := p + 8 + U16LE(body, p + 2) as int;
      if end > |body| then [] else [Context(U16LE(body, p), body[p..end])] + Contexts(body, end, n - 1)
  }

  /** Where the contexts start: the offset field counts from the header; None when it points outside the body. */
  function ListStart(body: bytes, offset: u32): Option<nat> {
    var start := offset as int - HEADER_SIZE;
    if 0 <= start <= |body| then Some(start) else None
  }

  function U16s(data: bytes, n: nat): seq<u16>
    decreases n
  {
    if n == 0 || |data| < 2 then [] else [U16LE(data, 0)] + U16s(data[2..], n - 1)
  }

  /** The ciphers an ENCRYPTION context offers. */
  function CiphersOf(data: bytes): seq<u16> { if |data| < 2 then [] else U16s(data[2..], U16LE(data, 0)) }

  predicate Offers(list: seq<Context>, cipher: u16) {
    exists i | 0 <= i < |list| :: list[i].kind == ENCRYPTION && cipher in CiphersOf(list[i].Data())
  }

  /** The last PREAUTH_INTEGRITY context of the list. */
  function PreauthOf(list: seq<Context>): Option<bytes> {
    if list == [] then None
    else if list[|list| - 1].kind == PREAUTH_INTEGRITY then Some(list[|list| - 1].raw)
    else PreauthOf(list[..|list| - 1])
  }

  function CipherFor(list: seq<Context>): u16 { if Offers(list, GCM) then GCM else if Offers(list, CCM) then CCM else GCM }

  function RequestList(body: bytes): seq<Context>
    requires |body| >= REQUEST_SIZE
  {
    match ListStart(body, U32LE(body, 28))
    case None => []
    case Some(start) => Contexts(body, start, U16LE(body, 32))
  }

  lemma U16sStep(data: bytes, off: nat, n: nat)
    requires off <= |data|
    ensures n == 0 || off + 2 > |data| ==> U16s(data[off..], n) == []
    ensures n > 0 && off + 2 <= |data| ==> U16s(data[off..], n) == [U16LE(data, off)] + U16s(data[off + 2..], n - 1)
  {
    if off + 2 <= |data| {
      assert data[off..][2..] == data[off + 2..];
      assert U16LE(data[off..], 0) == U16LE(data, off);
    }
  }

  method OfferedIn(data: bytes) returns (gcm: bool, ccm: bool)
    ensures gcm <==> GCM in CiphersOf(data)
    ensures ccm <==> CCM in CiphersOf(data)
  {
    hide U16LE, U16s;
    gcm, ccm := false, false;
    if |data| < 2 {
      return;
    }
    var count := U16LE(data, 0);
    var c := 0;
    ghost var all, seen: seq<u16> := U16s(data[2..], count), [];
    while c < count
      invariant 0 <= c <= count && 2 + 2 * c <= |data|
      invariant all == seen + U16s(data[2 + 2 * c..], count - c)
      invariant (gcm <==> GCM in seen) && (ccm <==> CCM in seen)
    {
      var off := 2 + 2 * c;
      U16sStep(data, off, count - c);
      if off + 2 > |data| {
        break;
      }
      var id := U16LE(data, off);
      gcm, ccm := gcm || id == GCM, ccm || id == CCM;
      seen, c := seen + [id], c + 1;
    }
    U16sStep(data, 2 + 2 * c, count - c);
    assert all == seen;
  }

  lemma {:induction false} OffersAppend(list: seq<Context>, ctx: Context, cipher: u16)
    ensures Offers(list + [ctx], cipher) <==> Offers(list, cipher) || (ctx.kind == ENCRYPTION && cipher in CiphersOf(ctx.Data()))
  {
    hide CiphersOf;
    var all := list + [ctx];
    if Offers(list, cipher) {
      var i :| 0 <= i < |list| && list[i].kind == ENCRYPTION && cipher in CiphersOf(list[i].Data());
      assert all[i] == list[i];
    }
    if ctx.kind == ENCRYPTION && cipher in CiphersOf(ctx.Data()) {
      assert all[|list|] == ctx;
    }
  }

  lemma PreauthAppend(list: seq<Context>, ctx: Context)
    ensures PreauthOf(list + [ctx]) == if ctx.kind == PREAUTH_INTEGRITY then Some(ctx.raw) else PreauthOf(list)
  {
    assert (list + [ctx])[..|list|] == list;
  }

  method AlignUp(pos: nat) returns (q: nat)
    ensures q == Align(pos)
  {
    q := pos;
    while (q + HEADER_SIZE) % 8 != 0
      invariant pos <= q <= Align(pos)
      decreases Align(pos) - q
    {
      q := q + 1;
    }
  }

  lemma ContextsStep(body: bytes, pos: nat, n: nat)
    ensures var p := Align(pos);
            if n == 0 || p + 8 > |body| || p + 8 + U16LE(body, p + 2) as int > |body| then Contexts(body, pos, n) == []
            else
              var end := p + 8 + U16LE(body, p + 2) as int;
              Contexts(body, pos, n) == [Context(U16LE(body, p), body[p..end])] + Contexts(body, end, n - 1)
  {
  }

  /** What the loop knows after the contexts in seen. */
  predicate Learned(seen: seq<Context>, gcm: bool, ccm: bool, preauth: Option<bytes>) {
    (gcm <==> Offers(seen, GCM)) && (ccm <==> Offers(seen, CCM)) && preauth == PreauthOf(seen)
  }

  lemma NothingLearned()
    ensures Learned([], false, false, None)
  {
    var none: seq<Context> := [];
    assert !Offers(none, GCM) && !Offers(none, CCM);
  }

  /** One context: the body of the loop. */
  method Learn(kind: u16, raw: bytes, gcm: bool, ccm: bool, preauth: Option<bytes>)
    returns (gcm': bool, ccm': bool, preauth': Option<bytes>)
    requires |raw| >= 8
    ensures forall seen | Learned(seen, gcm, ccm, preauth) :: Learned(seen + [Context(kind, raw)], gcm', ccm', preauth')
  {
    hide CiphersOf, Offers;
    gcm', ccm', preauth' := gcm, ccm, preauth;
    if kind == PREAUTH_INTEGRITY {
      preauth' := Some(raw);
    } else if kind == ENCRYPTION {
      var g, c := OfferedIn(raw[8..]);
      gcm', ccm' := gcm || g, ccm || c;
    }
    ghost var ctx := Context(kind, raw);
    forall seen | Learned(seen, gcm, ccm, preauth) ensures Learned(seen + [ctx], gcm', ccm', preauth') {
      OffersAppend(seen, ctx, GCM);
      OffersAppend(seen, ctx, CCM);
      PreauthAppend(seen, ctx);
    }
  }

  /** parseRequestContexts: the cipher preferred among all that are offered, and the last preauth context. */
  method ParseRequestContexts(body: bytes) returns (cipher: u16, preauth: Option<bytes>)
    requires |body| >= REQUEST_SIZE
    ensures cipher == CipherFor(RequestList(body)) && preauth == PreauthOf(RequestList(body))
  {
    hide Learned, Contexts, U16LE, U32LE, Align, CipherFor, PreauthOf;
    NothingLearned();
    cipher, preauth := GCM, None;
    var gcm, ccm := false, false;
    ghost var seen: seq<Context> := [];
    var offset, count := U32LE(body, 28), U16LE(body, 32);
    var start := offset as int - HEADER_SIZE;
    if 0 <= start <= |body| {
      var pos, i := start, 0;
      while i < count
        invariant 0 <= i <= count && 0 <= pos
        invariant Contexts(body, start, count) == seen + Contexts(body, pos, count - i)
        invariant Learned(seen, gcm, ccm, preauth)
      {
        ContextsStep(body, pos, count - i);
        var p := AlignUp(pos);
        if p + 8 > |body| {
          break;
        }
        var end := p + 8 + U16LE(body, p + 2) as int;
        if end > |body| {
          break;
        }
        ghost var rest := Contexts(body, end, count - i - 1);
        ghost var ctx := Context(U16LE(body, p), body[p..end]);
        gcm, ccm, preauth := Learn(U16LE(body, p), body[p..end], gcm, ccm, preauth);
        Regroup(seen, ctx, rest);
        seen := seen + [ctx];
        pos, i := end, i + 1;
      }
      ContextsStep(body, pos, count - i);
      assert Contexts(body, start, count) == seen;
    }
    assert RequestList(body) == seen;
    CipherChosen(seen, gcm, ccm, preauth);
    cipher := if gcm then GCM else if ccm then CCM else GCM;
  }

  lemma Regroup(seen: seq<Context>, ctx: Context, rest: seq<Context>)
    ensures seen + ([ctx] + rest) == seen + [ctx] + rest
  {
  }

  lemma CipherChosen(seen: seq<Context>, gcm: bool, ccm: bool, preauth: Option<bytes>)
    requires Learned(seen, gcm, ccm, preauth)
    ensures CipherFor(seen) == (if gcm then GCM else if ccm then CCM else GCM) && preauth == PreauthOf(seen)
  {
  }

  // -- Requests ---------------------------------------------------------------------------------------------------

  datatype Params = Params(dialect: u16, cipher: u16, preauthHash: u16, clientPreauth: Option<bytes>)

  datatype Outcome = BadRequest | NoCommonDialect | Accepted(params: Params)

  function Dialects(body: bytes, n: nat): (d: seq<u16>)
    requires REQUEST_SIZE + 2 * n <= |body|
    ensures |d| == n
  {
    if n == 0 then [] else Dialects(body, n - 1) + [U16LE(body, REQUEST_SIZE + 2 * (n - 1))]
  }

  /** The dialect array of an acceptable request body. */
  predicate BodyFits(body: bytes) {
    && |body| >= REQUEST_SIZE && U16LE(body, 0) == REQUEST_SIZE
    && 0 < U16LE(body, 2) && REQUEST_SIZE + 2 * U16LE(body, 2) <= |body|
  }

  function ParamsFor(dialect: u16, body: bytes): Params
    requires |body| >= REQUEST_SIZE
  {
    if dialect != D311 then Params(dialect, 0, 0, None)
    else Params(dialect, CipherFor(RequestList(body)), SHA512, PreauthOf(RequestList(body)))
  }

  /** What a NEGOTIATE request comes to. */
  function Negotiated(req: bytes): Outcome {
    match Parse(req)
    case None => BadRequest
    case Some(h) =>
      var body := req[HEADER_SIZE..];
      if h.command != NEGOTIATE || !BodyFits(body) then BadRequest
      else match SelectDialect(Dialects(body, U16LE(body, 2)))
           case None => NoCommonDialect
           case Some(d) => Accepted(ParamsFor(d, body))
  }

  /** The loop that gathers the dialects; both parsers have it. */
  method Offered(body: bytes, count: nat) returns (offered: seq<u16>)
    requires REQUEST_SIZE + 2 * count <= |body|
    ensures offered == Dialects(body, count)
  {
    offered := [];
    for i := 0 to count
      invariant offered == Dialects(body, i)
    {
      var off := REQUEST_SIZE + i * 2;
      offered := offered + [U16LE(body, off)];
    }
  }

  /** handleNegotiateResult. */
  method HandleNegotiateResult(req: bytes) returns (r: Option<Params>)
    ensures r == if Negotiated(req).Accepted? then Some(Negotiated(req).params) else None
  {
    hide Dialects, SelectDialect, U16LE, CipherFor, PreauthOf, RequestList, Parse;
    var h := Parse(req);
    if h == None || h.value.command != NEGOTIATE || |req| < HEADER_SIZE + REQUEST_SIZE {
      return None;
    }
    var body := req[HEADER_SIZE..];
    if U16LE(body, 0) != REQUEST_SIZE {
      return None;
    }
    var count: int := U16LE(body, 2);
    if count == 0 || REQUEST_SIZE + 2 * count > |body| {
      return None;
    }
    var offered := Offered(body, count);
    var chosen := Select(offered);
    if chosen == None {
      return None;
    }
    if chosen.value != D311 {
      return Some(Params(chosen.value, 0, 0, None));
    }
    var cipher, preauth := ParseRequestContexts(body);
    return Some(Params(D311, cipher, SHA512, preauth));
  }

  // -- The response ---------------------------------------------------------------------------------------------

  function Put16Len(n: nat): bytes { Put16LE(n % 0x1_0000) }

  function RawContext(kind: u16, data: bytes): bytes { Put16LE(kind) + Put16Len(|data|) + [0, 0, 0, 0] + data }

  /** appendContext: padding to the next boundary of the list, then the context. */
  function AppendContext(list: bytes, kind: u16, data: bytes): bytes {
    list + Zeros((8 - |list| % 8) % 8) + RawContext(kind, data)
  }

  method AppendOne(list: bytes, kind: u16, data: bytes) returns (r: bytes)
    ensures r == AppendContext(list, kind, data)
  {
    r := list;
    while |r| % 8 != 0
      invariant |list| <= |r| <= |list| + (8 - |list| % 8) % 8
      invariant r == list + Zeros(|r| - |list|)
      decreases |list| + (8 - |list| % 8) % 8 - |r|
    {
      assert Zeros(|r| + 1 - |list|) == Zeros(|r| - |list|) + [0];
      r := r + [0];
    }
    assert |r| == |list| + (8 - |list| % 8) % 8;
    r := r + RawContext(kind, data);
  }

  function PreauthData(salt: bytes): bytes { Put16LE(1) + Put16Len(|salt|) + Put16LE(SHA512) + salt }

  function CipherData(cipher: u16): bytes { Put16LE(1) + Put16LE(cipher) }

  function ResponseContexts(salt: bytes, cipher: u16): bytes {
    AppendContext(AppendContext([], PREAUTH_INTEGRITY, PreauthData(salt)), ENCRYPTION, CipherData(cipher))
  }

  /** What a response depends on besides the request. */
  datatype Server = Server(guid: bytes, salt: bytes)

  predicate ValidServer(s: Server) { |s.guid| == 16 && |s.salt| == 32 }

  const FIXED: nat := 64

  function FixedBody(s: Server, dialect: u16, count: u16, offset: u32): (b: bytes)
    requires ValidServer(s)
    ensures |b| == FIXED
  {
    Put16LE(RESPONSE_SIZE) + Put16LE(1) + Put16LE(dialect) + Put16LE(count) + s.guid + Put32LE(0)
    + Put32LE(MAX_FRAME) + Put32LE(MAX_FRAME) + Put32LE(MAX_FRAME) + Zeros(16) + Put16LE(128) + Put16LE(0) + Put32LE(offset)
  }

  function ResponseHeader(h: Header): (r: Header)
    ensures ValidHeader(r)
  {
    Header(0, SUCCESS, NEGOTIATE, 1, WithResponseFlag(h.flags), 0, h.messageId, h.treeId, h.sessionId, NO_SIGNATURE)
  }

  function Response(s: Server, h: Header, p: Params): bytes
    requires ValidServer(s)
  {
    if p.dialect != D311 then Encode(ResponseHeader(h)) + FixedBody(s, p.dialect, 0, 0)
    else Encode(ResponseHeader(h)) + (FixedBody(s, p.dialect, 2, 128) + ResponseContexts(s.salt, p.cipher))
  }

  method BuildResponseContexts(salt: bytes, cipher: u16) returns (list: bytes, count: u16)
    ensures list == ResponseContexts(salt, cipher) && list != [] && count == 2
  {
    list := AppendOne([], PREAUTH_INTEGRITY, PreauthData(salt));
    list := AppendOne(list, ENCRYPTION, CipherData(cipher));
    count := 2;
  }

  method BuildNegotiateResponse(s: Server, h: Header, dialect: u16, count: u16, contexts: bytes) returns (resp: bytes)
    requires ValidServer(s)
    ensures resp == Encode(ResponseHeader(h)) +
                    (FixedBody(s, dialect, count, if contexts == [] then 0 else 128) + contexts)
  {
    hide Encode, FixedBody;
    if contexts == [] {
      var body := FixedBody(s, dialect, count, 0);
      assert body + contexts == body;
      return Encode(ResponseHeader(h)) + body;
    }
    var body := FixedBody(s, dialect, count, (HEADER_SIZE + FIXED) as u32);
    // The fixed part already ends on an 8-octet boundary: the padding loop of the source has nothing to do.
    return Encode(ResponseHeader(h)) + (body + contexts);
  }

  /** handleNegotiate: it accepts what handleNegotiateResult accepts, and answers with the parameters of the latter. */
  method HandleNegotiate(s: Server, req: bytes) returns (resp: Option<bytes>, common: bool)
    requires ValidServer(s)
    ensures resp == if Negotiated(req).Accepted? then Some(Response(s, Parse(req).value, Negotiated(req).params)) else None
    ensures !common <==> Negotiated(req) == NoCommonDialect
  {
    hide Dialects, SelectDialect, U16LE, CipherFor, PreauthOf, RequestList, Parse, Encode, FixedBody, ResponseContexts;
    var h := Parse(req);
    if h == None || h.value.command != NEGOTIATE {
      return None, true;
    }
    var body := req[HEADER_SIZE..];
    if |body| < REQUEST_SIZE || U16LE(body, 0) != REQUEST_SIZE {
      return None, true;
    }
    var count: int := U16LE(body, 2);
    if count == 0 || REQUEST_SIZE + 2 * count > |body| {
      return None, true;
    }
    var offered := Offered(body, count);
    var chosen := Select(offered);
    if chosen == None {
      return None, false;
    }
    var contexts: bytes, ncc: u16, cipher: u16 := [], 0, 0;
    if chosen.value == D311 {
      var preauth;
      cipher, preauth := ParseRequestContexts(body);
      contexts, ncc := BuildResponseContexts(s.salt, cipher);
    }
    var r := BuildNegotiateResponse(s, h.value, chosen.value, ncc, contexts);
    assert chosen.value != D311 ==> FixedBody(s, chosen.value, 0, 0) + contexts == FixedBody(s, chosen.value, 0, 0);
    return Some(r), true;
  }

  // -- Context lists are read as they are written ------------------------------------------------------------------

  /** All n contexts fit; and the position after them. */
  predicate AllFit(body: bytes, pos: nat, n: nat)
    decreases n
  {
    n == 0 ||
    (var p := Align(pos);
     p + 8 <= |body| && p + 8 + U16LE(body, p + 2) as int <= |body| && AllFit(body, p + 8 + U16LE(body, p + 2) as int, n - 1))
  }

  function WalkEnd(body: bytes, pos: nat, n: nat): nat
    requires AllFit(body, pos, n)
    decreases n
  {
    if n == 0 then pos else WalkEnd(body, Align(pos) + 8 + U16LE(body, Align(pos) + 2) as int, n - 1)
  }

  predicate Fits(body: bytes, pos: nat) {
    Align(pos) + 8 <= |body| && Align(pos) + 8 + U16LE(body, Align(pos) + 2) as int <= |body|
  }

  function Next(body: bytes, pos: nat): nat
    requires Fits(body, pos)
  {
    Align(pos) + 8 + U16LE(body, Align(pos) + 2) as int
  }

  function First(body: bytes, pos: nat): Context
    requires Fits(body, pos)
  {
    Context(U16LE(body, Align(pos)), body[Align(pos)..Next(body, pos)])
  }

  lemma WalkStep(body: bytes, pos: nat, n: nat)
    requires n > 0
    ensures AllFit(body, pos, n) <==> Fits(body, pos) && AllFit(body, Next(body, pos), n - 1)
    ensures Fits(body, pos) ==> Contexts(body, pos, n) == [First(body, pos)] + Contexts(body, Next(body, pos), n - 1)
    ensures AllFit(body, pos, n) ==> WalkEnd(body, pos, n) == WalkEnd(body, Next(body, pos), n - 1)
  {
  }

  lemma EmptyWalk(body: bytes, pos: nat)
    ensures Contexts(body, pos, 0) == [] && AllFit(body, pos, 0) && WalkEnd(body, pos, 0) == pos
  {
  }

  /** What follows a list does not change what the walk finds in it. */
  lemma {:induction false} WalkIgnoresSuffix(body: bytes, suffix: bytes, pos: nat, n: nat)
    requires AllFit(body, pos, n)
    ensures AllFit(body + suffix, pos, n) && WalkEnd(body + suffix, pos, n) == WalkEnd(body, pos, n)
    ensures Contexts(body + suffix, pos, n) == Contexts(body, pos, n)
    decreases n
  {
    hide Contexts, AllFit, WalkEnd, Fits, Next, First;
    if n == 0 {
      EmptyWalk(body, pos);
      EmptyWalk(body + suffix, pos);
    } else {
      WalkStep(body, pos, n);
      WalkStep(body + suffix, pos, n);
      SameStep(body, suffix, pos);
      WalkIgnoresSuffix(body, suffix, Next(body, pos), n - 1);
    }
  }

  lemma SameStep(body: bytes, suffix: bytes, pos: nat)
    requires Fits(body, pos)
    ensures Fits(body + suffix, pos) && Next(body + suffix, pos) == Next(body, pos) && First(body + suffix, pos) == First(body, pos)
  {
    var p := Align(pos);
    assert U16LE(body + suffix, p) == U16LE(body, p) && U16LE(body + suffix, p + 2) == U16LE(body, p + 2);
    assert (body + suffix)[p..Next(body, pos)] == body[p..Next(body, pos)];
  }

  lemma {:induction false} WalkContinues(body: bytes, pos: nat, n: nat, m: nat)
    requires AllFit(body, pos, n)
    ensures Contexts(body, pos, n + m) == Contexts(body, pos, n) + Contexts(body, WalkEnd(body, pos, n), m)
    ensures AllFit(body, WalkEnd(body, pos, n), m) ==>
              AllFit(body, pos, n + m) && WalkEnd(body, pos, n + m) == WalkEnd(body, WalkEnd(body, pos, n), m)
    decreases n
  {
    hide Contexts, AllFit, WalkEnd;
    if n == 0 {
      EmptyWalk(body, pos);
      assert Contexts(body, pos, 0) + Contexts(body, pos, m) == Contexts(body, pos, m);
    } else {
      WalkStep(body, pos, n);
      WalkStep(body, pos, n + m);
      var next := Next(body, pos);
      WalkContinues(body, next, n - 1, m);
      Regroup2(First(body, pos), Contexts(body, next, n - 1), Contexts(body, WalkEnd(body, next, n - 1), m));
    }
  }

  lemma Regroup2(first: Context, a: seq<Context>, b: seq<Context>)
    ensures [first] + (a + b) == ([first] + a) + b
  {
  }

  /** A context as its author names it. */
  datatype Item = Item(kind: u16, data: bytes)

  predicate ValidItem(i: Item) { |i.data| < 0x1_0000 }

  function Written(items: seq<Item>): bytes {
    if items == [] then []
    else AppendContext(Written(items[..|items| - 1]), items[|items| - 1].kind, items[|items| - 1].data)
  }

  function AsContexts(items: seq<Item>): seq<Context> {
    seq(|items|, i requires 0 <= i < |items| => Context(items[i].kind, RawContext(items[i].kind, items[i].data)))
  }

  /** One context at the end of a body whose list began on a boundary. */
  lemma OneContext(before: bytes, list: bytes, item: Item)
    requires ValidItem(item) && (|before| + HEADER_SIZE) % 8 == 0
    ensures var body := before + AppendContext(list, item.kind, item.data);
            var pos := |before| + |list|;
            && Contexts(body, pos, 1) == [Context(item.kind, RawContext(item.kind, item.data))]
            && AllFit(body, pos, 1) && WalkEnd(body, pos, 1) == |body|
  {
    hide U16LE, RawContext, AppendContext;
    var pad := (8 - |list| % 8) % 8;
    var body := before + AppendContext(list, item.kind, item.data);
    var p := |before| + |list| + pad;
    Boundary(|before|, |list|);
    assert body == before + list + Zeros(pad) + RawContext(item.kind, item.data) by { AppendSplits(before, list, item); }
    RawFields(before + list + Zeros(pad), item);
    EmptyWalk(body, |body|);
  }

  lemma AppendSplits(before: bytes, list: bytes, item: Item)
    ensures before + AppendContext(list, item.kind, item.data) ==
            before + list + Zeros((8 - |list| % 8) % 8) + RawContext(item.kind, item.data)
  {
    hide RawContext, Zeros;
    Joined(before, list, Zeros((8 - |list| % 8) % 8), RawContext(item.kind, item.data));
  }

  lemma Joined(a: bytes, b: bytes, c: bytes, d: bytes)
    ensures a + (b + c + d) == a + b + c + d
  {
  }

  lemma RawFields(front: bytes, item: Item)
    requires ValidItem(item)
    ensures var body, p := front + RawContext(item.kind, item.data), |front|;
            && p + 8 <= |body| && U16LE(body, p) == item.kind && U16LE(body, p + 2) == |item.data|
            && p + 8 + |item.data| == |body| && body[p..|body|] == RawContext(item.kind, item.data)
  {
    hide U16LE, Put16LE;
    var raw := RawContext(item.kind, item.data);
    var body, p := front + raw, |front|;
    assert body[p..p + 2] == raw[..2] == Put16LE(item.kind);
    assert body[p + 2..p + 4] == raw[2..4] == Put16LE(|item.data|);
    Get16LE(body, p, item.kind);
    Get16LE(body, p + 2, |item.data|);
  }

  /** List-relative and header-relative alignment agree. */
  lemma Boundary(before: nat, list: nat)
    requires (before + HEADER_SIZE) % 8 == 0
    ensures Align(before + list) == before + list + (8 - list % 8) % 8
  {
    assert before % 8 == 0;
    assert (before + list) % 8 == list % 8;
  }

  /** The walk of either parser finds exactly the contexts that were appended, in order, wherever the list is put. */
  lemma {:induction false} ContextsRoundTrip(before: bytes, items: seq<Item>, after: bytes)
    requires (|before| + HEADER_SIZE) % 8 == 0 && forall i | 0 <= i < |items| :: ValidItem(items[i])
    ensures Contexts(before + Written(items) + after, |before|, |items|) == AsContexts(items)
    ensures var body := before + Written(items);
            AllFit(body, |before|, |items|) && WalkEnd(body, |before|, |items|) == |body|
    decreases |items|
  {
    hide RawContext, Contexts, AllFit, WalkEnd;
    var body := before + Written(items);
    if items == [] {
      assert body == before;
      EmptyWalk(body, |before|);
      EmptyWalk(body + after, |before|);
    } else {
      var n := |items| - 1;
      var init, last := items[..n], items[n];
      ContextsRoundTrip(before, init, []);
      var short := before + Written(init);
      assert short + [] == short;
      Extends(Written(init), last);
      var tail := body[|short|..];
      assert body == short + tail;
      WalkIgnoresSuffix(short, tail, |before|, n);
      OneContext(before, Written(init), last);
      WalkContinues(body, |before|, n, 1);
      assert AsContexts(items) == AsContexts(init) + [Context(last.kind, RawContext(last.kind, last.data))];
      WalkIgnoresSuffix(body, after, |before|, |items|);
    }
  }

  lemma Extends(list: bytes, item: Item)
    ensures list <= AppendContext(list, item.kind, item.data)
  {
  }

  /** A request whose offset and count fields describe the list it carries is heard as it was meant. */
  lemma OfferIsHeard(before: bytes, items: seq<Item>, after: bytes)
    requires (|before| + HEADER_SIZE) % 8 == 0 && forall i | 0 <= i < |items| :: ValidItem(items[i])
    requires REQUEST_SIZE <= |before| && |before| + HEADER_SIZE < 0x1_0000_0000 && |items| < 0x1_0000
    requires U32LE(before, 28) == |before| + HEADER_SIZE && U16LE(before, 32) == |items|
    ensures RequestList(before + Written(items) + after) == AsContexts(items)
  {
    hide Contexts, Written, AsContexts, U16LE, U32LE, RequestList;
    ContextsRoundTrip(before, items, after);
    var list := Written(items);
    SameFields(before, list, after);
    ListFound(before + list + after, |before|, |items|);
  }

  lemma ListFound(body: bytes, start: nat, n: nat)
    requires REQUEST_SIZE <= start <= |body| && U32LE(body, 28) == start + HEADER_SIZE && U16LE(body, 32) == n
    ensures RequestList(body) == Contexts(body, start, n)
  {
    hide Contexts, U16LE, U32LE;
  }

  lemma SameFields(before: bytes, list: bytes, after: bytes)
    requires |before| >= REQUEST_SIZE
    ensures U32LE(before + list + after, 28) == U32LE(before, 28) && U16LE(before + list + after, 32) == U16LE(before, 32)
  {
  }

  // -- The client's side of the response -----------------------------------------------------------------------------

  /** The values of the last context of each kind that is long enough. */
  function LastHash(list: seq<Context>): Option<u16> {
    if list == [] then None
    else
      var c := list[|list| - 1];
      if c.kind == PREAUTH_INTEGRITY && |c.Data()| >= 6 then Some(U16LE(c.Data(), 4)) else LastHash(list[..|list| - 1])
  }

  function LastCipher(list: seq<Context>): Option<u16> {
    if list == [] then None
    else
      var c := list[|list| - 1];
      if c.kind == ENCRYPTION && |c.Data()| >= 4 then Some(U16LE(c.Data(), 2)) else LastCipher(list[..|list| - 1])
  }

  /** The contexts of a 3.1.1 response; None when it is not one. */
  function ResponseList(resp: bytes): Option<seq<Context>> {
    if |resp| < HEADER_SIZE + FIXED then None
    else
      var body := resp[HEADER_SIZE..];
      if U16LE(body, 0) != RESPONSE_SIZE || U16LE(body, 4) != D311 || U16LE(body, 6) == 0 then None
      else match ListStart(body, U32LE(body, 60))
           case None => None
           case Some(start) => Some(Contexts(body, start, U16LE(body, 6)))
  }

  lemma LastAppend(list: seq<Context>, c: Context)
    ensures LastHash(list + [c]) == if c.kind == PREAUTH_INTEGRITY && |c.Data()| >= 6 then Some(U16LE(c.Data(), 4)) else LastHash(list)
    ensures LastCipher(list + [c]) == if c.kind == ENCRYPTION && |c.Data()| >= 4 then Some(U16LE(c.Data(), 2)) else LastCipher(list)
  {
    assert (list + [c])[..|list|] == list;
  }

  /** negotiatedContexts. */
  method NegotiatedContexts(resp: bytes) returns (hash: u16, cipher: u16, found: bool)
    ensures found <==> ResponseList(resp).Some? && LastHash(ResponseList(resp).value).Some? && LastCipher(ResponseList(resp).value).Some?
    ensures found ==> Some(hash) == LastHash(ResponseList(resp).value) && Some(cipher) == LastCipher(ResponseList(resp).value)
  {
    hide Contexts, U16LE, U32LE, Align, LastHash, LastCipher;
    hash, cipher, found := 0, 0, false;
    if |resp| < HEADER_SIZE + FIXED {
      return;
    }
    var body := resp[HEADER_SIZE..];
    if U16LE(body, 0) != RESPONSE_SIZE || U16LE(body, 4) != D311 {
      return;
    }
    var count := U16LE(body, 6);
    if count == 0 {
      return;
    }
    var start := U32LE(body, 60) as int - HEADER_SIZE;
    if start < 0 || start > |body| {
      return;
    }
    var gotHash, gotCipher;
    hash, cipher, gotHash, gotCipher := ReadContexts(body, start, count);
    found := gotHash && gotCipher;
  }

  /** What the loop has found in the contexts of seen. */
  predicate Noted(seen: seq<Context>, hash: u16, cipher: u16, gotHash: bool, gotCipher: bool) {
    && LastHash(seen) == (if gotHash then Some(hash) else None)
    && LastCipher(seen) == (if gotCipher then Some(cipher) else None)
  }

  method Note(kind: u16, raw: bytes, hash: u16, cipher: u16, gotHash: bool, gotCipher: bool)
    returns (hash': u16, cipher': u16, gotHash': bool, gotCipher': bool)
    requires |raw| >= 8
    ensures forall seen | Noted(seen, hash, cipher, gotHash, gotCipher) ::
              Noted(seen + [Context(kind, raw)], hash', cipher', gotHash', gotCipher')
  {
    hide U16LE, LastHash, LastCipher;
    hash', cipher', gotHash', gotCipher' := hash, cipher, gotHash, gotCipher;
    var data := raw[8..];
    if kind == PREAUTH_INTEGRITY {
      if |data| >= 6 {
        hash', gotHash' := U16LE(data, 4), true;
      }
    } else if kind == ENCRYPTION {
      if |data| >= 4 {
        cipher', gotCipher' := U16LE(data, 2), true;
      }
    }
    forall seen | Noted(seen, hash, cipher, gotHash, gotCipher)
      ensures Noted(seen + [Context(kind, raw)], hash', cipher', gotHash', gotCipher')
    {
      LastAppend(seen, Context(kind, raw));
    }
  }

  method ReadContexts(body: bytes, start: nat, count: nat) returns (hash: u16, cipher: u16, gotHash: bool, gotCipher: bool)
    ensures Noted(Contexts(body, start, count), hash, cipher, gotHash, gotCipher)
  {
    hide Contexts, U16LE, Align, Noted;
    hash, cipher, gotHash, gotCipher := 0, 0, false, false;
    var pos, i := start, 0;
    ghost var seen: seq<Context> := [];
    NothingSeen();
    while i < count
      invariant 0 <= i <= count && 0 <= pos
      invariant Contexts(body, start, count) == seen + Contexts(body, pos, count - i)
      invariant Noted(seen, hash, cipher, gotHash, gotCipher)
    {
      ContextsStep(body, pos, count - i);
      var p := AlignUp(pos);
      if p + 8 > |body| {
        break;
      }
      var end := p + 8 + U16LE(body, p + 2) as int;
      if end > |body| {
        break;
      }
      ghost var ctx := Context(U16LE(body, p), body[p..end]);
      hash, cipher, gotHash, gotCipher := Note(U16LE(body, p), body[p..end], hash, cipher, gotHash, gotCipher);
      Regroup(seen, ctx, Contexts(body, end, count - i - 1));
      seen := seen + [ctx];
      pos, i := end, i + 1;
    }
    ContextsStep(body, pos, count - i);
    assert Contexts(body, start, count) == seen;
  }

  lemma NothingSeen()
    ensures Noted([], 0, 0, false, false)
  {
  }

  // -- Agreement ------------------------------------------------------------------------------------------------------

  lemma FixedBodyFields(s: Server, dialect: u16, count: u16, offset: u32, tail: bytes)
    requires ValidServer(s)
    ensures var b := FixedBody(s, dialect, count, offset) + tail;
            U16LE(b, 0) == RESPONSE_SIZE && U16LE(b, 4) == dialect && U16LE(b, 6) == count && U32LE(b, 60) == offset
  {
    hide Zeros, Put16LE, Put32LE, U16LE, U32LE;
    var b := FixedBody(s, dialect, count, offset) + tail;
    assert b[0..2] == Put16LE(RESPONSE_SIZE) && b[4..6] == Put16LE(dialect) && b[6..8] == Put16LE(count);
    assert b[60..64] == Put32LE(offset);
    Get16LE(b, 0, RESPONSE_SIZE);
    Get16LE(b, 4, dialect);
    Get16LE(b, 6, count);
    Get32LE(b, 60, offset);
  }

  function Items(salt: bytes, cipher: u16): seq<Item> {
    [Item(PREAUTH_INTEGRITY, PreauthData(salt)), Item(ENCRYPTION, CipherData(cipher))]
  }

  lemma ResponseItems(salt: bytes, cipher: u16)
    ensures Written(Items(salt, cipher)) == ResponseContexts(salt, cipher)
  {
    hide AppendContext, PreauthData, CipherData;
    var items := Items(salt, cipher);
    assert items[..1] == [items[0]] && [items[0]][..0] == [];
    assert Written([items[0]]) == AppendContext([], items[0].kind, items[0].data);
  }

  lemma ItemsRead(salt: bytes, cipher: u16)
    requires |salt| == 32
    ensures LastHash(AsContexts(Items(salt, cipher))) == Some(SHA512)
    ensures LastCipher(AsContexts(Items(salt, cipher))) == Some(cipher)
  {
    hide Put16LE, U16LE;
    var list := AsContexts(Items(salt, cipher));
    var c0, c1 := list[0], list[1];
    assert list == [c0] + [c1] && [c0] == [] + [c0];
    assert c0.Data() == PreauthData(salt) && c1.Data() == CipherData(cipher);
    assert c0.Data()[4..6] == Put16LE(SHA512);
    assert c1.Data()[2..4] == Put16LE(cipher);
    Get16LE(c0.Data(), 4, SHA512);
    Get16LE(c1.Data(), 2, cipher);
    LastAppend([c0], c1);
    LastAppend([], c0);
  }

  /** What the client reads of the response: the dialect both sides agree on; and, exactly for 3.1.1, SHA-512 and the
      cipher that the server itself goes on with. */
  lemma ResponseAgrees(s: Server, h: Header, p: Params)
    requires ValidServer(s)
    ensures var resp := Response(s, h, p);
            && |resp| >= HEADER_SIZE + FIXED && U16LE(resp[HEADER_SIZE..], 4) == p.dialect
            && Parse(resp) == Some(ResponseHeader(h))
            && (ResponseList(resp).Some? <==> p.dialect == D311)
            && (p.dialect == D311 ==>
                  LastHash(ResponseList(resp).value) == Some(SHA512) && LastCipher(ResponseList(resp).value) == Some(p.cipher))
  {
    hide Parse, Encode, U16LE, U32LE, Contexts, LastHash, LastCipher, ResponseContexts, FixedBody, Written, AsContexts;
    var resp := Response(s, h, p);
    var empty: bytes := [];
    if p.dialect != D311 {
      var body := FixedBody(s, p.dialect, 0, 0);
      HeaderRoundTrip(ResponseHeader(h), body);
      FixedBodyFields(s, p.dialect, 0, 0, []);
      assert body + empty == body && resp[HEADER_SIZE..] == body;
    } else {
      var list := ResponseContexts(s.salt, p.cipher);
      var fixed := FixedBody(s, D311, 2, 128);
      HeaderRoundTrip(ResponseHeader(h), fixed + list);
      FixedBodyFields(s, D311, 2, 128, list);
      assert resp[HEADER_SIZE..] == fixed + list && fixed + list + empty == fixed + list;
      ResponseItems(s.salt, p.cipher);
      ContextsRoundTrip(fixed, Items(s.salt, p.cipher), []);
      ItemsRead(s.salt, p.cipher);
    }
  }

  /** A request is accepted exactly when it is well formed and some offered dialect is supported; the dialect is then
      the highest mutual one, whatever the order of the offer. */
  lemma AcceptedIsHighest(req: bytes)
    ensures Negotiated(req).Accepted? <==>
            && Parse(req).Some? && Parse(req).value.command == NEGOTIATE && BodyFits(req[HEADER_SIZE..])
            && exists d | d in Dialects(req[HEADER_SIZE..], U16LE(req[HEADER_SIZE..], 2)) :: d in SUPPORTED
    ensures Negotiated(req).Accepted? ==>
            var offer := Dialects(req[HEADER_SIZE..], U16LE(req[HEADER_SIZE..], 2));
            var chosen := Negotiated(req).params.dialect;
            chosen in offer && chosen in SUPPORTED && forall d | d in offer && d in SUPPORTED :: d <= chosen
  {
    hide SelectDialect, Dialects, U16LE, Parse;
    if Parse(req).Some? && BodyFits(req[HEADER_SIZE..]) {
      HighestMutual(Dialects(req[HEADER_SIZE..], U16LE(req[HEADER_SIZE..], 2)));
    }
  }
}
