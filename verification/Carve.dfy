/** Documents carved out of captured streams (carve.go): chunked bodies, and the IPP message in an HTTP request. */
module Carve {
  import opened Bytes
  import opened Ipp
  import opened Text

  const CRLF: bytes := [13, 10]
  const BLANK_LINE: bytes := [13, 10, 13, 10]
  const SEMICOLON: byte := 59

  // -- Sizes --------------------------------------------------------------------------------------------------------

  function HexDigit(c: byte): Option<nat> {
    if 48 <= c <= 57 then Some(c - 48)
    else if 65 <= c <= 70 then Some(c - 55)
    else if 97 <= c <= 102 then Some(c - 87)
    else None
  }

  /** The value of hexadecimal digits; None when one of them is none. */
  function HexValue(s: bytes): Option<nat> {
    if s == [] then Some(0)
    else match (HexValue(s[..|s| - 1]), HexDigit(s[|s| - 1]))
         case (Some(v), Some(d)) => Some(16 * v + d)
         case _ => None
  }

  const MAX_INT64: nat := 0x7FFF_FFFF_FFFF_FFFF

  /** strconv.ParseInt(s, 16, 64). */
  function ParseHex(s: bytes): Option<int> {
    var neg := s != [] && s[0] == 45;
    var digits := if s != [] && (s[0] == 45 || s[0] == 43) then s[1..] else s;
    if digits == [] then None
    else match HexValue(digits)
         case None => None
         case Some(v) =>
           if neg then (if v > MAX_INT64 + 1 then None else Some(0 - v as int))
           else (if v > MAX_INT64 then None else Some(v))
  }

  function UpTo(s: bytes, c: byte): bytes { if s == [] || s[0] == c then [] else [s[0]] + UpTo(s[1..], c) }

  /** The size that a chunk's first line announces. */
  function ChunkSize(line: bytes): Option<nat> {
    match ParseHex(TrimSpace(UpTo(line, SEMICOLON)))
    case None => None
    case Some(v) => if v < 0 then None else Some(v)
  }

  // -- The decoder --------------------------------------------------------------------------------------------------

  function SkipCrlf(b: bytes): (r: bytes)
    ensures |r| <= |b|
  {
    if |b| >= 2 && b[0] == 13 && b[1] == 10 then b[2..] else b
  }

  function Dechunk(b: bytes): bytes
    decreases |b|
  {
    match Find(b, CRLF, 0)
    case None => []
    case Some(nl) =>
      match ChunkSize(b[..nl])
      case None => []
      case Some(size) =>
        var rest := b[nl + 2..];
        if size == 0 then []
        else if |rest| < size then rest
        else rest[..size] + Dechunk(SkipCrlf(rest[size..]))
  }

  /** Decoding ends where there is no size line, and at a chunk of size 0. */
  lemma DechunkEnds(b: bytes)
    requires var nl := Find(b, CRLF, 0);
             nl.None? || ChunkSize(b[..nl.value]).None? || ChunkSize(b[..nl.value]).value == 0
    ensures Dechunk(b) == []
  {
    hide ChunkSize, Find;
  }

  lemma DechunkCut(b: bytes, nl: nat, size: nat)
    requires Find(b, CRLF, 0) == Some(nl) && ChunkSize(b[..nl]) == Some(size) && |b| - nl - 2 < size
    ensures Dechunk(b) == b[nl + 2..]
  {
    hide ChunkSize, Find;
  }

  lemma DechunkChunk(b: bytes, nl: nat, size: nat)
    requires Find(b, CRLF, 0) == Some(nl) && ChunkSize(b[..nl]) == Some(size) && 0 < size <= |b| - nl - 2
    ensures var rest := b[nl + 2..]; Dechunk(b) == rest[..size] + Dechunk(SkipCrlf(rest[size..]))
  {
    hide ChunkSize, Find, SkipCrlf;
  }

  method DechunkBody(body: bytes) returns (out: bytes)
    ensures out == Dechunk(body)
  {
    hide ChunkSize, Dechunk, Find, SkipCrlf;
    out := [];
    var b := body;
    while |b| > 0
      invariant out + Dechunk(b) == Dechunk(body)
      decreases |b|
    {
      var nl := Find(b, CRLF, 0);
      if nl == None {
        break;
      }
      var size := ChunkSize(b[..nl.value]);
      if size == None || size.value == 0 {
        break;
      }
      var rest := b[nl.value + 2..];
      if |rest| < size.value {
        DechunkCut(b, nl.value, size.value);
        out := out + rest;
        return;
      }
      DechunkChunk(b, nl.value, size.value);
      Appended(out, rest[..size.value], Dechunk(SkipCrlf(rest[size.value..])));
      out := out + rest[..size.value];
      b := SkipCrlf(rest[size.value..]);
    }
    DechunkEnds(b);
  }

  // -- Truncation -----------------------------------------------------------------------------------------------------

  /** A stream cut off anywhere decodes to a beginning of what the whole decodes to, whatever the stream is. */
  lemma {:induction false} DechunkOfPrefix(a: bytes, b: bytes)
    requires a <= b
    ensures Dechunk(a) <= Dechunk(b)
    decreases |a|, 0
  {
    hide ChunkSize, Find, Dechunk, SkipCrlf;
    var nl := Find(a, CRLF, 0);
    if nl.None? || ChunkSize(a[..nl.value]).None? || ChunkSize(a[..nl.value]).value == 0 {
      DechunkEnds(a);
    } else {
      var size := ChunkSize(a[..nl.value]).value;
      FindInLonger(a, b, CRLF, 0);
      assert a[..nl.value] == b[..nl.value];
      var ra, rb := a[nl.value + 2..], b[nl.value + 2..];
      assert ra <= rb;
      if |ra| >= size {
        DechunkChunk(a, nl.value, size);
        DechunkChunk(b, nl.value, size);
        assert ra[..size] == rb[..size];
        TailOfPrefix(ra[size..], rb[size..]);
        BothBehind(ra[..size], Dechunk(SkipCrlf(ra[size..])), Dechunk(SkipCrlf(rb[size..])));
      } else {
        DechunkCut(a, nl.value, size);
        if |rb| < size {
          DechunkCut(b, nl.value, size);
        } else {
          DechunkChunk(b, nl.value, size);
          assert ra <= rb[..size];
        }
      }
    }
  }

  lemma BothBehind(a: bytes, x: bytes, y: bytes)
    requires x <= y
    ensures a + x <= a + y
  {
  }

  /** Behind a chunk: the line end may be cut in two. */
  lemma {:induction false} TailOfPrefix(a: bytes, b: bytes)
    requires a <= b
    ensures Dechunk(SkipCrlf(a)) <= Dechunk(SkipCrlf(b))
    decreases |a|, 1
  {
    hide ChunkSize;
    if |a| >= 2 {
      DechunkOfPrefix(SkipCrlf(a), SkipCrlf(b));
    } else {
      assert Dechunk(a) == [];
    }
  }

  // -- Well-formed bodies -------------------------------------------------------------------------------------------

  /** A chunk: its size line (the size in any form that ParseHex accepts, with any extension) and its data. */
  datatype Chunk = Chunk(line: bytes, data: bytes)

  predicate NoCrlf(line: bytes) { forall j | 0 <= j < |line| :: !At(line, CRLF, j) }

  predicate ValidChunk(c: Chunk) { c.data != [] && NoCrlf(c.line) && ChunkSize(c.line) == Some(|c.data|) }

  function WriteChunk(c: Chunk): bytes { c.line + CRLF + (c.data + CRLF) }

  function WriteChunks(chunks: seq<Chunk>): bytes { if chunks == [] then [] else WriteChunk(chunks[0]) + WriteChunks(chunks[1..]) }

  function Joined(chunks: seq<Chunk>): bytes { if chunks == [] then [] else chunks[0].data + Joined(chunks[1..]) }

  /** The last chunk, and trailers or anything else behind it. */
  predicate ValidEnd(line: bytes) { NoCrlf(line) && ChunkSize(line) == Some(0) }

  lemma LineFound(line: bytes, rest: bytes)
    requires NoCrlf(line)
    ensures Find(line + CRLF + rest, CRLF, 0) == Some(|line|)
  {
    var b := line + CRLF + rest;
    assert b[|line|..|line| + 2] == CRLF;
    assert At(b, CRLF, |line|);
    forall j | 0 <= j < |line| ensures !At(b, CRLF, j) {
      assert !At(line, CRLF, j);
      if j + 2 <= |line| {
        assert b[j..j + 2] == line[j..j + 2];
      } else {
        assert b[j + 1] == 13;
      }
    }
    FindIsFirst(b, CRLF, 0);
  }

  lemma LineDecoded(line: bytes, tail: bytes)
    requires NoCrlf(line) && ChunkSize(line).Some? && ChunkSize(line).value > 0
    ensures var n := ChunkSize(line).value;
            Dechunk(line + CRLF + tail) == if |tail| < n then tail else tail[..n] + Dechunk(SkipCrlf(tail[n..]))
  {
    hide ChunkSize, Find;
    LineFound(line, tail);
    var b := line + CRLF + tail;
    assert b[..|line|] == line && b[|line| + 2..] == tail;
  }

  lemma ChunkDecoded(c: Chunk, rest: bytes)
    requires ValidChunk(c)
    ensures Dechunk(WriteChunk(c) + rest) == c.data + Dechunk(rest)
  {
    hide ChunkSize, Dechunk, NoCrlf;
    Rejoined(c.line, CRLF, c.data, CRLF, rest);
    var tail := c.data + (CRLF + rest);
    LineDecoded(c.line, tail);
    assert tail[..|c.data|] == c.data && tail[|c.data|..] == CRLF + rest;
    assert (CRLF + rest)[2..] == rest;
  }

  lemma Rejoined(a: bytes, b: bytes, c: bytes, d: bytes, e: bytes)
    ensures a + b + (c + d) + e == a + b + (c + (d + e))
  {
  }

  /** Whatever the chunking, the body comes back. */
  lemma {:induction false} DechunkRoundTrip(chunks: seq<Chunk>, end: bytes, trailer: bytes)
    requires (forall c | c in chunks :: ValidChunk(c)) && ValidEnd(end)
    ensures Dechunk(WriteChunks(chunks) + (end + CRLF + trailer)) == Joined(chunks)
    decreases |chunks|
  {
    hide ChunkSize, Find, Dechunk, WriteChunk;
    var last := end + CRLF + trailer;
    if chunks == [] {
      assert WriteChunks(chunks) + last == last;
      EndDecoded(end, trailer);
    } else {
      assert chunks[0] in chunks && forall c | c in chunks[1..] :: c in chunks;
      assert WriteChunks(chunks) + last == WriteChunk(chunks[0]) + (WriteChunks(chunks[1..]) + last);
      ChunkDecoded(chunks[0], WriteChunks(chunks[1..]) + last);
      DechunkRoundTrip(chunks[1..], end, trailer);
    }
  }

  lemma EndDecoded(end: bytes, trailer: bytes)
    requires ValidEnd(end)
    ensures Dechunk(end + CRLF + trailer) == []
  {
    hide ChunkSize, Find;
    LineFound(end, trailer);
    assert (end + CRLF + trailer)[..|end|] == end;
  }

  /** A capture that breaks off anywhere inside a chunked body still yields a beginning of the body. */
  lemma TruncatedBodyIsPrefix(chunks: seq<Chunk>, end: bytes, trailer: bytes, n: nat)
    requires (forall c | c in chunks :: ValidChunk(c)) && ValidEnd(end)
    requires n <= |WriteChunks(chunks) + (end + CRLF + trailer)|
    ensures Dechunk((WriteChunks(chunks) + (end + CRLF + trailer))[..n]) <= Joined(chunks)
  {
    hide Dechunk;
    var b := WriteChunks(chunks) + (end + CRLF + trailer);
    DechunkOfPrefix(b[..n], b);
    DechunkRoundTrip(chunks, end, trailer);
  }

  // -- Size lines -------------------------------------------------------------------------------------------------------

  function Hex(n: nat): (s: bytes)
    ensures s != []
  {
    var d := n % 16;
    (if n < 16 then [] else Hex(n / 16)) + [if d < 10 then 48 + d else 87 + d]
  }

  lemma {:induction false} HexRead(n: nat)
    ensures HexValue(Hex(n)) == Some(n)
    ensures forall c | c in Hex(n) :: HexDigit(c).Some?
  {
    var s := Hex(n);
    if n >= 16 {
      HexRead(n / 16);
      assert s[..|s| - 1] == Hex(n / 16);
    } else {
      assert s[..|s| - 1] == [];
    }
  }

  lemma {:induction false} UpToAll(s: bytes, ext: bytes)
    requires SEMICOLON !in s && (ext == [] || ext[0] == SEMICOLON)
    ensures UpTo(s + ext, SEMICOLON) == s
  {
    if s != [] {
      assert s[0] in s && (s + ext)[1..] == s[1..] + ext;
      UpToAll(s[1..], ext);
    } else {
      assert s + ext == ext;
    }
  }

  /** The plainest size line, with or without an extension: any chunk no longer than an int64 can be written. */
  lemma SizeLineRead(n: nat, ext: bytes)
    requires n <= MAX_INT64 && (ext == [] || ext[0] == SEMICOLON)
    ensures ChunkSize(Hex(n) + ext) == Some(n)
  {
    hide HexValue, Hex, UpTo, TrimSpace;
    var s := Hex(n);
    HexRead(n);
    assert SEMICOLON !in s by { assert HexDigit(SEMICOLON) == None; }
    UpToAll(s, ext);
    assert s[0] in s && s[|s| - 1] in s;
    TightText(s);
  }

  lemma TightText(s: bytes)
    requires s != [] && !IsSpace(s[0]) && !IsSpace(s[|s| - 1])
    ensures TrimSpace(s) == s
  {
  }

  lemma HexLineHasNoCrlf(n: nat, ext: bytes)
    requires NoCrlf(ext)
    ensures NoCrlf(Hex(n) + ext)
  {
    hide Hex;
    HexRead(n);
    var s, line := Hex(n), Hex(n) + ext;
    forall j | 0 <= j < |line| ensures !At(line, CRLF, j) {
      if j < |s| {
        assert s[j] in s && HexDigit(13) == None && line[j] == s[j];
        assert j + 2 <= |line| ==> line[j..j + 2][0] == line[j];
      } else {
        assert !At(ext, CRLF, j - |s|);
        assert j + 2 <= |line| ==> line[j..j + 2] == ext[j - |s|..j - |s| + 2];
      }
    }
  }

  /** So the chunks that any client writes are well formed. */
  lemma PlainChunkIsValid(data: bytes, ext: bytes)
    requires 0 < |data| <= MAX_INT64 && NoCrlf(ext) && (ext == [] || ext[0] == SEMICOLON)
    ensures ValidChunk(Chunk(Hex(|data|) + ext, data))
  {
    hide ChunkSize, Hex, NoCrlf;
    SizeLineRead(|data|, ext);
    HexLineHasNoCrlf(|data|, ext);
  }

  // -- HTTP and IPP -------------------------------------------------------------------------------------------------------

  const POST: bytes := [80, 79, 83, 84, 32]
  const COLON: byte := 58
  // transfer-encoding, chunked, application/ipp
  const TRANSFER_ENCODING: bytes := [116, 114, 97, 110, 115, 102, 101, 114, 45, 101, 110, 99, 111, 100, 105, 110, 103]
  const CHUNKED: bytes := [99, 104, 117, 110, 107, 101, 100]
  const APPLICATION_IPP: bytes := [97, 112, 112, 108, 105, 99, 97, 116, 105, 111, 110, 47, 105, 112, 112]
  // document-format
  const DOCUMENT_FORMAT: bytes := [100, 111, 99, 117, 109, 101, 110, 116, 45, 102, 111, 114, 109, 97, 116]

  function Lower(s: bytes): bytes { seq(|s|, i requires 0 <= i < |s| => if 65 <= s[i] <= 90 then s[i] + 32 else s[i]) }

  function Lines(headers: bytes): seq<bytes>
    decreases |headers|
  {
    match Find(headers, CRLF, 0)
    case None => [headers]
    case Some(k) => [headers[..k]] + Lines(headers[k + 2..])
  }

  /** A header line that names chunked among the transfer codings. */
  predicate SaysChunked(line: bytes) {
    COLON in line &&
    (var key := UpTo(line, COLON);
     |key| < |line| && Lower(TrimSpace(key)) == TRANSFER_ENCODING && Find(Lower(line[|key| + 1..]), CHUNKED, 0).Some?)
  }

  predicate IsChunked(headers: bytes) { exists i | 0 <= i < |Lines(headers)| :: SaysChunked(Lines(headers)[i]) }

  method HasChunked(headers: bytes) returns (chunked: bool)
    ensures chunked <==> IsChunked(headers)
  {
    hide SaysChunked, Lines;
    var lines := Lines(headers);
    for i := 0 to |lines|
      invariant forall k | 0 <= k < i :: !SaysChunked(lines[k])
    {
      if SaysChunked(lines[i]) {
        return true;
      }
    }
    return false;
  }

  /** What is carved: the document and its format. */
  datatype Carved = Carved(document: bytes, format: Option<bytes>)

  function FormatOf(attrs: Attrs): Option<bytes> { if DOCUMENT_FORMAT in attrs then Some(attrs[DOCUMENT_FORMAT]) else None }

  predicate LooksLikeIpp(headers: bytes) { POST <= headers || Find(headers, APPLICATION_IPP, 0).Some? }

  /** unwrapIPP. */
  function UnwrapIpp(stream: bytes): Option<Carved> {
    match Find(stream, BLANK_LINE, 0)
    case None => None
    case Some(k) =>
      var headers, rest := stream[..k], stream[k + 4..];
      if !LooksLikeIpp(headers) then None
      else
        var body := if IsChunked(headers) then Dechunk(rest) else rest;
        if |body| < 8 then None
        else
          var (attrs, document) := ParseFrom(body[8..], 0, map[]);
          if document == [] then None else Some(Carved(document, FormatOf(attrs)))
  }

  method Unwrap(stream: bytes) returns (r: Option<Carved>)
    ensures r == UnwrapIpp(stream)
  {
    hide Dechunk, IsChunked, LooksLikeIpp;
    var k := Find(stream, BLANK_LINE, 0);
    if k == None {
      return None;
    }
    var headers, body := stream[..k.value], stream[k.value + 4..];
    if !LooksLikeIpp(headers) {
      return None;
    }
    var chunked := HasChunked(headers);
    if chunked {
      body := DechunkBody(body);
    }
    if |body| < 8 {
      return None;
    }
    var attrs, document := ParseIpp(body[8..]);
    if document == [] {
      return None;
    }
    return Some(Carved(document, FormatOf(attrs)));
  }

  /** The headers end at the first blank line. */
  predicate NoInnerBlankLine(headers: bytes) { forall j | 0 <= j < |headers| :: !At(headers + BLANK_LINE, BLANK_LINE, j) }

  lemma HeadersFound(headers: bytes, rest: bytes)
    requires NoInnerBlankLine(headers)
    ensures Find(headers + BLANK_LINE + rest, BLANK_LINE, 0) == Some(|headers|)
  {
    var h := headers + BLANK_LINE;
    assert h[|headers|..] == BLANK_LINE;
    assert At(h, BLANK_LINE, |headers|);
    FindIsFirst(h, BLANK_LINE, 0);
    FindInLonger(h, h + rest, BLANK_LINE, 0);
  }

  /** An IPP message: version, operation and request id, the attribute groups, and the document. */
  function Message(head: bytes, elements: seq<Element>, document: bytes): bytes {
    head + (Envelope(elements) + [END_OF_ATTRIBUTES] + document)
  }

  /** The document of a POST comes out whole, with its format, under any chunking of the body, or none. */
  lemma DocumentIsRecovered(headers: bytes, head: bytes, elements: seq<Element>, document: bytes,
                            chunks: seq<Chunk>, end: bytes, trailer: bytes)
    requires POST <= headers && NoInnerBlankLine(headers)
    requires |head| == 8 && document != [] && forall e | e in elements :: ValidElement(e)
    requires IsChunked(headers) ==>
               (forall c | c in chunks :: ValidChunk(c)) && ValidEnd(end) && Joined(chunks) == Message(head, elements, document)
    ensures var body := if IsChunked(headers) then WriteChunks(chunks) + (end + CRLF + trailer) else Message(head, elements, document);
            UnwrapIpp(headers + BLANK_LINE + body) == Some(Carved(document, FormatOf(NoteAll(map[], elements))))
  {
    hide Dechunk, IsChunked, WriteChunks, Find, ParseFrom, Envelope;
    var message := Message(head, elements, document);
    var body := if IsChunked(headers) then WriteChunks(chunks) + (end + CRLF + trailer) else message;
    var stream := headers + BLANK_LINE + body;
    HeadersFound(headers, body);
    assert stream[..|headers|] == headers && stream[|headers| + 4..] == body;
    if IsChunked(headers) {
      DechunkRoundTrip(chunks, end, trailer);
    }
    EnvelopeRoundTrip(elements, document);
    assert message[8..] == Envelope(elements) + [END_OF_ATTRIBUTES] + document;
  }

  /** A beginning of the headers and their blank line has no blank line in it. */
  lemma HeadersBroken(headers: bytes, got: bytes)
    requires NoInnerBlankLine(headers) && got <= headers + BLANK_LINE && |got| < |headers| + 4
    ensures Find(got, BLANK_LINE, 0) == None
  {
    hide Find;
    var whole := headers + BLANK_LINE;
    HeadersFound(headers, []);
    assert whole + [] == whole;
    if Find(got, BLANK_LINE, 0).Some? {
      FoundFits(got, BLANK_LINE, 0);
      FindInLonger(got, whole, BLANK_LINE, 0);
    }
  }

  lemma {:induction false} FoundFits(b: bytes, sig: bytes, i: nat)
    requires Find(b, sig, i).Some?
    ensures Find(b, sig, i).value + |sig| <= |b|
    decreases |b| - i
  {
    if !At(b, sig, i) { FoundFits(b, sig, i + 1); }
  }

  /** What has arrived of the message, when that much of the body has. */
  function MessageIn(headers: bytes, body: bytes): bytes { if IsChunked(headers) then Dechunk(body) else body }

  /** Of a request whose capture breaks off anywhere, in the headers, a size line, a chunk, the attributes or the document, only
      octets of the document are carved, from its first on; and nothing exactly when none of the document has arrived. */
  lemma BrokenCaptureIsPrefix(headers: bytes, head: bytes, elements: seq<Element>, document: bytes,
                              chunks: seq<Chunk>, end: bytes, trailer: bytes, n: nat)
    requires POST <= headers && NoInnerBlankLine(headers)
    requires |head| == 8 && forall e | e in elements :: ValidElement(e)
    requires IsChunked(headers) ==>
               (forall c | c in chunks :: ValidChunk(c)) && ValidEnd(end) && Joined(chunks) == Message(head, elements, document)
    requires var body := if IsChunked(headers) then WriteChunks(chunks) + (end + CRLF + trailer) else Message(head, elements, document);
             n <= |headers + BLANK_LINE + body|
    ensures var body := if IsChunked(headers) then WriteChunks(chunks) + (end + CRLF + trailer) else Message(head, elements, document);
            var r := UnwrapIpp((headers + BLANK_LINE + body)[..n]);
            && (r.Some? ==> r.value.document <= document)
            && (r.None? <==> n < |headers| + 4 || |MessageIn(headers, body[..n - |headers| - 4])| <= |Message(head, elements, [])|)
  {
    hide Dechunk, IsChunked, WriteChunks, Find, ParseFrom, Message, FormatOf;
    var body := if IsChunked(headers) then WriteChunks(chunks) + (end + CRLF + trailer) else Message(head, elements, document);
    var stream := (headers + BLANK_LINE + body)[..n];
    if n < |headers| + 4 {
      assert stream == (headers + BLANK_LINE)[..n];
      HeadersBroken(headers, stream);
    } else {
      var part := body[..n - |headers| - 4];
      assert stream == headers + BLANK_LINE + part;
      if IsChunked(headers) { TruncatedBodyIsPrefix(chunks, end, trailer, n - |headers| - 4); }
      HeadersFound(headers, part);
      assert stream[..|headers|] == headers && stream[|headers| + 4..] == part;
      BrokenMessage(head, elements, document, MessageIn(headers, part));
    }
  }

  /** The document in what has arrived of a message. */
  lemma BrokenMessage(head: bytes, elements: seq<Element>, document: bytes, got: bytes)
    requires |head| == 8 && (forall e | e in elements :: ValidElement(e)) && got <= Message(head, elements, document)
    ensures |Message(head, elements, [])| > 8
    ensures |got| >= 8 ==> ParseFrom(got[8..], 0, map[]).1 <= document
    ensures |got| >= 8 ==> (ParseFrom(got[8..], 0, map[]).1 == [] <==> |got| <= |Message(head, elements, [])|)
  {
    hide ParseFrom, Envelope;
    var prefix, whole := Message(head, elements, []), Message(head, elements, document);
    MessageParsed(head, elements, document);
    MessageParsed(head, elements, []);
    assert whole[..|prefix|] == prefix;
    if |got| >= 8 {
      assert got[8..] <= whole[8..];
      TruncatedDocument(got[8..], whole[8..], 0, map[]);
      if |got| <= |prefix| {
        assert got[8..] <= prefix[8..];
        TruncatedDocument(got[8..], prefix[8..], 0, map[]);
      } else {
        var part := got[|prefix|..];
        assert got == prefix + part == Message(head, elements, part);
        MessageParsed(head, elements, part);
      }
    }
  }

  lemma MessageParsed(head: bytes, elements: seq<Element>, document: bytes)
    requires |head| == 8 && forall e | e in elements :: ValidElement(e)
    ensures ParseFrom(Message(head, elements, document)[8..], 0, map[]).1 == document
  {
    hide ParseFrom, Envelope;
    EnvelopeRoundTrip(elements, document);
    assert Message(head, elements, document)[8..] == Envelope(elements) + [END_OF_ATTRIBUTES] + document;
  }
}
