/** BER primitives of the SNMP agent (snmp.go): tag-length-value, INTEGER contents, OBJECT IDENTIFIERs. */
module Ber {
  import opened Bytes

  const TAG_INTEGER: byte := 0x02
  const TAG_OCTETS: byte := 0x04
  const TAG_NULL: byte := 0x05
  const TAG_OID: byte := 0x06
  const TAG_SEQUENCE: byte := 0x30

  // -- Lengths and elements ---------------------------------------------------------------------------

  /** The big-endian octets of n, without leading zeros. */
  function BigEndian(n: nat): (b: bytes)
    ensures n > 0 ==> b != []
  {
    if n == 0 then [] else BigEndian(n / 0x100) + [n % 0x100]
  }

  function FromBigEndian(b: bytes): nat {
    if b == [] then 0 else FromBigEndian(b[..|b| - 1]) * 0x100 + b[|b| - 1]
  }

  function BerLen(n: nat): (b: bytes)
    ensures b != []
  {
    if n < 0x80 then [n] else [0x80 + |BigEndian(n)| % 0x80] + BigEndian(n)
  }

  function Tlv(tag: byte, content: bytes): bytes { [tag] + BerLen(|content|) + content }

  /** An element found in a buffer: its tag and where its content lies; the next one begins at end. */
  datatype Element = Element(tag: byte, start: nat, end: nat)

  function ReadTlv(b: bytes, p: nat): (r: Option<Element>)
    ensures r.Some? ==> p + 2 <= r.value.start <= r.value.end <= |b|
  {
    if p + 2 > |b| then None
    else
      var l := b[p + 1];
      if l < 0x80 then
        if p + 2 + l > |b| then None else Some(Element(b[p], p + 2, p + 2 + l))
      else
        var n := l as int - 0x80;
        if n == 0 || n > 4 || p + 2 + n > |b| then None
        else
          var len := FromBigEndian(b[p + 2..p + 2 + n]);
          if p + 2 + n + len > |b| then None else Some(Element(b[p], p + 2 + n, p + 2 + n + len))
  }

  /** berLen's loop: the octets are prepended from the least significant on. */
  method EncodeLength(n: nat) returns (r: bytes)
    ensures r == BerLen(n)
  {
    if n < 0x80 {
      return [n];
    }
    var b: bytes := [];
    var rest := n;
    while rest > 0
      invariant BigEndian(rest) + b == BigEndian(n)
      decreases rest
    {
      assert BigEndian(rest) + b == BigEndian(rest / 0x100) + ([rest % 0x100] + b);
      b := [rest % 0x100] + b;
      rest := rest / 0x100;
    }
    assert b == BigEndian(n);
    r := [0x80 + |b| % 0x80] + b;
  }

  /** readTLV's loop over a long-form length. */
  method ParseElement(b: bytes, p0: nat) returns (r: Option<Element>)
    ensures r == ReadTlv(b, p0)
  {
    var p := p0;
    if p + 2 > |b| {
      return None;
    }
    var tag := b[p];
    p := p + 1;
    var l: nat := b[p];
    p := p + 1;
    if l >= 0x80 {
      var n := l - 0x80;
      if n == 0 || n > 4 || p + n > |b| {
        return None;
      }
      l := 0;
      for i := 0 to n
        invariant p == p0 + 2 + i && l == FromBigEndian(b[p0 + 2..p])
      {
        assert b[p0 + 2..p + 1][..i] == b[p0 + 2..p];
        l := l * 0x100 + b[p];
        p := p + 1;
      }
    }
    if p + l > |b| {
      return None;
    }
    r := Some(Element(tag, p, p + l));
  }

  lemma {:induction false} BigEndianRoundTrip(n: nat)
    ensures FromBigEndian(BigEndian(n)) == n
  {
    if n > 0 {
      BigEndianRoundTrip(n / 0x100);
      assert BigEndian(n)[..|BigEndian(n)| - 1] == BigEndian(n / 0x100);
    }
  }

  lemma BigEndianIsShort(n: nat)
    requires 0 < n < 0x1_0000_0000
    ensures 1 <= |BigEndian(n)| <= 4
  {
    var a, b, c, d := n / 0x100, n / 0x100 / 0x100, n / 0x100 / 0x100 / 0x100, n / 0x100 / 0x100 / 0x100 / 0x100;
    assert d == 0;
    assert BigEndian(d) == [];
    assert |BigEndian(c)| <= 1;
    assert |BigEndian(b)| <= 2;
    assert |BigEndian(a)| <= 3;
  }

  /** Reading an encoded element back, wherever it stands, gives its tag, its content and its exact end. */
  lemma TlvRoundTrip(pre: bytes, tag: byte, content: bytes, post: bytes)
    requires |content| < 0x1_0000_0000
    ensures var b := pre + Tlv(tag, content) + post;
            var r := ReadTlv(b, |pre|);
            && r.Some? && r.value.tag == tag
            && r.value.end == |pre| + |Tlv(tag, content)|
            && r.value.start == r.value.end - |content|
            && b[r.value.start..r.value.end] == content
  {
    hide BigEndian, FromBigEndian;
    var b := pre + Tlv(tag, content) + post;
    var n := |content|;
    assert b[|pre|] == tag && b[|pre| + 1] == BerLen(n)[0];
    assert b[|pre| + 1 + |BerLen(n)|..|pre| + 1 + |BerLen(n)| + n] == content;
    if n >= 0x80 {
      BigEndianIsShort(n);
      BigEndianRoundTrip(n);
      assert b[|pre| + 2..|pre| + 2 + |BigEndian(n)|] == BigEndian(n);
    }
  }

  // -- INTEGER contents -----------------------------------------------------------------------------

  type int64 = x: int | -0x8000_0000_0000_0000 <= x < 0x8000_0000_0000_0000

  /** The low 64 bits of x as a signed word. */
  function Wrap64(x: int): int64 {
    var m := x % 0x1_0000_0000_0000_0000;
    if m < 0x8000_0000_0000_0000 then m else m - 0x1_0000_0000_0000_0000
  }

  /** v shifted right by n octets, keeping the sign. */
  function Shr(v: int, n: nat): int { if n == 0 then v else Shr(v, n - 1) / 0x100 }

  /** The eight octets of a 64-bit word, most significant first. */
  function Word(v: int64): (b: bytes)
    ensures |b| == 8
  {
    seq(8, k requires 0 <= k < 8 => Shr(v, 7 - k) % 0x100)
  }

  /** Whether the octet at i only repeats the sign of the one after it. */
  predicate Redundant(b: bytes, i: nat)
    requires i + 1 < |b|
  {
    (b[i] == 0 && b[i + 1] < 0x80) || (b[i] == 0xFF && b[i + 1] >= 0x80)
  }

  /** Where the shortest form of a word begins. */
  function SignificantFrom(b: bytes, i: nat): (k: nat)
    requires |b| == 8 && i < 8
    ensures i <= k < 8
    decreases 8 - i
  {
    if i < 7 && Redundant(b, i) then SignificantFrom(b, i + 1) else i
  }

  function IntContent(v: int64): bytes { Word(v)[SignificantFrom(Word(v), 0)..] }

  function DecodeFrom(v: int64, b: bytes): int64 {
    if b == [] then v else Wrap64(DecodeFrom(v, b[..|b| - 1]) * 0x100 + b[|b| - 1])
  }

  function DecodeInt(b: bytes): int64 {
    if b == [] then 0 else DecodeFrom(if b[0] >= 0x80 then -1 else 0, b)
  }

  /** intContent's loop; neg selects the octet that may be dropped. */
  method EncodeInt(v: int64) returns (r: bytes)
    ensures r == IntContent(v)
  {
    var tmp := Word(v);
    var neg := v < 0;
    SignOfWord(v);
    var i := 0;
    while i < 7
      invariant 0 <= i <= 7
      invariant SignificantFrom(tmp, 0) == SignificantFrom(tmp, i)
      invariant tmp[i] >= 0x80 <==> neg
    {
      if !neg && tmp[i] == 0 && tmp[i + 1] < 0x80 {
        i := i + 1;
      } else if neg && tmp[i] == 0xFF && tmp[i + 1] >= 0x80 {
        i := i + 1;
      } else {
        break;
      }
    }
    r := tmp[i..];
  }

  method ParseInt(b: bytes) returns (v: int64)
    ensures v == DecodeInt(b)
  {
    if |b| == 0 {
      return 0;
    }
    v := 0;
    if b[0] >= 0x80 {
      v := -1;
    }
    ghost var sign := v;
    for i := 0 to |b|
      invariant v == DecodeFrom(sign, b[..i])
    {
      assert b[..i + 1][..i] == b[..i];
      v := Wrap64(v * 0x100 + b[i]);
    }
    assert b[..|b|] == b;
  }

  lemma SignOfWord(v: int64)
    ensures Word(v)[0] >= 0x80 <==> v < 0
    ensures Shr(v, 8) == if v < 0 then -1 else 0
  {
    assert Shr(v, 7) == v / 0x100_0000_0000_0000 by { ShrIsDiv(v); }
  }

  lemma ShrIsDiv(v: int)
    ensures Shr(v, 7) == v / 0x100_0000_0000_0000
  {
    assert Shr(v, 1) == v / 0x100;
    assert Shr(v, 2) == v / 0x1_0000;
    assert Shr(v, 3) == v / 0x100_0000;
    assert Shr(v, 4) == v / 0x1_0000_0000;
    assert Shr(v, 5) == v / 0x100_0000_0000;
    assert Shr(v, 6) == v / 0x1_0000_0000_0000;
  }

  lemma ShrRange(v: int64, n: nat)
    requires n <= 8
    ensures -0x8000_0000_0000_0000 <= Shr(v, n) < 0x8000_0000_0000_0000
  {
    if n > 0 { ShrRange(v, n - 1); }
  }

  /** One octet more: shifting it in undoes the last shift, and stays within 64 bits. */
  lemma ShiftIn(v: int64, k: nat)
    requires k < 8
    ensures Shr(v, 8 - k) * 0x100 + Word(v)[k] == Shr(v, 7 - k) == Wrap64(Shr(v, 7 - k))
  {
    var x := Shr(v, 7 - k);
    assert Shr(v, 8 - k) == x / 0x100 && Word(v)[k] == x % 0x100;
    ShrRange(v, 7 - k);
  }

  /** Every dropped octet repeats the sign: what lies above the kept octets is 0 or -1. */
  lemma {:induction false} DroppedIsSign(v: int64, i: nat)
    requires i < 8 && Shr(v, 8 - i) == (if v < 0 then -1 else 0) && (Word(v)[i] >= 0x80 <==> v < 0)
    ensures var k := SignificantFrom(Word(v), i);
            Shr(v, 8 - k) == (if v < 0 then -1 else 0) && (Word(v)[k] >= 0x80 <==> v < 0)
    decreases 8 - i
  {
    hide Shr, Word;
    if i < 7 && Redundant(Word(v), i) {
      ShiftIn(v, i);
      DroppedIsSign(v, i + 1);
    }
  }

  lemma {:induction false} DecodesPrefix(v: int64, k: nat, i: nat, sign: int64)
    requires i <= k <= 8 && sign == Shr(v, 8 - i)
    ensures DecodeFrom(sign, Word(v)[i..k]) == Shr(v, 8 - k)
    decreases k
  {
    hide Shr, Word, Wrap64;
    if k > i {
      DecodesPrefix(v, k - 1, i, sign);
      assert Word(v)[i..k][..k - i - 1] == Word(v)[i..k - 1];
      ShiftIn(v, k - 1);
    }
  }

  /** decodeInt(intContent(v)) is v for every 64-bit v, and no leading octet could be dropped. */
  lemma IntRoundTrip(v: int64)
    ensures DecodeInt(IntContent(v)) == v
    ensures 1 <= |IntContent(v)| <= 8
    ensures |IntContent(v)| > 1 ==> !Redundant(IntContent(v), 0)
  {
    hide Shr, Word, SignificantFrom;
    var w := Word(v);
    var k := SignificantFrom(w, 0);
    SignOfWord(v);
    DroppedIsSign(v, 0);
    ShortestStart(w, 0);
    DecodesPrefix(v, 8, k, if v < 0 then -1 else 0);
    assert w[k..8] == w[k..];
    assert Shr(v, 0) == v by { NoShift(v); }
  }

  lemma NoShift(v: int)
    ensures Shr(v, 0) == v
  {
  }

  lemma {:induction false} ShortestStart(w: bytes, i: nat)
    requires |w| == 8 && i < 8
    ensures var k := SignificantFrom(w, i); k < 7 ==> !Redundant(w[k..], 0)
    decreases 8 - i
  {
    if i < 7 && Redundant(w, i) { ShortestStart(w, i + 1); }
  }

  // -- OBJECT IDENTIFIERs ----------------------------------------------------------------------------

  /** The base-128 digits of n, most significant first; none for 0. */
  function Digits(n: nat): (b: bytes)
    ensures forall i | 0 <= i < |b| :: b[i] < 0x80
    ensures n > 0 ==> b != []
  {
    if n == 0 then [] else Digits(n / 0x80) + [n % 0x80]
  }

  /** Every octet but the last carries the continuation bit. */
  function Continued(b: bytes): (r: bytes)
    requires forall i | 0 <= i < |b| :: b[i] < 0x80
    ensures |r| == |b|
  {
    seq(|b|, i requires 0 <= i < |b| => if i < |b| - 1 then b[i] as int + 0x80 else b[i])
  }

  /** A negative arc leaves no octets at all. */
  function Base128(n: int): bytes {
    if n < 0 then [] else if n == 0 then [0] else Continued(Digits(n))
  }

  function EncodeArcs(arcs: seq<int>): bytes {
    if arcs == [] then [] else Base128(arcs[0]) + EncodeArcs(arcs[1..])
  }

  function EncodeOid(oid: seq<int>): bytes {
    if |oid| < 2 then [0] else [(oid[0] * 40 + oid[1]) % 0x100] + EncodeArcs(oid[2..])
  }

  /** decodeOID's loop as a fold: the arcs so far and the arc in progress. */
  function DecodeArcs(b: bytes, n: int64): seq<int64> {
    if b == [] then []
    else
      var m := Wrap64(n * 0x80 + b[0] % 0x80);
      if b[0] < 0x80 then [m] + DecodeArcs(b[1..], 0) else DecodeArcs(b[1..], m)
  }

  function DecodeOid(b: bytes): seq<int64> {
    if b == [] then [] else [b[0] / 40, b[0] % 40] + DecodeArcs(b[1..], 0)
  }

  method EncodeArc(n: int) returns (r: bytes)
    ensures r == Base128(n)
  {
    if n == 0 {
      return [0];
    }
    var b: bytes := [];
    var rest := n;
    while rest > 0
      invariant n < 0 ==> rest == n && b == []
      invariant n > 0 ==> rest >= 0 && Digits(rest) + b == Digits(n)
      decreases rest
    {
      assert Digits(rest) + b == Digits(rest / 0x80) + ([rest % 0x80] + b);
      b := [rest % 0x80] + b;
      rest := rest / 0x80;
    }
    if n < 0 {
      return b;
    }
    assert b == Digits(n);
    r := SetContinuation(b);
  }

  method SetContinuation(digits: bytes) returns (b: bytes)
    requires digits != [] && forall i | 0 <= i < |digits| :: digits[i] < 0x80
    ensures b == Continued(digits)
  {
    b := digits;
    for i := 0 to |b| - 1
      invariant |b| == |digits|
      invariant forall k | 0 <= k < |b| :: b[k] == if k < i then digits[k] as int + 0x80 else digits[k]
    {
      b := b[i := b[i] as int + 0x80];
    }
  }

  method ParseOid(b: bytes) returns (oid: seq<int64>)
    ensures oid == DecodeOid(b)
  {
    if |b| == 0 {
      return [];
    }
    oid := [b[0] / 40, b[0] % 40];
    var n: int64 := 0;
    assert oid + DecodeArcs(b[1..], 0) == DecodeOid(b);
    for i := 1 to |b|
      invariant oid + DecodeArcs(b[i..], n) == DecodeOid(b)
    {
      assert b[i..][1..] == b[i + 1..];
      var m := Wrap64(n * 0x80 + b[i] % 0x80);
      assert b[i] < 0x80 ==> oid + DecodeArcs(b[i..], n) == (oid + [m]) + DecodeArcs(b[i + 1..], 0);
      n := m;
      if b[i] < 0x80 {
        oid := oid + [n];
        n := 0;
      }
    }
  }

  function Raised(b: bytes): (r: bytes)
    requires forall i | 0 <= i < |b| :: b[i] < 0x80
    ensures |r| == |b|
  {
    seq(|b|, i requires 0 <= i < |b| => b[i] as int + 0x80)
  }

  /** One octet of an arc: it is shifted in, and ends the arc unless it continues. */
  lemma ArcOctet(c: byte, rest: bytes, n: nat, m: nat)
    requires m < 0x8000_0000_0000_0000 && n == m / 0x80 && c % 0x80 == m % 0x80
    ensures DecodeArcs([c] + rest, n) == if c < 0x80 then [m] + DecodeArcs(rest, 0) else DecodeArcs(rest, m)
  {
    hide DecodeArcs;
    assert n * 0x80 + c % 0x80 == m;
    assert Wrap64(m) == m;
    DecodeArcsOne(c, rest, n);
  }

  lemma DecodeArcsOne(c: byte, rest: bytes, n: int64)
    ensures DecodeArcs([c] + rest, n) ==
            var m := Wrap64(n * 0x80 + c % 0x80);
            if c < 0x80 then [m] + DecodeArcs(rest, 0) else DecodeArcs(rest, m)
  {
    assert ([c] + rest)[1..] == rest;
  }

  /** Decoding base-128 digits that all continue leaves the value read so far in progress. */
  lemma {:induction false} DigitsInProgress(n: nat, rest: bytes)
    requires n < 0x8000_0000_0000_0000
    ensures DecodeArcs(Raised(Digits(n)) + rest, 0) == DecodeArcs(rest, n)
    decreases n
  {
    hide DecodeArcs;
    if n == 0 {
      assert Raised(Digits(n)) + rest == rest;
    } else {
      var q, c := n / 0x80, n % 0x80 + 0x80;
      assert Raised(Digits(n)) + rest == Raised(Digits(q)) + ([c] + rest);
      DigitsInProgress(q, [c] + rest);
      ArcOctet(c, rest, q, n);
    }
  }

  lemma ArcRoundTrip(n: nat, rest: bytes)
    requires n < 0x8000_0000_0000_0000
    ensures DecodeArcs(Base128(n) + rest, 0) == [n] + DecodeArcs(rest, 0)
  {
    hide DecodeArcs;
    var q, c := n / 0x80, n % 0x80;
    if n == 0 {
      ArcOctet(0, rest, 0, 0);
    } else {
      assert Base128(n) + rest == Raised(Digits(q)) + ([c] + rest);
      DigitsInProgress(q, [c] + rest);
      ArcOctet(c, rest, q, n);
    }
  }

  /** The arcs that leave octets. */
  function NonNegative(arcs: seq<int>): seq<int> {
    if arcs == [] then [] else (if arcs[0] >= 0 then [arcs[0]] else []) + NonNegative(arcs[1..])
  }

  lemma {:induction false} NonNegativeLength(arcs: seq<int>)
    ensures |NonNegative(arcs)| <= |arcs|
    ensures NonNegative(arcs) == arcs <==> forall i | 0 <= i < |arcs| :: arcs[i] >= 0
  {
    if arcs != [] {
      NonNegativeLength(arcs[1..]);
      if arcs[0] >= 0 {
        assert arcs == [arcs[0]] + arcs[1..];
        assert NonNegative(arcs)[1..] == NonNegative(arcs[1..]);
      }
    }
  }

  lemma {:induction false} ArcsRoundTrip(arcs: seq<int>)
    requires forall i | 0 <= i < |arcs| :: arcs[i] < 0x8000_0000_0000_0000
    ensures DecodeArcs(EncodeArcs(arcs), 0) == NonNegative(arcs)
  {
    if arcs != [] {
      if arcs[0] >= 0 {
        ArcRoundTrip(arcs[0], EncodeArcs(arcs[1..]));
      } else {
        assert EncodeArcs(arcs) == EncodeArcs(arcs[1..]);
      }
      ArcsRoundTrip(arcs[1..]);
    }
  }

  /** What an OID must be like to be encoded faithfully. */
  predicate Encodable(oid: seq<int>) {
    && |oid| >= 2 && 0 <= oid[1] < 40 && 0 <= oid[0] * 40 + oid[1] < 0x100
    && forall i | 2 <= i < |oid| :: oid[i] >= 0
  }

  /** An OID survives the round trip exactly when it has two arcs, the second below 40, they fit in the first
      octet, and no arc is negative. */
  lemma OidRoundTrip(oid: seq<int>)
    requires forall i | 0 <= i < |oid| :: oid[i] < 0x8000_0000_0000_0000
    ensures DecodeOid(EncodeOid(oid)) == oid <==> Encodable(oid)
  {
    hide EncodeArcs, DecodeArcs, NonNegative;
    if |oid| >= 2 {
      var first := (oid[0] * 40 + oid[1]) % 0x100;
      var b, rest := EncodeOid(oid), oid[2..];
      assert b[1..] == EncodeArcs(rest);
      ArcsRoundTrip(rest);
      NonNegativeLength(rest);
      assert oid == [oid[0], oid[1]] + rest;
      FirstOctet(oid[0], oid[1]);
      PairSplit(first / 40, first % 40, NonNegative(rest), oid[0], oid[1], rest);
      assert DecodeOid(b) == [first / 40, first % 40] + NonNegative(rest);
      assert (forall i | 0 <= i < |rest| :: rest[i] >= 0) <==> forall i | 2 <= i < |oid| :: oid[i] >= 0 by {
        assert forall i | 0 <= i < |rest| :: rest[i] == oid[i + 2];
      }
    }
  }

  lemma FirstOctet(x: int, y: int)
    ensures var first := (x * 40 + y) % 0x100;
            first / 40 == x && first % 40 == y <==> 0 <= y < 40 && 0 <= x * 40 + y < 0x100
  {
  }

  lemma PairSplit(a: int, b: int, s: seq<int>, c: int, d: int, t: seq<int>)
    ensures [a, b] + s == [c, d] + t <==> a == c && b == d && s == t
  {
    assert ([a, b] + s)[0] == a && ([a, b] + s)[1] == b && ([a, b] + s)[2..] == s;
    assert ([c, d] + t)[0] == c && ([c, d] + t)[1] == d && ([c, d] + t)[2..] == t;
  }

  // -- Fields ------------------------------------------------------------------------------------------

  /** The element at p: its tag, its content, and where that starts and ends. */
  function Field(b: bytes, p: nat): Option<(byte, bytes, nat, nat)> {
    match ReadTlv(b, p)
    case None => None
    case Some(e) => Some((e.tag, b[e.start..e.end], e.start, e.end))
  }

  lemma FieldIs(b: bytes, pre: bytes, tag: byte, content: bytes, post: bytes)
    requires b == pre + Tlv(tag, content) + post && |content| < 0x1_0000_0000
    ensures Field(b, |pre|) == Some((tag, content, |pre| + |Tlv(tag, content)| - |content|, |pre| + |Tlv(tag, content)|))
  {
    TlvRoundTrip(pre, tag, content, post);
  }

  lemma TlvIsLonger(tag: byte, content: bytes)
    ensures |Tlv(tag, content)| >= |content| + 2
  {
  }
}
