/** The bounds-checked NDR cursor of spoolss.go. */
module Ndr {
  import opened Bytes

  // The cursor as functions of the buffer and the offset.

  function ReadU32(b: bytes, off: nat): Option<u32> {
    if off + 4 > |b| then None else Some(U32LE(b, off))
  }

  /** The offset after moving up to a multiple of a; unchanged when the padding is not there. */
  function Aligned(b: bytes, off: nat, a: nat): nat
    requires a > 0
  {
    if off % a == 0 || off + (a - off % a) > |b| then off else off + (a - off % a)
  }

  function Units(raw: bytes): seq<u16>
    requires |raw| % 2 == 0
  {
    seq(|raw| / 2, i requires 0 <= i < |raw| / 2 => U16LE(raw, 2 * i))
  }

  function StripNul(units: seq<u16>): seq<u16> {
    if units != [] && units[|units| - 1] == 0 then units[..|units| - 1] else units
  }

  /** A conformant and varying UTF-16 string: its code units without one trailing NUL, and the offset
      after it and its padding. */
  function ReadString(b: bytes, off: nat): Option<(seq<u16>, nat)> {
    if off + 12 > |b| then None
    else
      var maxCount, offset, actual := U32LE(b, off), U32LE(b, off + 4), U32LE(b, off + 8);
      if offset != 0 || actual > maxCount || off + 12 + 2 * actual > |b| then None
      else Some((StripNul(Units(b[off + 12..off + 12 + 2 * actual])), Aligned(b, off + 12 + 2 * actual, 4)))
  }

  class Reader {
    const b: bytes
    var off: nat

    constructor (b: bytes)
      ensures this.b == b && off == 0
    {
      this.b, off := b, 0;
    }

    method U32() returns (v: Option<u32>)
      modifies this
      ensures v == ReadU32(b, old(off))
      ensures off == if v.Some? then old(off) + 4 else old(off)
    {
      if off + 4 > |b| {
        return None;
      }
      v := Some(U32LE(b, off));
      off := off + 4;
    }

    method Skip(n: int) returns (ok: bool)
      modifies this
      ensures ok <==> 0 <= n && old(off) + n <= |b|
      ensures off == if ok then old(off) + n else old(off)
    {
      if n < 0 || off + n > |b| {
        return false;
      }
      off := off + n;
      ok := true;
    }

    method Take(n: int) returns (r: Option<bytes>)
      modifies this
      ensures r == if 0 <= n && old(off) + n <= |b| then Some(b[old(off)..old(off) + n]) else None
      ensures off == if r.Some? then old(off) + n else old(off)
    {
      if n < 0 || off + n > |b| {
        return None;
      }
      r := Some(b[off..off + n]);
      off := off + n;
    }

    method Align(a: nat) returns (ok: bool)
      requires a > 0
      modifies this
      ensures off == Aligned(b, old(off), a)
      ensures ok <==> old(off) % a == 0 || old(off) + (a - old(off) % a) <= |b|
    {
      var rem := off % a;
      if rem == 0 {
        return true;
      }
      ok := Skip(a - rem);
    }

    /** Reads a string; on failure only the fact of the failure matters, the caller gives up. */
    method NdrString() returns (s: Option<seq<u16>>)
      requires |b| < 0x1_0000_0000
      modifies this
      ensures match ReadString(b, old(off))
              case None => s == None
              case Some((units, next)) => s == Some(units) && off == next
    {
      hide U32LE, StripNul;
      var maxCount := U32();
      if maxCount.None? { return None; }
      var offset := U32();
      if offset.None? { return None; }
      var actual := U32();
      if actual.None? { return None; }
      if offset.value != 0 || actual.value > maxCount.value { return None; }
      if actual.value > |b| { return None; }
      var raw := Take(2 * actual.value);
      if raw.None? { return None; }
      var units: seq<u16> := [];
      for i := 0 to actual.value
        invariant |units| == i
        invariant forall k | 0 <= k < i :: units[k] == U16LE(raw.value, 2 * k)
      {
        units := units + [U16LE(raw.value, 2 * i)];
      }
      assert units == Units(raw.value);
      units := StripNul(units);
      var padded := Align(4);
      s := Some(units);
    }
  }

  // The client's side.

  function EncodeUnits(units: seq<u16>): (raw: bytes)
    ensures |raw| == 2 * |units|
  {
    if units == [] then [] else Put16LE(units[0]) + EncodeUnits(units[1..])
  }

  /** The padding that brings a length up to a multiple of four. */
  function Pad4(n: nat): (p: nat)
    ensures p < 4 && (n + p) % 4 == 0
  {
    (4 - n % 4) % 4
  }

  /** A string with its terminating NUL, padded, as it stands at an aligned offset. */
  function EncodeString(units: seq<u16>): bytes
    requires |units| < 0x8000_0000
  {
    var n := |units| + 1;
    Put32LE(n) + Put32LE(0) + Put32LE(n) + EncodeUnits(units + [0]) + Zeros(Pad4(2 * n))
  }

  lemma {:induction false} UnitsRoundTrip(units: seq<u16>)
    ensures Units(EncodeUnits(units)) == units
  {
    if units != [] {
      UnitsRoundTrip(units[1..]);
      var raw, rest := EncodeUnits(units), EncodeUnits(units[1..]);
      forall i | 0 <= i < |units| ensures Units(raw)[i] == units[i] {
        if i == 0 {
          Get16LE(raw, 0, units[0]);
        } else {
          assert raw[2 * i] == rest[2 * (i - 1)] && raw[2 * i + 1] == rest[2 * (i - 1) + 1];
          assert Units(rest)[i - 1] == units[1..][i - 1];
        }
      }
    }
  }

  /** Reading back an encoded string gives its code units and the offset right after it. */
  lemma StringRoundTrip(pre: bytes, units: seq<u16>, post: bytes)
    requires |pre| % 4 == 0 && |units| < 0x7FFF_FFFF
    ensures ReadString(pre + EncodeString(units) + post, |pre|) == Some((units, |pre| + |EncodeString(units)|))
  {
    hide Put32LE, U32LE, EncodeString, EncodeUnits, Units, StripNul, Aligned, Pad4;
    var n := |units| + 1;
    var b := pre + EncodeString(units) + post;
    var off := |pre|;
    StringLayout(pre, units, post);
    Get32LE(b, off, n);
    Get32LE(b, off + 4, 0);
    Get32LE(b, off + 8, n);
    UnitsRoundTrip(units + [0]);
    NulStripped(units);
    PaddingSkipped(b, off + 12 + 2 * n, off, 2 * n);
  }

  lemma NulStripped(units: seq<u16>)
    ensures StripNul(units + [0]) == units
  {
  }

  lemma PaddingSkipped(b: bytes, off: nat, start: nat, n: nat)
    requires start % 4 == 0 && off == start + 12 + n && off + Pad4(n) <= |b|
    ensures Aligned(b, off, 4) == off + Pad4(n)
  {
    assert off % 4 == n % 4;
  }

  lemma StringLayout(pre: bytes, units: seq<u16>, post: bytes)
    requires |units| < 0x7FFF_FFFF
    ensures var n := |units| + 1;
            var b := pre + EncodeString(units) + post;
            && |EncodeString(units)| == 12 + 2 * n + Pad4(2 * n)
            && b[|pre|..|pre| + 4] == Put32LE(n)
            && b[|pre| + 4..|pre| + 8] == Put32LE(0)
            && b[|pre| + 8..|pre| + 12] == Put32LE(n)
            && b[|pre| + 12..|pre| + 12 + 2 * n] == EncodeUnits(units + [0])
  {
    hide Put32LE;
    var n := |units| + 1;
    assert |Put32LE(n)| == 4 && |Put32LE(0)| == 4;
  }
}
