/** Octets, fixed-width integers and their wire encodings, shared by every protocol. */
module Bytes {

  type byte = x: int | 0 <= x < 0x100
  type u16 = x: int | 0 <= x < 0x1_0000
  type u32 = x: int | 0 <= x < 0x1_0000_0000
  type u64 = x: int | 0 <= x < 0x1_0000_0000_0000_0000

  type bytes = seq<byte>

  datatype Option<+T> = None | Some(value: T)

  function Min(a: int, b: int): int { if a <= b then a else b }

  function Zeros(n: nat): (z: bytes)
    ensures |z| == n
  {
    seq(n, i => 0)
  }

  lemma Appended<T>(a: seq<T>, b: seq<T>, c: seq<T>)
    ensures a + (b + c) == a + b + c
  {
  }

  // Little-endian integers (encoding/binary.LittleEndian).

  function Put16LE(v: u16): (b: bytes)
    ensures |b| == 2
  {
    [v % 0x100, v / 0x100]
  }

  function Put32LE(v: u32): (b: bytes)
    ensures |b| == 4
  {
    [v % 0x100, v / 0x100 % 0x100, v / 0x1_0000 % 0x100, v / 0x100_0000]
  }

  function U16LE(b: bytes, i: nat): u16
    requires i + 2 <= |b|
  {
    b[i] as int + 0x100 * b[i + 1] as int
  }

  function U32LE(b: bytes, i: nat): u32
    requires i + 4 <= |b|
  {
    b[i] as int + 0x100 * b[i + 1] as int + 0x1_0000 * b[i + 2] as int + 0x100_0000 * b[i + 3] as int
  }

  lemma Get16LE(b: bytes, i: nat, v: u16)
    requires i + 2 <= |b| && b[i..i + 2] == Put16LE(v)
    ensures U16LE(b, i) == v
  {
    assert b[i] == b[i..i + 2][0] && b[i + 1] == b[i..i + 2][1];
  }

  lemma Join32(v: u32)
    ensures v % 0x100 + 0x100 * (v / 0x100 % 0x100) + 0x1_0000 * (v / 0x1_0000 % 0x100) + 0x100_0000 * (v / 0x100_0000) == v
  {
    assert v / 0x1_0000 == v / 0x100 / 0x100 && v / 0x100_0000 == v / 0x1_0000 / 0x100;
  }

  lemma Get32LE(b: bytes, i: nat, v: u32)
    requires i + 4 <= |b| && b[i..i + 4] == Put32LE(v)
    ensures U32LE(b, i) == v
  {
    var w := b[i..i + 4];
    assert b[i] == w[0] && b[i + 1] == w[1] && b[i + 2] == w[2] && b[i + 3] == w[3];
    Join32(v);
  }

  lemma LowOctetIsUnique(a: byte, x: int, b: byte, y: int)
    requires a as int + 0x100 * x == b as int + 0x100 * y
    ensures a == b && x == y
  {
  }

  lemma Put32OfGet(b: bytes, i: nat)
    requires i + 4 <= |b|
    ensures Put32LE(U32LE(b, i)) == b[i..i + 4]
  {
    hide Put32LE;
    var v := U32LE(b, i);
    var w := Put32LE(v);
    assert w[0..4] == w;
    Get32LE(w, 0, v);
    var w2, b2 := w[2] as int + 0x100 * w[3] as int, b[i + 2] as int + 0x100 * b[i + 3] as int;
    LowOctetIsUnique(w[0], w[1] as int + 0x100 * w2, b[i], b[i + 1] as int + 0x100 * b2);
    LowOctetIsUnique(w[1], w2, b[i + 1], b2);
    LowOctetIsUnique(w[2], w[3] as int, b[i + 2], b[i + 3] as int);
  }

  function Put64LE(v: u64): (b: bytes)
    ensures |b| == 8
  {
    Put32LE(v % 0x1_0000_0000) + Put32LE(v / 0x1_0000_0000)
  }

  function U64LE(b: bytes, i: nat): u64
    requires i + 8 <= |b|
  {
    U32LE(b, i) as int + 0x1_0000_0000 * U32LE(b, i + 4) as int
  }

  lemma Get64LE(b: bytes, i: nat, v: u64)
    requires i + 8 <= |b| && b[i..i + 8] == Put64LE(v)
    ensures U64LE(b, i) == v
  {
    var w := b[i..i + 8];
    assert b[i..i + 4] == w[..4] == Put32LE(v % 0x1_0000_0000);
    assert b[i + 4..i + 8] == w[4..] == Put32LE(v / 0x1_0000_0000);
    Get32LE(b, i, v % 0x1_0000_0000);
    Get32LE(b, i + 4, v / 0x1_0000_0000);
  }

  // Big-endian integers (encoding/binary.BigEndian).

  function Put16BE(n: u16): (b: bytes)
    ensures |b| == 2
  {
    [n / 0x100, n % 0x100]
  }

  function U16BE(b: bytes, i: nat): u16
    requires i + 2 <= |b|
  {
    b[i] as int * 0x100 + b[i + 1] as int
  }

  lemma Get16BE(b: bytes, i: nat, v: u16)
    requires i + 2 <= |b| && b[i..i + 2] == Put16BE(v)
    ensures U16BE(b, i) == v
  {
    assert b[i] == b[i..i + 2][0] && b[i + 1] == b[i..i + 2][1];
  }

  function Put32BE(v: u32): (b: bytes)
    ensures |b| == 4
  {
    Put16BE(v / 0x1_0000) + Put16BE(v % 0x1_0000)
  }

  function U32BE(b: bytes, i: nat): u32
    requires i + 4 <= |b|
  {
    U16BE(b, i) as int * 0x1_0000 + U16BE(b, i + 2) as int
  }

  lemma Get32BE(b: bytes, i: nat, v: u32)
    requires i + 4 <= |b| && b[i..i + 4] == Put32BE(v)
    ensures U32BE(b, i) == v
  {
    var w := b[i..i + 4];
    assert b[i..i + 2] == w[..2] == Put16BE(v / 0x1_0000);
    assert b[i + 2..i + 4] == w[2..] == Put16BE(v % 0x1_0000);
    Get16BE(b, i, v / 0x1_0000);
    Get16BE(b, i + 2, v % 0x1_0000);
  }

  // Searching for a byte string (bytes.Index).

  predicate At(b: bytes, sig: bytes, i: nat) { i + |sig| <= |b| && b[i..i + |sig|] == sig }

  /** The first occurrence of sig from i on. */
  function Find(b: bytes, sig: bytes, i: nat): (k: Option<nat>)
    ensures k.Some? ==> At(b, sig, k.value)
    decreases |b| - i
  {
    if i + |sig| > |b| then None else if At(b, sig, i) then Some(i) else Find(b, sig, i + 1)
  }

  lemma {:induction false} FindIsFirst(b: bytes, sig: bytes, i: nat)
    ensures Find(b, sig, i).None? <==> forall j | i <= j :: !At(b, sig, j)
    ensures Find(b, sig, i).Some? ==> i <= Find(b, sig, i).value && forall j | i <= j < Find(b, sig, i).value :: !At(b, sig, j)
    decreases |b| - i
  {
    if i + |sig| <= |b| && !At(b, sig, i) {
      FindIsFirst(b, sig, i + 1);
    }
  }

  /** More input behind it does not change where the first occurrence is. */
  lemma {:induction false} FindInLonger(a: bytes, b: bytes, sig: bytes, i: nat)
    requires a <= b && Find(a, sig, i).Some?
    ensures Find(b, sig, i) == Find(a, sig, i)
    decreases |a| - i
  {
    assert a[i..i + |sig|] == b[i..i + |sig|];
    if !At(a, sig, i) {
      FindInLonger(a, b, sig, i + 1);
    }
  }
}
