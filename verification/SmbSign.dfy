/** Message signing (smb_crypto.go), with the MAC as a parameter. */
module SmbSign {
  import opened Bytes
  import opened SmbFrame

  type Mac = (bytes, bytes) -> bytes

  ghost predicate ValidMac(mac: Mac) { forall k, m {:trigger mac(k, m)} :: |mac(k, m)| == 16 }

  /** SMB2_FLAGS_SIGNED is bit 3. */
  predicate HasSigned(flags: u32) { flags / 8 % 2 == 1 }

  function WithSigned(flags: u32): u32
  {
    if HasSigned(flags) then flags else SetBit3(flags)
  }

  function SetBit3(flags: u32): (r: u32)
    requires !HasSigned(flags)
    ensures HasSigned(r) && r == flags + 8
  {
    assert flags / 8 % 2 == 0;
    assert (flags + 8) / 8 == flags / 8 + 1;
    assert flags / 8 <= 0x1FFF_FFFE;
    flags + 8
  }

  function Blank(msg: bytes): (r: bytes)
    requires |msg| >= HEADER_SIZE
    ensures |r| == |msg|
  {
    Splice(msg, 48, NO_SIGNATURE)
  }

  /** smbSign. */
  function Sign(mac: Mac, key: bytes, msg: bytes): bytes {
    if |msg| < HEADER_SIZE then msg
    else
      var work := Blank(Splice(msg, 16, Put32LE(WithSigned(U32LE(msg, 16)))));
      var sig := mac(key, work);
      if |sig| == 16 then Splice(work, 48, sig) else work
  }

  /** smbVerifySign. */
  predicate Verify(mac: Mac, key: bytes, msg: bytes) {
    |msg| >= HEADER_SIZE && mac(key, Blank(msg)) == msg[48..64]
  }

  /** A signed message verifies under the same key, and signing changes the flag and the signature only. */
  lemma SignedVerifies(mac: Mac, key: bytes, msg: bytes)
    requires ValidMac(mac) && Parse(msg).Some?
    ensures var signed := Sign(mac, key, msg);
            && Verify(mac, key, signed)
            && Parse(signed) == Some(Parse(msg).value.(flags := WithSigned(U32LE(msg, 16)), signature := signed[48..64]))
            && signed[64..] == msg[64..]
  {
    hide U16LE, U32LE, U64LE, Put32LE, WithSigned;
    var flags := WithSigned(U32LE(msg, 16));
    var flagged := Splice(msg, 16, Put32LE(flags));
    var work := Blank(flagged);
    var sig := mac(key, work);
    var signed := Splice(work, 48, sig);
    assert Blank(signed) == work;
    assert signed[48..64] == sig;
    assert flagged[16..20] == Put32LE(flags);
    assert forall i | 16 <= i < 20 :: signed[i] == flagged[i];
    assert signed[16..20] == flagged[16..20];
    Get32LE(signed, 16, flags);
    assert forall i | 0 <= i < 16 || 20 <= i < 48 || 64 <= i < |msg| :: signed[i] == msg[i];
    assert signed[..4] == msg[..4];
    SameFields(msg, signed);
  }

  lemma SameFields(a: bytes, b: bytes)
    requires |a| == |b| >= HEADER_SIZE && forall i | 0 <= i < 16 || 20 <= i < 48 :: a[i] == b[i]
    ensures U16LE(a, 6) == U16LE(b, 6) && U32LE(a, 8) == U32LE(b, 8) && U16LE(a, 12) == U16LE(b, 12) && U16LE(a, 14) == U16LE(b, 14)
    ensures U32LE(a, 20) == U32LE(b, 20) && U64LE(a, 24) == U64LE(b, 24) && U32LE(a, 36) == U32LE(b, 36) && U64LE(a, 40) == U64LE(b, 40)
  {
  }
}
