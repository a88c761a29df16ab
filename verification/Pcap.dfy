/** Capture files: the libpcap writer (pcapfile.go) and reader (pcapread.go) over the octets of the file. */
module Pcap {
  import opened Bytes

  const MAGIC: u32 := 0xA1B2_C3D4
  const DEFAULT_SNAPLEN: int := 262144
  const ETHERNET: int := 1
  const MAX_FRAME: u32 := 0x10_0000
  const GLOBAL_HEADER: nat := 24
  const RECORD_HEADER: nat := 16

  /** Seconds since the epoch and nanoseconds. */
  datatype Stamp = Stamp(sec: int, nano: nat)

  datatype Frame = Frame(ts: Stamp, data: bytes)

  predicate ValidStamp(t: Stamp) { t.nano < 1_000_000_000 }

  // -- The writer -------------------------------------------------------------------------------------------------------

  function GlobalHeader(snaplen: u32, linkType: u32): (h: bytes)
    ensures |h| == GLOBAL_HEADER
  {
    Put32LE(MAGIC) + Put16LE(2) + Put16LE(4) + Put32LE(0) + Put32LE(0) + Put32LE(snaplen) + Put32LE(linkType)
  }

  /** What is stored of a frame. */
  function Kept(snaplen: u32, data: bytes): (k: bytes)
    ensures k <= data && |k| <= snaplen
  {
    data[..Min(|data| % 0x1_0000_0000, snaplen)]
  }

  function RecordHeader(ts: Stamp, incl: u32, orig: u32): bytes
    requires ValidStamp(ts)
  {
    Put32LE(ts.sec % 0x1_0000_0000) + Put32LE(ts.nano / 1000) + Put32LE(incl) + Put32LE(orig)
  }

  function EncodeFrame(snaplen: u32, f: Frame): bytes
    requires ValidStamp(f.ts)
  {
    RecordHeader(f.ts, |Kept(snaplen, f.data)|, |f.data| % 0x1_0000_0000) + Kept(snaplen, f.data)
  }

  function EncodeFrames(snaplen: u32, frames: seq<Frame>): bytes
    requires forall f | f in frames :: ValidStamp(f.ts)
  {
    if frames == [] then [] else EncodeFrame(snaplen, frames[0]) + EncodeFrames(snaplen, frames[1..])
  }

  function EffectiveSnaplen(snaplen: int): u32 { (if snaplen <= 0 then DEFAULT_SNAPLEN else snaplen) % 0x1_0000_0000 }

  function EffectiveLink(linkType: int): u32 { (if linkType < 0 then ETHERNET else linkType) % 0x1_0000_0000 }

  lemma {:induction false} FramesSplit(snaplen: u32, a: seq<Frame>, b: seq<Frame>)
    requires forall f | f in a + b :: ValidStamp(f.ts)
    ensures (forall f | f in a :: f in a + b) && (forall f | f in b :: f in a + b)
    ensures EncodeFrames(snaplen, a + b) == EncodeFrames(snaplen, a) + EncodeFrames(snaplen, b)
  {
    hide EncodeFrame, ValidStamp;
    assert forall f | f in a :: f in a + b;
    assert forall f | f in b :: f in a + b;
    if a == [] {
      assert a + b == b;
    } else {
      assert (a + b)[1..] == a[1..] + b && (a + b)[0] == a[0];
      FramesSplit(snaplen, a[1..], b);
      Appended(EncodeFrame(snaplen, a[0]), EncodeFrames(snaplen, a[1..]), EncodeFrames(snaplen, b));
    }
  }

  class PcapWriter {
    var out: bytes
    const snaplen: u32
    var count: nat
    var captured: nat
    var closed: bool
    ghost const linkType: u32
    ghost var frames: seq<Frame>

    /** The file is the global header and the frames, in order; the counters are theirs. */
    ghost predicate Valid()
      reads this
    {
      && (forall f | f in frames :: ValidStamp(f.ts))
      && out == GlobalHeader(snaplen, linkType) + EncodeFrames(snaplen, frames)
      && count == |frames| && captured == Stored(snaplen, frames)
    }

    constructor (snaplen: int, linkType: int)
      ensures Valid() && frames == [] && !closed
      ensures this.snaplen == EffectiveSnaplen(snaplen) && this.linkType == EffectiveLink(linkType)
    {
      var s, l := snaplen, linkType;
      if s <= 0 {
        s := DEFAULT_SNAPLEN;
      }
      if l < 0 {
        l := ETHERNET;
      }
      out := GlobalHeader(s % 0x1_0000_0000, l % 0x1_0000_0000);
      this.snaplen, this.linkType := s % 0x1_0000_0000, l % 0x1_0000_0000;
      count, captured, closed, frames := 0, 0, false, [];
    }

    method WritePacket(ts: Stamp, data: bytes) returns (ok: bool)
      requires Valid() && ValidStamp(ts)
      modifies `out, `count, `captured, `frames
      ensures Valid() && ok == !old(closed)
      ensures frames == if ok then old(frames) + [Frame(ts, data)] else old(frames)
    {
      hide EncodeFrames, GlobalHeader, RecordHeader, Stored;
      if closed {
        return false;
      }
      var origLen := |data| % 0x1_0000_0000;
      var inclLen := origLen;
      if inclLen > snaplen {
        inclLen := snaplen;
      }
      ghost var f := Frame(ts, data);
      OneFrame(snaplen, frames, f);
      FileGrows(GlobalHeader(snaplen, linkType), snaplen, frames, f, inclLen);
      out := out + RecordHeader(ts, inclLen, origLen);
      out := out + data[..inclLen];
      count := count + 1;
      captured := captured + inclLen;
      frames := frames + [f];
      ok := true;
    }

    method Close()
      requires Valid()
      modifies `closed
      ensures Valid() && closed && frames == old(frames)
    {
      closed := true;
    }
  }

  function Stored(snaplen: u32, frames: seq<Frame>): nat {
    if frames == [] then 0 else Stored(snaplen, frames[..|frames| - 1]) + |Kept(snaplen, frames[|frames| - 1].data)|
  }

  lemma OneFrame(snaplen: u32, frames: seq<Frame>, f: Frame)
    requires ValidStamp(f.ts) && forall x | x in frames :: ValidStamp(x.ts)
    ensures forall x | x in frames + [f] :: ValidStamp(x.ts)
    ensures EncodeFrames(snaplen, frames + [f]) == EncodeFrames(snaplen, frames) + EncodeFrame(snaplen, f)
    ensures Stored(snaplen, frames + [f]) == Stored(snaplen, frames) + |Kept(snaplen, f.data)|
  {
    hide EncodeFrame;
    FramesSplit(snaplen, frames, [f]);
    assert EncodeFrames(snaplen, [f]) == EncodeFrame(snaplen, f) + [];
    assert (frames + [f])[..|frames|] == frames;
  }

  /** The file after one more record header and what it announces. */
  lemma FileGrows(head: bytes, snaplen: u32, frames: seq<Frame>, f: Frame, incl: u32)
    requires ValidStamp(f.ts) && (forall x | x in frames :: ValidStamp(x.ts)) && incl == |Kept(snaplen, f.data)|
    ensures forall x | x in frames + [f] :: ValidStamp(x.ts)
    ensures head + EncodeFrames(snaplen, frames) + RecordHeader(f.ts, incl, |f.data| % 0x1_0000_0000) + f.data[..incl]
         == head + EncodeFrames(snaplen, frames + [f])
  {
    hide Put32LE, EncodeFrames;
    OneFrame(snaplen, frames, f);
    var rec, kept, sofar := RecordHeader(f.ts, incl, |f.data| % 0x1_0000_0000), f.data[..incl], EncodeFrames(snaplen, frames);
    assert EncodeFrame(snaplen, f) == rec + kept;
    hide EncodeFrame, RecordHeader;
    assert head + sofar + rec + kept == head + (sofar + (rec + kept));
  }

  // -- The reader -------------------------------------------------------------------------------------------------------

  /** Byte order and timestamp resolution. */
  datatype Format = Format(bigEndian: bool, nano: bool)

  function FormatOf(b: bytes): Option<Format> {
    if |b| < 4 then None
    else if b[..4] == [0xA1, 0xB2, 0xC3, 0xD4] then Some(Format(true, false))
    else if b[..4] == [0xD4, 0xC3, 0xB2, 0xA1] then Some(Format(false, false))
    else if b[..4] == [0xA1, 0xB2, 0x3C, 0x4D] then Some(Format(true, true))
    else if b[..4] == [0x4D, 0x3C, 0xB2, 0xA1] then Some(Format(false, true))
    else None
  }

  function U32In(f: Format, b: bytes, i: nat): u32
    requires i + 4 <= |b|
  {
    if f.bigEndian then U32BE(b, i) else U32LE(b, i)
  }

  /** time.Unix of seconds and any number of nanoseconds. */
  function Unix(sec: int, nano: nat): (t: Stamp)
    ensures ValidStamp(t)
  {
    Stamp(sec + nano / 1_000_000_000, nano % 1_000_000_000)
  }

  /** The frame at off and the offset behind it, when it is whole and its length is in range. */
  function FrameAt(f: Format, b: bytes, off: nat): (r: Option<(Frame, nat)>)
    ensures r.Some? ==> off < r.value.1 <= |b|
  {
    if off + RECORD_HEADER > |b| then None
    else
      var len := U32In(f, b, off + 8);
      var end := off + RECORD_HEADER + len as int;
      if len == 0 || len > MAX_FRAME || end > |b| then None
      else
        var fraction := U32In(f, b, off + 4) as int * (if f.nano then 1 else 1000);
        Some((Frame(Unix(U32In(f, b, off), fraction), b[off + RECORD_HEADER..end]), end))
  }

  function Frames(f: Format, b: bytes, off: nat): seq<Frame>
    decreases |b| - off
  {
    match FrameAt(f, b, off)
    case None => []
    case Some((frame, next)) => [frame] + Frames(f, b, next)
  }

  function AllFrames(b: bytes): seq<Frame> {
    if |b| < GLOBAL_HEADER || FormatOf(b).None? then [] else Frames(FormatOf(b).value, b, GLOBAL_HEADER)
  }

  datatype PcapData = PcapData(linkType: u32, packets: seq<Frame>, truncated: bool)

  function FirstOf(frames: seq<Frame>, max: int): seq<Frame> { if 0 < max < |frames| then frames[..max] else frames }

  method ReadPcap(b: bytes, max: int) returns (r: Option<PcapData>)
    ensures r.None? <==> |b| < GLOBAL_HEADER || FormatOf(b).None?
    ensures r.Some? ==>
              && r.value.linkType == U32In(FormatOf(b).value, b, 20)
              && r.value.packets == FirstOf(AllFrames(b), max)
              && (r.value.truncated <==> 0 < max <= |AllFrames(b)|)
  {
    hide FrameAt, U32In;
    if |b| < GLOBAL_HEADER {
      return None;
    }
    var f := FormatOf(b);
    if f == None {
      return None;
    }
    var packets: seq<Frame> := [];
    var truncated := false;
    var off := GLOBAL_HEADER;
    while true
      invariant GLOBAL_HEADER <= off <= |b|
      invariant AllFrames(b) == packets + Frames(f.value, b, off)
      invariant !truncated && (max > 0 ==> |packets| <= max)
      decreases |b| - off
    {
      if max > 0 && |packets| >= max {
        truncated := true;
        break;
      }
      FramesStep(f.value, b, off, packets);
      var next := ReadFrame(f.value, b, off);
      if next == None {
        break;
      }
      packets := packets + [next.value.0];
      off := next.value.1;
    }
    return Some(PcapData(U32In(f.value, b, 20), packets, truncated));
  }

  lemma FramesStep(f: Format, b: bytes, off: nat, seen: seq<Frame>)
    ensures FrameAt(f, b, off).None? ==> seen + Frames(f, b, off) == seen
    ensures FrameAt(f, b, off).Some? ==>
              var (frame, next) := FrameAt(f, b, off).value;
              seen + Frames(f, b, off) == seen + [frame] + Frames(f, b, next)
  {
    hide FrameAt;
    if FrameAt(f, b, off).Some? {
      var (frame, next) := FrameAt(f, b, off).value;
      assert seen + ([frame] + Frames(f, b, next)) == seen + [frame] + Frames(f, b, next);
    }
  }

  /** One record of the reader's loop. */
  method ReadFrame(f: Format, b: bytes, off: nat) returns (r: Option<(Frame, nat)>)
    ensures r == FrameAt(f, b, off)
  {
    hide U32In;
    if off + RECORD_HEADER > |b| {
      return None;
    }
    var tsSec, tsFrac := U32In(f, b, off), U32In(f, b, off + 4);
    var inclLen := U32In(f, b, off + 8);
    if inclLen == 0 || inclLen > MAX_FRAME {
      return None;
    }
    var start := off + RECORD_HEADER;
    if start + inclLen as int > |b| {
      return None;
    }
    var data := b[start..start + inclLen as int];
    var nano := if f.nano then tsFrac as int else tsFrac as int * 1000;
    r := Some((Frame(Unix(tsSec, nano), data), start + inclLen as int));
  }

  // -- Laws -------------------------------------------------------------------------------------------------------------

  lemma FrameInLonger(f: Format, b: bytes, more: bytes, off: nat)
    requires FrameAt(f, b, off).Some?
    ensures FrameAt(f, b + more, off) == FrameAt(f, b, off)
  {
    assert U32In(f, b + more, off) == U32In(f, b, off) && U32In(f, b + more, off + 4) == U32In(f, b, off + 4);
    assert U32In(f, b + more, off + 8) == U32In(f, b, off + 8);
    var end := FrameAt(f, b, off).value.1;
    assert (b + more)[off + RECORD_HEADER..end] == b[off + RECORD_HEADER..end];
  }

  lemma {:induction false} FramesInLonger(f: Format, b: bytes, more: bytes, off: nat)
    ensures Frames(f, b, off) <= Frames(f, b + more, off)
    decreases |b| - off
  {
    hide FrameAt;
    if FrameAt(f, b, off).Some? {
      FrameInLonger(f, b, more, off);
      FramesInLonger(f, b, more, FrameAt(f, b, off).value.1);
    }
  }

  /** A file that is still being written, or was cut off anywhere behind its header, reads as a beginning of the whole. */
  lemma TruncationIsPrefix(b: bytes, n: nat)
    requires GLOBAL_HEADER <= n <= |b|
    ensures AllFrames(b[..n]) <= AllFrames(b) && FormatOf(b[..n]) == FormatOf(b)
  {
    hide Frames;
    assert b[..n] + b[n..] == b;
    assert b[..n][..4] == b[..4];
    if FormatOf(b).Some? {
      FramesInLonger(FormatOf(b).value, b[..n], b[n..], GLOBAL_HEADER);
    }
  }

  /** Whether the reader takes what the writer stored of a frame. */
  predicate Storable(snaplen: u32, f: Frame) { 0 < |Kept(snaplen, f.data)| <= MAX_FRAME }

  /** A frame as it comes back: cut to the snap length, its time in whole microseconds, its second modulo 2^32. */
  function Back(snaplen: u32, f: Frame): Frame {
    Frame(Stamp(f.ts.sec % 0x1_0000_0000, f.ts.nano / 1000 * 1000), Kept(snaplen, f.data))
  }

  const WRITTEN: Format := Format(false, false)

  lemma FrameFields(pre: bytes, snaplen: u32, f: Frame, post: bytes)
    requires ValidStamp(f.ts)
    ensures var b, off, kept := pre + EncodeFrame(snaplen, f) + post, |pre|, Kept(snaplen, f.data);
            && off + 16 + |kept| <= |b| && |EncodeFrame(snaplen, f)| == 16 + |kept|
            && U32LE(b, off) == f.ts.sec % 0x1_0000_0000 && U32LE(b, off + 4) == f.ts.nano / 1000 && U32LE(b, off + 8) == |kept|
            && b[off + 16..off + 16 + |kept|] == kept
  {
    hide Put32LE, U32LE, Kept;
    var b, off, w := pre + EncodeFrame(snaplen, f) + post, |pre|, EncodeFrame(snaplen, f);
    assert forall k | 0 <= k < |w| :: b[off + k] == w[k];
    assert b[off..off + 4] == w[0..4] == Put32LE(f.ts.sec % 0x1_0000_0000);
    assert b[off + 4..off + 8] == w[4..8] == Put32LE(f.ts.nano / 1000);
    assert b[off + 8..off + 12] == w[8..12] == Put32LE(|Kept(snaplen, f.data)|);
    assert b[off + 16..off + |w|] == w[16..] == Kept(snaplen, f.data);
    Get32LE(b, off, f.ts.sec % 0x1_0000_0000);
    Get32LE(b, off + 4, f.ts.nano / 1000);
    Get32LE(b, off + 8, |Kept(snaplen, f.data)|);
  }

  lemma FrameRead(pre: bytes, snaplen: u32, f: Frame, post: bytes)
    requires ValidStamp(f.ts)
    ensures FrameAt(WRITTEN, pre + EncodeFrame(snaplen, f) + post, |pre|) ==
            if Storable(snaplen, f) then Some((Back(snaplen, f), |pre| + |EncodeFrame(snaplen, f)|)) else None
  {
    hide U32LE, Kept, EncodeFrame;
    FrameFields(pre, snaplen, f, post);
    var micro := f.ts.nano / 1000;
    assert micro * 1000 < 1_000_000_000;
  }

  /** The frames before the first one that the reader does not take. */
  function Readable(snaplen: u32, frames: seq<Frame>): seq<Frame> {
    if frames == [] || !Storable(snaplen, frames[0]) then [] else [Back(snaplen, frames[0])] + Readable(snaplen, frames[1..])
  }

  lemma {:induction false} FramesRead(pre: bytes, snaplen: u32, frames: seq<Frame>)
    requires forall f | f in frames :: ValidStamp(f.ts)
    ensures Frames(WRITTEN, pre + EncodeFrames(snaplen, frames), |pre|) == Readable(snaplen, frames)
    decreases |frames|
  {
    hide FrameAt, EncodeFrame, Storable, Back;
    if frames != [] {
      var f, rest := frames[0], EncodeFrames(snaplen, frames[1..]);
      assert f in frames && forall x | x in frames[1..] :: x in frames;
      var w := EncodeFrame(snaplen, f);
      assert pre + (w + rest) == pre + w + rest;
      FrameRead(pre, snaplen, f, rest);
      if Storable(snaplen, f) {
        FramesRead(pre + w, snaplen, frames[1..]);
      }
    } else {
      NoFrameAtEnd(pre + EncodeFrames(snaplen, frames));
      assert pre + EncodeFrames(snaplen, frames) == pre;
    }
  }

  lemma NoFrameAtEnd(b: bytes)
    ensures FrameAt(WRITTEN, b, |b|) == None
  {
  }

  /** Reading what was written gives the frames in order, cut to the snap length and to microseconds, up to the first that
      was stored empty or with more than 1 MiB. */
  lemma FileRead(snaplen: u32, linkType: u32, frames: seq<Frame>)
    requires forall f | f in frames :: ValidStamp(f.ts)
    ensures var b := GlobalHeader(snaplen, linkType) + EncodeFrames(snaplen, frames);
            FormatOf(b) == Some(WRITTEN) && U32In(WRITTEN, b, 20) == linkType && AllFrames(b) == Readable(snaplen, frames)
  {
    hide EncodeFrames, Frames, Put32LE, U32LE;
    var head := GlobalHeader(snaplen, linkType);
    var b := head + EncodeFrames(snaplen, frames);
    FramesRead(head, snaplen, frames);
    MagicOctets();
    assert b[..4] == Put32LE(MAGIC);
    assert b[20..24] == Put32LE(linkType);
    Get32LE(b, 20, linkType);
  }

  lemma MagicOctets()
    ensures Put32LE(MAGIC) == [0xD4, 0xC3, 0xB2, 0xA1]
  {
  }

  lemma {:induction false} ReadableIsAll(snaplen: u32, frames: seq<Frame>)
    ensures |Readable(snaplen, frames)| <= |frames|
    ensures |Readable(snaplen, frames)| == |frames| <==> forall f | f in frames :: Storable(snaplen, f)
    ensures forall i | 0 <= i < |Readable(snaplen, frames)| :: Readable(snaplen, frames)[i] == Back(snaplen, frames[i])
  {
    hide Storable, Back;
    if frames != [] {
      assert forall f | f in frames :: f == frames[0] || f in frames[1..];
      assert frames[0] in frames && forall f | f in frames[1..] :: f in frames;
      if Storable(snaplen, frames[0]) {
        ReadableIsAll(snaplen, frames[1..]);
      }
    }
  }

  /** Every frame comes back, exactly when every one was stored with 1 to 2^20 octets. */
  lemma FileRoundTrip(snaplen: u32, linkType: u32, frames: seq<Frame>)
    requires forall f | f in frames :: ValidStamp(f.ts)
    ensures var b := GlobalHeader(snaplen, linkType) + EncodeFrames(snaplen, frames);
            (|AllFrames(b)| == |frames| && forall i | 0 <= i < |frames| :: AllFrames(b)[i] == Back(snaplen, frames[i]))
            <==> forall f | f in frames :: Storable(snaplen, f)
  {
    hide EncodeFrames, AllFrames, GlobalHeader, Storable, Back;
    FileRead(snaplen, linkType, frames);
    ReadableIsAll(snaplen, frames);
  }
}
