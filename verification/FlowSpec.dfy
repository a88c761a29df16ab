/** The per-flow half of the TCP reassembler (reassembly.go) as functions on values. */
module FlowSpec {
  import opened Bytes

  const MOD32: int := 0x1_0000_0000
  const MAX_PENDING_SEGS: nat := 2048

  function Add32(a: u32, n: int): u32 { (a + n) % MOD32 }

  function Sub32(a: u32, b: u32): u32 { (a - b) % MOD32 }

  /** The conversion int32(d) of a 32-bit word: two's complement. */
  function ToInt32(d: u32): int { if d < 0x8000_0000 then d else d - MOD32 }

  predicate SeqAfter(a: u32, b: u32) { ToInt32(Sub32(a, b)) > 0 }

  /** One TCP segment of the flow, as the dissector hands it over. */
  datatype Segment = Segment(seqno: u32, payload: bytes, syn: bool, fin: bool, rst: bool)

  /** The state of one flow: the sequencing fields of flowState. */
  datatype Flow = Flow(next: u32, have: bool, buf: bytes, pending: map<u32, bytes>, overflow: bool)

  const FRESH: Flow := Flow(0, false, [], map[], false)

  /** The first maxFlow bytes of s; all of them when maxFlow is not positive. */
  function Capped(s: bytes, maxFlow: int): bytes {
    if 0 < maxFlow < |s| then s[..maxFlow] else s
  }

  function AppendInOrder(f: Flow, payload: bytes, maxFlow: int): Flow {
    var g := f.(next := Add32(f.next, |payload|));
    if maxFlow > 0 && |f.buf| >= maxFlow then
      g.(overflow := true)
    else if maxFlow > 0 && |f.buf| + |payload| > maxFlow then
      g.(buf := f.buf + payload[..maxFlow - |f.buf|], overflow := true)
    else
      g.(buf := f.buf + payload)
  }

  function DrainPending(f: Flow, maxFlow: int): Flow
    decreases |f.pending|
  {
    if f.next in f.pending then
      var rest := f.pending - {f.next};
      assert |rest| == |f.pending| - 1 by { assert rest.Keys == f.pending.Keys - {f.next}; RestSize(f.pending, f.next); }
      DrainPending(AppendInOrder(f.(pending := rest), f.pending[f.next], maxFlow), maxFlow)
    else
      f
  }

  lemma RestSize(m: map<u32, bytes>, k: u32)
    requires k in m
    ensures |m - {k}| == |m| - 1
  {
    assert (m - {k}).Keys == m.Keys - {k};
    assert |(m - {k}).Keys| == |m.Keys| - 1;
    assert |(m - {k}).Keys| == |m - {k}|;
  }

  /** A future segment that finds the pending map full and is not already in it. */
  predicate Refuses(f: Flow, seqno: u32) {
    SeqAfter(seqno, f.next) && seqno !in f.pending && |f.pending| >= MAX_PENDING_SEGS
  }

  function Integrate(f: Flow, seqno: u32, payload: bytes, maxFlow: int): Flow {
    if seqno == f.next then
      DrainPending(AppendInOrder(f, payload, maxFlow), maxFlow)
    else if SeqAfter(seqno, f.next) then
      if Refuses(f, seqno) then f.(overflow := true) else f.(pending := f.pending[seqno := payload])
    else
      var end := Add32(seqno, |payload|);
      var skip := Sub32(f.next, seqno);
      if SeqAfter(end, f.next) && skip < |payload| then
        DrainPending(AppendInOrder(f, payload[skip..], maxFlow), maxFlow)
      else
        f
  }

  /** What consume does to the flow it has looked up. */
  function Accept(f: Flow, s: Segment, maxFlow: int): Flow {
    var f1 := if s.syn then f.(next := Add32(s.seqno, 1), have := true) else f;
    if s.payload == [] then f1
    else
      var f2 := if f1.have then f1 else f1.(next := s.seqno, have := true);
      Integrate(f2, s.seqno, s.payload, maxFlow)
  }

  /** Whether feeding s to f drops a future segment for want of room. */
  predicate AcceptRefuses(f: Flow, s: Segment) {
    var f1 := if s.syn then f.(next := Add32(s.seqno, 1), have := true) else f;
    s.payload != [] && f1.have && Refuses(f1, s.seqno)
  }

  /** A whole run: the state of a flow that was created and then fed segs in order. */
  function Run(segs: seq<Segment>, maxFlow: int): Flow {
    if segs == [] then FRESH else Accept(Run(segs[..|segs| - 1], maxFlow), segs[|segs| - 1], maxFlow)
  }

  /** Whether some step of the run refused a future segment. */
  predicate RunRefuses(segs: seq<Segment>, maxFlow: int) {
    segs != [] &&
    var before := segs[..|segs| - 1];
    RunRefuses(before, maxFlow) || AcceptRefuses(Run(before, maxFlow), segs[|segs| - 1])
  }

  // The three ways a data segment is received once the baseline is set.

  lemma AcceptNext(f: Flow, s: Segment, maxFlow: int)
    requires f.have && !s.syn && s.payload != [] && s.seqno == f.next
    ensures Accept(f, s, maxFlow) == DrainPending(AppendInOrder(f, s.payload, maxFlow), maxFlow)
  {
  }

  lemma AcceptOld(f: Flow, s: Segment, maxFlow: int)
    requires f.have && !s.syn && s.payload != [] && s.seqno != f.next
    requires !SeqAfter(s.seqno, f.next) && !SeqAfter(Add32(s.seqno, |s.payload|), f.next)
    ensures Accept(f, s, maxFlow) == f
  {
  }

  lemma AcceptEarly(f: Flow, s: Segment, maxFlow: int)
    requires f.have && !s.syn && s.payload != [] && SeqAfter(s.seqno, f.next)
    requires s.seqno in f.pending || |f.pending| < MAX_PENDING_SEGS
    ensures Accept(f, s, maxFlow) == f.(pending := f.pending[s.seqno := s.payload])
  {
  }

  lemma RunOfNothing(maxFlow: int)
    ensures Run([], maxFlow) == FRESH
  {
  }

  lemma RunStep(segs: seq<Segment>, s: Segment, maxFlow: int)
    ensures Run(segs + [s], maxFlow) == Accept(Run(segs, maxFlow), s, maxFlow)
  {
    assert (segs + [s])[..|segs|] == segs;
  }
}
