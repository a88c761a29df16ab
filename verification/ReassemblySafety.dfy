/** Safety of reassembly: what has been assembled is a stretch of the sender's stream. */
module ReassemblySafety {
  import opened Bytes
  import opened FlowSpec

  /** The byte stream one sender transmits; origin is the sequence number of data[0]. */
  datatype Stream = Stream(origin: u32, data: bytes) {
    ghost predicate Valid() { |data| < 0x8000_0000 }
  }

  /** The position in the stream that a sequence number names. */
  function Offset(st: Stream, seqno: u32): u32 { Sub32(seqno, st.origin) }

  function Wire(st: Stream, off: int): u32 { Add32(st.origin, off) }

  /** The payload at seqno is a stretch of the stream. */
  predicate Carries(st: Stream, seqno: u32, payload: bytes) {
    var off := Offset(st, seqno);
    off + |payload| <= |st.data| && st.data[off..off + |payload|] == payload
  }

  /** Every payload is a stretch of st; every SYN comes before any data, carries none and announces st. */
  ghost predicate Carried(st: Stream, segs: seq<Segment>) {
    && (forall i | 0 <= i < |segs| :: segs[i].payload != [] ==> Carries(st, segs[i].seqno, segs[i].payload))
    && (forall i | 0 <= i < |segs| :: segs[i].syn ==>
          segs[i].payload == [] && Add32(segs[i].seqno, 1) == st.origin
          && forall j | 0 <= j < i :: segs[j].payload == [])
  }

  /** Some segment of the run seeds the baseline. */
  ghost predicate Seeded(segs: seq<Segment>) {
    exists i :: 0 <= i < |segs| && (segs[i].syn || segs[i].payload != [])
  }

  /** Where the baseline lies: at the start of the stream after a SYN, else at the first data seen. */
  ghost function Base(st: Stream, segs: seq<Segment>): nat {
    if segs == [] then 0
    else if Seeded(segs[..|segs| - 1]) then Base(st, segs[..|segs| - 1])
    else if segs[|segs| - 1].syn then 0
    else Offset(st, segs[|segs| - 1].seqno)
  }

  /** f holds exactly the bytes of st from base up to the next expected one, up to the cap. */
  ghost predicate Tracks(f: Flow, st: Stream, base: nat, maxFlow: int) {
    var n := Offset(st, f.next);
    && f.have
    && base <= n <= |st.data|
    && f.buf == Capped(st.data[base..n], maxFlow)
    && forall k | k in f.pending :: f.pending[k] != [] && Carries(st, k, f.pending[k])
  }

  /** overflow says exactly: bytes were cut off, or a future segment was refused. */
  ghost predicate OverflowExact(f: Flow, st: Stream, base: nat, maxFlow: int, refused: bool) {
    f.overflow <==> refused || 0 < maxFlow < Offset(st, f.next) - base
  }

  lemma OffsetAdd(st: Stream, seqno: u32, n: nat)
    requires Offset(st, seqno) + n < MOD32
    ensures Offset(st, Add32(seqno, n)) == Offset(st, seqno) + n
  {
  }

  /** Within half the sequence space, comparison on the wire is comparison of positions. */
  lemma SeqAfterIsOffsetOrder(st: Stream, a: u32, b: u32)
    requires Offset(st, a) < 0x8000_0000 && Offset(st, b) < 0x8000_0000
    ensures SeqAfter(a, b) <==> Offset(st, a) > Offset(st, b)
    ensures Offset(st, a) >= Offset(st, b) ==> Sub32(a, b) == Offset(st, a) - Offset(st, b)
    ensures a == b <==> Offset(st, a) == Offset(st, b)
  {
  }

  lemma WireOffset(st: Stream, off: nat)
    requires off < MOD32
    ensures Offset(st, Wire(st, off)) == off
  {
  }

  /** Appending keeps "the first maxFlow bytes of what was sequenced". */
  lemma AppendIsCapped(f: Flow, sequenced: bytes, payload: bytes, maxFlow: int)
    requires f.buf == Capped(sequenced, maxFlow) && payload != []
    requires f.overflow <== 0 < maxFlow < |sequenced|
    ensures var g := AppendInOrder(f, payload, maxFlow);
            && g == f.(next := Add32(f.next, |payload|), buf := Capped(sequenced + payload, maxFlow),
                       overflow := f.overflow || 0 < maxFlow < |sequenced + payload|)
  {
    if 0 < maxFlow {
      assert Capped(sequenced + payload, maxFlow) ==
             if |sequenced| >= maxFlow then sequenced[..maxFlow]
             else sequenced + Capped(payload, maxFlow - |sequenced|);
    }
  }

  lemma AppendTracks(f: Flow, st: Stream, base: nat, maxFlow: int, payload: bytes, refused: bool)
    requires st.Valid() && Tracks(f, st, base, maxFlow) && OverflowExact(f, st, base, maxFlow, refused)
    requires payload != [] && Carries(st, f.next, payload)
    ensures var g := AppendInOrder(f, payload, maxFlow);
            Tracks(g, st, base, maxFlow) && OverflowExact(g, st, base, maxFlow, refused)
            && Offset(st, g.next) == Offset(st, f.next) + |payload|
  {
    var n := Offset(st, f.next);
    OffsetAdd(st, f.next, |payload|);
    assert st.data[base..n + |payload|] == st.data[base..n] + payload;
    AppendIsCapped(f, st.data[base..n], payload, maxFlow);
  }

  lemma {:induction false} DrainTracks(f: Flow, st: Stream, base: nat, maxFlow: int, refused: bool)
    requires st.Valid() && Tracks(f, st, base, maxFlow) && OverflowExact(f, st, base, maxFlow, refused)
    ensures var g := DrainPending(f, maxFlow);
            Tracks(g, st, base, maxFlow) && OverflowExact(g, st, base, maxFlow, refused)
            && g.next !in g.pending && Offset(st, g.next) >= Offset(st, f.next)
    decreases |f.pending|
  {
    if f.next in f.pending {
      RestSize(f.pending, f.next);
      var f1 := f.(pending := f.pending - {f.next});
      assert Tracks(f1, st, base, maxFlow);
      AppendTracks(f1, st, base, maxFlow, f.pending[f.next], refused);
      DrainTracks(AppendInOrder(f1, f.pending[f.next], maxFlow), st, base, maxFlow, refused);
    }
  }

  /** The part of an overlapping segment that lies beyond what is already assembled. */
  lemma CarriesTail(st: Stream, seqno: u32, payload: bytes, next: u32)
    requires st.Valid() && Carries(st, seqno, payload)
    requires Offset(st, seqno) <= Offset(st, next) < 0x8000_0000
    ensures SeqAfter(Add32(seqno, |payload|), next) <==> Sub32(next, seqno) < |payload|
    ensures Sub32(next, seqno) < |payload| ==> Carries(st, next, payload[Sub32(next, seqno)..])
  {
    OffsetAdd(st, seqno, |payload|);
    SeqAfterIsOffsetOrder(st, Add32(seqno, |payload|), next);
    SeqAfterIsOffsetOrder(st, next, seqno);
  }

  lemma IntegrateTracks(f: Flow, st: Stream, base: nat, maxFlow: int, seqno: u32, payload: bytes, refused: bool)
    requires st.Valid() && Tracks(f, st, base, maxFlow) && OverflowExact(f, st, base, maxFlow, refused)
    requires payload != [] && Carries(st, seqno, payload)
    ensures var g := Integrate(f, seqno, payload, maxFlow);
            Tracks(g, st, base, maxFlow)
            && OverflowExact(g, st, base, maxFlow, refused || Refuses(f, seqno))
            && Offset(st, g.next) >= Offset(st, f.next)
  {
    SeqAfterIsOffsetOrder(st, seqno, f.next);
    if SeqAfter(seqno, f.next) {
      assert seqno != f.next;
    } else {
      var tail := if seqno == f.next then payload else payload[Min(Sub32(f.next, seqno), |payload|)..];
      if seqno != f.next { CarriesTail(st, seqno, payload, f.next); }
      if tail != [] {
        AppendTracks(f, st, base, maxFlow, tail, refused);
        DrainTracks(AppendInOrder(f, tail, maxFlow), st, base, maxFlow, refused);
      }
    }
  }

  /** Reassembly is exact after every segment of every run, with any overlap, duplication, order or wrap. */
  lemma {:induction false} RunTracks(st: Stream, segs: seq<Segment>, maxFlow: int)
    requires st.Valid() && Carried(st, segs)
    ensures var f := Run(segs, maxFlow);
            if Seeded(segs) then
              Tracks(f, st, Base(st, segs), maxFlow)
              && OverflowExact(f, st, Base(st, segs), maxFlow, RunRefuses(segs, maxFlow))
            else f == FRESH && !RunRefuses(segs, maxFlow)
    ensures (forall i | 0 <= i < |segs| :: segs[i].payload == []) ==>
              Run(segs, maxFlow).buf == [] && (Seeded(segs) ==> Run(segs, maxFlow).next == st.origin)
    decreases |segs|
  {
    hide Integrate;
    if segs != [] {
      var before, s := segs[..|segs| - 1], segs[|segs| - 1];
      assert segs == before + [s];
      RunTracks(st, before, maxFlow);
      var f := Run(before, maxFlow);
      if s.payload != [] {
        assert Seeded(segs);
        var f1 := if f.have then f else f.(next := s.seqno, have := true);
        IntegrateTracks(f1, st, Base(st, segs), maxFlow, s.seqno, s.payload, RunRefuses(before, maxFlow));
      } else if s.syn {
        assert forall i | 0 <= i < |before| :: segs[i] == before[i] && before[i].payload == [];
        assert Seeded(segs);
        assert Base(st, segs) == 0;
      } else {
        assert Seeded(before) ==> Seeded(segs);
        assert Seeded(segs) ==> Seeded(before);
      }
    }
  }

  /** A SYN that restates the origin mid-flow is harmless exactly while no byte has been stored. */
  lemma LateSynExact(f: Flow, st: Stream, base: nat, maxFlow: int, s: Segment)
    requires st.Valid() && Tracks(f, st, base, maxFlow)
    requires s.syn && s.payload == [] && Add32(s.seqno, 1) == st.origin
    ensures (exists b: nat :: Tracks(Accept(f, s, maxFlow), st, b, maxFlow)) <==> f.buf == []
  {
    var g := Accept(f, s, maxFlow);
    assert Offset(st, g.next) == 0;
    if f.buf == [] {
      assert Tracks(g, st, 0, maxFlow);
    }
  }

  lemma SynWithDataStep(s: Segment, maxFlow: int)
    requires s.syn && s.payload != [] && |s.payload| < 0x8000_0000
    ensures var g := Accept(FRESH, s, maxFlow);
            && g.have && g.pending == map[]
            && g.next == Add32(s.seqno, |s.payload|)
            && g.buf == Capped(s.payload[1..], maxFlow)
  {
    var next := Add32(s.seqno, 1);
    assert Sub32(next, s.seqno) == 1;
    assert Sub32(s.seqno, next) == MOD32 - 1;
    assert Sub32(Add32(s.seqno, |s.payload|), next) == |s.payload| - 1;
    assert Add32(next, |s.payload| - 1) == Add32(s.seqno, |s.payload|);
  }

  lemma ShiftedAgainstItself(p: bytes, cap: int)
    requires p != []
    ensures Capped(p[1..], cap) == Capped(p[..|p| - 1], cap) <==>
            forall i | 0 < i <= |Capped(p[1..], cap)| :: p[i] == p[i - 1]
  {
    var kept, want := Capped(p[1..], cap), Capped(p[..|p| - 1], cap);
    assert |kept| == |want|;
    assert forall i | 0 <= i < |kept| :: kept[i] == p[i + 1] && want[i] == p[i];
    if kept == want {
      forall i | 0 < i <= |kept| ensures p[i] == p[i - 1] { assert kept[i - 1] == want[i - 1]; }
    } else {
      var i :| 0 <= i < |kept| && kept[i] != want[i];
      assert p[i + 1] != p[i + 1 - 1];
    }
  }

  /** A SYN that itself carries data (its data starts at seqno + 1) loses its first byte: the
      result is the stream only when every byte that is kept equals the one before it. */
  lemma SynWithDataExact(st: Stream, s: Segment, maxFlow: int)
    requires st.Valid() && s.syn && Add32(s.seqno, 1) == st.origin
    requires s.payload != [] && s.payload <= st.data
    ensures Tracks(Accept(FRESH, s, maxFlow), st, 0, maxFlow) <==>
            forall i | 0 < i <= |Capped(s.payload[1..], maxFlow)| :: s.payload[i] == s.payload[i - 1]
  {
    hide Accept;
    var p := s.payload;
    SynWithDataStep(s, maxFlow);
    ShiftedAgainstItself(p, maxFlow);
    WireOffset(st, |p| - 1);
    assert Wire(st, |p| - 1) == Add32(s.seqno, |p|);
    assert st.data[0..|p| - 1] == p[..|p| - 1];
  }

  lemma {:induction false} DrainNeverGrows(f: Flow, maxFlow: int)
    ensures |DrainPending(f, maxFlow).pending| <= |f.pending|
    decreases |f.pending|
  {
    if f.next in f.pending {
      RestSize(f.pending, f.next);
      DrainNeverGrows(AppendInOrder(f.(pending := f.pending - {f.next}), f.pending[f.next], maxFlow), maxFlow);
    }
  }

  /** Whatever arrives, well-formed or not, at most 2048 segments wait and at most maxFlow bytes are stored. */
  lemma {:induction false} RunIsBounded(segs: seq<Segment>, maxFlow: int)
    ensures |Run(segs, maxFlow).pending| <= MAX_PENDING_SEGS
    ensures maxFlow > 0 ==> |Run(segs, maxFlow).buf| <= maxFlow
    decreases |segs|
  {
    if segs != [] {
      RunIsBounded(segs[..|segs| - 1], maxFlow);
      AcceptIsBounded(Run(segs[..|segs| - 1], maxFlow), segs[|segs| - 1], maxFlow);
    }
  }

  lemma {:induction false} DrainIsBounded(f: Flow, maxFlow: int)
    requires maxFlow > 0 ==> |f.buf| <= maxFlow
    ensures maxFlow > 0 ==> |DrainPending(f, maxFlow).buf| <= maxFlow
    decreases |f.pending|
  {
    if f.next in f.pending {
      RestSize(f.pending, f.next);
      DrainIsBounded(AppendInOrder(f.(pending := f.pending - {f.next}), f.pending[f.next], maxFlow), maxFlow);
    }
  }

  lemma PutSize(m: map<u32, bytes>, k: u32, v: bytes)
    ensures |m[k := v]| == if k in m then |m| else |m| + 1
  {
    assert m[k := v].Keys == m.Keys + {k};
    assert |m[k := v]| == |m[k := v].Keys| && |m| == |m.Keys|;
  }

  ghost predicate Bounded(f: Flow, maxFlow: int) {
    |f.pending| <= MAX_PENDING_SEGS && (maxFlow > 0 ==> |f.buf| <= maxFlow)
  }

  lemma AppendDrainIsBounded(f: Flow, payload: bytes, maxFlow: int)
    requires Bounded(f, maxFlow)
    ensures Bounded(DrainPending(AppendInOrder(f, payload, maxFlow), maxFlow), maxFlow)
  {
    DrainNeverGrows(AppendInOrder(f, payload, maxFlow), maxFlow);
    DrainIsBounded(AppendInOrder(f, payload, maxFlow), maxFlow);
  }

  lemma AcceptIsBounded(f: Flow, s: Segment, maxFlow: int)
    requires Bounded(f, maxFlow)
    ensures Bounded(Accept(f, s, maxFlow), maxFlow)
  {
    var f1 := if s.syn then f.(next := Add32(s.seqno, 1), have := true) else f;
    var f2 := if f1.have then f1 else f1.(next := s.seqno, have := true);
    if s.seqno == f2.next {
      AppendDrainIsBounded(f2, s.payload, maxFlow);
    } else if SeqAfter(s.seqno, f2.next) {
      PutSize(f2.pending, s.seqno, s.payload);
    } else if Sub32(f2.next, s.seqno) < |s.payload| {
      AppendDrainIsBounded(f2, s.payload[Sub32(f2.next, s.seqno)..], maxFlow);
    }
  }

  // -- The cap -------------------------------------------------------------------------------------------

  /** f is g seen through the cap: everything but buf and overflow is the same. */
  ghost predicate SeenThrough(f: Flow, g: Flow, maxFlow: int) {
    && f.next == g.next && f.have == g.have && f.pending == g.pending
    && f.buf == Capped(g.buf, maxFlow)
    && (f.overflow <==> g.overflow || 0 < maxFlow < |g.buf|)
  }

  lemma AppendSeenThrough(f: Flow, g: Flow, payload: bytes, maxFlow: int)
    requires SeenThrough(f, g, maxFlow) && payload != []
    ensures SeenThrough(AppendInOrder(f, payload, maxFlow), AppendInOrder(g, payload, 0), maxFlow)
  {
    AppendIsCapped(f, g.buf, payload, maxFlow);
  }

  ghost predicate NoEmptyWaits(f: Flow) { forall k | k in f.pending :: f.pending[k] != [] }

  lemma {:induction false} DrainSeenThrough(f: Flow, g: Flow, maxFlow: int)
    requires SeenThrough(f, g, maxFlow) && NoEmptyWaits(f)
    ensures SeenThrough(DrainPending(f, maxFlow), DrainPending(g, 0), maxFlow) && NoEmptyWaits(DrainPending(f, maxFlow))
    decreases |f.pending|
  {
    hide AppendInOrder, Capped;
    if f.next in f.pending {
      RestSize(f.pending, f.next);
      var f1, g1 := f.(pending := f.pending - {f.next}), g.(pending := g.pending - {g.next});
      AppendSeenThrough(f1, g1, f.pending[f.next], maxFlow);
      AppendKeepsPending(f1, f.pending[f.next], maxFlow);
      DrainSeenThrough(AppendInOrder(f1, f.pending[f.next], maxFlow), AppendInOrder(g1, f.pending[f.next], 0), maxFlow);
    }
  }

  lemma AppendKeepsPending(f: Flow, payload: bytes, maxFlow: int)
    ensures AppendInOrder(f, payload, maxFlow).pending == f.pending
  {
  }

  lemma AppendDrainSeenThrough(f: Flow, g: Flow, payload: bytes, maxFlow: int)
    requires SeenThrough(f, g, maxFlow) && NoEmptyWaits(f) && payload != []
    ensures var f1 := DrainPending(AppendInOrder(f, payload, maxFlow), maxFlow);
            SeenThrough(f1, DrainPending(AppendInOrder(g, payload, 0), 0), maxFlow) && NoEmptyWaits(f1)
  {
    hide AppendInOrder, DrainPending;
    AppendSeenThrough(f, g, payload, maxFlow);
    AppendKeepsPending(f, payload, maxFlow);
    DrainSeenThrough(AppendInOrder(f, payload, maxFlow), AppendInOrder(g, payload, 0), maxFlow);
  }

  lemma IntegrateSeenThrough(f: Flow, g: Flow, seqno: u32, payload: bytes, maxFlow: int)
    requires SeenThrough(f, g, maxFlow) && NoEmptyWaits(f) && payload != []
    ensures var f1 := Integrate(f, seqno, payload, maxFlow);
            SeenThrough(f1, Integrate(g, seqno, payload, 0), maxFlow) && NoEmptyWaits(f1)
  {
    hide AppendInOrder, DrainPending, SeqAfter, Capped;
    if seqno == f.next {
      AppendDrainSeenThrough(f, g, payload, maxFlow);
    } else if !SeqAfter(seqno, f.next) && Sub32(f.next, seqno) < |payload| {
      AppendDrainSeenThrough(f, g, payload[Sub32(f.next, seqno)..], maxFlow);
    }
  }

  lemma AcceptSeenThrough(f: Flow, g: Flow, s: Segment, maxFlow: int)
    requires SeenThrough(f, g, maxFlow) && NoEmptyWaits(f)
    ensures SeenThrough(Accept(f, s, maxFlow), Accept(g, s, 0), maxFlow) && NoEmptyWaits(Accept(f, s, maxFlow))
    ensures AcceptRefuses(f, s) <==> AcceptRefuses(g, s)
  {
    hide Integrate, Capped;
    if s.payload != [] {
      var f1 := if s.syn then f.(next := Add32(s.seqno, 1), have := true) else f;
      var g1 := if s.syn then g.(next := Add32(s.seqno, 1), have := true) else g;
      var f2 := if f1.have then f1 else f1.(next := s.seqno, have := true);
      var g2 := if g1.have then g1 else g1.(next := s.seqno, have := true);
      IntegrateSeenThrough(f2, g2, s.seqno, s.payload, maxFlow);
    }
  }

  lemma {:induction false} DrainKeepsOverflow(g: Flow)
    ensures DrainPending(g, 0).overflow == g.overflow
    decreases |g.pending|
  {
    if g.next in g.pending {
      RestSize(g.pending, g.next);
      DrainKeepsOverflow(AppendInOrder(g.(pending := g.pending - {g.next}), g.pending[g.next], 0));
    }
  }

  /** Without a cap only a refusal overflows. */
  lemma UncappedOverflow(g: Flow, s: Segment)
    ensures Accept(g, s, 0).overflow <==> g.overflow || AcceptRefuses(g, s)
  {
    hide DrainPending;
    var g1 := if s.syn then g.(next := Add32(s.seqno, 1), have := true) else g;
    var g2 := if g1.have then g1 else g1.(next := s.seqno, have := true);
    DrainKeepsOverflow(AppendInOrder(g2, s.payload, 0));
    if Sub32(g2.next, s.seqno) < |s.payload| {
      DrainKeepsOverflow(AppendInOrder(g2, s.payload[Sub32(g2.next, s.seqno)..], 0));
    }
    SelfNotAfter(s.seqno);
  }

  lemma SelfNotAfter(a: u32)
    ensures !SeqAfter(a, a)
  {
  }

  /** For every run of segments, whatever they carry: the cap only hides the end of what was sequenced, it never changes
      the sequencing, and overflow is set exactly when more than the cap was sequenced or a future segment was refused. */
  lemma {:induction false} CapIsAView(segs: seq<Segment>, maxFlow: int)
    ensures var f, g := Run(segs, maxFlow), Run(segs, 0);
            && f.next == g.next && f.have == g.have && f.pending == g.pending && f.buf == Capped(g.buf, maxFlow)
            && (f.overflow <==> RunRefuses(segs, maxFlow) || 0 < maxFlow < |g.buf|)
    ensures NoEmptyWaits(Run(segs, maxFlow)) && SeenThrough(Run(segs, maxFlow), Run(segs, 0), maxFlow)
    ensures Run(segs, 0).overflow <==> RunRefuses(segs, maxFlow)
    decreases |segs|
  {
    hide Accept, AcceptRefuses;
    if segs != [] {
      var before, s := segs[..|segs| - 1], segs[|segs| - 1];
      CapIsAView(before, maxFlow);
      AcceptSeenThrough(Run(before, maxFlow), Run(before, 0), s, maxFlow);
      UncappedOverflow(Run(before, 0), s);
    }
  }
}
