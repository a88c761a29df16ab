/** What reassembly loses: the exact condition under which every octet that has arrived is assembled or still waits. */
module ReassemblyLoss {
  import opened Bytes
  import opened FlowSpec
  import opened ReassemblySafety
  import opened ReassemblyOrder

  /** Position x of the stream lies in the payload of s. */
  predicate Covers(st: Stream, s: Segment, x: int) {
    s.payload != [] && Offset(st, s.seqno) <= x < Offset(st, s.seqno) + |s.payload|
  }

  ghost predicate HasArrived(st: Stream, segs: seq<Segment>, x: int) {
    exists i :: 0 <= i < |segs| && Covers(st, segs[i], x)
  }

  /** Position x lies in a waiting stretch that starts at n or beyond. */
  ghost predicate WaitsFrom(st: Stream, pending: map<u32, bytes>, n: int, x: int) {
    exists k :: k in pending && n <= Offset(st, k) <= x < Offset(st, k) + |pending[k]|
  }

  /** Position x is before the next expected one, or in a stretch that can still be taken out of the queue. */
  ghost predicate Held(f: Flow, st: Stream, x: int) {
    x < Offset(st, f.next) || WaitsFrom(st, f.pending, Offset(st, f.next), x)
  }

  ghost predicate AllHeld(st: Stream, segs: seq<Segment>, maxFlow: int) {
    forall x | HasArrived(st, segs, x) :: Held(Run(segs, maxFlow), st, x)
  }

  /** At every point of the run, all that has arrived is held. */
  ghost predicate AlwaysHeld(st: Stream, segs: seq<Segment>, maxFlow: int) {
    (segs != [] ==> AlwaysHeld(st, segs[..|segs| - 1], maxFlow)) && AllHeld(st, segs, maxFlow)
  }

  // -- The guard of one step --------------------------------------------------------------------------

  ghost predicate CoveredFrom(st: Stream, pending: map<u32, bytes>, n: int, lo: int, hi: int) {
    forall x | lo <= x < hi :: WaitsFrom(st, pending, n, x)
  }

  /** The end of the waiting stretches that follow each other from next on, each starting where the one before it ends. */
  function Reach(pending: map<u32, bytes>, next: u32): u32
    decreases |pending|
  {
    if next in pending then
      assert |pending - {next}| == |pending| - 1 by { RestSize(pending, next); }
      Reach(pending - {next}, Add32(next, |pending[next]|))
    else next
  }

  /** The flow with the baseline that s sets when there is none. */
  function Baseline(f: Flow, s: Segment): Flow {
    if f.have then f else f.(next := s.seqno, have := true)
  }

  /** No stretch that starts from n on but before n' reaches beyond n' with octets that no stretch from n' on has. */
  ghost predicate NoneStranded(st: Stream, pending: map<u32, bytes>, n: int, n': int) {
    forall k | k in pending && n <= Offset(st, k) < n' :: CoveredFrom(st, pending, n', n', Offset(st, k) + |pending[k]|)
  }

  /** A refused early segment brings nothing that does not wait already; one that replaces a waiting stretch by a shorter one
      drops nothing that does not wait elsewhere; one that moves the next expected position strands nothing. */
  ghost predicate Keeps(f: Flow, st: Stream, s: Segment) {
    s.payload == [] ||
    var f1 := Baseline(f, s);
    var n, a := Offset(st, f1.next), Offset(st, s.seqno);
    var end := a + |s.payload|;
    if n < a then
      if Refuses(f1, s.seqno) then CoveredFrom(st, f1.pending, n, a, end)
      else s.seqno in f1.pending ==>
             CoveredFrom(st, f1.pending - {s.seqno}, n, end, a + |f1.pending[s.seqno]|)
    else
      n < end ==> NoneStranded(st, f1.pending, n, Offset(st, Reach(f1.pending, Add32(s.seqno, |s.payload|))))
  }

  ghost predicate AllKeep(st: Stream, segs: seq<Segment>, maxFlow: int) {
    segs != [] ==>
      AllKeep(st, segs[..|segs| - 1], maxFlow) && Keeps(Run(segs[..|segs| - 1], maxFlow), st, segs[|segs| - 1])
  }

  // -- One step ---------------------------------------------------------------------------------------

  /** What f held and what s brings is held afterwards. */
  ghost predicate HoldsOn(f: Flow, st: Stream, s: Segment, g: Flow) {
    forall x | Held(f, st, x) || Covers(st, s, x) :: Held(g, st, x)
  }

  lemma WaitsWithout(st: Stream, pending: map<u32, bytes>, key: u32, n: int, x: int)
    ensures WaitsFrom(st, pending, n, x) <==>
            || WaitsFrom(st, pending - {key}, n, x)
            || (key in pending && n <= Offset(st, key) <= x < Offset(st, key) + |pending[key]|)
  {
    if WaitsFrom(st, pending, n, x) {
      var k :| k in pending && n <= Offset(st, k) <= x < Offset(st, k) + |pending[k]|;
      assert k != key ==> k in pending - {key};
    }
    if WaitsFrom(st, pending - {key}, n, x) {
      var k :| k in pending - {key} && n <= Offset(st, k) <= x < Offset(st, k) + |(pending - {key})[k]|;
      assert k in pending;
    }
  }

  lemma WaitsWith(st: Stream, pending: map<u32, bytes>, key: u32, payload: bytes, n: int, x: int)
    requires n <= Offset(st, key)
    ensures WaitsFrom(st, pending[key := payload], n, x) <==>
            WaitsFrom(st, pending - {key}, n, x) || Offset(st, key) <= x < Offset(st, key) + |payload|
  {
    WaitsWithout(st, pending[key := payload], key, n, x);
    assert pending[key := payload] - {key} == pending - {key};
  }

  lemma EarlyStep(f: Flow, st: Stream, s: Segment)
    requires s.payload != [] && Offset(st, f.next) < Offset(st, s.seqno)
    ensures HoldsOn(f, st, s, f.(pending := f.pending[s.seqno := s.payload])) <==>
            (s.seqno in f.pending ==>
               CoveredFrom(st, f.pending - {s.seqno}, Offset(st, f.next), Offset(st, s.seqno) + |s.payload|,
                           Offset(st, s.seqno) + |f.pending[s.seqno]|))
  {
    hide WaitsFrom, Offset;
    var g := f.(pending := f.pending[s.seqno := s.payload]);
    var n, a := Offset(st, f.next), Offset(st, s.seqno);
    forall x ensures Held(g, st, x) <==> x < n || WaitsFrom(st, f.pending - {s.seqno}, n, x) || Covers(st, s, x)
    {
      WaitsWith(st, f.pending, s.seqno, s.payload, n, x);
    }
    forall x ensures Held(f, st, x) <==> x < n || WaitsFrom(st, f.pending - {s.seqno}, n, x)
                                         || (s.seqno in f.pending && a <= x < a + |f.pending[s.seqno]|)
    {
      WaitsWithout(st, f.pending, s.seqno, n, x);
    }
    if HoldsOn(f, st, s, g) && s.seqno in f.pending {
      forall x | a + |s.payload| <= x < a + |f.pending[s.seqno]| ensures WaitsFrom(st, f.pending - {s.seqno}, n, x) {
        assert Held(f, st, x);
        assert Held(g, st, x);
      }
    }
  }

  lemma RefusedStep(f: Flow, st: Stream, s: Segment)
    requires s.payload != [] && Offset(st, f.next) < Offset(st, s.seqno)
    ensures HoldsOn(f, st, s, f.(overflow := true)) <==>
            CoveredFrom(st, f.pending, Offset(st, f.next), Offset(st, s.seqno), Offset(st, s.seqno) + |s.payload|)
  {
    hide WaitsFrom, Offset;
    var g := f.(overflow := true);
    assert forall x :: Held(f, st, x) <==> Held(g, st, x);
    if HoldsOn(f, st, s, g) {
      forall x | Offset(st, s.seqno) <= x < Offset(st, s.seqno) + |s.payload|
        ensures WaitsFrom(st, f.pending, Offset(st, f.next), x)
      {
        assert Covers(st, s, x);
        assert Held(g, st, x);
      }
    }
  }

  /** Draining takes out what follows and leaves everything from the new next position on. */
  lemma {:induction false} DrainReaches(f: Flow, st: Stream, base: nat, maxFlow: int)
    requires st.Valid() && Tracks(f, st, base, maxFlow)
    ensures var g := DrainPending(f, maxFlow);
            && g.next == Reach(f.pending, f.next) && Offset(st, f.next) <= Offset(st, g.next)
            && (forall k | k in g.pending :: k in f.pending && g.pending[k] == f.pending[k])
            && (forall k | k in f.pending && Offset(st, g.next) <= Offset(st, k) :: k in g.pending)
            && g.next !in g.pending
    decreases |f.pending|
  {
    if f.next in f.pending {
      RestSize(f.pending, f.next);
      var f1 := f.(pending := f.pending - {f.next});
      AppendMoves(f1, st, base, maxFlow, f.pending[f.next]);
      DrainReaches(AppendInOrder(f1, f.pending[f.next], maxFlow), st, base, maxFlow);
    }
  }

  lemma AppendMoves(f: Flow, st: Stream, base: nat, maxFlow: int, payload: bytes)
    requires st.Valid() && Tracks(f, st, base, maxFlow) && payload != [] && Carries(st, f.next, payload)
    ensures var g := AppendInOrder(f, payload, maxFlow);
            && Tracks(g, st, base, maxFlow) && g.pending == f.pending && g.next == Add32(f.next, |payload|)
            && Offset(st, g.next) == Offset(st, f.next) + |payload|
  {
    var n := Offset(st, f.next);
    var f1 := f.(overflow := 0 < maxFlow < n - base);
    AppendTracks(f1, st, base, maxFlow, payload, false);
    assert AppendInOrder(f1, payload, maxFlow).buf == AppendInOrder(f, payload, maxFlow).buf;
  }

  /** From the new next position on, the same waits before and after. */
  lemma WaitsBeyond(st: Stream, pending: map<u32, bytes>, pending': map<u32, bytes>, n: int, x: int)
    requires forall k | k in pending' :: k in pending && pending'[k] == pending[k]
    requires forall k | k in pending && n <= Offset(st, k) :: k in pending'
    ensures WaitsFrom(st, pending', n, x) <==> WaitsFrom(st, pending, n, x)
  {
    hide Offset;
    if WaitsFrom(st, pending, n, x) {
      var k :| k in pending && n <= Offset(st, k) <= x < Offset(st, k) + |pending[k]|;
      assert k in pending';
    }
    if WaitsFrom(st, pending', n, x) {
      var k :| k in pending' && n <= Offset(st, k) <= x < Offset(st, k) + |pending'[k]|;
      assert k in pending;
    }
  }

  lemma AdvanceStep(f: Flow, st: Stream, s: Segment, g: Flow)
    requires Offset(st, s.seqno) <= Offset(st, f.next) <= Offset(st, g.next)
    requires Offset(st, s.seqno) + |s.payload| <= Offset(st, g.next)
    requires forall k | k in g.pending :: k in f.pending && g.pending[k] == f.pending[k]
    requires forall k | k in f.pending && Offset(st, g.next) <= Offset(st, k) :: k in g.pending
    ensures HoldsOn(f, st, s, g) <==> NoneStranded(st, f.pending, Offset(st, f.next), Offset(st, g.next))
  {
    hide Offset;
    var n, n' := Offset(st, f.next), Offset(st, g.next);
    forall x ensures Held(g, st, x) <==> x < n' || WaitsFrom(st, f.pending, n', x) {
      WaitsBeyond(st, f.pending, g.pending, n', x);
    }
    if HoldsOn(f, st, s, g) {
      forall k, x | k in f.pending && n <= Offset(st, k) < n' <= x < Offset(st, k) + |f.pending[k]|
        ensures WaitsFrom(st, f.pending, n', x)
      {
        assert Held(f, st, x);
        assert Held(g, st, x);
      }
    }
    if NoneStranded(st, f.pending, n, n') {
      forall x | Held(f, st, x) || Covers(st, s, x) ensures Held(g, st, x) {
        if n' <= x {
          assert WaitsFrom(st, f.pending, n, x);
          var k :| k in f.pending && n <= Offset(st, k) <= x < Offset(st, k) + |f.pending[k]|;
          assert Offset(st, k) < n' ==> CoveredFrom(st, f.pending, n', n', Offset(st, k) + |f.pending[k]|);
        }
      }
    }
  }

  /** Where a segment that brings something new leaves the flow. */
  lemma Advances(f: Flow, st: Stream, base: nat, maxFlow: int, seqno: u32, payload: bytes)
    requires st.Valid() && Tracks(f, st, base, maxFlow) && payload != [] && Carries(st, seqno, payload)
    requires Offset(st, seqno) <= Offset(st, f.next) < Offset(st, seqno) + |payload|
    ensures var g := Integrate(f, seqno, payload, maxFlow);
            && g.next == Reach(f.pending, Add32(seqno, |payload|))
            && Offset(st, seqno) + |payload| <= Offset(st, g.next)
            && (forall k | k in g.pending :: k in f.pending && g.pending[k] == f.pending[k])
            && (forall k | k in f.pending && Offset(st, g.next) <= Offset(st, k) :: k in g.pending)
            && g.next !in g.pending
  {
    hide DrainPending, AppendInOrder, SeqAfter, Add32, Reach;
    SeqAfterIsOffsetOrder(st, seqno, f.next);
    SeqAfterIsOffsetOrder(st, f.next, seqno);
    CarriesTail(st, seqno, payload, f.next);
    var tail := payload[Sub32(f.next, seqno)..];
    assert seqno == f.next ==> tail == payload;
    AppendMoves(f, st, base, maxFlow, tail);
    TailEnds(f.next, seqno, |payload|);
    DrainReaches(AppendInOrder(f, tail, maxFlow), st, base, maxFlow);
  }

  lemma TailEnds(next: u32, seqno: u32, len: nat)
    requires Sub32(next, seqno) <= len
    ensures Add32(next, len - Sub32(next, seqno)) == Add32(seqno, len)
  {
  }

  /** The outcomes of a data segment, told apart by its place in the stream. */
  lemma Outcomes(f: Flow, st: Stream, s: Segment, maxFlow: int)
    requires st.Valid() && f.have && Offset(st, f.next) <= |st.data|
    requires !s.syn && s.payload != [] && Carries(st, s.seqno, s.payload)
    ensures var g, n, a := Accept(f, s, maxFlow), Offset(st, f.next), Offset(st, s.seqno);
            && (n < a ==> g == if Refuses(f, s.seqno) then f.(overflow := true) else f.(pending := f.pending[s.seqno := s.payload]))
            && (a <= n < a + |s.payload| ==> g == Integrate(f, s.seqno, s.payload, maxFlow))
            && (a + |s.payload| <= n ==> g == f)
  {
    hide DrainPending, AppendInOrder, Offset;
    SeqAfterIsOffsetOrder(st, s.seqno, f.next);
    if Offset(st, s.seqno) <= Offset(st, f.next) {
      SeqAfterIsOffsetOrder(st, f.next, s.seqno);
      CarriesTail(st, s.seqno, s.payload, f.next);
    }
  }

  /** One data segment: everything held before and everything it brings is held afterwards if and only if it meets the guard. */
  lemma StepAgrees(f: Flow, st: Stream, base: nat, maxFlow: int, s: Segment)
    requires st.Valid() && Tracks(f, st, base, maxFlow)
    requires !s.syn && s.payload != [] && Carries(st, s.seqno, s.payload)
    ensures HoldsOn(f, st, s, Accept(f, s, maxFlow)) <==> Keeps(f, st, s)
  {
    hide Accept, Integrate, Reach, HoldsOn, NoneStranded, CoveredFrom, Refuses, Offset, Carries;
    Outcomes(f, st, s, maxFlow);
    if Offset(st, f.next) < Offset(st, s.seqno) {
      if Refuses(f, s.seqno) { RefusedStep(f, st, s); } else { EarlyStep(f, st, s); }
    } else if Offset(st, f.next) < Offset(st, s.seqno) + |s.payload| {
      Advances(f, st, base, maxFlow, s.seqno, s.payload);
      AdvanceStep(f, st, s, Accept(f, s, maxFlow));
    } else {
      NothingNew(f, st, s);
    }
  }

  lemma NothingNew(f: Flow, st: Stream, s: Segment)
    requires Offset(st, s.seqno) + |s.payload| <= Offset(st, f.next)
    ensures HoldsOn(f, st, s, f)
  {
  }

  // -- Whole runs --------------------------------------------------------------------------------------

  lemma {:induction false} DrainOnlyTakes(f: Flow, maxFlow: int)
    ensures forall k | k in DrainPending(f, maxFlow).pending :: k in f.pending && DrainPending(f, maxFlow).pending[k] == f.pending[k]
    decreases |f.pending|
  {
    if f.next in f.pending {
      RestSize(f.pending, f.next);
      DrainOnlyTakes(AppendInOrder(f.(pending := f.pending - {f.next}), f.pending[f.next], maxFlow), maxFlow);
    }
  }

  lemma AppendDrainOnlyTakes(f: Flow, payload: bytes, maxFlow: int)
    ensures var g := DrainPending(AppendInOrder(f, payload, maxFlow), maxFlow);
            forall k | k in g.pending :: k in f.pending && g.pending[k] == f.pending[k]
  {
    hide DrainPending;
    DrainOnlyTakes(AppendInOrder(f, payload, maxFlow), maxFlow);
  }

  lemma AcceptOnlyPuts(f: Flow, s: Segment, maxFlow: int, k: u32)
    requires k in Accept(f, s, maxFlow).pending
    ensures || (k in f.pending && Accept(f, s, maxFlow).pending[k] == f.pending[k])
            || (k == s.seqno && Accept(f, s, maxFlow).pending[k] == s.payload != [])
  {
    hide DrainPending, AppendInOrder, SeqAfter, Add32;
    var f1 := Baseline(if s.syn then f.(next := Add32(s.seqno, 1), have := true) else f, s);
    if s.seqno == f1.next {
      AppendDrainOnlyTakes(f1, s.payload, maxFlow);
    } else if Sub32(f1.next, s.seqno) < |s.payload| {
      AppendDrainOnlyTakes(f1, s.payload[Sub32(f1.next, s.seqno)..], maxFlow);
    }
  }

  /** What waits is the payload of a segment of the run. */
  lemma {:induction false} WaitingWasFed(segs: seq<Segment>, maxFlow: int, k: u32)
    requires k in Run(segs, maxFlow).pending
    ensures exists i :: 0 <= i < |segs| && segs[i].seqno == k && segs[i].payload == Run(segs, maxFlow).pending[k] != []
    decreases |segs|
  {
    hide Accept;
    var before, s := segs[..|segs| - 1], segs[|segs| - 1];
    AcceptOnlyPuts(Run(before, maxFlow), s, maxFlow, k);
    if k in Run(before, maxFlow).pending && Run(segs, maxFlow).pending[k] == Run(before, maxFlow).pending[k] {
      WaitingWasFed(before, maxFlow, k);
      var i :| 0 <= i < |before| && before[i].seqno == k && before[i].payload == Run(before, maxFlow).pending[k] != [];
      assert segs[i] == before[i];
    }
  }

  lemma WaitingHasArrived(st: Stream, segs: seq<Segment>, maxFlow: int, n: int, x: int)
    requires WaitsFrom(st, Run(segs, maxFlow).pending, n, x)
    ensures HasArrived(st, segs, x)
  {
    hide Run, Offset;
    var pending := Run(segs, maxFlow).pending;
    var k :| k in pending && n <= Offset(st, k) <= x < Offset(st, k) + |pending[k]|;
    WaitingWasFed(segs, maxFlow, k);
    var i :| 0 <= i < |segs| && segs[i].seqno == k && segs[i].payload == pending[k] != [];
    assert Covers(st, segs[i], x);
  }

  lemma ArrivedStep(st: Stream, segs: seq<Segment>, x: int)
    requires segs != []
    ensures HasArrived(st, segs, x) <==> HasArrived(st, segs[..|segs| - 1], x) || Covers(st, segs[|segs| - 1], x)
  {
    hide Covers;
    var before := segs[..|segs| - 1];
    if HasArrived(st, before, x) {
      var i :| 0 <= i < |before| && Covers(st, before[i], x);
      assert segs[i] == before[i];
    }
    if HasArrived(st, segs, x) && !Covers(st, segs[|segs| - 1], x) {
      var i :| 0 <= i < |segs| && Covers(st, segs[i], x);
      assert segs[i] == before[i];
    }
  }

  lemma CarriedBefore(st: Stream, segs: seq<Segment>)
    requires Carried(st, segs) && segs != []
    ensures Carried(st, segs[..|segs| - 1])
    ensures segs[|segs| - 1].payload != [] ==> !segs[|segs| - 1].syn && Carries(st, segs[|segs| - 1].seqno, segs[|segs| - 1].payload)
    ensures segs[|segs| - 1].syn ==> forall x :: !HasArrived(st, segs, x)
  {
    var before, s := segs[..|segs| - 1], segs[|segs| - 1];
    forall i | 0 <= i < |before| && before[i].syn
      ensures before[i].payload == [] && Add32(before[i].seqno, 1) == st.origin && forall j | 0 <= j < i :: before[j].payload == []
    {
      assert before[i] == segs[i];
      assert forall j | 0 <= j < i :: before[j] == segs[j];
    }
    assert forall i | 0 <= i < |before| :: before[i] == segs[i];
  }

  lemma NothingArrived(st: Stream, segs: seq<Segment>, x: int)
    requires !Seeded(segs)
    ensures !HasArrived(st, segs, x)
  {
  }

  lemma AllHeldStep(st: Stream, segs: seq<Segment>, maxFlow: int)
    requires segs != [] && AllHeld(st, segs[..|segs| - 1], maxFlow)
    requires Offset(st, Run(segs[..|segs| - 1], maxFlow).next) <= Offset(st, Run(segs, maxFlow).next)
    ensures AllHeld(st, segs, maxFlow) <==>
            HoldsOn(Run(segs[..|segs| - 1], maxFlow), st, segs[|segs| - 1], Run(segs, maxFlow))
  {
    hide Run, HasArrived, WaitsFrom, Offset, Covers;
    var before, s := segs[..|segs| - 1], segs[|segs| - 1];
    var f, g := Run(before, maxFlow), Run(segs, maxFlow);
    forall x ensures HasArrived(st, segs, x) <==> HasArrived(st, before, x) || Covers(st, s, x) { ArrivedStep(st, segs, x); }
    if AllHeld(st, segs, maxFlow) {
      forall x | Held(f, st, x) || Covers(st, s, x) ensures Held(g, st, x) {
        if WaitsFrom(st, f.pending, Offset(st, f.next), x) { WaitingHasArrived(st, before, maxFlow, Offset(st, f.next), x); }
      }
    }
  }

  lemma NextGrows(st: Stream, segs: seq<Segment>, maxFlow: int)
    requires st.Valid() && Carried(st, segs) && segs != [] && segs[|segs| - 1].payload != [] && Seeded(segs[..|segs| - 1])
    ensures Offset(st, Run(segs[..|segs| - 1], maxFlow).next) <= Offset(st, Run(segs, maxFlow).next)
  {
    hide Integrate, Offset, Carries, Seeded, Carried, OverflowExact, Tracks;
    var before, s := segs[..|segs| - 1], segs[|segs| - 1];
    CarriedBefore(st, segs);
    RunTracks(st, before, maxFlow);
    Trackers(Run(before, maxFlow), st, Base(st, before), maxFlow);
    IntegrateTracks(Run(before, maxFlow), st, Base(st, before), maxFlow, s.seqno, s.payload, RunRefuses(before, maxFlow));
  }

  lemma Trackers(f: Flow, st: Stream, base: nat, maxFlow: int)
    requires Tracks(f, st, base, maxFlow)
    ensures f.have
  {
  }

  /** The first data of a run without SYN sets the baseline and is taken whole. */
  lemma FirstDataKeeps(st: Stream, s: Segment, maxFlow: int)
    requires st.Valid() && !s.syn && s.payload != [] && Carries(st, s.seqno, s.payload)
    ensures Keeps(FRESH, st, s)
    ensures forall x | Covers(st, s, x) :: Held(Accept(FRESH, s, maxFlow), st, x)
  {
    hide Integrate, Reach, WaitsFrom;
    var f := Baseline(FRESH, s);
    assert Tracks(f, st, Offset(st, s.seqno), maxFlow);
    StepAgrees(f, st, Offset(st, s.seqno), maxFlow, s);
    assert Accept(f, s, maxFlow) == Accept(FRESH, s, maxFlow);
    assert Keeps(f, st, s);
  }

  /** The last segment of a run, if all that came before it is held. */
  lemma LastStepAgrees(st: Stream, segs: seq<Segment>, maxFlow: int)
    requires st.Valid() && Carried(st, segs) && segs != [] && AllHeld(st, segs[..|segs| - 1], maxFlow)
    ensures AllHeld(st, segs, maxFlow) <==> Keeps(Run(segs[..|segs| - 1], maxFlow), st, segs[|segs| - 1])
  {
    hide Accept, HoldsOn, HasArrived, Keeps, Offset, Tracks, Carries, Carried, Seeded, WaitsFrom;
    var before, s := segs[..|segs| - 1], segs[|segs| - 1];
    var f, g := Run(before, maxFlow), Run(segs, maxFlow);
    CarriedBefore(st, segs);
    RunTracks(st, before, maxFlow);
    forall x ensures HasArrived(st, segs, x) <==> HasArrived(st, before, x) || Covers(st, s, x) { ArrivedStep(st, segs, x); }
    if s.payload == [] {
      EmptyStep(f, st, s, maxFlow);
      if !s.syn { assert g == f; }
    } else if Seeded(before) {
      StepAgrees(f, st, Base(st, before), maxFlow, s);
      NextGrows(st, segs, maxFlow);
      AllHeldStep(st, segs, maxFlow);
    } else {
      forall x ensures !HasArrived(st, before, x) { NothingArrived(st, before, x); }
      FirstDataKeeps(st, s, maxFlow);
      assert f == FRESH;
    }
  }

  lemma EmptyStep(f: Flow, st: Stream, s: Segment, maxFlow: int)
    requires s.payload == []
    ensures Keeps(f, st, s) && (!s.syn ==> Accept(f, s, maxFlow) == f) && forall x :: !Covers(st, s, x)
  {
  }

  /** Whatever arrives, in any order, cut and repeated in any way, under any cap: at every point of the run all that has
      arrived is assembled or can still be, if and only if every segment meets the guard in the state it finds. */
  lemma {:induction false} NothingIsLost(st: Stream, segs: seq<Segment>, maxFlow: int)
    requires st.Valid() && Carried(st, segs)
    ensures AlwaysHeld(st, segs, maxFlow) <==> AllKeep(st, segs, maxFlow)
    decreases |segs|
  {
    hide AllHeld, Keeps, Run, Carried;
    if segs == [] {
      EmptyHeld(st, segs, maxFlow);
    } else {
      CarriedBefore(st, segs);
      var before := segs[..|segs| - 1];
      NothingIsLost(st, before, maxFlow);
      if AlwaysHeld(st, before, maxFlow) {
        LastHeld(st, before, maxFlow);
        LastStepAgrees(st, segs, maxFlow);
      }
    }
  }

  lemma EmptyHeld(st: Stream, segs: seq<Segment>, maxFlow: int)
    requires segs == []
    ensures AllHeld(st, segs, maxFlow)
  {
  }

  lemma LastHeld(st: Stream, segs: seq<Segment>, maxFlow: int)
    requires AlwaysHeld(st, segs, maxFlow)
    ensures AllHeld(st, segs, maxFlow)
  {
  }

  lemma DataLeavesNextFree(f: Flow, st: Stream, base: nat, maxFlow: int, s: Segment)
    requires st.Valid() && Tracks(f, st, base, maxFlow) && f.next !in f.pending
    requires !s.syn && s.payload != [] && Carries(st, s.seqno, s.payload)
    ensures Accept(f, s, maxFlow).next !in Accept(f, s, maxFlow).pending
  {
    hide Accept, Integrate, Reach, Refuses, Offset, Carries;
    Outcomes(f, st, s, maxFlow);
    if Offset(st, s.seqno) <= Offset(st, f.next) < Offset(st, s.seqno) + |s.payload| {
      Advances(f, st, base, maxFlow, s.seqno, s.payload);
    }
  }

  lemma {:induction false} NoDataNoneWait(segs: seq<Segment>, maxFlow: int)
    requires forall i | 0 <= i < |segs| :: segs[i].payload == []
    ensures Run(segs, maxFlow).pending == map[]
    decreases |segs|
  {
    hide Accept;
    if segs != [] {
      NoDataNoneWait(segs[..|segs| - 1], maxFlow);
      EmptyOutcome(Run(segs[..|segs| - 1], maxFlow), segs[|segs| - 1], maxFlow);
    }
  }

  lemma SynFindsNothing(st: Stream, segs: seq<Segment>, maxFlow: int)
    requires Carried(st, segs) && segs != [] && segs[|segs| - 1].syn
    ensures Run(segs[..|segs| - 1], maxFlow).pending == map[]
  {
    NoDataNoneWait(segs[..|segs| - 1], maxFlow);
  }

  lemma FirstDataLeavesNextFree(st: Stream, s: Segment, maxFlow: int)
    requires st.Valid() && !s.syn && s.payload != [] && Carries(st, s.seqno, s.payload)
    ensures Accept(FRESH, s, maxFlow).next !in Accept(FRESH, s, maxFlow).pending
  {
    hide Integrate;
    var f := Baseline(FRESH, s);
    assert Tracks(f, st, Offset(st, s.seqno), maxFlow);
    DataLeavesNextFree(f, st, Offset(st, s.seqno), maxFlow, s);
    assert Accept(f, s, maxFlow) == Accept(FRESH, s, maxFlow);
  }

  /** What is next in line never waits. */
  lemma {:induction false} NextIsFree(st: Stream, segs: seq<Segment>, maxFlow: int)
    requires st.Valid() && Carried(st, segs)
    ensures Run(segs, maxFlow).next !in Run(segs, maxFlow).pending
    decreases |segs|
  {
    hide Accept, Offset, Tracks, Carries, Carried, Integrate, SeqAfter;
    if segs != [] {
      var before, s := segs[..|segs| - 1], segs[|segs| - 1];
      CarriedBefore(st, segs);
      NextIsFree(st, before, maxFlow);
      RunTracks(st, before, maxFlow);
      if s.payload == [] {
        if s.syn { SynFindsNothing(st, segs, maxFlow); }
        EmptyOutcome(Run(before, maxFlow), s, maxFlow);
      } else if Seeded(before) {
        DataLeavesNextFree(Run(before, maxFlow), st, Base(st, before), maxFlow, s);
      } else {
        FirstDataLeavesNextFree(st, s, maxFlow);
      }
    }
  }

  lemma EmptyOutcome(f: Flow, s: Segment, maxFlow: int)
    requires s.payload == []
    ensures Accept(f, s, maxFlow).pending == f.pending && (!s.syn ==> Accept(f, s, maxFlow) == f)
  {
  }

  /** When every octet from the baseline on has arrived, the stream is assembled to its end if and only if nothing is lost. */
  lemma HeldIsComplete(st: Stream, segs: seq<Segment>, maxFlow: int)
    requires st.Valid() && Carried(st, segs) && Seeded(segs)
    requires forall x | Base(st, segs) <= x < |st.data| :: HasArrived(st, segs, x)
    ensures Base(st, segs) <= |st.data|
    ensures var f, all := Run(segs, maxFlow), st.data[Base(st, segs)..];
            && (AllHeld(st, segs, maxFlow) <==> Offset(st, f.next) == |st.data|)
            && (AllHeld(st, segs, maxFlow) ==>
                  f.buf == Capped(all, maxFlow) && (f.overflow <==> RunRefuses(segs, maxFlow) || 0 < maxFlow < |all|))
            && (maxFlow <= 0 ==> (AllHeld(st, segs, maxFlow) <==> f.buf == all))
  {
    hide Run, Carried, HasArrived, Seeded, Base;
    var f, n := Run(segs, maxFlow), Offset(st, Run(segs, maxFlow).next);
    RunTracks(st, segs, maxFlow);
    NextIsFree(st, segs, maxFlow);
    assert n == |st.data| ==> st.data[Base(st, segs)..n] == st.data[Base(st, segs)..];
    if n < |st.data| {
      assert HasArrived(st, segs, n);
      NextNotHeld(f, st);
    } else {
      forall x | HasArrived(st, segs, x) ensures x < |st.data| { ArrivedInStream(st, segs, x); }
    }
  }

  lemma NextNotHeld(f: Flow, st: Stream)
    requires f.next !in f.pending
    ensures !Held(f, st, Offset(st, f.next))
  {
    forall k ensures Offset(st, k) == Offset(st, f.next) <==> k == f.next { OffsetNames(st, k, f.next); }
  }

  lemma OffsetNames(st: Stream, a: u32, b: u32)
    ensures Offset(st, a) == Offset(st, b) <==> a == b
  {
  }

  lemma ArrivedInStream(st: Stream, segs: seq<Segment>, x: int)
    requires Carried(st, segs) && HasArrived(st, segs, x)
    ensures x < |st.data|
  {
  }

  /** A run led by a SYN in which every segment meets the guard and every octet has arrived: the whole stream, up to the cap. */
  lemma KeptIsComplete(st: Stream, segs: seq<Segment>, maxFlow: int)
    requires st.Valid() && Carried(st, segs) && segs != [] && segs[0].syn && AllKeep(st, segs, maxFlow)
    requires forall x | 0 <= x < |st.data| :: HasArrived(st, segs, x)
    ensures Offset(st, Run(segs, maxFlow).next) == |st.data| && Run(segs, maxFlow).buf == Capped(st.data, maxFlow)
  {
    hide Run, AllHeld, Carried, HasArrived, AllKeep;
    SynLeads(st, segs);
    NothingIsLost(st, segs, maxFlow);
    LastHeld(st, segs, maxFlow);
    HeldIsComplete(st, segs, maxFlow);
    assert st.data[0..] == st.data;
  }

  lemma {:induction false} SynLeads(st: Stream, segs: seq<Segment>)
    requires segs != [] && segs[0].syn
    ensures Seeded(segs) && Base(st, segs) == 0
    decreases |segs|
  {
    if |segs| > 1 { SynLeads(st, segs[..|segs| - 1]); }
  }

  // -- Runs that meet the guard, and runs that do not --------------------------------------------------------

  /** No data segment starts beyond what is next in the state it finds. */
  ghost predicate NeverEarly(st: Stream, segs: seq<Segment>, maxFlow: int) {
    segs != [] ==>
      var f, s := Run(segs[..|segs| - 1], maxFlow), segs[|segs| - 1];
      NeverEarly(st, segs[..|segs| - 1], maxFlow)
      && (s.payload != [] ==> Offset(st, s.seqno) <= Offset(st, Baseline(f, s).next))
  }

  /** Retransmissions may be cut in any way as long as nothing overtakes. */
  lemma {:induction false} InOrderKeeps(st: Stream, segs: seq<Segment>, maxFlow: int)
    requires st.Valid() && Carried(st, segs) && NeverEarly(st, segs, maxFlow)
    ensures Run(segs, maxFlow).pending == map[] && AllKeep(st, segs, maxFlow)
    decreases |segs|
  {
    hide Accept, Reach, Offset, Carries, Carried, Tracks;
    if segs != [] {
      var before, s := segs[..|segs| - 1], segs[|segs| - 1];
      CarriedBefore(st, segs);
      InOrderKeeps(st, before, maxFlow);
      var f := Run(before, maxFlow);
      if s.payload == [] {
        EmptyOutcome(f, s, maxFlow);
      } else {
        RunTracks(st, before, maxFlow);
        InOrderStep(f, st, Base(st, before), maxFlow, s);
      }
    }
  }

  lemma InOrderStep(f: Flow, st: Stream, base: nat, maxFlow: int, s: Segment)
    requires st.Valid() && (Tracks(f, st, base, maxFlow) || f == FRESH) && f.pending == map[]
    requires !s.syn && s.payload != [] && Carries(st, s.seqno, s.payload)
    requires Offset(st, s.seqno) <= Offset(st, Baseline(f, s).next)
    ensures Accept(f, s, maxFlow).pending == map[] && Keeps(f, st, s)
  {
    hide Integrate, Reach, Offset, Carries;
    var f1 := Baseline(f, s);
    StartsInStream(st, s);
    var base1: nat := if f.have then base else Offset(st, s.seqno);
    assert Tracks(f1, st, base1, maxFlow);
    Outcomes(f1, st, s, maxFlow);
    assert Accept(f1, s, maxFlow) == Accept(f, s, maxFlow);
    if Offset(st, f1.next) < Offset(st, s.seqno) + |s.payload| {
      Advances(f1, st, base1, maxFlow, s.seqno, s.payload);
      assert forall k :: k !in Accept(f, s, maxFlow).pending;
    }
  }

  lemma StartsInStream(st: Stream, s: Segment)
    requires Carries(st, s.seqno, s.payload)
    ensures Offset(st, s.seqno) <= |st.data|
  {
  }

  lemma {:induction false} SegmentsAre(p: Partition, order: seq<nat>)
    requires p.Valid() && forall i | 0 <= i < |order| :: order[i] < p.Pieces()
    ensures |Segments(p, order)| == |order|
    ensures forall i | 0 <= i < |order| :: Segments(p, order)[i] == Piece(p, order[i])
    decreases |order|
  {
    hide Piece;
    if order != [] { SegmentsAre(p, order[..|order| - 1]); }
  }

  lemma PiecesAreCarried(p: Partition, order: seq<nat>)
    requires p.Valid() && forall i | 0 <= i < |order| :: order[i] < p.Pieces()
    ensures Carried(p.st, [Syn(p)] + Segments(p, order))
    ensures |Segments(p, order)| == |order|
    ensures forall i | 0 <= i < |order| :: Segments(p, order)[i] == Piece(p, order[i])
  {
    hide Offset, Carries, Segments;
    SegmentsAre(p, order);
    var segs := [Syn(p)] + Segments(p, order);
    forall i | 0 <= i < |segs| && segs[i].payload != [] ensures Carries(p.st, segs[i].seqno, segs[i].payload) {
      assert segs[i] == Piece(p, order[i - 1]);
      PieceIsCarried(p, order[i - 1]);
    }
    SynBeforeOrigin(p.st);
    assert forall i | 0 < i < |segs| :: segs[i] == Piece(p, order[i - 1]) && !segs[i].syn;
  }

  lemma PieceIsCarried(p: Partition, i: nat)
    requires p.Valid() && i < p.Pieces()
    ensures Carries(p.st, Piece(p, i).seqno, Piece(p, i).payload)
  {
    KeyOffset(p, i);
    KeyOffset(p, i + 1);
    KeyAfter(p, i);
  }

  lemma PieceCovers(p: Partition, i: nat, x: int)
    requires p.Valid() && i < p.Pieces()
    ensures Covers(p.st, Piece(p, i), x) <==> p.cuts[i] <= x < p.cuts[i + 1]
  {
    hide Offset;
    KeyOffset(p, i);
    KeyOffset(p, i + 1);
    KeyAfter(p, i);
  }

  lemma SynBeforeOrigin(st: Stream)
    ensures Add32(Announces(st).seqno, 1) == st.origin
  {
  }

  /** The pieces of one partition, in any order and any number of times, meet the guard at every step if there is room. */
  lemma {:induction false} PiecesKeep(p: Partition, order: seq<nat>, maxFlow: int)
    requires p.Valid() && (forall i | 0 <= i < |order| :: order[i] < p.Pieces()) && Fits(p, 0, order)
    ensures AllKeep(p.st, [Syn(p)] + Segments(p, order), maxFlow)
  {
    hide AlwaysHeld, AllKeep, Carried;
    PiecesAreCarried(p, order);
    PiecesAlwaysHeld(p, order, maxFlow);
    NothingIsLost(p.st, [Syn(p)] + Segments(p, order), maxFlow);
  }

  lemma {:induction false} PiecesAlwaysHeld(p: Partition, order: seq<nat>, maxFlow: int)
    requires p.Valid() && (forall i | 0 <= i < |order| :: order[i] < p.Pieces()) && Fits(p, 0, order)
    ensures AlwaysHeld(p.st, [Syn(p)] + Segments(p, order), maxFlow)
    decreases |order|
  {
    hide AllHeld, Run, Room, Piece;
    var segs := [Syn(p)] + Segments(p, order);
    PiecesHeld(p, order, maxFlow);
    if order == [] {
      assert segs[..|segs| - 1] == [];
      NoneHeld(p.st, maxFlow);
    } else {
      var before := order[..|order| - 1];
      PiecesAlwaysHeld(p, before, maxFlow);
      assert segs == ([Syn(p)] + Segments(p, before)) + [Piece(p, order[|order| - 1])];
      assert segs[..|segs| - 1] == [Syn(p)] + Segments(p, before);
    }
  }

  lemma NoneHeld(st: Stream, maxFlow: int)
    ensures AllHeld(st, [], maxFlow) && AlwaysHeld(st, [], maxFlow)
  {
  }

  lemma PiecesHeld(p: Partition, order: seq<nat>, maxFlow: int)
    requires p.Valid() && (forall i | 0 <= i < |order| :: order[i] < p.Pieces()) && Fits(p, 0, order)
    ensures AllHeld(p.st, [Syn(p)] + Segments(p, order), maxFlow)
  {
    hide Run, Fits, Piece, Covers, Offset;
    var segs := [Syn(p)] + Segments(p, order);
    PiecesAreCarried(p, order);
    RunIsCanonical(p, [Syn(p)], 0, order, maxFlow);
    var f := Run(segs, maxFlow);
    forall x | HasArrived(p.st, segs, x) ensures Held(f, p.st, x) {
      var i :| 0 <= i < |segs| && Covers(p.st, segs[i], x);
      assert !Covers(p.st, Syn(p), x) by { SynCoversNothing(p.st, x); }
      PieceHeld(f, p, Arrived(order), order[i - 1], maxFlow, x);
    }
  }

  lemma SynCoversNothing(st: Stream, x: int)
    ensures !Covers(st, Announces(st), x)
  {
  }

  lemma PieceHeld(f: Flow, p: Partition, arrived: set<nat>, i: nat, maxFlow: int, x: int)
    requires Within(p, arrived) && Canonical(f, p, 0, arrived, maxFlow) && i in arrived && Covers(p.st, Piece(p, i), x)
    ensures Held(f, p.st, x)
  {
    hide Covers, Offset, Piece, WaitsFrom, Queues;
    var j := FirstMissing(arrived, 0, p.Pieces());
    PieceIsCarried(p, i);
    PieceCovers(p, i, x);
    KeyOffset(p, j);
    if j <= i {
      PieceWaits(f.pending, p, Waiting(arrived, j), j, i, x);
    } else {
      assert i + 1 == j || p.cuts[i + 1] < p.cuts[j];
    }
  }

  lemma PieceWaits(pending: map<u32, bytes>, p: Partition, w: set<nat>, j: nat, i: nat, x: int)
    requires Within(p, w) && Queues(pending, p, w) && i in w && j <= i && p.cuts[i] <= x < p.cuts[i + 1]
    ensures WaitsFrom(p.st, pending, p.cuts[j], x)
  {
    hide Offset, Queues;
    QueueTake(pending, p, w, i);
    KeyOffset(p, i);
    KeyOffset(p, i + 1);
    assert j == i || p.cuts[j] < p.cuts[i];
    assert |p.Bytes(i)| == p.cuts[i + 1] - p.cuts[i];
  }

  /** The stretch of a stream from a to c, as one segment. */
  function Stretch(st: Stream, a: nat, c: nat): Segment
    requires a <= c <= |st.data|
  {
    Segment(Wire(st, a), st.data[a..c], false, false, false)
  }

  lemma Announced(st: Stream)
    ensures Run([Announces(st)], 0) == Flow(st.origin, true, [], map[], false)
  {
    var none: seq<Segment> := [];
    RunStep(none, Announces(st), 0);
    assert none + [Announces(st)] == [Announces(st)];
  }

  lemma OverlapWaits(st: Stream, a: nat, c: nat)
    requires st.Valid() && 0 < a < c <= |st.data|
    ensures Run([Announces(st), Stretch(st, a, c)], 0) == Flow(st.origin, true, [], map[Wire(st, a) := st.data[a..c]], false)
  {
    hide Run, Accept, SeqAfter, Announces;
    Announced(st);
    RunStep([Announces(st)], Stretch(st, a, c), 0);
    assert [Announces(st)] + [Stretch(st, a, c)] == [Announces(st), Stretch(st, a, c)];
    WireOffset(st, a);
    WireOffset(st, 0);
    SeqAfterIsOffsetOrder(st, Wire(st, a), st.origin);
    AcceptEarly(Run([Announces(st)], 0), Stretch(st, a, c), 0);
  }

  lemma DrainOne(f: Flow)
    requires f.next in f.pending && f.pending == map[f.next := f.pending[f.next]]
    ensures DrainPending(f, 0) == Flow(Add32(f.next, |f.pending[f.next]|), f.have, f.buf + f.pending[f.next], map[], f.overflow)
  {
    var h := AppendInOrder(f.(pending := f.pending - {f.next}), f.pending[f.next], 0);
    assert h.pending == map[];
    assert DrainPending(h, 0) == h;
  }

  lemma OverlapEnds(st: Stream, a: nat, b: nat, c: nat)
    requires st.Valid() && 0 < a < c <= |st.data| && a <= b <= |st.data|
    ensures var f := Flow(st.origin, true, [], map[Wire(st, a) := st.data[a..c]], false);
            Accept(f, Stretch(st, 0, b), 0) ==
            if b == a then Flow(Wire(st, c), true, st.data[..c], map[], false) else f.(next := Wire(st, b), buf := st.data[..b])
  {
    hide Accept, SeqAfter, DrainPending;
    var f := Flow(st.origin, true, [], map[Wire(st, a) := st.data[a..c]], false);
    AcceptNext(f, Stretch(st, 0, b), 0);
    WireOffset(st, a);
    WireOffset(st, b);
    var g := AppendInOrder(f, st.data[0..b], 0);
    assert [] + st.data[0..b] == st.data[..b];
    assert g == f.(next := Wire(st, b), buf := st.data[..b]);
    if b == a {
      DrainOne(g);
      assert st.data[..a] + st.data[a..c] == st.data[..c];
      WireAdds(st, a, c);
    } else {
      DrainNone(g);
    }
  }

  lemma DrainNone(f: Flow)
    requires f.next !in f.pending
    ensures DrainPending(f, 0) == f
  {
  }

  lemma WireAdds(st: Stream, a: nat, c: nat)
    requires a <= c
    ensures Add32(Wire(st, a), c - a) == Wire(st, c)
  {
  }

  /** An input that fails: a stretch that waits is replaced by a shorter one from the same position. When the gap before it
      closes, what the longer one had brought beyond is gone; nothing waits, and nothing says so. */
  lemma ShorterResendLoses(st: Stream, a: nat, b: nat, c: nat)
    requires st.Valid() && 0 < a < b < c <= |st.data|
    ensures var segs := [Announces(st), Stretch(st, a, c), Stretch(st, a, b), Stretch(st, 0, a)];
            && Run(segs, 0) == Flow(Wire(st, b), true, st.data[..b], map[], false)
            && HasArrived(st, segs, b) && !AllHeld(st, segs, 0)
  {
    hide Run, Accept, SeqAfter, Offset, Wire;
    var two := [Announces(st), Stretch(st, a, c)];
    var three := two + [Stretch(st, a, b)];
    var segs := [Announces(st), Stretch(st, a, c), Stretch(st, a, b), Stretch(st, 0, a)];
    OverlapWaits(st, a, c);
    Replaces(st, a, b, c);
    RunStep(two, Stretch(st, a, b), 0);
    OverlapEnds(st, a, a, b);
    RunStep(three, Stretch(st, 0, a), 0);
    assert three + [Stretch(st, 0, a)] == segs;
    WireOffset(st, a);
    WireOffset(st, b);
    assert Covers(st, segs[1], b);
  }

  lemma Replaces(st: Stream, a: nat, b: nat, c: nat)
    requires st.Valid() && 0 < a < b < c <= |st.data|
    ensures Accept(Flow(st.origin, true, [], map[Wire(st, a) := st.data[a..c]], false), Stretch(st, a, b), 0) ==
            Flow(st.origin, true, [], map[Wire(st, a) := st.data[a..b]], false)
  {
    hide Accept, SeqAfter;
    var f := Flow(st.origin, true, [], map[Wire(st, a) := st.data[a..c]], false);
    WireOffset(st, a);
    WireOffset(st, 0);
    SeqAfterIsOffsetOrder(st, Wire(st, a), st.origin);
    AcceptEarly(f, Stretch(st, a, b), 0);
    assert f.pending[Wire(st, a) := st.data[a..b]] == map[Wire(st, a) := st.data[a..b]];
  }

  /** Another input that fails: a waiting stretch is taken out of the queue only under its own first number, so one that
      overlaps the stretch that closes the gap before it is stranded unless they meet exactly or it brings nothing new. */
  lemma OverlapExact(st: Stream, a: nat, b: nat, c: nat)
    requires st.Valid() && 0 < a < c <= |st.data| && a <= b <= |st.data|
    ensures var f := Run([Announces(st), Stretch(st, a, c), Stretch(st, 0, b)], 0);
            && (f.buf == st.data[..if b < c then c else b] <==> b == a || b >= c)
            && (a < b < c ==> f.buf == st.data[..b] && f.pending == map[Wire(st, a) := st.data[a..c]] && !f.overflow)
  {
    hide Accept, Run, Announces;
    var syn := Announces(st);
    OverlapWaits(st, a, c);
    OverlapEnds(st, a, b, c);
    RunStep([syn, Stretch(st, a, c)], Stretch(st, 0, b), 0);
    assert [syn, Stretch(st, a, c)] + [Stretch(st, 0, b)] == [syn, Stretch(st, a, c), Stretch(st, 0, b)];
    assert |st.data[..b]| == b && |st.data[..c]| == c;
  }
}
