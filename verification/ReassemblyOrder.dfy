/** Completeness and order independence: for the pieces of one partition of the stream, the state
    of a flow is a function of the set of pieces that have arrived. */
module ReassemblyOrder {
  import opened Bytes
  import opened FlowSpec
  import opened ReassemblySafety

  /** A stream cut into pieces: piece i is the stretch from cuts[i] to cuts[i + 1]. */
  datatype Partition = Partition(st: Stream, cuts: seq<nat>) {
    ghost predicate Valid() {
      && st.Valid()
      && cuts != [] && cuts[0] == 0 && cuts[|cuts| - 1] == |st.data|
      && forall i, j | 0 <= i < j < |cuts| :: cuts[i] < cuts[j]
    }

    function Pieces(): nat
      requires cuts != []
    {
      |cuts| - 1
    }

    function Bytes(i: nat): bytes
      requires Valid() && i < Pieces()
    {
      st.data[cuts[i]..cuts[i + 1]]
    }

    function Key(i: nat): u32
      requires i < |cuts|
    {
      Wire(st, cuts[i])
    }
  }

  function Piece(p: Partition, i: nat): Segment
    requires p.Valid() && i < p.Pieces()
  {
    Segment(p.Key(i), p.Bytes(i), false, false, false)
  }

  function Announces(st: Stream): Segment { Segment(Add32(st.origin, -1), [], true, false, false) }

  function Syn(p: Partition): Segment { Announces(p.st) }

  /** The least index from `from` on that is not in arrived; limit when there is none. */
  function FirstMissing(arrived: set<nat>, from: nat, limit: nat): (j: nat)
    requires from <= limit
    ensures from <= j <= limit
    ensures forall i | from <= i < j :: i in arrived
    ensures j < limit ==> j !in arrived
    decreases limit - from
  {
    if from < limit && from in arrived then FirstMissing(arrived, from + 1, limit) else from
  }

  function Waiting(arrived: set<nat>, next: nat): set<nat> {
    set i | i in arrived && next <= i
  }

  lemma {:induction false} FirstMissingIs(arrived: set<nat>, from: nat, limit: nat, j: nat)
    requires from <= j <= limit
    requires forall i | from <= i < j :: i in arrived
    requires j < limit ==> j !in arrived
    ensures FirstMissing(arrived, from, limit) == j
    decreases j - from
  {
    if from < j { FirstMissingIs(arrived, from + 1, limit, j); }
  }

  function KeySet(p: Partition, w: set<nat>): set<u32>
    requires forall i | i in w :: i < |p.cuts|
  {
    set i | i in w :: p.Key(i)
  }

  ghost predicate Within(p: Partition, w: set<nat>) { p.Valid() && forall i | i in w :: i < p.Pieces() }

  /** The pending map holds exactly the pieces of w, each under its own sequence number. */
  ghost predicate Queues(pending: map<u32, bytes>, p: Partition, w: set<nat>)
    requires Within(p, w)
  {
    pending.Keys == KeySet(p, w) && forall i | i in w :: pending[p.Key(i)] == p.Bytes(i)
  }

  /** f has assembled the pieces from base up to j, and the pieces of w wait. */
  ghost predicate Holds(f: Flow, p: Partition, base: nat, j: nat, w: set<nat>, maxFlow: int)
    requires Within(p, w) && base <= j <= p.Pieces()
  {
    && f.have
    && f.next == p.Key(j)
    && f.buf == Capped(p.st.data[p.cuts[base]..p.cuts[j]], maxFlow)
    && (f.overflow <==> 0 < maxFlow < p.cuts[j] - p.cuts[base])
    && Queues(f.pending, p, w)
  }

  /** The one state that belongs to a set of arrived pieces. */
  ghost predicate Canonical(f: Flow, p: Partition, base: nat, arrived: set<nat>, maxFlow: int)
    requires Within(p, arrived) && base <= p.Pieces()
  {
    var j := FirstMissing(arrived, base, p.Pieces());
    Holds(f, p, base, j, Waiting(arrived, j), maxFlow)
  }

  lemma KeyOffset(p: Partition, i: nat)
    requires p.Valid() && i < |p.cuts|
    ensures Offset(p.st, p.Key(i)) == p.cuts[i] <= |p.st.data|
  {
    assert i < |p.cuts| - 1 ==> p.cuts[i] < p.cuts[|p.cuts| - 1];
    WireOffset(p.st, p.cuts[i]);
  }

  /** Keys are ordered on the wire as the pieces are in the stream, wrap or no wrap. */
  lemma KeyOrder(p: Partition, i: nat, j: nat)
    requires p.Valid() && i < |p.cuts| && j < |p.cuts|
    ensures p.Key(i) == p.Key(j) <==> i == j
    ensures SeqAfter(p.Key(i), p.Key(j)) <==> i > j
  {
    KeyOffset(p, i);
    KeyOffset(p, j);
    SeqAfterIsOffsetOrder(p.st, p.Key(i), p.Key(j));
  }

  lemma KeyAfter(p: Partition, i: nat)
    requires p.Valid() && i < p.Pieces()
    ensures p.Bytes(i) != [] && Add32(p.Key(i), |p.Bytes(i)|) == p.Key(i + 1)
  {
    assert p.cuts[i] < p.cuts[i + 1];
    assert p.cuts[i + 1] <= |p.st.data| by { KeyOffset(p, i + 1); }
  }

  lemma QueueLookup(pending: map<u32, bytes>, p: Partition, w: set<nat>, j: nat)
    requires Within(p, w) && Queues(pending, p, w) && j < |p.cuts|
    ensures p.Key(j) in pending <==> j in w
  {
    if p.Key(j) in pending {
      var i :| i in w && p.Key(i) == p.Key(j);
      KeyOrder(p, i, j);
    }
  }

  lemma QueueTake(pending: map<u32, bytes>, p: Partition, w: set<nat>, j: nat)
    requires Within(p, w) && Queues(pending, p, w) && j in w
    ensures p.Key(j) in pending && pending[p.Key(j)] == p.Bytes(j)
    ensures Queues(pending - {p.Key(j)}, p, w - {j})
  {
    forall i | i in w && i != j ensures p.Key(i) != p.Key(j) { KeyOrder(p, i, j); }
    assert KeySet(p, w - {j}) == KeySet(p, w) - {p.Key(j)};
  }

  lemma QueuePut(pending: map<u32, bytes>, p: Partition, w: set<nat>, j: nat)
    requires Within(p, w) && Queues(pending, p, w) && j < p.Pieces()
    ensures Queues(pending[p.Key(j) := p.Bytes(j)], p, w + {j})
  {
    forall i | i in w && i != j ensures p.Key(i) != p.Key(j) { KeyOrder(p, i, j); }
    assert KeySet(p, w + {j}) == KeySet(p, w) + {p.Key(j)};
  }

  lemma {:induction false} QueueSize(pending: map<u32, bytes>, p: Partition, w: set<nat>)
    requires Within(p, w) && Queues(pending, p, w)
    ensures |pending| == |w|
    decreases w
  {
    if w == {} {
      assert pending == map[];
    } else {
      var j :| j in w;
      QueueTake(pending, p, w, j);
      QueueSize(pending - {p.Key(j)}, p, w - {j});
      RestSize(pending, p.Key(j));
    }
  }

  lemma AppendPiece(f: Flow, p: Partition, base: nat, j: nat, w: set<nat>, maxFlow: int)
    requires Within(p, w) && base <= j < p.Pieces() && Holds(f, p, base, j, w, maxFlow)
    ensures Holds(AppendInOrder(f, p.Bytes(j), maxFlow), p, base, j + 1, w, maxFlow)
  {
    KeyAfter(p, j);
    assert p.cuts[base] <= p.cuts[j];
    var before := p.st.data[p.cuts[base]..p.cuts[j]];
    assert p.st.data[p.cuts[base]..p.cuts[j + 1]] == before + p.Bytes(j);
    AppendIsCapped(f, before, p.Bytes(j), maxFlow);
  }

  lemma {:induction false} DrainSettles(f: Flow, p: Partition, base: nat, arrived: set<nat>, j: nat, maxFlow: int)
    requires Within(p, arrived) && base <= j <= p.Pieces()
    requires forall i | base <= i < j :: i in arrived
    requires Holds(f, p, base, j, Waiting(arrived, j), maxFlow)
    ensures Canonical(DrainPending(f, maxFlow), p, base, arrived, maxFlow)
    decreases p.Pieces() - j
  {
    var w := Waiting(arrived, j);
    QueueLookup(f.pending, p, w, j);
    if j in w {
      QueueTake(f.pending, p, w, j);
      assert Waiting(arrived, j + 1) == w - {j};
      var f1 := f.(pending := f.pending - {f.next});
      AppendPiece(f1, p, base, j, w - {j}, maxFlow);
      DrainSettles(AppendInOrder(f1, p.Bytes(j), maxFlow), p, base, arrived, j + 1, maxFlow);
    } else {
      FirstMissingIs(arrived, base, p.Pieces(), j);
    }
  }

  /** At most 2048 of the arrived pieces wait behind the first gap. */
  ghost predicate Room(p: Partition, base: nat, arrived: set<nat>)
    requires p.Valid() && base <= p.Pieces()
  {
    |Waiting(arrived, FirstMissing(arrived, base, p.Pieces()))| <= MAX_PENDING_SEGS
  }

  lemma NextPiece(f: Flow, p: Partition, base: nat, arrived: set<nat>, i: nat, maxFlow: int)
    requires Within(p, arrived) && base <= p.Pieces() && Canonical(f, p, base, arrived, maxFlow)
    requires i == FirstMissing(arrived, base, p.Pieces()) < p.Pieces()
    ensures Canonical(Accept(f, Piece(p, i), maxFlow), p, base, arrived + {i}, maxFlow)
  {
    hide Accept, DrainPending, AppendInOrder, SeqAfter;
    assert Waiting(arrived + {i}, i + 1) == Waiting(arrived, i);
    AppendPiece(f, p, base, i, Waiting(arrived, i), maxFlow);
    KeyAfter(p, i);
    AcceptNext(f, Piece(p, i), maxFlow);
    DrainSettles(AppendInOrder(f, p.Bytes(i), maxFlow), p, base, arrived + {i}, i + 1, maxFlow);
  }

  /** A piece that is already part of the assembled stretch changes nothing. */
  lemma OldPiece(f: Flow, p: Partition, i: nat, j: nat, maxFlow: int)
    requires p.Valid() && i < j <= p.Pieces() && f.have && f.next == p.Key(j)
    ensures Accept(f, Piece(p, i), maxFlow) == f
  {
    KeyOrder(p, i, j);
    KeyOrder(p, i + 1, j);
    KeyAfter(p, i);
    AcceptOld(f, Piece(p, i), maxFlow);
  }

  lemma RoomForOne(pending: map<u32, bytes>, p: Partition, w: set<nat>, i: nat)
    requires Within(p, w) && i < p.Pieces() && Queues(pending, p, w)
    requires |w + {i}| <= MAX_PENDING_SEGS
    ensures p.Key(i) in pending || |pending| < MAX_PENDING_SEGS
  {
    hide Queues, Wire;
    QueueSize(pending, p, w);
    QueueLookup(pending, p, w, i);
    assert i !in w ==> |w + {i}| == |w| + 1;
  }

  /** A piece beyond the next expected one waits, if there is room for it. */
  lemma EarlyPiece(f: Flow, p: Partition, base: nat, j: nat, w: set<nat>, i: nat, maxFlow: int)
    requires Within(p, w) && base <= j < i < p.Pieces() && Holds(f, p, base, j, w, maxFlow)
    requires |w + {i}| <= MAX_PENDING_SEGS
    ensures Holds(Accept(f, Piece(p, i), maxFlow), p, base, j, w + {i}, maxFlow)
  {
    hide Queues, Wire, SeqAfter, Accept, Capped;
    KeyOrder(p, i, j);
    KeyAfter(p, i);
    RoomForOne(f.pending, p, w, i);
    QueuePut(f.pending, p, w, i);
    AcceptEarly(f, Piece(p, i), maxFlow);
  }

  /** One more piece, new or repeated, early or late: the state is again the canonical one. */
  lemma AcceptPiece(f: Flow, p: Partition, base: nat, arrived: set<nat>, i: nat, maxFlow: int)
    requires Within(p, arrived) && base <= p.Pieces() && i < p.Pieces()
    requires Canonical(f, p, base, arrived, maxFlow)
    requires Room(p, base, arrived + {i})
    ensures Canonical(Accept(f, Piece(p, i), maxFlow), p, base, arrived + {i}, maxFlow)
  {
    var j := FirstMissing(arrived, base, p.Pieces());
    if i == j {
      NextPiece(f, p, base, arrived, i, maxFlow);
    } else {
      FirstMissingIs(arrived + {i}, base, p.Pieces(), j);
      if i < j {
        assert Waiting(arrived + {i}, j) == Waiting(arrived, j);
        OldPiece(f, p, i, j, maxFlow);
      } else {
        assert Waiting(arrived + {i}, j) == Waiting(arrived, j) + {i};
        EarlyPiece(f, p, base, j, Waiting(arrived, j), i, maxFlow);
      }
    }
  }

  /** The pieces of an arrival order, as segments. */
  function Segments(p: Partition, order: seq<nat>): seq<Segment>
    requires p.Valid() && forall i | 0 <= i < |order| :: order[i] < p.Pieces()
  {
    if order == [] then [] else Segments(p, order[..|order| - 1]) + [Piece(p, order[|order| - 1])]
  }

  function Arrived(order: seq<nat>): set<nat> { set i | i in order }

  /** At every point of the arrival order there is room for what waits. */
  ghost predicate Fits(p: Partition, base: nat, order: seq<nat>)
    requires p.Valid() && base <= p.Pieces()
  {
    Room(p, base, Arrived(order)) && (order != [] ==> Fits(p, base, order[..|order| - 1]))
  }

  /** The baseline is piece base: a SYN names piece 0, otherwise the first piece to arrive does. */
  ghost predicate Starts(p: Partition, lead: seq<Segment>, base: nat, order: seq<nat>)
    requires p.Valid()
  {
    || (lead == [Syn(p)] && base == 0)
    || (lead == [] && order != [] && base == order[0])
  }

  lemma NoSegments(p: Partition)
    requires p.Valid()
    ensures Segments(p, []) == []
  {
  }

  lemma SynIsCanonical(p: Partition, maxFlow: int)
    requires p.Valid()
    ensures Canonical(Run([Syn(p)], maxFlow), p, 0, {}, maxFlow)
  {
    assert [Syn(p)][..0] == [];
    assert Run([Syn(p)], maxFlow) == Accept(FRESH, Syn(p), maxFlow);
    assert Waiting({}, 0) == {};
    assert p.st.data[0..0] == [];
  }

  /** The last arrival, taken off: what it does to the run and to the set of arrived pieces. */
  lemma LastArrival(p: Partition, lead: seq<Segment>, order: seq<nat>, maxFlow: int)
    requires p.Valid() && order != [] && forall k | 0 <= k < |order| :: order[k] < p.Pieces()
    ensures var before, i := order[..|order| - 1], order[|order| - 1];
            && Arrived(order) == Arrived(before) + {i}
            && Run(lead + Segments(p, order), maxFlow)
            == Accept(Run(lead + Segments(p, before), maxFlow), Piece(p, i), maxFlow)
  {
    hide Accept, Run, Piece;
    var before, i := order[..|order| - 1], order[|order| - 1];
    assert Arrived(order) == Arrived(before) + {i} by { assert order == before + [i]; }
    assert lead + Segments(p, order) == (lead + Segments(p, before)) + [Piece(p, i)];
    RunStep(lead + Segments(p, before), Piece(p, i), maxFlow);
  }

  /** Without a SYN the first piece to arrive behaves as if a baseline had been set just before it. */
  lemma FirstPieceSeeds(p: Partition, i: nat, maxFlow: int)
    requires p.Valid() && i < p.Pieces() && Room(p, i, {i})
    ensures Canonical(Accept(FRESH, Piece(p, i), maxFlow), p, i, {i}, maxFlow)
  {
    var f := FRESH.(next := p.Key(i), have := true);
    assert Waiting({}, i) == {};
    assert p.st.data[p.cuts[i]..p.cuts[i]] == [];
    KeyAfter(p, i);
    AcceptPiece(f, p, i, {}, i, maxFlow);
    assert {} + {i} == {i};
  }

  lemma CanonicalSame(f: Flow, p: Partition, base: nat, g: Flow, arrived: set<nat>, arrived': set<nat>, maxFlow: int)
    requires Within(p, arrived) && base <= p.Pieces() && arrived == arrived' && f == g
    requires Canonical(f, p, base, arrived, maxFlow)
    ensures Canonical(g, p, base, arrived', maxFlow)
  {
  }

  lemma {:induction false} RunIsCanonical(
    p: Partition, lead: seq<Segment>, base: nat, order: seq<nat>, maxFlow: int)
    requires p.Valid() && forall i | 0 <= i < |order| :: order[i] < p.Pieces()
    requires base <= p.Pieces() && Starts(p, lead, base, order) && Fits(p, base, order)
    ensures Canonical(Run(lead + Segments(p, order), maxFlow), p, base, Arrived(order), maxFlow)
    decreases |order|
  {
    hide Accept, Canonical, Run, Room, FirstMissing, Waiting, Segments;
    if order == [] {
      assert lead + Segments(p, order) == [Syn(p)] by { NoSegments(p); }
      assert Arrived(order) == {};
      SynIsCanonical(p, maxFlow);
    } else {
      var before, i := order[..|order| - 1], order[|order| - 1];
      LastArrival(p, lead, order, maxFlow);
      var f, g := Run(lead + Segments(p, before), maxFlow), Run(lead + Segments(p, order), maxFlow);
      if lead == [] && before == [] {
        NoSegments(p);
        assert [] + Segments(p, []) == [];
        RunOfNothing(maxFlow);
        assert f == FRESH;
        assert Arrived(order) == {i};
        FirstPieceSeeds(p, i, maxFlow);
        CanonicalSame(Accept(FRESH, Piece(p, i), maxFlow), p, i, g, {i}, Arrived(order), maxFlow);
      } else {
        RunIsCanonical(p, lead, base, before, maxFlow);
        AcceptPiece(f, p, base, Arrived(before), i, maxFlow);
        CanonicalSame(Accept(f, Piece(p, i), maxFlow), p, base, g, Arrived(before) + {i}, Arrived(order), maxFlow);
      }
    }
  }

  /** Two arrival orders that deliver the same pieces, each any number of times, end in the same state. */
  lemma OrderIsIrrelevant(p: Partition, lead: seq<Segment>, base: nat, order: seq<nat>, order': seq<nat>, maxFlow: int)
    requires p.Valid() && base <= p.Pieces()
    requires forall i | 0 <= i < |order| :: order[i] < p.Pieces()
    requires forall i | 0 <= i < |order'| :: order'[i] < p.Pieces()
    requires Starts(p, lead, base, order) && Fits(p, base, order)
    requires Starts(p, lead, base, order') && Fits(p, base, order')
    requires Arrived(order) == Arrived(order')
    ensures Run(lead + Segments(p, order), maxFlow) == Run(lead + Segments(p, order'), maxFlow)
  {
    hide Accept, Run;
    RunIsCanonical(p, lead, base, order, maxFlow);
    RunIsCanonical(p, lead, base, order', maxFlow);
    var f, g := Run(lead + Segments(p, order), maxFlow), Run(lead + Segments(p, order'), maxFlow);
    forall k | k in f.pending ensures f.pending[k] == g.pending[k] {
      var i :| i in Waiting(Arrived(order), FirstMissing(Arrived(order), base, p.Pieces())) && k == p.Key(i);
    }
    assert f.pending == g.pending;
  }

  /** Nothing that is next in line is ever left waiting. */
  lemma NextNeverWaits(p: Partition, lead: seq<Segment>, base: nat, order: seq<nat>, maxFlow: int)
    requires p.Valid() && base <= p.Pieces() && forall i | 0 <= i < |order| :: order[i] < p.Pieces()
    requires Starts(p, lead, base, order) && Fits(p, base, order)
    ensures var f := Run(lead + Segments(p, order), maxFlow); f.next !in f.pending
  {
    hide Accept, Run;
    RunIsCanonical(p, lead, base, order, maxFlow);
    var j := FirstMissing(Arrived(order), base, p.Pieces());
    QueueLookup(Run(lead + Segments(p, order), maxFlow).pending, p, Waiting(Arrived(order), j), j);
  }

  /** Once every piece from the baseline on has arrived, the buffer is the stream, up to the cap. */
  lemma AllArrivedIsComplete(p: Partition, lead: seq<Segment>, base: nat, order: seq<nat>, maxFlow: int)
    requires p.Valid() && base <= p.Pieces() && forall i | 0 <= i < |order| :: order[i] < p.Pieces()
    requires Starts(p, lead, base, order) && Fits(p, base, order)
    requires forall i | base <= i < p.Pieces() :: i in Arrived(order)
    ensures var f := Run(lead + Segments(p, order), maxFlow);
            && f.buf == Capped(p.st.data[p.cuts[base]..], maxFlow)
            && f.pending == map[]
            && Offset(p.st, f.next) == |p.st.data|
            && (f.overflow <==> 0 < maxFlow < |p.st.data| - p.cuts[base])
  {
    hide Accept, Run;
    RunIsCanonical(p, lead, base, order, maxFlow);
    var j := FirstMissing(Arrived(order), base, p.Pieces());
    assert j == p.Pieces();
    assert Waiting(Arrived(order), j) == {};
    KeyOffset(p, j);
    assert p.st.data[p.cuts[base]..p.cuts[j]] == p.st.data[p.cuts[base]..];
    assert Run(lead + Segments(p, order), maxFlow).pending.Keys == {};
  }
}
