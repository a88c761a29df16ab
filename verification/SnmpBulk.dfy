/** GetBulk against section 4.2.3 of RFC 3416: the agent answers row after row, the RFC repetition after repetition. */
module SnmpBulk {
  import opened Bytes
  import opened Grid
  import opened SnmpAgent

  /** How many entries of the MIB are above o. */
  function Above(mib: seq<Entry>, o: Oid): nat { |mib| - FirstAbove(mib, o) }

  /** The (j + 1)-th lexicographic successor of o; behind the last one, endOfMibView under its name, or under o without any. */
  function Successor(mib: seq<Entry>, o: Oid, j: nat): Varbind {
    if j < Above(mib, o) then BoundOf(mib[FirstAbove(mib, o) + j])
    else Varbind(Reached(mib, o, Above(mib, o)), END_OF_MIB_VIEW, [])
  }

  /** One repetition: a successor of every repeater. */
  function Repetition(mib: seq<Entry>, reps: seq<Oid>, j: nat): (r: seq<Varbind>)
    ensures |r| == |reps|
  {
    seq(|reps|, i requires 0 <= i < |reps| => Successor(mib, reps[i], j))
  }

  function Repetitions(mib: seq<Entry>, reps: seq<Oid>, m: nat): seq<Varbind> {
    if m == 0 then [] else Repetitions(mib, reps, m - 1) + Repetition(mib, reps, m - 1)
  }

  /** The repetitions may end early, after one that is endOfMibView throughout. */
  ghost predicate MayEndAfter(mib: seq<Entry>, reps: seq<Oid>, m: nat) {
    m > 0 && forall v | v in Repetition(mib, reps, m - 1) :: v.tag == END_OF_MIB_VIEW
  }

  /** The number of repetitions is the one asked for, or the answer may end after m. */
  ghost predicate Stops(mib: seq<Entry>, reps: seq<Oid>, maxRep: nat, m: nat) {
    m <= maxRep && (m == maxRep || MayEndAfter(mib, reps, m))
  }

  /** A list of varbinds that the RFC permits as the answer: the successors of the non-repeaters, then the repetitions. */
  ghost predicate Permitted(mib: seq<Entry>, oids: seq<Oid>, nonRep: nat, maxRep: nat, answer: seq<Varbind>) {
    var n := Min(nonRep, |oids|);
    exists m :: Stops(mib, oids[n..], maxRep, m)
                && answer == Repetition(mib, oids[..n], 0) + Repetitions(mib, oids[n..], m)
  }

  /** A sorted MIB, none of whose objects has endOfMibView for its type. */
  ghost predicate Proper(mib: seq<Entry>) { Sorted(mib) && forall e | e in mib :: e.tag != END_OF_MIB_VIEW }

  // -- The condition ------------------------------------------------------------------------------------

  /** The number of varbinds in the row of a repeater. */
  function RowLength(mib: seq<Entry>, o: Oid, maxRep: nat): nat { Min(maxRep, Above(mib, o) + 1) }

  /** All rows have the same length m, and a repeater starts as many entries behind the first one as its index, written in
      base m, has for its digit sum. */
  predicate RowsInterleave(mib: seq<Entry>, reps: seq<Oid>, maxRep: nat) {
    reps == [] ||
    var m := RowLength(mib, reps[0], maxRep);
    && (forall i | 0 <= i < |reps| :: RowLength(mib, reps[i], maxRep) == m)
    && (m <= 1 || (IsPower(m, |reps|)
                   && forall i | 0 <= i < |reps| :: Above(mib, reps[i]) + DigitSum(m, i) == Above(mib, reps[0])))
  }

  // -- Positions ----------------------------------------------------------------------------------------

  /** The rows of all repeaters, one after the other. */
  function RowAfterRow(mib: seq<Entry>, reps: seq<Oid>, maxRep: nat): seq<Varbind> {
    if reps == [] then []
    else RowAfterRow(mib, reps[..|reps| - 1], maxRep) + BulkRow(mib, reps[|reps| - 1], maxRep)
  }

  lemma RowIsSuccessors(mib: seq<Entry>, o: Oid, maxRep: nat)
    ensures |BulkRow(mib, o, maxRep)| == RowLength(mib, o, maxRep)
    ensures forall j | 0 <= j < |BulkRow(mib, o, maxRep)| :: BulkRow(mib, o, maxRep)[j] == Successor(mib, o, j)
  {
    hide FirstAbove, Reached, Bounds, BulkRow;
    forall j | 0 <= j < |BulkRow(mib, o, maxRep)| ensures BulkRow(mib, o, maxRep)[j] == Successor(mib, o, j) {
      RowElement(mib, o, maxRep, j);
    }
    BulkRowLength(mib, o, maxRep);
  }

  lemma BulkRowLength(mib: seq<Entry>, o: Oid, maxRep: nat)
    ensures |BulkRow(mib, o, maxRep)| == RowLength(mib, o, maxRep)
  {
  }

  lemma {:induction false} RowsSplit(mib: seq<Entry>, oids: seq<Oid>, nonRep: nat, maxRep: nat, i: nat)
    requires i <= |oids|
    ensures var n := Min(nonRep, i);
            Rows(mib, oids, nonRep, maxRep, i) == Repetition(mib, oids[..n], 0) + RowAfterRow(mib, oids[n..i], maxRep)
    decreases i
  {
    hide BulkRow, NextVarbind, Repetition, RowAfterRow;
    if i == 0 {
      NothingAsked(mib, maxRep);
    } else {
      RowsSplit(mib, oids, nonRep, maxRep, i - 1);
      if i <= nonRep {
        OneMoreSingle(mib, oids[..i]);
        NothingAsked(mib, maxRep);
        assert oids[..i][..i - 1] == oids[..i - 1] && oids[i..i] == [] && oids[i - 1..i - 1] == [];
      } else {
        OneMoreRow(mib, oids[nonRep..i], maxRep);
        assert oids[nonRep..i][..i - nonRep - 1] == oids[nonRep..i - 1] && oids[nonRep..i][i - nonRep - 1] == oids[i - 1];
        Appended(Repetition(mib, oids[..nonRep], 0), RowAfterRow(mib, oids[nonRep..i - 1], maxRep), BulkRow(mib, oids[i - 1], maxRep));
      }
    }
  }

  lemma NothingAsked(mib: seq<Entry>, maxRep: nat)
    ensures Repetition(mib, [], 0) == [] && RowAfterRow(mib, [], maxRep) == []
  {
  }

  lemma OneMoreSingle(mib: seq<Entry>, oids: seq<Oid>)
    requires oids != []
    ensures Repetition(mib, oids, 0) == Repetition(mib, oids[..|oids| - 1], 0) + [NextVarbind(mib, oids[|oids| - 1])]
  {
    hide NextVarbind, Successor;
    FirstSuccessor(mib, oids[|oids| - 1]);
  }

  lemma OneMoreRow(mib: seq<Entry>, reps: seq<Oid>, maxRep: nat)
    requires reps != []
    ensures RowAfterRow(mib, reps, maxRep) == RowAfterRow(mib, reps[..|reps| - 1], maxRep) + BulkRow(mib, reps[|reps| - 1], maxRep)
  {
    hide BulkRow;
  }

  lemma FirstSuccessor(mib: seq<Entry>, o: Oid)
    ensures NextVarbind(mib, o) == Successor(mib, o, 0)
  {
  }

  /** No row longer than m: the rows fill as much as m repetitions if and only if every one has exactly m varbinds. */
  lemma {:induction false} RowsFill(mib: seq<Entry>, reps: seq<Oid>, maxRep: nat, m: nat)
    requires forall i | 0 <= i < |reps| :: RowLength(mib, reps[i], maxRep) <= m
    ensures |RowAfterRow(mib, reps, maxRep)| <= Cell(|reps|, m, 0)
    ensures |RowAfterRow(mib, reps, maxRep)| == Cell(|reps|, m, 0) <==>
            forall i | 0 <= i < |reps| :: RowLength(mib, reps[i], maxRep) == m
    decreases |reps|
  {
    hide BulkRow, RowLength, Cell;
    SmallGrids(m, 0);
    if reps != [] {
      var before := reps[..|reps| - 1];
      RowsFill(mib, before, maxRep, m);
      RowIsSuccessors(mib, reps[|reps| - 1], maxRep);
      NextRow(|before|, m);
      assert reps == before + [reps[|reps| - 1]];
    }
  }

  lemma {:induction false} RowsAt(mib: seq<Entry>, reps: seq<Oid>, maxRep: nat, m: nat, i: nat, j: nat)
    requires forall k | 0 <= k < |reps| :: RowLength(mib, reps[k], maxRep) == m
    requires i < |reps| && j < m
    ensures Cell(i, m, j) < |RowAfterRow(mib, reps, maxRep)| == Cell(|reps|, m, 0)
    ensures RowAfterRow(mib, reps, maxRep)[Cell(i, m, j)] == Successor(mib, reps[i], j)
    decreases |reps|
  {
    hide BulkRow, RowLength, Successor, Cell;
    var before := reps[..|reps| - 1];
    RowsFill(mib, reps, maxRep, m);
    RowsFill(mib, before, maxRep, m);
    RowIsSuccessors(mib, reps[|reps| - 1], maxRep);
    CellWithin(i, m, j, |reps|);
    InRow(i, m, j);
    if i < |before| { RowsAt(mib, before, maxRep, m, i, j); }
  }

  lemma {:induction false} RepetitionsAt(mib: seq<Entry>, reps: seq<Oid>, m: nat, i: nat, j: nat)
    requires i < |reps| && j < m
    ensures Cell(j, |reps|, i) < |Repetitions(mib, reps, m)| == Cell(m, |reps|, 0)
    ensures Repetitions(mib, reps, m)[Cell(j, |reps|, i)] == Successor(mib, reps[i], j)
    decreases m
  {
    hide Successor, Cell;
    RepetitionsLength(mib, reps, m);
    RepetitionsLength(mib, reps, m - 1);
    CellWithin(j, |reps|, i, m);
    InRow(j, |reps|, i);
    if j < m - 1 { RepetitionsAt(mib, reps, m - 1, i, j); }
  }

  lemma {:induction false} RepetitionsLength(mib: seq<Entry>, reps: seq<Oid>, m: nat)
    ensures |Repetitions(mib, reps, m)| == Cell(m, |reps|, 0)
    decreases m
  {
    hide Cell;
    SmallGrids(|reps|, 0);
    if m > 0 {
      RepetitionsLength(mib, reps, m - 1);
      NextRow(m - 1, |reps|);
    }
  }

  // -- The answer --------------------------------------------------------------------------------------------

  /** Behind different OIDs the same successor is the same entry of the MIB, or the end of both. */
  lemma SameSuccessor(mib: seq<Entry>, o: Oid, j: nat, o': Oid, j': nat)
    requires Proper(mib) && 0 < Above(mib, o) && j <= Above(mib, o) && 0 < Above(mib, o') && j' <= Above(mib, o')
    ensures Successor(mib, o, j) == Successor(mib, o', j') <==> FirstAbove(mib, o) + j == FirstAbove(mib, o') + j'
  {
    hide FirstAbove, Compare;
    var x, x' := FirstAbove(mib, o) + j, FirstAbove(mib, o') + j';
    if x < |mib| && x' < |mib| && x != x' {
      CompareIsAntisymmetric(mib[x].oid, mib[x'].oid);
      assert if x < x' then Compare(mib[x].oid, mib[x'].oid) < 0 else Compare(mib[x'].oid, mib[x].oid) < 0;
      CompareIsAntisymmetric(mib[x'].oid, mib[x].oid);
    }
  }

  function FirstsAbove(mib: seq<Entry>, reps: seq<Oid>): (k: seq<int>)
    ensures |k| == |reps| && forall i | 0 <= i < |k| :: k[i] == FirstAbove(mib, reps[i])
  {
    seq(|reps|, i requires 0 <= i < |reps| => FirstAbove(mib, reps[i]))
  }

  /** What rows of m varbinds and m repetitions hold at one position. */
  lemma PositionsAgree(mib: seq<Entry>, reps: seq<Oid>, maxRep: nat, m: nat, p: nat)
    requires Proper(mib) && reps != [] && m >= 2 && forall k | 0 <= k < |reps| :: RowLength(mib, reps[k], maxRep) == m
    requires p < Cell(|reps|, m, 0)
    ensures Row(p, m) < |reps| && p < |RowAfterRow(mib, reps, maxRep)| == |Repetitions(mib, reps, m)| == Cell(|reps|, m, 0)
    ensures RowAfterRow(mib, reps, maxRep)[p] == Repetitions(mib, reps, m)[p] <==>
            FirstAbove(mib, reps[Row(p, m)]) + Column(p, m) == FirstAbove(mib, reps[Column(p, |reps|)]) + Row(p, |reps|)
  {
    hide FirstAbove, RowAfterRow, Repetitions, Successor, Proper, Cell, Row, Column;
    var n := |reps|;
    RowWithin(p, m, n);
    Transposed(n, m);
    RowWithin(p, n, m);
    PartsOf(p, m);
    PartsOf(p, n);
    var i, j, i', j' := Row(p, m), Column(p, m), Column(p, n), Row(p, n);
    RowsAt(mib, reps, maxRep, m, i, j);
    RepetitionsAt(mib, reps, m, i', j');
    assert RowLength(mib, reps[i], maxRep) == m && RowLength(mib, reps[i'], maxRep) == m;
    SameSuccessor(mib, reps[i], j, reps[i'], j');
  }

  /** Rows of m varbinds each are m repetitions if and only if the two ways of counting agree. */
  lemma EqualRows(mib: seq<Entry>, reps: seq<Oid>, maxRep: nat, m: nat)
    requires Proper(mib) && reps != [] && m >= 2
    requires forall i | 0 <= i < |reps| :: RowLength(mib, reps[i], maxRep) == m
    ensures RowAfterRow(mib, reps, maxRep) == Repetitions(mib, reps, m) <==> CountsAgree(FirstsAbove(mib, reps), m)
  {
    hide FirstAbove, RowAfterRow, Repetitions, Proper, RowLength, Cell, Row, Column;
    var k, rows, want := FirstsAbove(mib, reps), RowAfterRow(mib, reps, maxRep), Repetitions(mib, reps, m);
    RowsFill(mib, reps, maxRep, m);
    RepetitionsLength(mib, reps, m);
    Transposed(|reps|, m);
    forall p: nat | p < Cell(|reps|, m, 0)
      ensures Row(p, m) < |k| && (rows[p] == want[p] <==> k[Row(p, m)] + Column(p, m) == k[Column(p, |k|)] + Row(p, |k|))
    {
      PositionsAgree(mib, reps, maxRep, m, p);
    }
  }

  lemma RowsWithinStop(mib: seq<Entry>, reps: seq<Oid>, maxRep: nat, m: nat, i: nat)
    requires Proper(mib) && Stops(mib, reps, maxRep, m) && i < |reps|
    ensures RowLength(mib, reps[i], maxRep) <= m
  {
    hide FirstAbove, Reached;
    if m < maxRep {
      var v := Repetition(mib, reps, m - 1)[i];
      assert v in Repetition(mib, reps, m - 1);
      assert v == Successor(mib, reps[i], m - 1);
    }
  }

  lemma CommonLengthStops(mib: seq<Entry>, reps: seq<Oid>, maxRep: nat, m: nat)
    requires reps != [] && forall i | 0 <= i < |reps| :: RowLength(mib, reps[i], maxRep) == m
    ensures Stops(mib, reps, maxRep, m)
  {
    hide FirstAbove, Reached;
    assert RowLength(mib, reps[0], maxRep) == m;
    if m < maxRep {
      forall v | v in Repetition(mib, reps, m - 1) ensures v.tag == END_OF_MIB_VIEW {
        var i :| 0 <= i < |reps| && v == Repetition(mib, reps, m - 1)[i];
        assert RowLength(mib, reps[i], maxRep) == m;
      }
    }
  }

  lemma ShortRows(mib: seq<Entry>, reps: seq<Oid>, maxRep: nat, m: nat)
    requires m <= 1 && forall i | 0 <= i < |reps| :: RowLength(mib, reps[i], maxRep) == m
    ensures RowAfterRow(mib, reps, maxRep) == Repetitions(mib, reps, m)
  {
    hide RowAfterRow, Repetitions, Successor, RowLength, Cell;
    var rows, want := RowAfterRow(mib, reps, maxRep), Repetitions(mib, reps, m);
    RowsFill(mib, reps, maxRep, m);
    RepetitionsLength(mib, reps, m);
    Transposed(|reps|, m);
    if m == 0 {
      SmallGrids(|reps|, 0);
    } else {
      forall i: nat | i < |reps| ensures |rows| == |reps| && rows[i] == want[i] {
        SmallGrids(|reps|, i);
        SmallGrids(|reps|, |reps|);
        RowsAt(mib, reps, maxRep, m, i, 0);
        RepetitionsAt(mib, reps, m, i, 0);
      }
      SmallGrids(|reps|, |reps|);
    }
  }

  lemma InterleaveExactly(mib: seq<Entry>, reps: seq<Oid>, maxRep: nat, m: nat)
    requires Proper(mib) && reps != [] && forall i | 0 <= i < |reps| :: RowLength(mib, reps[i], maxRep) == m
    ensures RowAfterRow(mib, reps, maxRep) == Repetitions(mib, reps, m) <==> RowsInterleave(mib, reps, maxRep)
  {
    hide FirstAbove, RowAfterRow, Repetitions, Proper, CountsAgree, DigitSum, IsPower, RowLength;
    assert RowLength(mib, reps[0], maxRep) == m;
    if m <= 1 {
      ShortRows(mib, reps, maxRep, m);
    } else {
      var k := FirstsAbove(mib, reps);
      EqualRows(mib, reps, maxRep, m);
      CountsAgreeExactly(k, m);
      assert forall i | 0 <= i < |reps| ::
          k[i] == k[0] + DigitSum(m, i) <==> Above(mib, reps[i]) + DigitSum(m, i) == Above(mib, reps[0]);
    }
  }

  /** The rows are repetitions that stop where they may if and only if they interleave. */
  lemma RowsAreRepetitions(mib: seq<Entry>, reps: seq<Oid>, maxRep: nat)
    requires Proper(mib)
    ensures (exists m :: Stops(mib, reps, maxRep, m) && RowAfterRow(mib, reps, maxRep) == Repetitions(mib, reps, m))
            <==> RowsInterleave(mib, reps, maxRep)
  {
    hide RowAfterRow, Repetitions, Proper, RowLength, MayEndAfter, Cell;
    var rows := RowAfterRow(mib, reps, maxRep);
    if reps == [] {
      RowsFill(mib, reps, maxRep, maxRep);
      RepetitionsLength(mib, reps, maxRep);
      Transposed(|reps|, maxRep);
      SmallGrids(maxRep, 0);
      assert rows == Repetitions(mib, reps, maxRep) && Stops(mib, reps, maxRep, maxRep);
    } else {
      if RowsInterleave(mib, reps, maxRep) {
        var m := RowLength(mib, reps[0], maxRep);
        CommonLengthStops(mib, reps, maxRep, m);
        InterleaveExactly(mib, reps, maxRep, m);
      }
      if exists m :: Stops(mib, reps, maxRep, m) && rows == Repetitions(mib, reps, m) {
        var m :| Stops(mib, reps, maxRep, m) && rows == Repetitions(mib, reps, m);
        forall i | 0 <= i < |reps| ensures RowLength(mib, reps[i], maxRep) <= m { RowsWithinStop(mib, reps, maxRep, m, i); }
        RowsFill(mib, reps, maxRep, m);
        RepetitionsLength(mib, reps, m);
        Transposed(|reps|, m);
        InterleaveExactly(mib, reps, maxRep, m);
      }
    }
  }

  /** GetBulk answers row after row. For every MIB and every request that is a list the RFC permits if and only if the rows
      interleave: there is at most one repeater, or no row has more than one varbind, or, with rows of one length m >= 2, the
      number of repeaters is a power of m and each starts the digit sum of its index behind the first. */
  lemma BulkIsRowAfterRow(mib: seq<Entry>, oids: seq<Oid>, nonRep: nat, maxRep: nat)
    requires Proper(mib)
    ensures Permitted(mib, oids, nonRep, maxRep, Rows(mib, oids, nonRep, maxRep, |oids|)) <==>
            RowsInterleave(mib, oids[Min(nonRep, |oids|)..], maxRep)
  {
    hide RowAfterRow, Repetitions, Proper, Rows, RowsInterleave, Stops;
    var n := Min(nonRep, |oids|);
    var reps, all := oids[n..], Rows(mib, oids, nonRep, maxRep, |oids|);
    var first, rows := Repetition(mib, oids[..n], 0), RowAfterRow(mib, reps, maxRep);
    RowsSplit(mib, oids, nonRep, maxRep, |oids|);
    assert oids[n..|oids|] == reps;
    RowsAreRepetitions(mib, reps, maxRep);
    if RowsInterleave(mib, reps, maxRep) {
      var m :| Stops(mib, reps, maxRep, m) && rows == Repetitions(mib, reps, m);
      assert all == first + Repetitions(mib, reps, m);
    }
    if Permitted(mib, oids, nonRep, maxRep, all) {
      var m :| Stops(mib, reps, maxRep, m) && all == first + Repetitions(mib, reps, m);
      SameTail(first, rows, Repetitions(mib, reps, m));
    }
  }

  lemma SameTail<T>(first: seq<T>, a: seq<T>, b: seq<T>)
    ensures first + a == first + b <==> a == b
  {
    assert (first + a)[|first|..] == a && (first + b)[|first|..] == b;
  }
}
