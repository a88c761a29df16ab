/** The SNMP agent (snmp.go): OID order, the sorted MIB, Get, GetNext and GetBulk. */
module SnmpAgent {
  import opened Bytes
  import opened Ber

  type Oid = seq<int>

  const PDU_GET: byte := 0xA0
  const PDU_GET_NEXT: byte := 0xA1
  const PDU_RESPONSE: byte := 0xA2
  const PDU_GET_BULK: byte := 0xA5
  const NO_SUCH_INSTANCE: byte := 0x81
  const END_OF_MIB_VIEW: byte := 0x82

  // -- The order of OIDs ---------------------------------------------------------------------------------

  /** -1, 0 or 1 as a comes before, is, or comes after b: the first differing arc decides, then length. */
  function Compare(a: Oid, b: Oid): (r: int)
    ensures -1 <= r <= 1
  {
    if a == [] then (if b == [] then 0 else -1)
    else if b == [] then 1
    else if a[0] != b[0] then (if a[0] < b[0] then -1 else 1)
    else Compare(a[1..], b[1..])
  }

  method CompareOid(a: Oid, b: Oid) returns (r: int)
    ensures r == Compare(a, b)
  {
    var i := 0;
    while i < |a| && i < |b|
      invariant 0 <= i <= |a| && i <= |b|
      invariant Compare(a, b) == Compare(a[i..], b[i..])
    {
      if a[i] != b[i] {
        return if a[i] < b[i] then -1 else 1;
      }
      assert a[i..][1..] == a[i + 1..] && b[i..][1..] == b[i + 1..];
      i := i + 1;
    }
    return if |a| < |b| then -1 else if |a| > |b| then 1 else 0;
  }

  lemma {:induction false} CompareIsAntisymmetric(a: Oid, b: Oid)
    ensures Compare(a, b) == -Compare(b, a)
    ensures Compare(a, b) == 0 <==> a == b
  {
    if a != [] && b != [] && a[0] == b[0] {
      CompareIsAntisymmetric(a[1..], b[1..]);
      assert a == [a[0]] + a[1..] && b == [b[0]] + b[1..];
    }
  }

  lemma {:induction false} CompareIsTransitive(a: Oid, b: Oid, c: Oid)
    requires Compare(a, b) <= 0 && Compare(b, c) <= 0
    ensures Compare(a, c) <= 0
    ensures Compare(a, b) < 0 || Compare(b, c) < 0 ==> Compare(a, c) < 0
  {
    if a != [] && b != [] && c != [] && a[0] == b[0] == c[0] {
      CompareIsTransitive(a[1..], b[1..], c[1..]);
    }
  }

  // -- The MIB -----------------------------------------------------------------------------------------

  /** One object and the value it has when asked. */
  datatype Entry = Entry(oid: Oid, tag: byte, content: bytes)

  ghost predicate Sorted(mib: seq<Entry>) {
    forall i, j | 0 <= i < j < |mib| :: Compare(mib[i].oid, mib[j].oid) < 0
  }

  /** The least index whose OID is above o. */
  function FirstAbove(mib: seq<Entry>, o: Oid): (k: nat)
    ensures k <= |mib|
  {
    if mib == [] || Compare(mib[0].oid, o) > 0 then 0
    else 1 + FirstAbove(mib[1..], o)
  }

  lemma {:induction false} FirstAboveIsLeast(mib: seq<Entry>, o: Oid)
    ensures var k := FirstAbove(mib, o);
            (forall i | 0 <= i < k :: Compare(mib[i].oid, o) <= 0) && (k < |mib| ==> Compare(mib[k].oid, o) > 0)
  {
    hide Compare;
    if mib != [] && Compare(mib[0].oid, o) <= 0 { FirstAboveIsLeast(mib[1..], o); }
  }

  /** In a sorted MIB everything from there on is above o. */
  lemma AboveFromThere(mib: seq<Entry>, o: Oid, i: nat)
    requires Sorted(mib) && i < |mib|
    ensures Compare(mib[i].oid, o) > 0 <==> i >= FirstAbove(mib, o)
  {
    hide Compare, FirstAbove;
    FirstAboveIsLeast(mib, o);
    var k := FirstAbove(mib, o);
    if k < i {
      CompareIsAntisymmetric(mib[k].oid, o);
      CompareIsAntisymmetric(mib[i].oid, o);
      CompareIsTransitive(o, mib[k].oid, mib[i].oid);
    }
  }

  lemma FirstAboveOfEntry(mib: seq<Entry>, i: nat)
    requires Sorted(mib) && i < |mib|
    ensures FirstAbove(mib, mib[i].oid) == i + 1
  {
    CompareIsAntisymmetric(mib[i].oid, mib[i].oid);
    AboveFromThere(mib, mib[i].oid, i);
    if i + 1 < |mib| {
      CompareIsAntisymmetric(mib[i].oid, mib[i + 1].oid);
      AboveFromThere(mib, mib[i].oid, i + 1);
    }
  }

  /** The first MIB entry strictly above o. */
  function NextEntry(mib: seq<Entry>, o: Oid): Option<Entry> {
    var k := FirstAbove(mib, o);
    if k < |mib| then Some(mib[k]) else None
  }

  /** The entry whose OID is o. */
  ghost predicate IsExact(mib: seq<Entry>, o: Oid, r: Option<Entry>) {
    match r
    case Some(e) => e in mib && e.oid == o
    case None => forall e | e in mib :: e.oid != o
  }

  /** sort.Search on the predicate "at least o" or "above o": binary search over the sorted MIB. */
  method Search(mib: seq<Entry>, o: Oid, above: bool) returns (k: nat)
    requires Sorted(mib)
    ensures k <= |mib|
    ensures forall i | 0 <= i < |mib| :: i >= k <==> Compare(mib[i].oid, o) >= if above then 1 else 0
  {
    var bar := if above then 1 else 0;
    var i, j := 0, |mib|;
    while i < j
      invariant 0 <= i <= j <= |mib|
      invariant forall h | 0 <= h < i :: Compare(mib[h].oid, o) < bar
      invariant forall h | j <= h < |mib| :: Compare(mib[h].oid, o) >= bar
    {
      var h := i + (j - i) / 2;
      if !(Compare(mib[h].oid, o) >= bar) {
        forall g | 0 <= g <= h ensures Compare(mib[g].oid, o) < bar { OrderKept(mib, g, h, o); }
        i := h + 1;
      } else {
        forall g | h <= g < |mib| ensures Compare(mib[g].oid, o) >= bar { OrderKept(mib, h, g, o); }
        j := h;
      }
    }
    k := i;
  }

  lemma OrderKept(mib: seq<Entry>, g: nat, h: nat, o: Oid)
    requires Sorted(mib) && g <= h < |mib|
    ensures Compare(mib[g].oid, o) <= Compare(mib[h].oid, o)
  {
    if g < h {
      if Compare(mib[h].oid, o) <= 0 {
        CompareIsTransitive(mib[g].oid, mib[h].oid, o);
      }
    }
  }

  lemma BoundaryIsFirstAbove(mib: seq<Entry>, o: Oid, k: nat)
    requires Sorted(mib) && k <= |mib|
    requires forall i | 0 <= i < |mib| :: i >= k <==> Compare(mib[i].oid, o) >= 1
    ensures k == FirstAbove(mib, o)
  {
    if k < |mib| { AboveFromThere(mib, o, k); }
    if 0 < k { AboveFromThere(mib, o, k - 1); }
  }

  method FindNext(mib: seq<Entry>, o: Oid) returns (r: Option<Entry>)
    requires Sorted(mib)
    ensures r == NextEntry(mib, o)
  {
    var k := Search(mib, o, true);
    BoundaryIsFirstAbove(mib, o, k);
    if k < |mib| {
      return Some(mib[k]);
    }
    r := None;
  }

  method FindExact(mib: seq<Entry>, o: Oid) returns (r: Option<Entry>)
    requires Sorted(mib)
    ensures IsExact(mib, o, r)
  {
    var k := Search(mib, o, false);
    if k < |mib| && Compare(mib[k].oid, o) == 0 {
      CompareIsAntisymmetric(mib[k].oid, o);
      return Some(mib[k]);
    }
    forall i | 0 <= i < |mib| ensures mib[i].oid != o {
      CompareIsAntisymmetric(mib[i].oid, o);
      if k <= i { OrderKept(mib, k, i, o); }
    }
    r := None;
  }

  /** The OIDs that buildMIB adds, below 1.3.6.1.2.1 (system group, Host Resources MIB, Printer MIB). */
  const MIB_SUFFIXES: seq<Oid> := [
    [1, 1, 1, 0], [1, 1, 2, 0], [1, 1, 3, 0], [1, 1, 4, 0], [1, 1, 5, 0], [1, 1, 6, 0], [1, 1, 7, 0],
    [25, 3, 2, 1, 2, 1], [25, 3, 2, 1, 3, 1], [25, 3, 2, 1, 5, 1], [25, 3, 5, 1, 1, 1], [25, 3, 5, 1, 2, 1],
    [43, 5, 1, 1, 16, 1], [43, 5, 1, 1, 17, 1], [43, 10, 2, 1, 4, 1, 1], [43, 11, 1, 1, 8, 1, 1],
    [43, 11, 1, 1, 9, 1, 1], [43, 16, 5, 1, 2, 1, 1]]

  const MIB2: Oid := [1, 3, 6, 1, 2, 1]

  lemma {:induction false} CompareSkipsPrefix(p: Oid, a: Oid, b: Oid)
    ensures Compare(p + a, p + b) == Compare(a, b)
  {
    if p == [] {
      assert p + a == a && p + b == b;
    } else {
      assert (p + a)[1..] == p[1..] + a && (p + b)[1..] == p[1..] + b;
      CompareSkipsPrefix(p[1..], a, b);
    }
  }

  lemma DiffersAt(a: Oid, b: Oid, n: nat)
    requires n < |a| && n < |b| && a[..n] == b[..n] && a[n] < b[n]
    ensures Compare(a, b) < 0
  {
    CompareSkipsPrefix(a[..n], a[n..], b[n..]);
    assert a == a[..n] + a[n..] && b == b[..n] + b[n..];
  }

  /** The MIB that buildMIB builds is sorted, with no OID twice: what the binary searches rely on. */
  lemma BuiltMibIsSorted(mib: seq<Entry>)
    requires |mib| == |MIB_SUFFIXES| && forall i | 0 <= i < |mib| :: mib[i].oid == MIB2 + MIB_SUFFIXES[i]
    ensures Sorted(mib)
  {
    var s := MIB_SUFFIXES;
    forall i, j | 0 <= i < j < |mib| ensures Compare(mib[i].oid, mib[j].oid) < 0 {
      SuffixesAscend(i, j);
      CompareSkipsPrefix(MIB2, s[i], s[j]);
    }
  }

  lemma SuffixStep(i: nat)
    requires i < |MIB_SUFFIXES| - 1
    ensures Compare(MIB_SUFFIXES[i], MIB_SUFFIXES[i + 1]) < 0
  {
    var at := [2, 2, 2, 2, 2, 2, 0, 4, 4, 2, 4, 0, 4, 1, 1, 4, 1];
    DiffersAt(MIB_SUFFIXES[i], MIB_SUFFIXES[i + 1], at[i]);
  }

  lemma {:induction false} SuffixesAscend(i: nat, j: nat)
    requires i < j < |MIB_SUFFIXES|
    ensures Compare(MIB_SUFFIXES[i], MIB_SUFFIXES[j]) < 0
  {
    SuffixStep(j - 1);
    if i < j - 1 {
      SuffixesAscend(i, j - 1);
      CompareIsTransitive(MIB_SUFFIXES[i], MIB_SUFFIXES[j - 1], MIB_SUFFIXES[j]);
    }
  }

  // -- The walk ------------------------------------------------------------------------------------------

  /** What a manager collects that asks GetNext, then GetNext of the answer, until the end of the view. */
  function Walk(mib: seq<Entry>, o: Oid): seq<Entry>
    requires Sorted(mib)
    decreases |mib| - FirstAbove(mib, o)
  {
    match NextEntry(mib, o)
    case None => []
    case Some(e) =>
      FirstAboveOfEntry(mib, FirstAbove(mib, o));
      [e] + Walk(mib, e.oid)
  }

  /** The walk is exactly the part of the MIB above o: every such entry, once, in increasing order. */
  lemma {:induction false} WalkIsAllAbove(mib: seq<Entry>, o: Oid)
    requires Sorted(mib)
    ensures Walk(mib, o) == mib[FirstAbove(mib, o)..]
    decreases |mib| - FirstAbove(mib, o)
  {
    hide Compare, FirstAbove;
    var k := FirstAbove(mib, o);
    if k < |mib| {
      FirstAboveOfEntry(mib, k);
      WalkIsAllAbove(mib, mib[k].oid);
      assert mib[k..] == [mib[k]] + mib[k + 1..];
    }
  }

  lemma WalkedEntries(mib: seq<Entry>, o: Oid, i: nat)
    requires Sorted(mib) && i < |mib|
    ensures mib[i] in Walk(mib, o) <==> Compare(mib[i].oid, o) > 0
  {
    hide Walk, Compare;
    WalkIsAllAbove(mib, o);
    AboveFromThere(mib, o, i);
    var k := FirstAbove(mib, o);
    if i >= k {
      assert mib[k..][i - k] == mib[i];
    } else {
      forall j | k <= j < |mib| ensures mib[j] != mib[i] {
        CompareIsAntisymmetric(mib[i].oid, mib[j].oid);
      }
    }
  }

  // -- Serving a PDU -------------------------------------------------------------------------------------

  datatype Varbind = Varbind(oid: Oid, tag: byte, content: bytes)

  datatype Results = Results(errStatus: int, errIndex: int, varbinds: seq<Varbind>)

  function BoundOf(e: Entry): Varbind { Varbind(e.oid, e.tag, e.content) }

  function ClampInt(v: int, lo: int, hi: int): int { if v < lo then lo else if v > hi then hi else v }

  /** GetNext of one OID under version 2: the next entry, or endOfMibView under the OID itself. */
  function NextVarbind(mib: seq<Entry>, o: Oid): Varbind {
    match NextEntry(mib, o)
    case Some(e) => BoundOf(e)
    case None => Varbind(o, END_OF_MIB_VIEW, [])
  }

  /** The varbinds of the n entries from k on. */
  function Bounds(mib: seq<Entry>, k: nat, n: nat): (r: seq<Varbind>)
    requires k + n <= |mib|
    ensures |r| == n
  {
    if n == 0 then [] else Bounds(mib, k, n - 1) + [BoundOf(mib[k + n - 1])]
  }

  lemma {:induction false} BoundsAt(mib: seq<Entry>, k: nat, n: nat, i: nat)
    requires k + n <= |mib| && i < n
    ensures Bounds(mib, k, n)[i] == BoundOf(mib[k + i])
  {
    if i < n - 1 { BoundsAt(mib, k, n - 1, i); }
  }

  /** The OID reached after n entries from the first above o. */
  function Reached(mib: seq<Entry>, o: Oid, n: nat): Oid
    requires FirstAbove(mib, o) + n <= |mib|
  {
    if n == 0 then o else mib[FirstAbove(mib, o) + n - 1].oid
  }

  /** The first maxRep of: every entry above o in order, then one endOfMibView under the last OID reached. */
  function BulkRow(mib: seq<Entry>, o: Oid, maxRep: nat): seq<Varbind> {
    var k := FirstAbove(mib, o);
    var above := |mib| - k;
    if maxRep <= above then Bounds(mib, k, maxRep)
    else Bounds(mib, k, above) + [Varbind(Reached(mib, o, above), END_OF_MIB_VIEW, [])]
  }

  lemma ReachedIsAtEntry(mib: seq<Entry>, o: Oid, n: nat)
    requires Sorted(mib) && FirstAbove(mib, o) + n <= |mib|
    ensures FirstAbove(mib, Reached(mib, o, n)) == FirstAbove(mib, o) + n
  {
    hide Compare, FirstAbove;
    if n > 0 { FirstAboveOfEntry(mib, FirstAbove(mib, o) + n - 1); }
  }

  /** The repetition loop of GetBulk for one OID. */
  method Repeat(mib: seq<Entry>, o: Oid, maxRep: nat) returns (row: seq<Varbind>)
    requires Sorted(mib)
    ensures row == BulkRow(mib, o, maxRep)
  {
    hide Compare, Sorted, FirstAbove;
    row := [];
    var cur := o;
    ghost var k := FirstAbove(mib, o);
    var r := 0;
    while r < maxRep
      invariant 0 <= r <= maxRep && k + r <= |mib|
      invariant row == Bounds(mib, k, r)
      invariant cur == Reached(mib, o, r)
    {
      ReachedIsAtEntry(mib, o, r);
      var e := FindNext(mib, cur);
      if e.None? {
        row := row + [Varbind(cur, END_OF_MIB_VIEW, [])];
        return;
      }
      row := row + [BoundOf(e.value)];
      cur := e.value.oid;
      r := r + 1;
    }
  }

  lemma RowElement(mib: seq<Entry>, o: Oid, maxRep: nat, i: nat)
    requires i < |BulkRow(mib, o, maxRep)|
    ensures |BulkRow(mib, o, maxRep)| == Min(maxRep, |mib| - FirstAbove(mib, o) + 1)
    ensures var above := |mib| - FirstAbove(mib, o);
            BulkRow(mib, o, maxRep)[i] ==
            if i < above then BoundOf(mib[FirstAbove(mib, o) + i]) else Varbind(Reached(mib, o, above), END_OF_MIB_VIEW, [])
  {
    hide FirstAbove, Reached, Bounds;
    var k := FirstAbove(mib, o);
    var n := Min(maxRep, |mib| - k);
    if i < n { BoundsAt(mib, k, n, i); }
  }

  /** Each varbind of a row is the GetNext answer to the OID before it: the row is a chain of GetNexts, cut at
      maxRep or after the first endOfMibView. */
  lemma BulkRowIsChainedGetNext(mib: seq<Entry>, o: Oid, maxRep: nat, i: nat)
    requires Sorted(mib) && i < |BulkRow(mib, o, maxRep)|
    ensures BulkRow(mib, o, maxRep)[i] == NextVarbind(mib, if i == 0 then o else BulkRow(mib, o, maxRep)[i - 1].oid)
    ensures |BulkRow(mib, o, maxRep)| == Min(maxRep, |mib| - FirstAbove(mib, o) + 1)
  {
    hide Compare, Sorted, FirstAbove, Bounds, BulkRow;
    RowElement(mib, o, maxRep, i);
    if i > 0 { RowElement(mib, o, maxRep, i - 1); }
    ReachedIsAtEntry(mib, o, i);
  }

  function Rows(mib: seq<Entry>, oids: seq<Oid>, nonRep: int, maxRep: nat, i: nat): seq<Varbind>
    requires i <= |oids|
  {
    if i == 0 then []
    else
      Rows(mib, oids, nonRep, maxRep, i - 1)
      + if i - 1 < nonRep then [NextVarbind(mib, oids[i - 1])] else BulkRow(mib, oids[i - 1], maxRep)
  }

  /** GetBulk: one GetNext for each of the first nonRep OIDs, a row for each of the others. */
  method ServeGetBulk(mib: seq<Entry>, oids: seq<Oid>, f2: int, f3: int) returns (res: Results)
    requires Sorted(mib)
    ensures res == Results(0, 0, Rows(mib, oids, ClampInt(f2, 0, 256), ClampInt(f3, 0, 1024), |oids|))
  {
    var nonRep := ClampInt(f2, 0, 256);
    var maxRep := ClampInt(f3, 0, 1024);
    var vbs: seq<Varbind> := [];
    for i := 0 to |oids|
      invariant vbs == Rows(mib, oids, nonRep, maxRep, i)
    {
      if i < nonRep {
        var e := FindNext(mib, oids[i]);
        if e.Some? {
          vbs := vbs + [BoundOf(e.value)];
        } else {
          vbs := vbs + [Varbind(oids[i], END_OF_MIB_VIEW, [])];
        }
      } else {
        var row := Repeat(mib, oids[i], maxRep);
        vbs := vbs + row;
      }
    }
    res := Results(0, 0, vbs);
  }

  /** The results of GetNext: all answers, or in version 1 those before the first OID that has no successor. */
  ghost predicate NextResult(mib: seq<Entry>, oids: seq<Oid>, version: int, res: Results) {
    && |res.varbinds| <= |oids|
    && (forall i | 0 <= i < |res.varbinds| :: res.varbinds[i] == NextVarbind(mib, oids[i]))
    && (version == 0 ==> forall i | 0 <= i < |res.varbinds| :: NextEntry(mib, oids[i]).Some?)
    && if res.errStatus == 0 then res.errIndex == 0 && |res.varbinds| == |oids|
       else
         && res.errStatus == 2 && version == 0 && res.errIndex == |res.varbinds| + 1 <= |oids|
         && NextEntry(mib, oids[res.errIndex - 1]).None?
  }

  /** GetNext: version 2 answers every OID; version 1 stops at the first that has no successor, with
      noSuchName, its index and the varbinds found before it. */
  method ServeGetNext(mib: seq<Entry>, oids: seq<Oid>, version: int) returns (res: Results)
    requires Sorted(mib)
    ensures NextResult(mib, oids, version, res)
  {
    var vbs: seq<Varbind> := [];
    for i := 0 to |oids|
      invariant |vbs| == i
      invariant forall k | 0 <= k < i :: vbs[k] == NextVarbind(mib, oids[k])
      invariant version == 0 ==> forall k | 0 <= k < i :: NextEntry(mib, oids[k]).Some?
    {
      var e := FindNext(mib, oids[i]);
      if e.Some? {
        vbs := vbs + [BoundOf(e.value)];
      } else if version == 0 {
        return Results(2, i + 1, vbs);
      } else {
        vbs := vbs + [Varbind(oids[i], END_OF_MIB_VIEW, [])];
      }
    }
    res := Results(0, 0, vbs);
  }

  ghost predicate Has(mib: seq<Entry>, o: Oid) { exists e :: e in mib && e.oid == o }

  /** The version 2 answer to Get of one OID. */
  ghost predicate Answers(mib: seq<Entry>, o: Oid, vb: Varbind) {
    if Has(mib, o) then vb.oid == o && exists e :: e in mib && vb == BoundOf(e)
    else vb == Varbind(o, NO_SUCH_INSTANCE, [])
  }

  /** The results of Get: all answers, or in version 1 the first OID that is missing, and the request with null values. */
  ghost predicate GetResult(mib: seq<Entry>, oids: seq<Oid>, version: int, res: Results) {
    && |res.varbinds| == |oids|
    && (res.errStatus == 0 <==> version != 0 || forall i | 0 <= i < |oids| :: Has(mib, oids[i]))
    && if res.errStatus == 0 then res.errIndex == 0 && forall i | 0 <= i < |oids| :: Answers(mib, oids[i], res.varbinds[i])
       else
         && res.errStatus == 2 && 1 <= res.errIndex <= |oids|
         && !Has(mib, oids[res.errIndex - 1])
         && (forall i | 0 <= i < res.errIndex - 1 :: Has(mib, oids[i]))
         && forall i | 0 <= i < |oids| :: res.varbinds[i] == Varbind(oids[i], TAG_NULL, [])
  }

  /** Get: every OID answered by its own entry; a missing one is an exception varbind in version 2, and in
      version 1 fails the whole request, which is then echoed with null values. */
  method ServeGet(mib: seq<Entry>, oids: seq<Oid>, version: int) returns (res: Results)
    requires Sorted(mib)
    ensures GetResult(mib, oids, version, res)
  {
    hide Compare, Sorted;
    var vbs: seq<Varbind> := [];
    for i := 0 to |oids|
      invariant |vbs| == i && forall k | 0 <= k < i :: Answers(mib, oids[k], vbs[k])
      invariant version != 0 || forall k | 0 <= k < i :: Has(mib, oids[k])
    {
      var e := FindExact(mib, oids[i]);
      if e.Some? {
        assert Has(mib, oids[i]);
        vbs := vbs + [BoundOf(e.value)];
      } else if version == 0 {
        vbs := [];
        for k := 0 to |oids|
          invariant |vbs| == k && forall h | 0 <= h < k :: vbs[h] == Varbind(oids[h], TAG_NULL, [])
        {
          vbs := vbs + [Varbind(oids[k], TAG_NULL, [])];
        }
        return Results(2, i + 1, vbs);
      } else {
        vbs := vbs + [Varbind(oids[i], NO_SUCH_INSTANCE, [])];
      }
    }
    res := Results(0, 0, vbs);
  }
}
