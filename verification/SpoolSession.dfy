/** Whole spoolss sessions: which documents they capture, whatever else is sent around and between them. */
module SpoolSession {
  import opened Bytes
  import opened Spoolss
  import opened Dcerpc
  import opened SpoolCapture

  // -- PDUs that are no requests --------------------------------------------------------------------

  predicate IsRequest(pdu: bytes) { ParseHeader(pdu).Some? && ParseHeader(pdu).value.ptype == PT_REQUEST }

  /** The requests among the PDUs of a connection: not its BINDs, not what the pipe does not know, not noise. */
  function Requests(pdus: seq<bytes>): seq<bytes> {
    if pdus == [] then [] else (if IsRequest(pdus[0]) then [pdus[0]] else []) + Requests(pdus[1..])
  }

  /** Two pipes that differ at most in having seen a BIND. */
  predicate SameWork(p: Pipe, q: Pipe) { p.reasm == q.reasm && p.spool == q.spool }

  lemma RequestsIgnoreBinds(p: Pipe, q: Pipe, pdu: bytes, cap: int)
    requires SameWork(p, q)
    ensures SameWork(OnWrite(p, pdu, cap).0, OnWrite(q, pdu, cap).0)
    ensures OnWrite(p, pdu, cap).1 == OnWrite(q, pdu, cap).1
  {
    hide Dispatch, BuildFault, BuildResponse, BuildBindAck, FirstFrag, LastFrag, ObjectUuid, U16LE, U32LE;
  }

  lemma OthersDoNothing(p: Pipe, pdu: bytes, cap: int)
    requires !IsRequest(pdu)
    ensures SameWork(OnWrite(p, pdu, cap).0, p)
  {
    hide Dispatch, BuildFault, BuildResponse, BuildBindAck, U16LE, U32LE;
  }

  /** BINDs and PDUs of other types, anywhere, even inside a fragmented call, do not touch the print job. */
  lemma {:induction false} OnlyRequestsCount(p: Pipe, q: Pipe, pdus: seq<bytes>, cap: int)
    requires SameWork(p, q)
    ensures SameWork(WriteAll(p, pdus, cap).0, WriteAll(q, Requests(pdus), cap).0)
    decreases |pdus|
  {
    hide OnWrite, IsRequest;
    if pdus != [] {
      var p1 := OnWrite(p, pdus[0], cap).0;
      var rest := Requests(pdus[1..]);
      if IsRequest(pdus[0]) {
        RequestsIgnoreBinds(p, q, pdus[0], cap);
        OnlyRequestsCount(p1, OnWrite(q, pdus[0], cap).0, pdus[1..], cap);
        WriteFirst(q, pdus[0], rest, cap);
      } else {
        OthersDoNothing(p, pdus[0], cap);
        OnlyRequestsCount(p1, q, pdus[1..], cap);
        assert [] + rest == rest;
      }
    }
  }

  // -- The documents of a session -------------------------------------------------------------------

  /** A call that opens or ends a bracket: not one that is refused. */
  predicate Delimits(c: Call) {
    || c.opnum == OP_OPEN_PRINTER || c.opnum == OP_OPEN_PRINTER_EX || c.opnum == OP_CLOSE_PRINTER
    || (c.opnum == OP_START_DOC && ParseStartDoc(c.stub).Some?)
    || (c.opnum == OP_END_DOC && |c.stub| >= HANDLE_LEN)
  }

  /** The last delimiting call. */
  function LastDelimiter(calls: seq<Call>): (j: Option<nat>)
    ensures j.Some? ==> j.value < |calls| && Delimits(calls[j.value])
    ensures j.Some? ==> forall i | j.value < i < |calls| :: !Delimits(calls[i])
    ensures j.None? ==> forall i | 0 <= i < |calls| :: !Delimits(calls[i])
  {
    if calls == [] then None
    else if Delimits(calls[|calls| - 1]) then Some(|calls| - 1)
    else LastDelimiter(calls[..|calls| - 1])
  }

  /** The document that is open after some calls: its name, and what was written into it so far. st is the state before
      them, which may have a document open already. */
  function OpenAfter(st: Spool, calls: seq<Call>, cap: int): Option<Job> {
    match LastDelimiter(calls)
    case None => if st.open then Some(Job(st.name, AppendCapped(st.buf, Written(calls), cap))) else None
    case Some(j) =>
      if calls[j].opnum == OP_START_DOC then
        Some(Job(ParseStartDoc(calls[j].stub).value, FirstBytes(Written(calls[j + 1..]), cap)))
      else None
  }

  /** The documents of a session, in order: one for every EndDoc that finds one open. */
  function Documents(st: Spool, calls: seq<Call>, cap: int): seq<Job> {
    if calls == [] then []
    else
      var before, c := calls[..|calls| - 1], calls[|calls| - 1];
      Documents(st, before, cap) +
      if Delimits(c) && c.opnum == OP_END_DOC && OpenAfter(st, before, cap).Some? then [OpenAfter(st, before, cap).value] else []
  }

  lemma AppendCappedTwice(buf: bytes, x: bytes, y: bytes, cap: int)
    ensures AppendCapped(AppendCapped(buf, x, cap), y, cap) == AppendCapped(buf, x + y, cap)
    ensures AppendCapped(buf, [], cap) == buf
    ensures AppendCapped([], x, cap) == FirstBytes(x, cap)
  {
    assert buf + x + y == buf + (x + y);
    if cap > 0 && |buf| < cap {
      var room := cap - |buf|;
      assert |x| <= room < |x| + |y| ==> buf + x + y[..room - |x|] == buf + (x + y)[..room];
      assert |x| > room ==> (x + y)[..room] == x[..room];
    }
  }

  lemma {:induction false} WrittenSplits(a: seq<Call>, b: seq<Call>)
    ensures Written(a + b) == Written(a) + Written(b)
  {
    hide ParseWrite;
    if a == [] {
      assert a + b == b;
    } else {
      assert (a + b)[1..] == a[1..] + b;
      WrittenSplits(a[1..], b);
    }
  }

  /** The dispatcher's state is what the open document says. */
  predicate Agrees(st: Spool, calls: seq<Call>, cap: int, t: Spool) {
    var o := OpenAfter(st, calls, cap);
    t.open == o.Some? && (t.open ==> o == Some(Job(t.name, t.buf)))
  }

  /** What one more call writes. */
  function WrittenBy(c: Call): bytes { if c.opnum == OP_WRITE && ParseWrite(c.stub).Some? then ParseWrite(c.stub).value else [] }

  lemma WrittenNext(calls: seq<Call>, c: Call)
    ensures Written(calls + [c]) == Written(calls) + WrittenBy(c)
  {
    hide ParseWrite;
    WrittenSplits(calls, [c]);
    assert [c][1..] == [];
    assert Written([c]) == WrittenBy(c) + [];
  }

  lemma LastDelimiterNext(calls: seq<Call>, c: Call)
    ensures LastDelimiter(calls + [c]) == if Delimits(c) then Some(|calls|) else LastDelimiter(calls)
  {
    hide Delimits;
    assert (calls + [c])[..|calls|] == calls;
  }

  /** A call between delimiters only adds to the open document. */
  lemma OpenNext(st: Spool, calls: seq<Call>, c: Call, cap: int)
    requires !Delimits(c)
    ensures var o := OpenAfter(st, calls, cap);
            OpenAfter(st, calls + [c], cap) ==
            if o.Some? then Some(Job(o.value.name, AppendCapped(o.value.data, WrittenBy(c), cap))) else None
  {
    hide ParseWrite, ParseStartDoc, AppendCapped, FirstBytes, WrittenBy, Written, LastDelimiter;
    LastDelimiterNext(calls, c);
    WrittenNext(calls, c);
    match LastDelimiter(calls)
    case None => AppendCappedTwice(st.buf, Written(calls), WrittenBy(c), cap);
    case Some(j) =>
      assert (calls + [c])[j] == calls[j] && (calls + [c])[j + 1..] == calls[j + 1..] + [c];
      WrittenNext(calls[j + 1..], c);
      AppendCappedIsFirstBytes(Written(calls[j + 1..]), WrittenBy(c), cap);
  }

  lemma DelimiterNext(st: Spool, calls: seq<Call>, c: Call, cap: int)
    requires Delimits(c)
    ensures OpenAfter(st, calls + [c], cap) ==
            if c.opnum == OP_START_DOC then Some(Job(ParseStartDoc(c.stub).value, [])) else None
  {
    hide ParseStartDoc, Delimits, LastDelimiter;
    LastDelimiterNext(calls, c);
    assert (calls + [c])[|calls|] == c && (calls + [c])[|calls| + 1..] == [];
  }

  lemma AgreesNext(st: Spool, calls: seq<Call>, c: Call, t: Spool, cap: int)
    requires Agrees(st, calls, cap, t)
    ensures Agrees(st, calls + [c], cap, Dispatch(t, c.opnum, c.stub, cap).0)
    ensures Dispatch(t, c.opnum, c.stub, cap).0.captured == t.captured +
            if Delimits(c) && c.opnum == OP_END_DOC && OpenAfter(st, calls, cap).Some? then [OpenAfter(st, calls, cap).value] else []
  {
    hide ParseStartDoc, ParseWrite, AppendCapped, OpenAfter, Put32LE, Zeros;
    if Delimits(c) {
      DelimiterNext(st, calls, c, cap);
    } else {
      OpenNext(st, calls, c, cap);
      if OpenAfter(st, calls, cap).Some? {
        AppendCappedTwice(OpenAfter(st, calls, cap).value.data, [], [], cap);
      }
    }
    assert t.captured + [] == t.captured;
  }

  /** The jobs that a session captures are its documents, in order: whatever calls come before, between and after them, and
      whatever state it starts in. */
  lemma {:induction false} SessionCapturesItsDocuments(st: Spool, calls: seq<Call>, cap: int)
    ensures var t := DispatchAll(st, calls, cap);
            Agrees(st, calls, cap, t) && t.captured == st.captured + Documents(st, calls, cap)
    decreases |calls|
  {
    hide Dispatch, Delimits, OpenAfter;
    if calls == [] {
      NothingOpened(st, cap);
      assert st.captured + [] == st.captured;
    } else {
      var before, c := calls[..|calls| - 1], calls[|calls| - 1];
      assert calls == before + [c];
      SessionCapturesItsDocuments(st, before, cap);
      DispatchAllSplits(st, before, [c], cap);
      var t := DispatchAll(st, before, cap);
      assert [c][1..] == [] && DispatchAll(t, [c], cap) == Dispatch(t, c.opnum, c.stub, cap).0;
      AgreesNext(st, before, c, t, cap);
    }
  }

  lemma NothingOpened(st: Spool, cap: int)
    ensures Agrees(st, [], cap, st)
  {
    AppendCappedTwice(st.buf, [], [], cap);
  }

  /** From the wire: any PDUs whose requests are calls cut into fragments in any way. */
  lemma ConnectionCapturesItsDocuments(p: Pipe, pdus: seq<bytes>, sent: seq<Sent>, cap: int)
    requires Requests(pdus) == SessionPdus(sent) && forall s | s in sent :: s.Ok()
    ensures WriteAll(p, pdus, cap).0.spool.captured == p.spool.captured + Documents(p.spool, Calls(sent), cap)
  {
    hide WriteAll, Documents, Requests, SessionPdus, Calls, DispatchAll;
    OnlyRequestsCount(p, p, pdus, cap);
    SessionIsItsCalls(p, sent, cap);
    SessionCapturesItsDocuments(p.spool, Calls(sent), cap);
  }

  // -- One document ---------------------------------------------------------------------------------

  lemma {:induction false} NoDocuments(st: Spool, calls: seq<Call>, cap: int)
    requires !st.open && forall c | c in calls :: c.opnum != OP_START_DOC
    ensures !DispatchAll(st, calls, cap).open && DispatchAll(st, calls, cap).captured == st.captured
    decreases |calls|
  {
    hide ParseWrite, AppendCapped;
    if calls != [] {
      assert calls[0] in calls && forall c | c in calls[1..] :: c in calls;
      NoDocuments(Dispatch(st, calls[0].opnum, calls[0].stub, cap).0, calls[1..], cap);
    }
  }

  /** What a print client does: anything but StartDoc first (OpenPrinter, say), one bracket, anything but StartDoc after it
      (ClosePrinter): exactly the one document. */
  lemma OneDocument(st: Spool, before: seq<Call>, start: Call, body: seq<Call>, end: Call, after: seq<Call>, cap: int)
    requires !st.open
    requires forall c | c in before + after :: c.opnum != OP_START_DOC
    requires start.opnum == OP_START_DOC && ParseStartDoc(start.stub).Some?
    requires end.opnum == OP_END_DOC && |end.stub| >= HANDLE_LEN
    requires forall c | c in body :: !Brackets(c.opnum)
    ensures Documents(st, before + ([start] + body + [end]) + after, cap)
         == [Job(ParseStartDoc(start.stub).value, FirstBytes(Written(body), cap))]
  {
    hide Dispatch, Documents, DispatchAll, ParseStartDoc, FirstBytes, Written, Agrees;
    var bracket := [start] + body + [end];
    var calls := before + bracket + after;
    assert forall c | c in before :: c in before + after;
    assert forall c | c in after :: c in before + after;
    var s1 := DispatchAll(st, before, cap);
    NoDocuments(st, before, cap);
    BracketCapturesOneJob(s1, start, body, end, cap);
    var s2 := DispatchAll(s1, bracket, cap);
    NoDocuments(s2, after, cap);
    DispatchAllSplits(st, before + bracket, after, cap);
    DispatchAllSplits(st, before, bracket, cap);
    SessionCapturesItsDocuments(st, calls, cap);
    var doc := [Job(ParseStartDoc(start.stub).value, FirstBytes(Written(body), cap))];
    assert st.captured + Documents(st, calls, cap) == st.captured + doc;
    SameTail(st.captured, Documents(st, calls, cap), doc);
  }

  lemma SameTail(a: seq<Job>, b: seq<Job>, c: seq<Job>)
    requires a + b == a + c
    ensures b == c
  {
    assert (a + b)[|a|..] == b && (a + c)[|a|..] == c;
  }
}
