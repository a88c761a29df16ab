/** End to end: spoolss calls, cut into DCERPC fragments in any way, give the same captured documents. */
module SpoolCapture {
  import opened Bytes
  import opened Ndr
  import opened Spoolss
  import opened Dcerpc

  // -- The client's side ----------------------------------------------------------------------------

  /** One complete request. */
  datatype Call = Call(callId: u32, cont: u16, opnum: u16, stub: bytes)

  /** A stretch of a request's stub; an object UUID of 16 bytes may precede it. */
  datatype Fragment = Fragment(uuid: bytes, chunk: bytes) {
    ghost predicate Fits() { (uuid == [] || |uuid| == 16) && 24 + |uuid| + |chunk| < 0x1_0000 }
  }

  function Flags(first: bool, last: bool, uuid: bool): byte {
    (if first then 1 else 0) + (if last then 2 else 0) + (if uuid then 0x80 else 0)
  }

  function FragmentBody(c: Call, f: Fragment): bytes {
    Put32LE(|c.stub| % 0x1_0000_0000) + Put16LE(c.cont) + Put16LE(c.opnum) + f.uuid + f.chunk
  }

  function EncodeFragment(c: Call, f: Fragment, first: bool, last: bool): bytes {
    BuildPdu(PT_REQUEST, Flags(first, last, f.uuid != []), c.callId, FragmentBody(c, f))
  }

  /** The PDUs of a call: FIRST on the first fragment, LAST on the last. */
  function Pdus(c: Call, frags: seq<Fragment>, first: bool): seq<bytes> {
    if frags == [] then []
    else [EncodeFragment(c, frags[0], first, |frags| == 1)] + Pdus(c, frags[1..], false)
  }

  function Joined(frags: seq<Fragment>): bytes {
    if frags == [] then [] else frags[0].chunk + Joined(frags[1..])
  }

  /** Writes PDUs to the pipe one after the other and collects the answers. */
  function WriteAll(p: Pipe, pdus: seq<bytes>, cap: int): (Pipe, seq<Option<bytes>>)
    decreases |pdus|
  {
    if pdus == [] then (p, [])
    else
      var (q, resp) := OnWrite(p, pdus[0], cap);
      var (r, resps) := WriteAll(q, pdus[1..], cap);
      (r, [resp] + resps)
  }

  function Silent(n: nat): seq<Option<bytes>> { seq(n, i => None) }

  // -- Parsing what was built --------------------------------------------------------------------

  lemma HeaderRoundTrip(ptype: byte, flags: byte, callId: u32, body: bytes)
    requires 16 + |body| < 0x1_0000
    ensures ParseHeader(BuildPdu(ptype, flags, callId, body)) == Some(Header(ptype, flags, callId, body))
  {
    hide Put16LE, Put32LE, U32LE, U16LE;
    var p := BuildPdu(ptype, flags, callId, body);
    assert p[8..10] == Put16LE(16 + |body|);
    Get16LE(p, 8, 16 + |body|);
    assert p[12..16] == Put32LE(callId);
    Get32LE(p, 12, callId);
    assert p[16..|p|] == body;
  }

  lemma FlagsRead(first: bool, last: bool, uuid: bool)
    ensures var f := Flags(first, last, uuid);
            FirstFrag(f) == first && LastFrag(f) == last && ObjectUuid(f) == uuid
  {
  }

  lemma BodyRead(c: Call, f: Fragment)
    requires f.Fits()
    ensures var b := FragmentBody(c, f);
            var off := if f.uuid != [] then 24 else 8;
            && |b| == 8 + |f.uuid| + |f.chunk|
            && U16LE(b, 4) == c.cont && U16LE(b, 6) == c.opnum && b[off..] == f.chunk
  {
    hide Put16LE, Put32LE, U16LE;
    var b := FragmentBody(c, f);
    assert b[4..6] == Put16LE(c.cont) && b[6..8] == Put16LE(c.opnum);
    Get16LE(b, 4, c.cont);
    Get16LE(b, 6, c.opnum);
  }

  /** What the pipe makes of one well-formed fragment. */
  lemma FragmentArrives(p: Pipe, c: Call, f: Fragment, first: bool, last: bool, cap: int)
    requires f.Fits()
    requires first || (p.reasm.active && |p.reasm.stub| + |f.chunk| <= REASM_MAX)
    ensures var q := p.(reasm := if first then Reasm(f.chunk, true, c.callId, c.opnum, c.cont)
                                 else p.reasm.(stub := p.reasm.stub + f.chunk));
            OnWrite(p, EncodeFragment(c, f, first, last), cap) == if last then Finish(q, cap) else (q, None)
  {
    hide Finish, BuildPdu, FragmentBody, Flags, U16LE, BuildFault, FirstFrag, LastFrag, ObjectUuid;
    BodyRead(c, f);
    FlagsRead(first, last, f.uuid != []);
    HeaderRoundTrip(PT_REQUEST, Flags(first, last, f.uuid != []), c.callId, FragmentBody(c, f));
  }

  // -- One call ------------------------------------------------------------------------------------

  lemma WriteFirst(p: Pipe, pdu: bytes, rest: seq<bytes>, cap: int)
    ensures var (q, resp) := OnWrite(p, pdu, cap);
            var (r, resps) := WriteAll(q, rest, cap);
            WriteAll(p, [pdu] + rest, cap) == (r, [resp] + resps)
  {
    hide OnWrite;
    assert ([pdu] + rest)[1..] == rest;
  }

  lemma WriteOne(p: Pipe, pdu: bytes, cap: int)
    ensures var (q, resp) := OnWrite(p, pdu, cap); WriteAll(p, [pdu], cap) == (q, [resp])
  {
    hide OnWrite;
    assert [pdu][1..] == [];
    var resps: seq<Option<bytes>> := [];
    assert [OnWrite(p, pdu, cap).1] + resps == [OnWrite(p, pdu, cap).1];
  }

  lemma {:induction false} RestArrives(p: Pipe, c: Call, frags: seq<Fragment>, cap: int)
    requires frags != [] && forall f | f in frags :: f.Fits()
    requires p.reasm.active && |p.reasm.stub| + |Joined(frags)| <= REASM_MAX
    ensures var done := Finish(p.(reasm := p.reasm.(stub := p.reasm.stub + Joined(frags))), cap);
            WriteAll(p, Pdus(c, frags, false), cap) == (done.0, Silent(|frags| - 1) + [done.1])
    decreases |frags|
  {
    hide OnWrite, Finish, EncodeFragment;
    FragmentArrives(p, c, frags[0], false, |frags| == 1, cap);
    var q := p.(reasm := p.reasm.(stub := p.reasm.stub + frags[0].chunk));
    var rest := frags[1..];
    if rest == [] {
      assert Joined(frags) == frags[0].chunk + [] == frags[0].chunk;
      WriteOne(p, EncodeFragment(c, frags[0], false, true), cap);
      assert Pdus(c, frags, false) == [EncodeFragment(c, frags[0], false, true)];
      assert Silent(|frags| - 1) + [Finish(q, cap).1] == [Finish(q, cap).1];
    } else {
      RestArrives(q, c, rest, cap);
      assert p.reasm.stub + Joined(frags) == q.reasm.stub + Joined(rest);
      WriteFirst(p, EncodeFragment(c, frags[0], false, false), Pdus(c, rest, false), cap);
      var done := Finish(q.(reasm := q.reasm.(stub := q.reasm.stub + Joined(rest))), cap);
      assert [None] + (Silent(|rest| - 1) + [done.1]) == Silent(|frags| - 1) + [done.1];
    }
  }

  /** However a call is cut into fragments, and whatever stale fragments came before it, it reaches the
      dispatcher whole, once, and only its last fragment is answered, under the call's own ids. */
  lemma CallArrives(p: Pipe, c: Call, frags: seq<Fragment>, cap: int)
    requires frags != [] && forall f | f in frags :: f.Fits()
    requires Joined(frags) == c.stub && |c.stub| <= REASM_MAX
    ensures var done := Finish(p.(reasm := Reasm(c.stub, true, c.callId, c.opnum, c.cont)), cap);
            WriteAll(p, Pdus(c, frags, true), cap) == (done.0, Silent(|frags| - 1) + [done.1])
  {
    hide OnWrite, Finish, EncodeFragment;
    FragmentArrives(p, c, frags[0], true, |frags| == 1, cap);
    var q := p.(reasm := Reasm(frags[0].chunk, true, c.callId, c.opnum, c.cont));
    var rest := frags[1..];
    if rest == [] {
      assert Joined(frags) == frags[0].chunk + [] == frags[0].chunk;
      WriteOne(p, EncodeFragment(c, frags[0], true, true), cap);
      assert Pdus(c, frags, true) == [EncodeFragment(c, frags[0], true, true)];
      assert Silent(|frags| - 1) + [Finish(q, cap).1] == [Finish(q, cap).1];
    } else {
      RestArrives(q, c, rest, cap);
      WriteFirst(p, EncodeFragment(c, frags[0], true, false), Pdus(c, rest, false), cap);
      assert q.reasm.stub + Joined(rest) == c.stub;
      var done := Finish(q.(reasm := q.reasm.(stub := q.reasm.stub + Joined(rest))), cap);
      assert [None] + (Silent(|rest| - 1) + [done.1]) == Silent(|frags| - 1) + [done.1];
    }
  }

  lemma {:induction false} OrphansAreIgnored(p: Pipe, c: Call, frags: seq<Fragment>, cap: int)
    requires !p.reasm.active && forall f | f in frags :: f.Fits()
    ensures WriteAll(p, Pdus(c, frags, false), cap).0 == p
    decreases |frags|
  {
    hide OnWrite, EncodeFragment;
    if frags != [] {
      RefusedFragment(p, c, frags[0], |frags| == 1, cap);
      WriteFirst(p, EncodeFragment(c, frags[0], false, |frags| == 1), Pdus(c, frags[1..], false), cap);
      OrphansAreIgnored(p, c, frags[1..], cap);
    }
  }

  /** A continuation that nothing opened is ignored; one that would pass 4 MiB abandons the call. */
  lemma RefusedFragment(p: Pipe, c: Call, f: Fragment, last: bool, cap: int)
    requires f.Fits() && (!p.reasm.active || |p.reasm.stub| + |f.chunk| > REASM_MAX)
    ensures OnWrite(p, EncodeFragment(c, f, false, last), cap)
         == if p.reasm.active then (p.(reasm := IDLE), Some(BuildFault(c.callId, c.cont, STATUS_PROTOCOL_ERROR))) else (p, None)
  {
    hide Finish, BuildPdu, FragmentBody, Flags, U16LE, BuildFault, FirstFrag, LastFrag, ObjectUuid;
    BodyRead(c, f);
    FlagsRead(false, last, f.uuid != []);
    HeaderRoundTrip(PT_REQUEST, Flags(false, last, f.uuid != []), c.callId, FragmentBody(c, f));
  }

  lemma {:induction false} OversizeRest(p: Pipe, c: Call, frags: seq<Fragment>, cap: int)
    requires forall f | f in frags :: f.Fits()
    requires p.reasm.active && |p.reasm.stub| <= REASM_MAX < |p.reasm.stub| + |Joined(frags)|
    ensures WriteAll(p, Pdus(c, frags, false), cap).0 == p.(reasm := IDLE)
    decreases |frags|
  {
    hide OnWrite, EncodeFragment;
    var f, rest := frags[0], frags[1..];
    WriteFirst(p, EncodeFragment(c, f, false, |frags| == 1), Pdus(c, rest, false), cap);
    if |p.reasm.stub| + |f.chunk| > REASM_MAX {
      RefusedFragment(p, c, f, |frags| == 1, cap);
      OrphansAreIgnored(p.(reasm := IDLE), c, rest, cap);
    } else {
      FragmentArrives(p, c, f, false, |frags| == 1, cap);
      OversizeRest(p.(reasm := p.reasm.(stub := p.reasm.stub + f.chunk)), c, rest, cap);
    }
  }

  /** A call of more than 4 MiB never reaches the dispatcher: it leaves no trace but the fault. */
  lemma OversizeCallIsDropped(p: Pipe, c: Call, frags: seq<Fragment>, cap: int)
    requires frags != [] && forall f | f in frags :: f.Fits()
    requires Joined(frags) == c.stub && |c.stub| > REASM_MAX
    ensures WriteAll(p, Pdus(c, frags, true), cap).0 == p.(reasm := IDLE)
  {
    hide OnWrite, EncodeFragment;
    var f, rest := frags[0], frags[1..];
    assert Joined(frags) == f.chunk + Joined(rest) && (rest == [] ==> f.chunk + Joined(rest) == f.chunk);
    assert f.Fits();
    WriteFirst(p, EncodeFragment(c, f, true, false), Pdus(c, rest, false), cap);
    FragmentArrives(p, c, f, true, false, cap);
    OversizeRest(p.(reasm := Reasm(f.chunk, true, c.callId, c.opnum, c.cont)), c, rest, cap);
  }

  // -- A session of calls ----------------------------------------------------------------------------

  /** A call and the way it was cut. */
  datatype Sent = Sent(call: Call, frags: seq<Fragment>) {
    ghost predicate Ok() {
      frags != [] && Joined(frags) == call.stub && |call.stub| <= REASM_MAX && forall f | f in frags :: f.Fits()
    }
  }

  function SessionPdus(sent: seq<Sent>): seq<bytes> {
    if sent == [] then [] else Pdus(sent[0].call, sent[0].frags, true) + SessionPdus(sent[1..])
  }

  function Calls(sent: seq<Sent>): seq<Call> {
    if sent == [] then [] else [sent[0].call] + Calls(sent[1..])
  }

  /** The dispatcher fed with whole calls. */
  function DispatchAll(st: Spool, calls: seq<Call>, cap: int): Spool
    decreases |calls|
  {
    if calls == [] then st
    else DispatchAll(Dispatch(st, calls[0].opnum, calls[0].stub, cap).0, calls[1..], cap)
  }

  lemma {:induction false} WriteAllSplits(p: Pipe, a: seq<bytes>, b: seq<bytes>, cap: int)
    ensures WriteAll(p, a + b, cap).0 == WriteAll(WriteAll(p, a, cap).0, b, cap).0
    decreases |a|
  {
    hide OnWrite;
    if a == [] {
      assert a + b == b;
    } else {
      assert (a + b)[1..] == a[1..] + b;
      WriteAllSplits(OnWrite(p, a[0], cap).0, a[1..], b, cap);
    }
  }

  /** The print-job state after a session is that of its calls, however each was cut. */
  lemma {:induction false} SessionIsItsCalls(p: Pipe, sent: seq<Sent>, cap: int)
    requires forall s | s in sent :: s.Ok()
    ensures WriteAll(p, SessionPdus(sent), cap).0.spool == DispatchAll(p.spool, Calls(sent), cap)
    decreases |sent|
  {
    hide OnWrite, Dispatch, Pdus;
    if sent != [] {
      var s := sent[0];
      assert s.Ok();
      CallArrives(p, s.call, s.frags, cap);
      WriteAllSplits(p, Pdus(s.call, s.frags, true), SessionPdus(sent[1..]), cap);
      SessionIsItsCalls(WriteAll(p, Pdus(s.call, s.frags, true), cap).0, sent[1..], cap);
      assert Calls(sent)[1..] == Calls(sent[1..]);
    }
  }

  // -- A document ------------------------------------------------------------------------------------

  predicate Brackets(opnum: u16) {
    opnum == OP_OPEN_PRINTER || opnum == OP_OPEN_PRINTER_EX || opnum == OP_CLOSE_PRINTER
    || opnum == OP_START_DOC || opnum == OP_END_DOC
  }

  /** The bytes that the WritePrinter calls among calls carry. */
  function Written(calls: seq<Call>): bytes {
    if calls == [] then []
    else
      (if calls[0].opnum == OP_WRITE && ParseWrite(calls[0].stub).Some? then ParseWrite(calls[0].stub).value else [])
      + Written(calls[1..])
  }

  lemma AppendCappedIsFirstBytes(sofar: bytes, more: bytes, cap: int)
    ensures AppendCapped(FirstBytes(sofar, cap), more, cap) == FirstBytes(sofar + more, cap)
  {
    if 0 < cap {
      assert FirstBytes(sofar + more, cap) ==
             if |sofar| >= cap then sofar[..cap] else if |more| > cap - |sofar| then sofar + more[..cap - |sofar|] else sofar + more;
    }
  }

  lemma {:induction false} BodyCollects(st: Spool, sofar: bytes, calls: seq<Call>, cap: int)
    requires st.buf == FirstBytes(sofar, cap)
    requires forall c | c in calls :: !Brackets(c.opnum)
    ensures DispatchAll(st, calls, cap) == st.(buf := FirstBytes(sofar + Written(calls), cap))
    decreases |calls|
  {
    hide ParseWrite, AppendCapped, FirstBytes, Put32LE;
    if calls == [] {
      assert sofar + [] == sofar;
    } else {
      var c := calls[0];
      assert !Brackets(c.opnum);
      var data := if c.opnum == OP_WRITE && ParseWrite(c.stub).Some? then ParseWrite(c.stub).value else [];
      AppendCappedIsFirstBytes(sofar, data, cap);
      var next := Dispatch(st, c.opnum, c.stub, cap).0;
      if c.opnum == OP_WRITE && ParseWrite(c.stub).Some? {
      } else {
        assert sofar + [] == sofar;
      }
      BodyCollects(next, sofar + data, calls[1..], cap);
      assert sofar + data + Written(calls[1..]) == sofar + Written(calls);
    }
  }

  lemma {:induction false} DispatchAllSplits(st: Spool, a: seq<Call>, b: seq<Call>, cap: int)
    ensures DispatchAll(st, a + b, cap) == DispatchAll(DispatchAll(st, a, cap), b, cap)
    decreases |a|
  {
    hide Dispatch;
    if a == [] {
      assert a + b == b;
    } else {
      assert (a + b)[1..] == a[1..] + b;
      DispatchAllSplits(Dispatch(st, a[0].opnum, a[0].stub, cap).0, a[1..], b, cap);
    }
  }

  /** StartDoc, any other calls, EndDoc: exactly one job, named by StartDoc, holding the first cap bytes of
      what the WritePrinter calls carried. */
  lemma BracketCapturesOneJob(st: Spool, start: Call, body: seq<Call>, end: Call, cap: int)
    requires start.opnum == OP_START_DOC && ParseStartDoc(start.stub).Some?
    requires end.opnum == OP_END_DOC && |end.stub| >= HANDLE_LEN
    requires forall c | c in body :: !Brackets(c.opnum)
    ensures var name := ParseStartDoc(start.stub).value;
            DispatchAll(st, [start] + body + [end], cap)
            == Spool(name, [], false, st.captured + [Job(name, FirstBytes(Written(body), cap))])
  {
    hide ParseStartDoc, ParseWrite;
    var name := ParseStartDoc(start.stub).value;
    var started := Spool(name, [], true, st.captured);
    DispatchAllSplits(st, [start] + body, [end], cap);
    DispatchAllSplits(st, [start], body, cap);
    assert DispatchAll(st, [start], cap) == started by { assert [start][1..] == []; }
    BodyCollects(started, [], body, cap);
    assert [] + Written(body) == Written(body);
    var filled := started.(buf := FirstBytes(Written(body), cap));
    assert DispatchAll(filled, [end], cap) == Dispatch(filled, end.opnum, end.stub, cap).0 by { assert [end][1..] == []; }
  }

  /** The whole path: fragments of one bracket, cut in any way, after anything, add exactly that job. */
  lemma FragmentedDocumentIsCaptured(p: Pipe, sent: seq<Sent>, start: Call, body: seq<Call>, end: Call, cap: int)
    requires forall s | s in sent :: s.Ok()
    requires Calls(sent) == [start] + body + [end]
    requires start.opnum == OP_START_DOC && ParseStartDoc(start.stub).Some?
    requires end.opnum == OP_END_DOC && |end.stub| >= HANDLE_LEN
    requires forall c | c in body :: !Brackets(c.opnum)
    ensures WriteAll(p, SessionPdus(sent), cap).0.spool.captured
         == p.spool.captured + [Job(ParseStartDoc(start.stub).value, FirstBytes(Written(body), cap))]
  {
    SessionIsItsCalls(p, sent, cap);
    BracketCapturesOneJob(p.spool, start, body, end, cap);
  }

  // -- Well-formed WritePrinter and StartDoc stubs ----------------------------------------------------

  /** RpcWritePrinter [in]: handle, conformant byte array, and, if it is there, cbBuf behind its padding; then whatever else. */
  function EncodeWrite(handle: bytes, data: bytes, cbBuf: Option<u32>, tail: bytes): bytes
    requires |handle| == HANDLE_LEN && |data| < 0x1_0000_0000
  {
    handle + Put32LE(|data|) + data + if cbBuf.Some? then Zeros(Pad4(|data|)) + Put32LE(cbBuf.value) + tail else tail
  }

  /** The data of a write: the array, cut down to cbBuf when that is there (all four octets of it) and smaller. */
  lemma WriteRoundTrip(handle: bytes, data: bytes, cbBuf: Option<u32>, tail: bytes)
    requires |handle| == HANDLE_LEN && |data| < 0x1_0000_0000
    requires cbBuf.None? ==> |tail| < Pad4(|data|) + 4
    ensures ParseWrite(EncodeWrite(handle, data, cbBuf, tail)) ==
            Some(if cbBuf.Some? && cbBuf.value < |data| then data[..cbBuf.value] else data)
  {
    hide Put32LE, U32LE;
    var b := EncodeWrite(handle, data, cbBuf, tail);
    var end := HANDLE_LEN + 4 + |data|;
    assert b[HANDLE_LEN..HANDLE_LEN + 4] == Put32LE(|data|);
    Get32LE(b, HANDLE_LEN, |data|);
    assert b[HANDLE_LEN + 4..end] == data;
    assert data[..|data|] == data;
    if cbBuf.Some? {
      assert Aligned(b, end, 4) == end + Pad4(|data|);
      assert b[end + Pad4(|data|)..end + Pad4(|data|) + 4] == Put32LE(cbBuf.value);
      Get32LE(b, end + Pad4(|data|), cbBuf.value);
    }
  }

  /** A unique pointer to a string: null, or a non-zero referent and the string deferred behind the structure. */
  datatype Ref = Null | Ref(id: u32, text: seq<u16>) {
    ghost predicate Ok() { Ref? ==> id != 0 && |text| < 0x7FFF_FFFF }

    function Id(): u32 { if Null? then 0 else id }

    function Text(): seq<u16> { if Null? then [] else text }

    function Deferred(): bytes
      requires Ok()
    {
      if Null? then [] else EncodeString(text)
    }
  }

  /** DOC_INFO_1 behind its own pointer. */
  datatype DocInfo = NoInfo | DocInfo(id: u32, name: Ref, file: Ref, datatyp: Ref) {
    ghost predicate Ok() { DocInfo? ==> id != 0 && name.Ok() && file.Ok() && datatyp.Ok() }
  }

  /** RpcStartDocPrinter [in]: handle, level, pointer, the three pointers, and the strings of those that are not null. */
  function EncodeStartDoc(handle: bytes, level: u32, info: DocInfo): bytes
    requires info.Ok()
  {
    match info
    case NoInfo => handle + Put32LE(level) + Put32LE(0)
    case DocInfo(id, name, file, datatyp) =>
      handle + Put32LE(level) + Put32LE(id) + Put32LE(name.Id()) + Put32LE(file.Id()) + Put32LE(datatyp.Id())
      + name.Deferred() + file.Deferred() + datatyp.Deferred()
  }

  lemma RefRead(pre: bytes, r: Ref, post: bytes)
    requires r.Ok() && |pre| % 4 == 0
    ensures ReadIf(pre + r.Deferred() + post, Some(|pre|), r.Id()) == Some((r.Text(), |pre| + |r.Deferred()|))
    ensures |r.Deferred()| % 4 == 0
  {
    hide EncodeString, ReadString;
    if r.Ref? {
      StringLength(r.text);
      StringRoundTrip(pre, r.text, post);
    }
  }

  /** The three deferred strings, one after the other: each is found where the one before it ends. */
  lemma RefsRead(head: bytes, a: Ref, b: Ref, c: Ref, rest: bytes)
    requires a.Ok() && b.Ok() && c.Ok() && |head| % 4 == 0
    ensures var stub := head + a.Deferred() + b.Deferred() + c.Deferred() + rest;
            var first := ReadIf(stub, Some(|head|), a.Id());
            var second := ReadIf(stub, After(first), b.Id());
            var third := ReadIf(stub, After(second), c.Id());
            first.Some? && first.value.0 == a.Text() && third.Some?
  {
    hide ReadIf, EncodeString;
    var e1, e2, e3 := a.Deferred(), b.Deferred(), c.Deferred();
    RefRead(head, a, e2 + e3 + rest);
    RefRead(head + e1, b, e3 + rest);
    RefRead(head + e1 + e2, c, rest);
    Rejoined(head, e1, e2, e3, rest);
  }

  lemma Rejoined(a: bytes, b: bytes, c: bytes, d: bytes, e: bytes)
    ensures a + b + (c + d + e) == a + b + c + d + e == a + b + c + (d + e)
  {
  }

  lemma StartDocHead(handle: bytes, level: u32, id: u32, a: u32, b: u32, c: u32, tail: bytes)
    requires |handle| == HANDLE_LEN
    ensures var stub := handle + Put32LE(level) + Put32LE(id) + Put32LE(a) + Put32LE(b) + Put32LE(c) + tail;
            U32LE(stub, 24) == id && U32LE(stub, 28) == a && U32LE(stub, 32) == b && U32LE(stub, 36) == c
  {
    hide Put32LE, U32LE;
    var stub := handle + Put32LE(level) + Put32LE(id) + Put32LE(a) + Put32LE(b) + Put32LE(c) + tail;
    assert stub[24..28] == Put32LE(id) && stub[28..32] == Put32LE(a);
    assert stub[32..36] == Put32LE(b) && stub[36..40] == Put32LE(c);
    Get32LE(stub, 24, id);
    Get32LE(stub, 28, a);
    Get32LE(stub, 32, b);
    Get32LE(stub, 36, c);
  }

  /** The document name of a well-formed StartDoc, whichever of its pointers are null and whatever follows it. */
  lemma StartDocRoundTrip(handle: bytes, level: u32, info: DocInfo, rest: bytes)
    requires |handle| == HANDLE_LEN && info.Ok()
    ensures ParseStartDoc(EncodeStartDoc(handle, level, info) + rest) == Some(if info.NoInfo? then [] else info.name.Text())
  {
    hide Put32LE, U32LE, EncodeString, ReadIf;
    match info
    case NoInfo =>
      var stub := EncodeStartDoc(handle, level, info) + rest;
      assert stub[24..28] == Put32LE(0);
      Get32LE(stub, 24, 0);
    case DocInfo(id, name, file, datatyp) =>
      var head := handle + Put32LE(level) + Put32LE(id) + Put32LE(name.Id()) + Put32LE(file.Id()) + Put32LE(datatyp.Id());
      var e1, e2, e3 := name.Deferred(), file.Deferred(), datatyp.Deferred();
      RefsRead(head, name, file, datatyp, rest);
      StartDocHead(handle, level, id, name.Id(), file.Id(), datatyp.Id(), e1 + e2 + e3 + rest);
      Rejoined(head, e1, e2, e3, rest);
      assert head + (e1 + e2 + e3 + rest) == head + e1 + e2 + e3 + rest;
  }

  lemma StringLength(units: seq<u16>)
    requires |units| < 0x7FFF_FFFF
    ensures |EncodeString(units)| % 4 == 0
  {
    StringLayout([], units, []);
    hide EncodeString, EncodeUnits, Put32LE;
    PaddedLength(2 * (|units| + 1));
  }

  lemma PaddedLength(n: nat)
    ensures (12 + n + Pad4(n)) % 4 == 0
  {
    assert (n + Pad4(n)) % 4 == 0;
  }

  // -- Any input ---------------------------------------------------------------------------------------

  /** The response to a call is a PDU that its sender can match to the call. */
  lemma ResponseMatchesCall(callId: u32, cont: u16, stub: bytes)
    requires 24 + |stub| < 0x1_0000
    ensures var h := ParseHeader(BuildResponse(callId, cont, stub));
            && h.Some? && h.value.ptype == PT_RESPONSE && h.value.callId == callId
            && FirstFrag(h.value.flags) && LastFrag(h.value.flags)
            && |h.value.body| == 8 + |stub| && U16LE(h.value.body, 4) == cont && h.value.body[8..] == stub
  {
    hide Put32LE, Put16LE, U16LE, BuildPdu;
    var body := Put32LE(|stub| % 0x1_0000_0000) + Put16LE(cont) + [0, 0] + stub;
    HeaderRoundTrip(PT_RESPONSE, 3, callId, body);
    assert body[4..6] == Put16LE(cont);
    Get16LE(body, 4, cont);
  }

  /** Whatever PDUs of at most 1 MiB arrive, no more than 4 MiB is ever held for reassembly, and with a cap
      no more than cap bytes of document. */
  lemma {:induction false} MemoryIsBounded(p: Pipe, pdus: seq<bytes>, cap: int)
    requires forall b | b in pdus :: |b| <= 0x10_0000
    requires |p.reasm.stub| <= REASM_MAX && (cap > 0 ==> |p.spool.buf| <= cap)
    ensures var q := WriteAll(p, pdus, cap).0; |q.reasm.stub| <= REASM_MAX && (cap > 0 ==> |q.spool.buf| <= cap)
    decreases |pdus|
  {
    hide OnWrite;
    if pdus != [] {
      OneWriteIsBounded(p, pdus[0], cap);
      MemoryIsBounded(OnWrite(p, pdus[0], cap).0, pdus[1..], cap);
    }
  }

  lemma OneWriteIsBounded(p: Pipe, pdu: bytes, cap: int)
    requires |pdu| <= 0x10_0000
    requires |p.reasm.stub| <= REASM_MAX && (cap > 0 ==> |p.spool.buf| <= cap)
    ensures var q := OnWrite(p, pdu, cap).0; |q.reasm.stub| <= REASM_MAX && (cap > 0 ==> |q.spool.buf| <= cap)
  {
    hide ParseWrite, ParseStartDoc, BuildPdu, U16LE, U32LE;
  }
}
