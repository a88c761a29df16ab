/** What reaches the capture through SMB: spool files on the print share, and documents through a spoolss pipe. */
module SmbCapture {
  import opened Bytes
  import opened SmbTree
  import Dcerpc
  import SC = SpoolCapture
  import SS = SpoolSession
  import Spoolss

  // -- Spool files --------------------------------------------------------------------------------------------------

  function DataOf(uses: seq<Use>): bytes {
    if uses == [] then [] else (if uses[0].Written? then uses[0].data else []) + DataOf(uses[1..])
  }

  /** A spool file holds the first cap octets of all that was written to it. */
  lemma {:induction false} SpoolUses(doc: seq<u16>, sofar: bytes, uses: seq<Use>, cap: int)
    ensures UseAll(SpoolHandle(doc, Spoolss.FirstBytes(sofar, cap)), uses, cap)
         == SpoolHandle(doc, Spoolss.FirstBytes(sofar + DataOf(uses), cap))
    decreases |uses|
  {
    hide Spoolss.FirstBytes, Spoolss.AppendCapped;
    if uses == [] {
      assert sofar + DataOf(uses) == sofar;
    } else {
      match uses[0]
      case Written(data) =>
        SC.AppendCappedIsFirstBytes(sofar, data, cap);
        SpoolUses(doc, sofar + data, uses[1..], cap);
        assert sofar + data + DataOf(uses[1..]) == sofar + DataOf(uses);
      case Consumed(_) =>
        SpoolUses(doc, sofar, uses[1..], cap);
        assert [] + DataOf(uses[1..]) == DataOf(uses[1..]);
    }
  }

  /** A file created on a print tree, written to while anything else goes on, and closed: one job with its name and the
      first cap octets of its writes in order; none when nothing was written. Its handle is gone. */
  lemma SpoolFileCaptured(c: ShareConf, user: seq<u16>, s: Shares, tree: u32, name: seq<u16>, fid: bytes, events: seq<Event>)
    requires tree in s.printTrees && LeavesOpen(fid, events)
    ensures var data := Spoolss.FirstBytes(DataOf(UsesOf(fid, events)), c.cap);
            var created := Apply(c, user, s, Create(tree, name), fid).0;
            var before := Run(c, user, created, events);
            var after := Apply(c, user, before, Close(fid), []).0;
            && after.jobs == before.jobs + (if data == [] then [] else [FromSpool(name, user, data)])
            && fid !in after.handles
  {
    hide Spoolss.FirstBytes, Refuse, Accept, Run, UsesOf, UseAll;
    var s1 := Apply(c, user, s, Create(tree, name), fid).0;
    assert s1.handles[fid] == SpoolHandle(name, []);
    HandleIsItsUses(c, user, s1, events, fid);
    EmptyFirst(c.cap);
    SpoolUses(name, [], UsesOf(fid, events), c.cap);
    assert [] + DataOf(UsesOf(fid, events)) == DataOf(UsesOf(fid, events));
  }

  lemma EmptyFirst(cap: int)
    ensures Spoolss.FirstBytes([], cap) == []
  {
  }

  // -- Pipes ----------------------------------------------------------------------------------------------------------

  /** The PDUs written to a pipe. */
  function PdusOf(uses: seq<Use>): seq<bytes> {
    if uses == [] then [] else (if uses[0].Written? then [uses[0].data] else []) + PdusOf(uses[1..])
  }

  function Flat(answers: seq<Option<bytes>>): bytes {
    if answers == [] then [] else (if answers[0].Some? then answers[0].value else []) + Flat(answers[1..])
  }

  /** The octets that the reads return, and the jobs handed over, while a handle is used. */
  function Returned(h: Handle, uses: seq<Use>, cap: int): bytes
    decreases |uses|
  {
    if uses == [] then []
    else (if uses[0].Consumed? then ReadFrom(h, uses[0].length).1 else []) + Returned(UseOne(h, uses[0], cap), uses[1..], cap)
  }

  function HandedOver(h: Handle, uses: seq<Use>, cap: int): seq<Captured>
    decreases |uses|
  {
    if uses == [] then []
    else (if uses[0].Written? then WriteTo(h, uses[0].data, cap).1 else []) + HandedOver(UseOne(h, uses[0], cap), uses[1..], cap)
  }

  function Drained(p: Dcerpc.Pipe): Dcerpc.Pipe { p.(spool := p.spool.(captured := [])) }

  function WithJobs(p: Dcerpc.Pipe, jobs: seq<Spoolss.Job>): Dcerpc.Pipe { p.(spool := p.spool.(captured := jobs + p.spool.captured)) }

  lemma DispatchIgnoresJobs(st: Spoolss.Spool, jobs: seq<Spoolss.Job>, opnum: u16, stub: bytes, cap: int)
    ensures var (t, out) := Spoolss.Dispatch(st, opnum, stub, cap);
            Spoolss.Dispatch(st.(captured := jobs + st.captured), opnum, stub, cap) == (t.(captured := jobs + t.captured), out)
  {
    hide Spoolss.ParseStartDoc, Spoolss.ParseWrite, Spoolss.AppendCapped, Put32LE;
    assert forall j :: jobs + (st.captured + [j]) == jobs + st.captured + [j];
  }

  /** What a pipe has captured does not influence what it does next. */
  lemma OnWriteIgnoresJobs(p: Dcerpc.Pipe, jobs: seq<Spoolss.Job>, pdu: bytes, cap: int)
    ensures var (q, out) := Dcerpc.OnWrite(p, pdu, cap);
            Dcerpc.OnWrite(WithJobs(p, jobs), pdu, cap) == (WithJobs(q, jobs), out)
  {
    hide Spoolss.Dispatch, Dcerpc.BuildFault, Dcerpc.BuildResponse, Dcerpc.BuildBindAck;
    hide Dcerpc.FirstFrag, Dcerpc.LastFrag, Dcerpc.ObjectUuid, U16LE, U32LE;
    match Dcerpc.ParseHeader(pdu)
    case None =>
    case Some(h) =>
      if h.ptype == Dcerpc.PT_REQUEST && |h.body| >= 8 {
        var off := if Dcerpc.ObjectUuid(h.flags) then 24 else 8;
        if |h.body| >= off {
          var stub := h.body[off..];
          DispatchIgnoresJobs(p.spool, jobs, U16LE(h.body, 6), stub, cap);
          DispatchIgnoresJobs(p.spool, jobs, p.reasm.opnum, p.reasm.stub + stub, cap);
        }
      }
  }

  lemma {:induction false} WriteAllIgnoresJobs(p: Dcerpc.Pipe, jobs: seq<Spoolss.Job>, pdus: seq<bytes>, cap: int)
    ensures var (q, outs) := SC.WriteAll(p, pdus, cap);
            SC.WriteAll(WithJobs(p, jobs), pdus, cap) == (WithJobs(q, jobs), outs)
    decreases |pdus|
  {
    hide Dcerpc.OnWrite, WithJobs;
    if pdus != [] {
      OnWriteIgnoresJobs(p, jobs, pdus[0], cap);
      WriteAllIgnoresJobs(Dcerpc.OnWrite(p, pdus[0], cap).0, jobs, pdus[1..], cap);
    }
  }

  /** What using a pipe handle comes to. */
  ghost predicate PipeOutcome(p: Dcerpc.Pipe, readBuf: bytes, uses: seq<Use>, cap: int) {
    var (q, answers) := SC.WriteAll(p, PdusOf(uses), cap);
    var h := UseAll(RpcHandle(p, readBuf), uses, cap);
    && h.RpcHandle? && h.pipe == Drained(q)
    && HandedOver(RpcHandle(p, readBuf), uses, cap) == Rpc(q.spool.captured)
    && Returned(RpcHandle(p, readBuf), uses, cap) + h.readBuf == readBuf + Flat(answers)
  }

  /** A pipe handle goes where the DCERPC layer goes on the PDUs written, whatever is read in between: it hands over
      the jobs of that run, and its reads return the answers, in order and without loss. */
  lemma {:induction false} PipeUses(p: Dcerpc.Pipe, readBuf: bytes, uses: seq<Use>, cap: int)
    requires p.spool.captured == []
    ensures PipeOutcome(p, readBuf, uses, cap)
    decreases |uses|
  {
    hide Dcerpc.OnWrite, SC.WriteAll, UseAll, HandedOver, Returned, PipeOutcome;
    if uses == [] {
      NoUses(p, readBuf, cap);
    } else {
      match uses[0]
      case Written(pdu) =>
        var (p1, out) := Dcerpc.OnWrite(p, pdu, cap);
        var buf := readBuf + (if out.Some? then out.value else []);
        PipeUses(Drained(p1), buf, uses[1..], cap);
        WriteAllIgnoresJobs(Drained(p1), p1.spool.captured, PdusOf(uses[1..]), cap);
        WrittenFirst(p, readBuf, uses, cap);
      case Consumed(n) =>
        var k := Min(n, |readBuf|);
        PipeUses(p, readBuf[k..], uses[1..], cap);
        ConsumedFirst(p, readBuf, uses, cap);
    }
  }

  lemma NoUses(p: Dcerpc.Pipe, readBuf: bytes, cap: int)
    requires p.spool.captured == []
    ensures PipeOutcome(p, readBuf, [], cap)
  {
    var empty: bytes := [];
    assert empty + readBuf == readBuf + empty;
  }

  lemma WrittenFirst(p: Dcerpc.Pipe, readBuf: bytes, uses: seq<Use>, cap: int)
    requires uses != [] && uses[0].Written? && p.spool.captured == []
    requires var (p1, out) := Dcerpc.OnWrite(p, uses[0].data, cap);
             && PipeOutcome(Drained(p1), readBuf + (if out.Some? then out.value else []), uses[1..], cap)
             && (var (q, outs) := SC.WriteAll(Drained(p1), PdusOf(uses[1..]), cap);
                 SC.WriteAll(WithJobs(Drained(p1), p1.spool.captured), PdusOf(uses[1..]), cap) == (WithJobs(q, p1.spool.captured), outs))
    ensures PipeOutcome(p, readBuf, uses, cap)
  {
    hide Dcerpc.OnWrite, SC.WriteAll;
    var (p1, out) := Dcerpc.OnWrite(p, uses[0].data, cap);
    var answer := if out.Some? then out.value else [];
    assert WithJobs(Drained(p1), p1.spool.captured) == p1 by { assert p1.spool.captured + [] == p1.spool.captured; }
    var (q, outs) := SC.WriteAll(Drained(p1), PdusOf(uses[1..]), cap);
    SC.WriteFirst(p, uses[0].data, PdusOf(uses[1..]), cap);
    assert Rpc(p1.spool.captured) + Rpc(q.spool.captured) == Rpc(p1.spool.captured + q.spool.captured);
    assert ([out] + outs)[1..] == outs;
    assert readBuf + (answer + Flat(outs)) == readBuf + answer + Flat(outs);
    var back := Returned(RpcHandle(Drained(p1), readBuf + answer), uses[1..], cap);
    assert [] + back == back;
  }

  lemma ConsumedFirst(p: Dcerpc.Pipe, readBuf: bytes, uses: seq<Use>, cap: int)
    requires uses != [] && uses[0].Consumed?
    requires PipeOutcome(p, readBuf[Min(uses[0].length, |readBuf|)..], uses[1..], cap)
    ensures PipeOutcome(p, readBuf, uses, cap)
  {
    hide Dcerpc.OnWrite, SC.WriteAll;
    var k := Min(uses[0].length, |readBuf|);
    var pdus := PdusOf(uses[1..]);
    assert [] + pdus == pdus;
    var h1 := RpcHandle(p, readBuf[k..]);
    var handed := HandedOver(h1, uses[1..], cap);
    assert [] + handed == handed;
    var back := Returned(h1, uses[1..], cap);
    var h := UseAll(h1, uses[1..], cap);
    var answers := SC.WriteAll(p, pdus, cap).1;
    assert (readBuf[..k] + back) + h.readBuf == readBuf[..k] + (back + h.readBuf);
    assert readBuf[..k] + (readBuf[k..] + Flat(answers)) == readBuf + Flat(answers);
  }

  /** What is printed through a pipe, whatever was bound, called or left pending on it before: the jobs it hands over are the
      documents of the calls, however those are cut into fragments, with BINDs and PDUs of other types in between and reads
      at any time. */
  lemma DocumentsThroughPipe(p: Dcerpc.Pipe, readBuf: bytes, uses: seq<Use>, sent: seq<SC.Sent>, cap: int)
    requires p.spool.captured == []
    requires SS.Requests(PdusOf(uses)) == SC.SessionPdus(sent) && forall s | s in sent :: s.Ok()
    ensures HandedOver(RpcHandle(p, readBuf), uses, cap) == Rpc(SS.Documents(p.spool, SC.Calls(sent), cap))
  {
    hide UseAll, HandedOver, Returned, PdusOf, SC.WriteAll, SC.SessionPdus, SC.Calls, SS.Documents, SS.Requests;
    PipeUses(p, readBuf, uses, cap);
    SS.ConnectionCapturesItsDocuments(p, PdusOf(uses), sent, cap);
    var documents := SS.Documents(p.spool, SC.Calls(sent), cap);
    assert [] + documents == documents;
  }

  /** Every open pipe has handed its jobs over. */
  ghost predicate Drains(s: Shares) {
    forall f | f in s.handles && s.handles[f].RpcHandle? :: s.handles[f].pipe.spool.captured == []
  }

  lemma StepDrains(c: ShareConf, user: seq<u16>, s: Shares, e: Event)
    requires Drains(s)
    ensures Drains(Apply(c, user, s, e.request, e.fid).0)
  {
    hide Dcerpc.OnWrite, Spoolss.AppendCapped, Refuse, Accept, ReadBody, WriteBody, Completed, LastSegment;
  }

  lemma {:induction false} RunDrains(c: ShareConf, user: seq<u16>, s: Shares, events: seq<Event>)
    requires Drains(s)
    ensures Drains(Run(c, user, s, events))
    decreases |events|
  {
    hide Apply, Drains;
    if events != [] {
      StepDrains(c, user, s, events[0]);
      RunDrains(c, user, Apply(c, user, s, events[0].request, events[0].fid).0, events[1..]);
    }
  }

  // -- Whose jobs they are ----------------------------------------------------------------------------------------------

  /** A captured job and the file id it came through. */
  datatype Tagged = Tagged(fid: bytes, job: Captured)

  function Tag(fid: bytes, jobs: seq<Captured>): seq<Tagged> { seq(|jobs|, i requires 0 <= i < |jobs| => Tagged(fid, jobs[i])) }

  function Untag(jobs: seq<Tagged>): seq<Captured> { seq(|jobs|, i requires 0 <= i < |jobs| => jobs[i].job) }

  function Through(fid: bytes, jobs: seq<Tagged>): seq<Captured> {
    if jobs == [] then [] else (if jobs[0].fid == fid then [jobs[0].job] else []) + Through(fid, jobs[1..])
  }

  function StepJobs(c: ShareConf, user: seq<u16>, s: Shares, r: Request): seq<Tagged> {
    match r
    case Write(f, data) => if f in s.handles then Tag(f, WriteTo(s.handles[f], data, c.cap).1) else []
    case Close(f) => if f in s.handles then Tag(f, Completed(s.handles[f], user)) else []
    case _ => []
  }

  function RunJobs(c: ShareConf, user: seq<u16>, s: Shares, events: seq<Event>): seq<Tagged>
    decreases |events|
  {
    if events == [] then []
    else StepJobs(c, user, s, events[0].request) + RunJobs(c, user, Apply(c, user, s, events[0].request, events[0].fid).0, events[1..])
  }

  lemma StepAddsJobs(c: ShareConf, user: seq<u16>, s: Shares, e: Event)
    ensures Apply(c, user, s, e.request, e.fid).0.jobs == s.jobs + Untag(StepJobs(c, user, s, e.request))
  {
    hide WriteTo, ReadFrom, Refuse, Accept, ReadBody, WriteBody, Completed, Connect, Open;
    OtherStepsAddNone(c, user, s, e);
    assert s.jobs + Untag([]) == s.jobs;
    match e.request
    case Write(f, data) =>
      if f in s.handles {
        var jobs := WriteTo(s.handles[f], data, c.cap).1;
        assert Untag(Tag(f, jobs)) == jobs;
      }
    case Close(f) =>
      if f in s.handles {
        var jobs := Completed(s.handles[f], user);
        assert Untag(Tag(f, jobs)) == jobs;
      }
    case _ =>
  }

  lemma OtherStepsAddNone(c: ShareConf, user: seq<u16>, s: Shares, e: Event)
    ensures e.request.TreeConnect? || e.request.Create? ==> Apply(c, user, s, e.request, e.fid).0.jobs == s.jobs
  {
  }

  /** The jobs a run captures are those of its steps, in order: none is lost, none made up. */
  lemma {:induction false} RunAddsJobs(c: ShareConf, user: seq<u16>, s: Shares, events: seq<Event>)
    ensures Run(c, user, s, events).jobs == s.jobs + Untag(RunJobs(c, user, s, events))
    decreases |events|
  {
    hide Apply, StepJobs;
    if events == [] {
      assert s.jobs + Untag([]) == s.jobs;
    } else {
      var next := Apply(c, user, s, events[0].request, events[0].fid).0;
      StepAddsJobs(c, user, s, events[0]);
      RunAddsJobs(c, user, next, events[1..]);
      var a, b := StepJobs(c, user, s, events[0].request), RunJobs(c, user, next, events[1..]);
      assert Untag(a + b) == Untag(a) + Untag(b);
      assert s.jobs + Untag(a) + Untag(b) == s.jobs + (Untag(a) + Untag(b));
    }
  }

  lemma {:induction false} ThroughSplits(fid: bytes, a: seq<Tagged>, b: seq<Tagged>)
    ensures Through(fid, a + b) == Through(fid, a) + Through(fid, b)
  {
    if a == [] {
      assert a + b == b && [] + Through(fid, b) == Through(fid, b);
    } else {
      assert (a + b)[0] == a[0] && (a + b)[1..] == a[1..] + b;
      ThroughSplits(fid, a[1..], b);
      Appended(if a[0].fid == fid then [a[0].job] else [], Through(fid, a[1..]), Through(fid, b));
    }
  }

  lemma {:induction false} ThroughOwn(fid: bytes, f: bytes, jobs: seq<Captured>)
    ensures Through(fid, Tag(f, jobs)) == if f == fid then jobs else []
  {
    if jobs != [] {
      assert Tag(f, jobs)[1..] == Tag(f, jobs[1..]);
      ThroughOwn(fid, f, jobs[1..]);
    }
  }

  lemma StepThrough(c: ShareConf, user: seq<u16>, s: Shares, r: Request, fid: bytes)
    requires fid in s.handles && r != Close(fid)
    ensures var u := UseIn(fid, r);
            Through(fid, StepJobs(c, user, s, r)) ==
            if u.Some? && u.value.Written? then WriteTo(s.handles[fid], u.value.data, c.cap).1 else []
  {
    hide WriteTo, Completed;
    match r
    case Write(f, data) =>
      if f in s.handles {
        ThroughOwn(fid, f, WriteTo(s.handles[f], data, c.cap).1);
      }
    case Close(f) =>
      if f in s.handles {
        ThroughOwn(fid, f, Completed(s.handles[f], user));
      }
    case _ =>
  }

  /** The jobs that come through one open handle are those that its own uses hand over, whatever else the run does. */
  lemma {:induction false} JobsThroughHandle(c: ShareConf, user: seq<u16>, s: Shares, events: seq<Event>, fid: bytes)
    requires fid in s.handles && LeavesOpen(fid, events)
    ensures Through(fid, RunJobs(c, user, s, events)) == HandedOver(s.handles[fid], UsesOf(fid, events), c.cap)
    decreases |events|
  {
    hide Apply, StepJobs, UseOne, WriteTo;
    if events != [] {
      var e := events[0];
      var next := Apply(c, user, s, e.request, e.fid).0;
      HandleStep(c, user, s, e, fid);
      StepThrough(c, user, s, e.request, fid);
      JobsThroughHandle(c, user, next, events[1..], fid);
      ThroughSplits(fid, StepJobs(c, user, s, e.request), RunJobs(c, user, next, events[1..]));
      HandedCons(s.handles[fid], fid, events, c.cap);
    }
  }

  lemma HandedCons(h: Handle, fid: bytes, events: seq<Event>, cap: int)
    requires events != []
    ensures var u := UseIn(fid, events[0].request);
            HandedOver(h, UsesOf(fid, events), cap) ==
            (if u.Some? && u.value.Written? then WriteTo(h, u.value.data, cap).1 else [])
            + HandedOver(if u.Some? then UseOne(h, u.value, cap) else h, UsesOf(fid, events[1..]), cap)
  {
    hide UseOne, WriteTo;
    var u := UseIn(fid, events[0].request);
    var rest := UsesOf(fid, events[1..]);
    if u.Some? {
      assert UsesOf(fid, events) == [u.value] + rest;
      assert ([u.value] + rest)[1..] == rest;
    } else {
      var handed := HandedOver(h, rest, cap);
      assert [] + handed == handed;
    }
  }

  lemma DocumentsFrom(c: ShareConf, user: seq<u16>, s: Shares, events: seq<Event>, fid: bytes, sent: seq<SC.Sent>)
    requires Drains(s) && fid in s.handles && s.handles[fid].RpcHandle? && LeavesOpen(fid, events)
    requires SS.Requests(PdusOf(UsesOf(fid, events))) == SC.SessionPdus(sent) && forall x | x in sent :: x.Ok()
    ensures Run(c, user, s, events).jobs == s.jobs + Untag(RunJobs(c, user, s, events))
    ensures Through(fid, RunJobs(c, user, s, events)) == Rpc(SS.Documents(s.handles[fid].pipe.spool, SC.Calls(sent), c.cap))
  {
    hide Run, RunJobs, HandedOver, PdusOf, UsesOf, SC.SessionPdus, SC.Calls, SS.Documents, SS.Requests, LeavesOpen;
    RunAddsJobs(c, user, s, events);
    JobsThroughHandle(c, user, s, events, fid);
    var h := s.handles[fid];
    DocumentsThroughPipe(h.pipe, h.readBuf, UsesOf(fid, events), sent, c.cap);
  }

  /** What is printed over SMB through a spoolss pipe: after any run of an authenticated session, and in any further run that
      leaves the pipe open, whatever other files and pipes it uses, the jobs that come through the pipe are the documents of
      the calls written to it, in order. */
  lemma DocumentsOverSmb(c: ShareConf, user: seq<u16>, earlier: seq<Event>, events: seq<Event>, fid: bytes, sent: seq<SC.Sent>)
    requires var s := Run(c, user, NO_SHARES, earlier);
             fid in s.handles && s.handles[fid].RpcHandle? && LeavesOpen(fid, events)
    requires SS.Requests(PdusOf(UsesOf(fid, events))) == SC.SessionPdus(sent) && forall x | x in sent :: x.Ok()
    ensures var s := Run(c, user, NO_SHARES, earlier);
            && Run(c, user, s, events).jobs == s.jobs + Untag(RunJobs(c, user, s, events))
            && Through(fid, RunJobs(c, user, s, events)) == Rpc(SS.Documents(s.handles[fid].pipe.spool, SC.Calls(sent), c.cap))
  {
    hide Run, RunJobs, HandedOver, PdusOf, UsesOf, SC.SessionPdus, SC.Calls, SS.Documents, SS.Requests, LeavesOpen;
    RunDrains(c, user, NO_SHARES, earlier);
    DocumentsFrom(c, user, Run(c, user, NO_SHARES, earlier), events, fid, sent);
  }

  /** A print client's whole session: the pipe is opened and bound, then come OpenPrinter or whatever else but StartDoc, one
      bracket, and ClosePrinter or whatever else but StartDoc; then the pipe is closed. Exactly the one document has come
      through it, with the name StartDoc gave it and the first cap octets of what was written. */
  lemma DocumentOverSmb(c: ShareConf, user: seq<u16>, s: Shares, tree: u32, name: seq<u16>, fid: bytes, events: seq<Event>,
                        sent: seq<SC.Sent>, before: seq<SC.Call>, start: SC.Call, body: seq<SC.Call>, end: SC.Call, after: seq<SC.Call>)
    requires tree !in s.printTrees && c.isSpoolss(name) && LeavesOpen(fid, events)
    requires SS.Requests(PdusOf(UsesOf(fid, events))) == SC.SessionPdus(sent) && forall x | x in sent :: x.Ok()
    requires SC.Calls(sent) == before + ([start] + body + [end]) + after
    requires forall call | call in before + after :: call.opnum != Spoolss.OP_START_DOC
    requires start.opnum == Spoolss.OP_START_DOC && Spoolss.ParseStartDoc(start.stub).Some?
    requires end.opnum == Spoolss.OP_END_DOC && |end.stub| >= Spoolss.HANDLE_LEN
    requires forall call | call in body :: !SC.Brackets(call.opnum)
    ensures var created := Apply(c, user, s, Create(tree, name), fid).0;
            var last := Run(c, user, created, events);
            && Through(fid, RunJobs(c, user, created, events))
               == [FromRpc(Spoolss.Job(Spoolss.ParseStartDoc(start.stub).value, Spoolss.FirstBytes(SC.Written(body), c.cap)))]
            && last.jobs == s.jobs + Untag(RunJobs(c, user, created, events))
            && Apply(c, user, last, Close(fid), []).0.jobs == last.jobs
  {
    hide Run, RunJobs, HandedOver, PdusOf, UsesOf, SC.SessionPdus, SC.Calls, SC.Written, SS.Documents, SS.Requests, LeavesOpen;
    hide Spoolss.ParseStartDoc, Spoolss.FirstBytes, Refuse, Accept, UseAll;
    var created := Apply(c, user, s, Create(tree, name), fid).0;
    assert created.handles[fid] == RpcHandle(NEW_PIPE, []) && created.jobs == s.jobs;
    RunAddsJobs(c, user, created, events);
    JobsThroughHandle(c, user, created, events, fid);
    DocumentsThroughPipe(NEW_PIPE, [], UsesOf(fid, events), sent, c.cap);
    SS.OneDocument(NEW_PIPE.spool, before, start, body, end, after, c.cap);
    HandleIsItsUses(c, user, created, events, fid);
    PipeUses(NEW_PIPE, [], UsesOf(fid, events), c.cap);
    ClosingPipe(c, user, Run(c, user, created, events), fid);
  }

  /** Closing a pipe captures nothing: a document still open on it is lost. */
  lemma ClosingPipe(c: ShareConf, user: seq<u16>, s: Shares, fid: bytes)
    requires fid in s.handles && s.handles[fid].RpcHandle?
    ensures Apply(c, user, s, Close(fid), []).0.jobs == s.jobs
  {
    hide Refuse, Accept;
    assert s.jobs + [] == s.jobs;
  }
}
