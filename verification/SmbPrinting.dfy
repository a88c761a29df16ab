/** Printing over a whole SMB connection: from the frames received to the documents captured. */
module SmbPrinting {
  import opened Bytes
  import opened SmbFrame
  import opened SmbAuth
  import opened SmbCapture
  import opened SmbConn
  import opened SmbServer
  import opened SmbTranscript
  import N = SmbNegotiate
  import SC = SpoolCapture
  import SS = SpoolSession
  import T = SmbTree

  predicate Authenticated(conn: Conn) { conn.session.Some? && conn.session.value.auth.complete }

  /** What a frame asks of the trees and files of the session: one request, or none. */
  function EventOf(d: Driver, conn: Conn, x: Input): seq<T.Event> {
    var t := Taken(d, conn, x.frame);
    if t.Some? && Authenticated(conn) && T.IsTreeCommand(t.value.0.command) then
      [T.Event(T.ParseRequest(t.value.0, t.value.1), x.rand.fid)]
    else []
  }

  function Events(d: Driver, conn: Conn, inputs: seq<Input>): seq<T.Event>
    requires |d.guid| == 16 && ValidInputs(inputs)
    decreases |inputs|
  {
    if inputs == [] then []
    else EventOf(d, conn, inputs[0]) + Events(d, Receive(d, conn, inputs[0].frame, inputs[0].rand), inputs[1..])
  }

  function UserOf(conn: Conn): Option<seq<u16>> { if conn.session.None? then None else Some(conn.session.value.auth.user) }

  /** No frame starts the session anew, and none that authenticates it again does so for another user. */
  predicate Settled(d: Driver, conn: Conn, inputs: seq<Input>)
    requires |d.guid| == 16 && ValidInputs(inputs)
    decreases |inputs|
  {
    inputs != [] ==>
      var t, next := Taken(d, conn, inputs[0].frame), Receive(d, conn, inputs[0].frame, inputs[0].rand);
      && (t.Some? ==> t.value.0.command != NEGOTIATE) && UserOf(next) == UserOf(conn)
      && Settled(d, next, inputs[1..])
  }

  // -- A run of frames is a run of requests ---------------------------------------------------------------------------

  lemma FrameIsEvent(d: Driver, conn: Conn, x: Input)
    requires |d.guid| == 16 && ValidFresh(x.rand) && Authenticated(conn)
    requires var t := Taken(d, conn, x.frame); t.Some? ==> t.value.0.command != NEGOTIATE
    ensures var next := Receive(d, conn, x.frame, x.rand);
            && Authenticated(next)
            && next.session.value.shares
               == T.Run(d.shares, conn.session.value.auth.user, conn.session.value.shares, EventOf(d, conn, x))
  {
    hide Unwrap, Parse, Acceptable, T.Apply, T.ParseRequest, T.ReplyBytes, T.Refuse, Patched, Signed, OnTheWire, FoldedNext;
    hide Fold, SessionSetup;
    var t := Taken(d, conn, x.frame);
    var s := conn.session.value;
    if t.Some? {
      var (h, msg) := t.value;
      if T.IsTreeCommand(h.command) {
        var e := EventOf(d, conn, x);
        assert e[1..] == [];
        assert T.Run(d.shares, s.auth.user, s.shares, e) == T.Apply(d.shares, s.auth.user, s.shares, e[0].request, e[0].fid).0;
      }
      if Dispatch(d, conn.session, msg, h, x.rand).Some? {
        CompleteStays(d, conn, h, msg, x.rand, IsTransform(x.frame));
      }
    }
  }

  lemma {:induction false} EventsSplit(c: T.ShareConf, user: seq<u16>, s: T.Shares, a: seq<T.Event>, b: seq<T.Event>)
    ensures T.Run(c, user, s, a + b) == T.Run(c, user, T.Run(c, user, s, a), b)
    decreases |a|
  {
    hide T.Apply;
    if a == [] {
      assert a + b == b;
    } else {
      assert (a + b)[1..] == a[1..] + b;
      EventsSplit(c, user, T.Apply(c, user, s, a[0].request, a[0].fid).0, a[1..], b);
    }
  }

  /** In an authenticated session, as long as it keeps its user: trees, files and jobs go where the requests in the frames lead. */
  lemma {:induction false} FramesAreEvents(d: Driver, conn: Conn, inputs: seq<Input>)
    requires |d.guid| == 16 && ValidInputs(inputs) && Authenticated(conn) && Settled(d, conn, inputs)
    ensures var last := Run(d, conn, inputs);
            && Authenticated(last) && UserOf(last) == UserOf(conn)
            && last.session.value.shares
               == T.Run(d.shares, conn.session.value.auth.user, conn.session.value.shares, Events(d, conn, inputs))
    decreases |inputs|
  {
    hide Receive, Taken, EventOf, T.Run;
    var user, shares := conn.session.value.auth.user, conn.session.value.shares;
    if inputs == [] {
      NoEvents(d.shares, user, shares);
    } else {
      var next := Receive(d, conn, inputs[0].frame, inputs[0].rand);
      FrameIsEvent(d, conn, inputs[0]);
      FramesAreEvents(d, next, inputs[1..]);
      EventsSplit(d.shares, user, shares, EventOf(d, conn, inputs[0]), Events(d, next, inputs[1..]));
    }
  }

  lemma NoEvents(c: T.ShareConf, user: seq<u16>, s: T.Shares)
    ensures T.Run(c, user, s, []) == s
  {
  }

  // -- Pipes hand their jobs over --------------------------------------------------------------------------------------

  ghost predicate ConnDrains(conn: Conn) { conn.session.Some? ==> Drains(conn.session.value.shares) }

  lemma FrameDrains(d: Driver, conn: Conn, x: Input)
    requires |d.guid| == 16 && ValidFresh(x.rand) && ConnDrains(conn)
    ensures ConnDrains(Receive(d, conn, x.frame, x.rand))
  {
    hide Unwrap, Parse, Acceptable, T.Apply, T.ParseRequest, T.ReplyBytes, T.Refuse, Patched, Signed, OnTheWire, FoldedNext;
    hide Drains, SessionSetup, Fold, N.Negotiated, N.Response;
    NoneDrain();
    var t := Taken(d, conn, x.frame);
    if t.Some? && conn.session.Some? && T.IsTreeCommand(t.value.0.command) {
      var s := conn.session.value;
      StepDrains(d.shares, s.auth.user, s.shares, T.Event(T.ParseRequest(t.value.0, t.value.1), x.rand.fid));
    }
  }

  lemma NoneDrain()
    ensures Drains(T.NO_SHARES)
  {
  }

  lemma {:induction false} FramesDrain(d: Driver, conn: Conn, inputs: seq<Input>)
    requires |d.guid| == 16 && ValidInputs(inputs) && ConnDrains(conn)
    ensures ConnDrains(Run(d, conn, inputs))
    decreases |inputs|
  {
    hide Receive, ConnDrains;
    if inputs != [] {
      FrameDrains(d, conn, inputs[0]);
      FramesDrain(d, Receive(d, conn, inputs[0].frame, inputs[0].rand), inputs[1..]);
    }
  }

  // -- Documents ---------------------------------------------------------------------------------------------------------

  /** From the frames of a connection to the documents: after any frames whatever, in an authenticated session with a pipe open,
      and for any further frames that keep session and user and leave the pipe open: the jobs that come through the pipe are
      the documents of the calls written to it, in order, and the session's jobs are those of its steps. */
  lemma DocumentsOverFrames(d: Driver, earlier: seq<Input>, later: seq<Input>, fid: bytes, sent: seq<SC.Sent>)
    requires |d.guid| == 16 && ValidInputs(earlier) && ValidInputs(later)
    requires var conn := Run(d, NEW_CONN, earlier);
             && Authenticated(conn) && Settled(d, conn, later)
             && fid in conn.session.value.shares.handles && conn.session.value.shares.handles[fid].RpcHandle?
             && T.LeavesOpen(fid, Events(d, conn, later))
             && SS.Requests(PdusOf(T.UsesOf(fid, Events(d, conn, later)))) == SC.SessionPdus(sent)
    requires forall x | x in sent :: x.Ok()
    ensures var conn := Run(d, NEW_CONN, earlier);
            var s, last := conn.session.value, Run(d, conn, later);
            var jobs := RunJobs(d.shares, s.auth.user, s.shares, Events(d, conn, later));
            && last.session.Some? && last.session.value.shares.jobs == s.shares.jobs + Untag(jobs)
            && Through(fid, jobs) == T.Rpc(SS.Documents(s.shares.handles[fid].pipe.spool, SC.Calls(sent), d.shares.cap))
  {
    hide Run, Events, T.Run, RunJobs, PdusOf, T.UsesOf, SC.SessionPdus, SC.Calls, SS.Documents, SS.Requests, T.LeavesOpen, Settled;
    var conn := Run(d, NEW_CONN, earlier);
    FramesDrain(d, NEW_CONN, earlier);
    FramesAreEvents(d, conn, later);
    DocumentsFrom(d.shares, conn.session.value.auth.user, conn.session.value.shares, Events(d, conn, later), fid, sent);
  }

  lemma {:induction false} RunSplits(d: Driver, conn: Conn, a: seq<Input>, b: seq<Input>)
    requires |d.guid| == 16 && ValidInputs(a) && ValidInputs(b)
    ensures Run(d, conn, a + b) == Run(d, Run(d, conn, a), b)
    decreases |a|
  {
    hide Receive;
    if a == [] {
      assert a + b == b;
    } else {
      assert (a + b)[1..] == a[1..] + b;
      RunSplits(d, Receive(d, conn, a[0].frame, a[0].rand), a[1..], b);
    }
  }

  /** The same of the connection object: of the frames it has handled, the last ones. */
  lemma ServerCapturesDocuments(conn: SmbConnection, earlier: seq<Input>, later: seq<Input>, fid: bytes, sent: seq<SC.Sent>)
    requires conn.Valid() && conn.inputs == earlier + later && ValidInputs(earlier) && ValidInputs(later)
    requires var before := Run(conn.driver, NEW_CONN, earlier);
             && Authenticated(before) && Settled(conn.driver, before, later)
             && fid in before.session.value.shares.handles && before.session.value.shares.handles[fid].RpcHandle?
             && T.LeavesOpen(fid, Events(conn.driver, before, later))
             && SS.Requests(PdusOf(T.UsesOf(fid, Events(conn.driver, before, later)))) == SC.SessionPdus(sent)
    requires forall x | x in sent :: x.Ok()
    ensures var before := Run(conn.driver, NEW_CONN, earlier);
            var s := before.session.value;
            var jobs := RunJobs(conn.driver.shares, s.auth.user, s.shares, Events(conn.driver, before, later));
            && conn.session != null && conn.session.jobs == s.shares.jobs + Untag(jobs)
            && Through(fid, jobs) == T.Rpc(SS.Documents(s.shares.handles[fid].pipe.spool, SC.Calls(sent), conn.driver.shares.cap))
  {
    hide Run, Events, RunJobs, PdusOf, T.UsesOf, SC.SessionPdus, SC.Calls, SS.Documents, SS.Requests, T.LeavesOpen, Settled;
    DocumentsOverFrames(conn.driver, earlier, later, fid, sent);
    RunSplits(conn.driver, NEW_CONN, earlier, later);
  }
}
