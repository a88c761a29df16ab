/** The two ends as processes over reliable byte channels: every write, read, answer and close is one step, taken
    in any order the channels allow; and each end has a time limit that may run out. */
module LprSystem {
  import opened Bytes
  import opened Lpd
  import opened Text
  import opened Lpr
  import opened LprLpd

  /** acks counts the acknowledgements the client has read; todo is what it has yet to write of the segment after
      them. up and down are the octets under way. idled: the server's time limit has run out. */
  datatype System = System(acks: nat, todo: bytes, failed: bool, idled: bool, up: bytes, down: bytes, server: Server)

  /** Write hands n more octets to the channel; Read lets the server take one; Answer lets the client read one;
      Close is the server seeing the end of the input. Timeout is the client's deadline: send fails, and closes the
      connection. Idle is the server's read limit: the document without a count that it is reading ends there. */
  datatype Action = Write(n: nat) | Read | Answer | Close | Timeout | Idle

  function Init(r: Request): System { System(0, Segment(r, 0), false, false, [], [], START) }

  /** send has returned: with nil when it did not fail. */
  predicate Returned(s: System) { s.failed || s.acks >= SEGMENTS }

  predicate Enabled(s: System, a: Action) {
    match a
    case Write(n) => !Returned(s) && 1 <= n <= |s.todo|
    case Read => s.up != []
    case Answer => !Returned(s) && s.todo == [] && s.down != []
    case Close => Returned(s) && s.up == [] && s.server.phase != Closed
    case Timeout => !Returned(s)
    case Idle => !Returned(s) && s.up == [] && s.todo == [] && s.down == [] && s.server.phase.DataStream?
  }

  function Next(c: Conf, r: Request, s: System, a: Action): System
    requires Enabled(s, a)
  {
    match a
    case Write(n) => s.(todo := s.todo[n..], up := s.up + s.todo[..n])
    case Read =>
      var (server, out) := Step(c, s.server, s.up[0]);
      s.(up := s.up[1..], down := s.down + out, server := server)
    case Answer =>
      if s.down[0] != ACK then s.(failed := true)
      else s.(acks := s.acks + 1, down := s.down[1..], todo := if s.acks + 1 < SEGMENTS then Segment(r, s.acks + 1) else [])
    case Close => s.(server := AtEnd(c, s.server))
    case Timeout => s.(failed := true)
    case Idle => s.(idled := true, server := WithData(s.server, s.server.phase.got).(phase := SubCommand), down := [ACK])
  }

  predicate Possible(c: Conf, r: Request, s: System, run: seq<Action>)
    decreases |run|
  {
    run == [] || (Enabled(s, run[0]) && Possible(c, r, Next(c, r, s, run[0]), run[1..]))
  }

  function After(c: Conf, r: Request, s: System, run: seq<Action>): System
    requires Possible(c, r, s, run)
    decreases |run|
  {
    if run == [] then s else After(c, r, Next(c, r, s, run[0]), run[1..])
  }

  // -- The invariant ------------------------------------------------------------------------------------------

  /** The octets of the current segment that the server has taken. */
  function Taken(r: Request, s: System): bytes
    requires s.acks < SEGMENTS && |s.up| + |s.todo| <= |Segment(r, s.acks)|
  {
    Segment(r, s.acks)[..|Segment(r, s.acks)| - |s.up| - |s.todo|]
  }

  /** The server has the whole document: it waits, or has seen the end of the input. */
  predicate HasAll(c: Conf, r: Request, t: Server) {
    || t == Stage(c, r, SEGMENTS) || t == AtEnd(c, Stage(c, r, SEGMENTS))
    || (r.data == [] && (t == Idled(r) || t == AtEnd(c, Idled(r))))
  }

  /** The server after its time limit has ended an empty document. */
  function Idled(r: Request): Server { Server(SubCommand, Named(r).(data := [0]), []) }

  /** The server is where the octets taken lead, and what it answered is under way; or, once the client has given up, it has
      seen the end of the input there. */
  predicate Following(c: Conf, r: Request, s: System)
    requires s.acks < SEGMENTS && |s.up| + |s.todo| <= |Segment(r, s.acks)|
  {
    var (server, down) := Feed(c, Stage(c, r, s.acks), Taken(r, s));
    s.down == down && (s.server == server || (s.failed && s.up == [] && s.server == AtEnd(c, server)))
  }

  /** The server's time limit has ended an empty document, and its answer is under way. */
  predicate Abandoned(c: Conf, r: Request, s: System) {
    s.acks == 4 && !Answered(c, r) && s.up == s.todo == [] && s.down == [ACK] && HasAll(c, r, s.server)
  }

  /** While the client works on segment acks, that segment is divided into what the server has taken, what is under
      way and what is still to be written, and the server follows. Afterwards the server has everything. */
  predicate Inv(c: Conf, r: Request, s: System) {
    && s.acks <= SEGMENTS
    && if s.acks < SEGMENTS then
         && |s.up| + |s.todo| <= |Segment(r, s.acks)|
         && Segment(r, s.acks) == Taken(r, s) + s.up + s.todo
         && (if s.idled then Abandoned(c, r, s) else Following(c, r, s))
       else
         && !s.failed && s.todo == s.up == s.down == [] && HasAll(c, r, s.server)
         && (Answered(c, r) <==> !s.idled)
  }

  lemma InitInv(c: Conf, r: Request)
    ensures Inv(c, r, Init(r))
  {
    hide Segment;
    var s := Init(r);
    assert s.todo == Segment(r, 0) && Taken(r, s) == [];
  }

  lemma WriteKeeps(c: Conf, r: Request, s: System, n: nat)
    requires Inv(c, r, s) && Enabled(s, Write(n))
    ensures Inv(c, r, Next(c, r, s, Write(n)))
  {
    hide Segment, Stage, Feed, HasAll, Answered;
    var t := Next(c, r, s, Write(n));
    assert s.up + s.todo == t.up + t.todo;
    assert Taken(r, t) == Taken(r, s);
    assert Taken(r, t) + t.up + t.todo == Taken(r, t) + (t.up + t.todo);
    assert Taken(r, s) + s.up + s.todo == Taken(r, s) + (s.up + s.todo);
  }

  lemma ReadKeeps(c: Conf, r: Request, s: System)
    requires Inv(c, r, s) && Enabled(s, Read)
    ensures Inv(c, r, Next(c, r, s, Read))
  {
    hide Segment, Stage, Feed, Step, HasAll, Answered;
    var t := Next(c, r, s, Read);
    var b := s.up[0];
    assert s.up == [b] + t.up;
    assert Taken(r, s) + s.up + s.todo == (Taken(r, s) + [b]) + t.up + t.todo;
    assert Taken(r, t) == Taken(r, s) + [b];
    FeedSplits(c, Stage(c, r, s.acks), Taken(r, s), [b]);
    FeedLast(c, s.server, b);
  }

  /** An answer to a segment that is answered means that the whole segment has been taken. */
  lemma AnswerMeansAll(c: Conf, r: Request, s: System)
    requires Inv(c, r, s) && s.acks < SEGMENTS && Sendable(c, r) && (s.acks == 4 ==> Answered(c, r))
    ensures s.down != [] <==> s.up == [] && s.todo == []
    ensures s.down != [] ==> s.down == [ACK] && (s.failed || s.server == Stage(c, r, s.acks + 1))
  {
    hide Segment, Stage, Feed, ControlSendable, HasAll;
    SegmentWorks(c, r, s.acks);
    var seg := Segment(r, s.acks);
    if s.up == [] && s.todo == [] {
      assert Taken(r, s) == seg;
    } else {
      var init := seg[..|seg| - 1];
      QuietPrefix(c, Stage(c, r, s.acks), init, |Taken(r, s)|);
      assert init[..|Taken(r, s)|] == Taken(r, s);
    }
  }

  lemma QuietPrefix(c: Conf, s: Server, input: bytes, n: nat)
    requires n <= |input| && Feed(c, s, input).1 == []
    ensures Feed(c, s, input[..n]).1 == []
  {
    hide Feed;
    assert input == input[..n] + input[n..];
    FeedSplits(c, s, input[..n], input[n..]);
  }

  /** An empty document is not answered, whatever has been taken, until the server's time limit runs out. */
  lemma NoFinalAnswer(c: Conf, r: Request, s: System)
    requires Inv(c, r, s) && Sendable(c, r) && s.acks == 4 && !Answered(c, r)
    ensures s.idled || s.down == []
  {
    hide Stage, Feed, Segment, ControlSendable, HasAll;
    if !s.idled {
      SegmentEnds(c, r, 4);
      QuietPrefix(c, Stage(c, r, 4), Segment(r, 4), |Taken(r, s)|);
      assert Segment(r, 4)[..|Taken(r, s)|] == Taken(r, s);
    }
  }

  lemma AnswerKeeps(c: Conf, r: Request, s: System)
    requires Inv(c, r, s) && Enabled(s, Answer) && Sendable(c, r)
    ensures Inv(c, r, Next(c, r, s, Answer)) && !Next(c, r, s, Answer).failed
  {
    hide Segment, Stage, Sendable;
    if s.acks == 4 && !Answered(c, r) {
      NoFinalAnswer(c, r, s);
    } else {
      AnswerMeansAll(c, r, s);
    }
    var t := Next(c, r, s, Answer);
    assert t.down == [];
    if t.acks < SEGMENTS {
      assert Taken(r, t) == [];
      assert t.up == [] && t.todo == Segment(r, t.acks);
      assert Taken(r, t) + t.up + t.todo == Segment(r, t.acks);
    }
  }

  lemma CloseKeeps(c: Conf, r: Request, s: System)
    requires Inv(c, r, s) && Enabled(s, Close)
    ensures Inv(c, r, Next(c, r, s, Close))
  {
    hide Stage, AtEnd, Segment, Feed, Answered;
    AtEndCloses(c, Stage(c, r, SEGMENTS));
    AtEndCloses(c, Idled(r));
    if s.acks < SEGMENTS {
      AtEndCloses(c, Feed(c, Stage(c, r, s.acks), Taken(r, s)).0);
    }
  }

  lemma AtEndCloses(c: Conf, s: Server)
    ensures AtEnd(c, s).phase == Closed
  {
    hide ParseControl, CarriageHint;
  }

  lemma TimeoutKeeps(c: Conf, r: Request, s: System)
    requires Inv(c, r, s) && Enabled(s, Timeout)
    ensures Inv(c, r, Next(c, r, s, Timeout))
  {
    hide Stage, AtEnd, Segment, Feed, Answered;
    var t := Next(c, r, s, Timeout);
    assert Taken(r, t) == Taken(r, s);
  }

  /** Both ends wait for each other only after an empty document. */
  lemma WaitingMeansEmpty(c: Conf, r: Request, s: System)
    requires Inv(c, r, s) && Sendable(c, r) && !Returned(s) && s.up == [] && s.todo == [] && s.down == []
    ensures s.acks == 4 && !Answered(c, r) && !s.idled && s.server == Stage(c, r, SEGMENTS)
  {
    hide Stage, Segment, Feed, HasAll, ControlSendable, AtEnd;
    assert Taken(r, s) == Segment(r, s.acks);
    SegmentEnds(c, r, s.acks);
  }

  lemma IdleKeeps(c: Conf, r: Request, s: System)
    requires Inv(c, r, s) && Enabled(s, Idle) && Sendable(c, r)
    ensures Inv(c, r, Next(c, r, s, Idle))
  {
    hide Segment, Feed, Sendable, AtEnd, Following, ServerQueue, TrimCr, Host, User, Name;
    WaitingMeansEmpty(c, r, s);
    var t := Next(c, r, s, Idle);
    assert t.server == Idled(r);
    assert Taken(r, t) == Taken(r, s);
  }

  lemma StepKeeps(c: Conf, r: Request, s: System, a: Action)
    requires Sendable(c, r) && Inv(c, r, s) && Enabled(s, a)
    ensures Inv(c, r, Next(c, r, s, a)) && (Next(c, r, s, a).failed <==> s.failed || a == Timeout)
  {
    hide Inv, Enabled, Sendable, Returned, Step, AtEnd, Segment;
    match a
    case Write(n) => WriteKeeps(c, r, s, n);
    case Read => ReadKeeps(c, r, s);
    case Answer => AnswerKeeps(c, r, s); NotYetReturned(s);
    case Close => CloseKeeps(c, r, s);
    case Timeout => TimeoutKeeps(c, r, s);
    case Idle => IdleKeeps(c, r, s);
  }

  lemma NotYetReturned(s: System)
    requires Enabled(s, Answer)
    ensures !s.failed
  {
  }

  // -- Progress ---------------------------------------------------------------------------------------------------

  /** The octets of the segments after the k-th. */
  function Ahead(r: Request, k: nat): nat
    decreases SEGMENTS - k
  {
    if k + 1 < SEGMENTS then |Segment(r, k + 1)| + Ahead(r, k + 1) else 0
  }

  function Measure(r: Request, s: System): nat {
    3 * (|s.todo| + Ahead(r, s.acks)) + 2 * |s.up|
    + (if Returned(s) then 0 else if s.acks < SEGMENTS then SEGMENTS - s.acks else 0)
    + (if s.server.phase == Closed then 0 else if s.server.phase.DataStream? then 2 else 1)
  }

  lemma StepProgresses(c: Conf, r: Request, s: System, a: Action)
    requires Enabled(s, a)
    ensures Measure(r, Next(c, r, s, a)) < Measure(r, s)
  {
    hide Segment, Step, AtEnd;
    match a
    case Write(_) =>
    case Read => if s.server.phase == Closed { ClosedStays(c, s.server, s.up[0]); }
    case Answer =>
    case Close => AtEndCloses(c, s.server);
    case Timeout =>
    case Idle =>
  }

  lemma ClosedStays(c: Conf, s: Server, b: byte)
    requires s.phase == Closed
    ensures Step(c, s, b).0.phase == Closed
  {
  }

  /** Both sides are done. */
  predicate Over(s: System) { Returned(s) && s.up == [] && s.server.phase == Closed }

  /** Until both sides are done, some step can be taken; and unless they wait for each other after an empty document, one
      that is no time limit. */
  lemma NoDeadlock(c: Conf, r: Request, s: System)
    requires Sendable(c, r) && Inv(c, r, s) && !Over(s)
    ensures exists a :: Enabled(s, a)
    ensures (s.acks == 4 && !s.failed ==> Answered(c, r)) ==> exists a :: Enabled(s, a) && !a.Timeout? && !a.Idle?
  {
    hide Sendable, Inv, Answered;
    if s.up != [] {
      assert Enabled(s, Read);
    } else if Returned(s) {
      assert Enabled(s, Close);
    } else if s.todo != [] {
      assert Enabled(s, Write(1));
    } else if s.down != [] {
      assert Enabled(s, Answer);
    } else {
      WaitingMeansEmpty(c, r, s);
      assert Enabled(s, Timeout);
    }
  }

  /** Every run keeps the invariant and is no longer than the measure allows; send fails exactly by the client's deadline. */
  lemma {:induction false} RunKeeps(c: Conf, r: Request, s: System, run: seq<Action>)
    requires Sendable(c, r) && Inv(c, r, s) && Possible(c, r, s, run)
    ensures var t := After(c, r, s, run); Inv(c, r, t) && (t.failed <==> s.failed || Timeout in run)
    ensures |run| + Measure(r, After(c, r, s, run)) <= Measure(r, s)
    decreases |run|
  {
    hide Inv, Sendable, Measure, Enabled, Next;
    if run != [] {
      StepKeeps(c, r, s, run[0]);
      StepProgresses(c, r, s, run[0]);
      RunKeeps(c, r, Next(c, r, s, run[0]), run[1..]);
    }
  }

  // -- What is saved ------------------------------------------------------------------------------------------------

  /** Something of a document has arrived. */
  predicate HasData(s: Server) {
    s.saved != [] || s.job.data != [] || ((s.phase.DataBody? || s.phase.DataStream?) && s.phase.got != [])
  }

  lemma {:induction false} ControlKeepsData(j: Job, ctrl: bytes)
    ensures ParseControl(j, ctrl).data == j.data
    decreases |ctrl|
  {
    hide IndexOf;
    var k := IndexOf(ctrl, NL);
    if k < |ctrl| {
      ControlKeepsData(ApplyLine(j, ctrl[..k]), ctrl[k + 1..]);
    }
  }

  lemma DataStays(c: Conf, s: Server, b: byte)
    requires HasData(s)
    ensures HasData(Step(c, s, b).0)
  {
    hide ParseControl, ParseCount, CarriageHint, TrimEol, TrimSpace;
    if s.phase.ControlEnd? {
      ControlKeepsData(s.job, s.phase.ctrl);
    }
  }

  lemma {:induction false} DataStaysFed(c: Conf, s: Server, input: bytes)
    requires HasData(s)
    ensures HasData(Feed(c, s, input).0)
    decreases |input|
  {
    hide Step, HasData;
    if input != [] {
      DataStays(c, s, input[0]);
      DataStaysFed(c, Step(c, s, input[0]).0, input[1..]);
    }
  }

  lemma NoDataNoJob(c: Conf, s: Server)
    requires !HasData(s)
    ensures AtEnd(c, s).saved == []
  {
    hide ParseControl, CarriageHint;
    match s.phase
    case ControlLine(_) => ControlKeepsData(s.job, []);
    case ControlBody(_, got) => ControlKeepsData(s.job, got);
    case ControlStream(got) => ControlKeepsData(s.job, got);
    case ControlEnd(ctrl) => ControlKeepsData(s.job, ctrl);
    case _ =>
  }

  lemma StageHasNoData(c: Conf, r: Request, k: nat)
    requires k <= 4
    ensures !HasData(Stage(c, r, k))
  {
    hide Control, ServerQueue, Host, User, Name, TrimCr;
  }

  /** A conversation that ends before the document saves nothing. */
  lemma CutBeforeDocument(c: Conf, r: Request, k: nat, n: nat)
    requires Sendable(c, r) && k < 4 && n <= |Segment(r, k)|
    ensures AtEnd(c, Feed(c, Stage(c, r, k), Segment(r, k)[..n]).0).saved == []
  {
    hide Feed, Stage, Segment, AtEnd, HasData, ControlSendable;
    var seg := Segment(r, k);
    assert seg == seg[..n] + seg[n..];
    FeedSplits(c, Stage(c, r, k), seg[..n], seg[n..]);
    SegmentEnds(c, r, k);
    StageHasNoData(c, r, k + 1);
    var s := Feed(c, Stage(c, r, k), seg[..n]).0;
    if HasData(s) {
      DataStaysFed(c, s, seg[n..]);
    }
    NoDataNoJob(c, s);
  }

  /** What n octets of the last segment bring of the document. */
  function Arrived(r: Request, n: nat): bytes { Document(r)[..Min(n, |Document(r)|)] }

  /** A conversation that ends inside the document saves what has arrived of it, if anything. */
  lemma CutInDocument(c: Conf, r: Request, n: nat)
    requires n <= |Segment(r, 4)|
    ensures var saved := AtEnd(c, Feed(c, Stage(c, r, 4), Segment(r, 4)[..n]).0).saved;
            if n == 0 then saved == [] else SavedAs(r, saved, Arrived(r, n))
  {
    hide Feed, AtEnd, SavedAs, Control, ServerQueue, Host, User, Name, TrimCr, Step;
    var seg := Segment(r, 4);
    if n == |seg| {
      assert seg[..n] == seg && Arrived(r, n) == Document(r);
      LastSegmentTaken(c, r);
      WholeIsSaved(c, r);
    } else if n == 0 {
      assert seg[..0] == [];
      StageHasNoData(c, r, 4);
      NoDataNoJob(c, Stage(c, r, 4));
      FedNothing(c, Stage(c, r, 4));
    } else {
      var got := r.data[..n];
      assert seg[..n] == got == Arrived(r, n);
      CutInData(c, r, n);
      FinishSaves(c, r, got);
    }
  }

  lemma FedNothing(c: Conf, s: Server)
    ensures Feed(c, s, []) == (s, [])
  {
  }

  lemma LastSegmentTaken(c: Conf, r: Request)
    ensures Feed(c, Stage(c, r, 4), Segment(r, 4)).0 == Stage(c, r, SEGMENTS)
  {
    hide Feed, ServerQueue, Host, User, Name, TrimCr;
    if r.data == [] {
      EmptyDocument(c, r);
    } else {
      DataBodyPrompt(c, Stage(c, r, 4), r.data);
    }
  }

  lemma CutInData(c: Conf, r: Request, n: nat)
    requires 0 < n <= |r.data|
    ensures AtEnd(c, Feed(c, Stage(c, r, 4), r.data[..n]).0) == Finish(c, Server(SubCommand, Named(r).(data := r.data[..n]), []))
  {
    hide Feed, Finish, ServerQueue, Host, User, Name, TrimCr, Step, AtEnd;
    var s := Stage(c, r, 4);
    var d := Server(SubCommand, Named(r).(data := r.data[..n]), []);
    DataFed(c, s, r.data[..n], []);
    assert r.data[..n] + [] == r.data[..n];
    FinishIgnoresPhase(c, d, WithData(s, r.data[..n]).phase);
  }

  lemma FinishIgnoresPhase(c: Conf, d: Server, p: Phase)
    ensures Finish(c, d.(phase := p)) == Finish(c, d)
  {
  }

  lemma AllIsSaved(c: Conf, r: Request, t: Server)
    requires HasAll(c, r, t) && t.phase == Closed
    ensures SavedAs(r, t.saved, Document(r))
  {
    hide SavedAs, Stage, Finish;
    WholeIsSaved(c, r);
    FinishSaves(c, r, [0]);
    ClosedIsOver(c, t);
  }

  /** What the server has saved when both sides are done: the whole document when send returned nil; else what has arrived
      of it, and nothing when nothing of it has. */
  predicate Outcome(c: Conf, r: Request, s: System) {
    if !s.failed then s.acks == SEGMENTS && SavedAs(r, s.server.saved, Document(r)) && (Answered(c, r) || s.idled)
    else
      && s.acks < SEGMENTS && |s.up| + |s.todo| <= |Segment(r, s.acks)|
      && if s.acks < 4 || Taken(r, s) == [] then s.server.saved == []
         else SavedAs(r, s.server.saved, Arrived(r, |Taken(r, s)|))
  }

  lemma OverIsOutcome(c: Conf, r: Request, s: System)
    requires Sendable(c, r) && Inv(c, r, s) && Over(s)
    ensures Outcome(c, r, s)
  {
    hide Stage, Segment, Feed, Sendable, SavedAs, HasAll, AtEnd, Answered, Arrived;
    if !s.failed {
      AllIsSaved(c, r, s.server);
    } else {
      var n := |Taken(r, s)|;
      assert Taken(r, s) == Segment(r, s.acks)[..n];
      if s.idled {
        AllIsSaved(c, r, s.server);
        AllArrived(r, n);
      } else {
        var server := Feed(c, Stage(c, r, s.acks), Taken(r, s)).0;
        ClosedIsOver(c, s.server);
        assert s.server == AtEnd(c, server);
        if s.acks < 4 {
          CutBeforeDocument(c, r, s.acks, n);
        } else {
          CutInDocument(c, r, n);
        }
      }
    }
  }

  lemma AllArrived(r: Request, n: nat)
    requires n == |Segment(r, 4)|
    ensures Arrived(r, n) == Document(r) && n > 0
  {
  }

  /** Whatever order the steps come in and whenever the client's deadline strikes: no run is longer than a bound fixed at
      its start, it can be continued until both sides are done, and what is saved then is what the outcome says. */
  lemma EveryOutcome(c: Conf, r: Request, run: seq<Action>)
    requires Sendable(c, r) && Possible(c, r, Init(r), run)
    ensures |run| <= Measure(r, Init(r))
    ensures var s := After(c, r, Init(r), run);
            && (s.failed <==> Timeout in run)
            && (!Over(s) ==> exists a :: Enabled(s, a))
            && (Over(s) ==> Outcome(c, r, s))
  {
    hide Sendable, Measure, Inv, Over, Enabled, Possible, After, Outcome;
    InitInv(c, r);
    RunKeeps(c, r, Init(r), run);
    var s := After(c, r, Init(r), run);
    if Over(s) {
      OverIsOutcome(c, r, s);
    } else {
      NoDeadlock(c, r, s);
    }
  }

  // -- Delivery -------------------------------------------------------------------------------------------------------

  /** The client's deadline strikes only where nothing else but the server's limit can happen. */
  predicate Patient(c: Conf, r: Request, s: System, run: seq<Action>)
    requires Possible(c, r, s, run)
    decreases |run|
  {
    run != [] ==>
      && (run[0] == Timeout ==> s.up == [] && s.todo == [] && s.down == [])
      && Patient(c, r, Next(c, r, s, run[0]), run[1..])
  }

  /** Such a deadline strikes only when the whole of an unanswered document has been taken. */
  predicate LateFailure(c: Conf, r: Request, s: System) {
    s.failed ==> s.acks == 4 && !Answered(c, r) && !s.idled && s.up == [] && s.todo == []
  }

  lemma StepPatient(c: Conf, r: Request, s: System, a: Action)
    requires Sendable(c, r) && Inv(c, r, s) && Enabled(s, a) && LateFailure(c, r, s)
    requires a == Timeout ==> s.up == [] && s.todo == [] && s.down == []
    ensures LateFailure(c, r, Next(c, r, s, a))
  {
    hide Sendable, Inv, Segment, Step, AtEnd, Answered;
    if a == Timeout {
      WaitingMeansEmpty(c, r, s);
    } else if a == Answer {
      AnswerKeeps(c, r, s);
    }
  }

  lemma {:induction false} RunPatient(c: Conf, r: Request, s: System, run: seq<Action>)
    requires Sendable(c, r) && Inv(c, r, s) && Possible(c, r, s, run) && Patient(c, r, s, run) && LateFailure(c, r, s)
    ensures LateFailure(c, r, After(c, r, s, run))
    decreases |run|
  {
    hide Sendable, Inv, Next, LateFailure, Enabled;
    if run != [] {
      StepKeeps(c, r, s, run[0]);
      StepPatient(c, r, s, run[0]);
      RunPatient(c, r, Next(c, r, s, run[0]), run[1..]);
    }
  }

  /** Delivery: when the client's deadline leaves everything that can happen the time to happen, every run that is over has
      saved exactly one job with the whole document, under the names sent; and send has returned nil if and only if the
      document is not empty, or the cap is one octet, or the server's time limit ran out before the client's. An empty
      document is saved as the one octet that was to end it. */
  lemma Delivery(c: Conf, r: Request, run: seq<Action>)
    requires Sendable(c, r) && Possible(c, r, Init(r), run) && Patient(c, r, Init(r), run)
    ensures var s := After(c, r, Init(r), run);
            Over(s) ==> SavedAs(r, s.server.saved, Document(r)) && (!s.failed <==> Answered(c, r) || s.idled)
    ensures Answered(c, r) ==> Timeout !in run && Idle !in run
  {
    hide Sendable, Measure, Inv, Over, Enabled, Possible, After, Patient, SavedAs, Answered, Segment, Arrived;
    InitInv(c, r);
    RunKeeps(c, r, Init(r), run);
    RunPatient(c, r, Init(r), run);
    var s := After(c, r, Init(r), run);
    RunIdles(c, r, Init(r), run);
    StateOfInv(c, r, s);
    if Over(s) {
      OverIsOutcome(c, r, s);
      if s.failed {
        AllArrived(r, |Taken(r, s)|);
      }
    }
  }

  lemma StateOfInv(c: Conf, r: Request, s: System)
    requires Inv(c, r, s)
    ensures s.idled ==> !Answered(c, r)
  {
  }

  lemma {:induction false} RunIdles(c: Conf, r: Request, s: System, run: seq<Action>)
    requires Possible(c, r, s, run)
    ensures After(c, r, s, run).idled <==> s.idled || Idle in run
    decreases |run|
  {
    hide Segment, Step, AtEnd;
    if run != [] {
      RunIdles(c, r, Next(c, r, s, run[0]), run[1..]);
    }
  }

  /** The empty document: unless the server's time limit comes first, no run makes send return nil, whenever the deadline
      strikes; and the terminator is saved as a job of one octet, unless the deadline came before it was read. */
  lemma EmptyDocumentFails(c: Conf, r: Request, run: seq<Action>)
    requires Sendable(c, r) && r.data == [] && c.cap != 1 && Possible(c, r, Init(r), run)
    ensures var s := After(c, r, Init(r), run);
            Over(s) ==>
              && (Idle !in run ==> s.failed)
              && (s.server.saved == [] || SavedAs(r, s.server.saved, [0]))
              && (Patient(c, r, Init(r), run) ==> SavedAs(r, s.server.saved, [0]))
  {
    hide Sendable, Measure, Inv, Over, Enabled, Possible, After, Patient, SavedAs;
    EveryOutcome(c, r, run);
    RunIdles(c, r, Init(r), run);
    var s := After(c, r, Init(r), run);
    forall n: nat | n > 0 ensures Arrived(r, n) == [0] { assert [0][..1] == [0]; }
    if Over(s) && Patient(c, r, Init(r), run) {
      Delivery(c, r, run);
    }
  }
}
