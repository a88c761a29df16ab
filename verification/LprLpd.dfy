/** printcap forwarding to printcap: the LPR client and the LPD server joined by two byte channels. */
module LprLpd {
  import opened Bytes
  import opened Text
  import opened Lpd
  import opened Lpr

  // -- Numbers and names as the server reads them ------------------------------------------------------------

  lemma {:induction false} TrimRightKeeps(s: bytes, k: nat)
    requires 0 < k <= |s| && !IsSpace(s[k - 1])
    ensures k <= |TrimRight(s)| <= |s| && TrimRight(s) == s[..|TrimRight(s)|]
  {
    if |s| > k && IsSpace(s[|s| - 1]) {
      TrimRightKeeps(s[..|s| - 1], k);
    }
  }

  lemma {:induction false} TrimEolKeeps(s: bytes, k: nat)
    requires 0 < k <= |s| && !IsSpace(s[k - 1])
    ensures k <= |TrimEol(s)| <= |s| && TrimEol(s) == s[..|TrimEol(s)|]
  {
    if |s| > k && (s[|s| - 1] == CR || s[|s| - 1] == NL) {
      TrimEolKeeps(s[..|s| - 1], k);
    }
  }

  lemma {:induction false} IndexOfAt(s: bytes, c: byte, k: nat)
    requires k <= |s| && c !in s[..k] && (k < |s| ==> s[k] == c)
    ensures IndexOf(s, c) == k
  {
    if k > 0 {
      assert s[0] in s[..k];
      assert s[1..][..k - 1] == s[..k][1..];
      IndexOfAt(s[1..], c, k - 1);
    }
  }

  lemma AtoiDigits(n: nat)
    requires n <= MAX_INT
    ensures Atoi(Digits(n)) == n
  {
    DigitsRead(n);
  }

  /** Up to the first space, when a space or nothing follows the digits. */
  lemma FirstField(u: bytes, d: bytes)
    requires AllDigits(d) && d <= u && (|u| > |d| ==> u[|d|] == SPACE)
    ensures u[..IndexOf(u, SPACE)] == d
  {
    assert u[..|d|] == d;
    IndexOfAt(u, SPACE, |d|);
  }

  /** Trimming a header line leaves its digits, and a space after them if anything. */
  lemma TrimmedHeader(d: bytes, name: bytes)
    requires AllDigits(d) && d != []
    ensures var u := TrimSpace(TrimEol(d + ([SPACE] + name) + [NL]));
            d <= u && (|u| > |d| ==> u[|d|] == SPACE)
  {
    hide AllDigits;
    var line := d + ([SPACE] + name) + [NL];
    FirstDigit(d);
    assert line[|d| - 1] == d[|d| - 1] && line[0] == d[0] && line[|d|] == SPACE && line[..|d|] == d;
    TrimEolKeeps(line, |d|);
    var s := TrimEol(line);
    assert s[|d| - 1] == line[|d| - 1] && s[0] == d[0];
    assert TrimLeft(s) == s;
    TrimRightKeeps(s, |d|);
    var u := TrimRight(s);
    assert u == line[..|u|];
    assert u[..|d|] == d;
  }

  lemma FirstDigit(d: bytes)
    requires AllDigits(d) && d != []
    ensures !IsSpace(d[0]) && !IsSpace(d[|d| - 1])
  {
  }

  /** The count of a header line, whatever name follows it. */
  lemma CountRead(n: nat, name: bytes)
    requires n <= MAX_INT
    ensures ParseCount(TrimEol(Digits(n) + ([SPACE] + name) + [NL])) == n
  {
    hide Atoi, TrimSpace, TrimEol, IndexOf, AllDigits, Digits;
    DigitsRead(n);
    AtoiDigits(n);
    TrimmedHeader(Digits(n), name);
    FirstField(TrimSpace(TrimEol(Digits(n) + ([SPACE] + name) + [NL])), Digits(n));
  }

  // -- The control file ---------------------------------------------------------------------------------------

  lemma ParseLine(j: Job, letter: byte, value: bytes, rest: bytes)
    requires NL !in value && letter != NL
    ensures ParseControl(j, Line(letter, value) + rest) == ParseControl(ApplyLine(j, [letter] + value), rest)
  {
    hide ApplyLine;
    var ctrl := Line(letter, value) + rest;
    var k := |value| + 1;
    assert ctrl[..k] == [letter] + value;
    IndexOfAt(ctrl, NL, k);
    assert ctrl[k + 1..] == rest;
  }

  lemma ApplyKnown(j: Job, letter: byte, value: bytes)
    ensures ApplyLine(j, [letter] + value) ==
            if letter == 72 then j.(host := TrimCr(value))
            else if letter == 80 then j.(user := TrimCr(value))
            else if letter == 74 then j.(jobName := TrimCr(value))
            else if letter == 67 then j.(class_ := TrimCr(value))
            else if letter == 84 then j.(title := TrimCr(value))
            else j
  {
    assert ([letter] + value)[1..] == value;
  }

  /** The server reads back the names the client wrote, but for CRs at their ends. */
  lemma ControlRead(j: Job, r: Request)
    requires NL !in Host(r) && NL !in User(r) && NL !in Name(r)
    ensures ParseControl(j, Control(r)) == j.(host := TrimCr(Host(r)), user := TrimCr(User(r)), jobName := TrimCr(Name(r)))
  {
    hide ParseControl, Line, TrimCr, Host, User, Name, ApplyLine;
    var l4 := Line(102, DF + Host(r));
    var l3 := Line(74, Name(r));
    var l2 := Line(80, User(r));
    ParseLine(j, 72, Host(r), l2 + (l3 + l4));
    ApplyKnown(j, 72, Host(r));
    var j1 := j.(host := TrimCr(Host(r)));
    ParseLine(j1, 80, User(r), l3 + l4);
    ApplyKnown(j1, 80, User(r));
    var j2 := j1.(user := TrimCr(User(r)));
    ParseLine(j2, 74, Name(r), l4);
    ApplyKnown(j2, 74, Name(r));
    var j3 := j2.(jobName := TrimCr(Name(r)));
    var empty: bytes := [];
    ParseLine(j3, 102, DF + Host(r), empty);
    assert l4 + empty == l4;
    ApplyKnown(j3, 102, DF + Host(r));
    ParseNothing(j3);
  }

  lemma ParseNothing(j: Job)
    ensures ParseControl(j, []) == j
  {
  }

  lemma CrFree(s: bytes)
    ensures TrimCr(s) == s <==> s == [] || s[|s| - 1] != CR
  {
    if s != [] && s[|s| - 1] == CR {
      TrimCrShorter(s[..|s| - 1]);
    }
  }

  lemma {:induction false} TrimCrShorter(s: bytes)
    ensures |TrimCr(s)| <= |s|
  {
    if s != [] && s[|s| - 1] == CR {
      TrimCrShorter(s[..|s| - 1]);
    }
  }

  lemma HintLine(letter: byte, value: bytes, rest: bytes)
    requires NL !in value && letter != NL && letter != 114
    ensures CarriageHint(Line(letter, value) + rest) == CarriageHint(rest)
  {
    var ctrl := Line(letter, value) + rest;
    var k := |value| + 1;
    assert ctrl[..k] == [letter] + value;
    IndexOfAt(ctrl, NL, k);
    assert ctrl[k + 1..] == rest;
  }

  lemma NoHint(r: Request)
    requires NL !in Host(r) && NL !in User(r) && NL !in Name(r)
    ensures !CarriageHint(Control(r))
  {
    hide CarriageHint, Line, Host, User, Name;
    var l4 := Line(102, DF + Host(r));
    var l3 := Line(74, Name(r));
    HintLine(72, Host(r), Line(80, User(r)) + (l3 + l4));
    HintLine(80, User(r), l3 + l4);
    HintLine(74, Name(r), l4);
    var empty: bytes := [];
    HintLine(102, DF + Host(r), empty);
    assert l4 + empty == l4;
    EmptyHint();
  }

  lemma EmptyHint()
    ensures !CarriageHint([])
  {
  }

  // -- What the server makes of each segment ---------------------------------------------------------------------

  function ServerQueue(r: Request): bytes { TrimSpace(TrimEol(Queue(r) + [NL])) }

  predicate NewlineFree(r: Request) { NL !in Queue(r) && NL !in Host(r) && NL !in User(r) && NL !in Name(r) }

  /** An allowed queue, names of one line each, and a control file within the server's limit. */
  predicate ControlSendable(c: Conf, r: Request) {
    NewlineFree(r) && c.allowed(ServerQueue(r)) && |Control(r)| <= MAX_CONTROL
  }

  /** Moreover a document that has a length and is within the cap. */
  predicate Sendable(c: Conf, r: Request) {
    ControlSendable(c, r) && |r.data| <= MAX_INT && (c.cap <= 0 || |r.data| <= c.cap)
  }

  function Opened(r: Request): Job { NEW_JOB.(queue := ServerQueue(r)) }

  function Named(r: Request): Job {
    Opened(r).(host := TrimCr(Host(r)), user := TrimCr(User(r)), jobName := TrimCr(Name(r)))
  }

  /** The server acknowledges the document: it has a count, or the cap ends it. */
  predicate Answered(c: Conf, r: Request) { r.data != [] || c.cap == 1 }

  /** What the server takes for the document: of an empty one, announced with count 0, the terminator. */
  function Document(r: Request): bytes { if r.data == [] then [0] else r.data }

  /** The server after k segments. */
  function Stage(c: Conf, r: Request, k: nat): Server
    requires k <= SEGMENTS
  {
    if k == 0 then START
    else if k == 1 then Server(SubCommand, Opened(r), [])
    else if k == 2 then Server(ControlBody(|Control(r)|, []), Opened(r), [])
    else if k == 3 then Server(SubCommand, Named(r), [])
    else if k == 4 then Server(if r.data == [] then DataStream([]) else DataBody(|r.data|, [], false), Named(r), [])
    else if r.data != [] then Server(SubCommand, Named(r).(data := r.data), [])
    else if c.cap == 1 then Server(Closed, Named(r).(data := [0]), [Named(r).(data := [0])])
    else Server(DataStream([0]), Named(r), [])
  }

  /** The server says nothing until the last octet of the segment, and acknowledges that one. */
  predicate Prompt(c: Conf, s: Server, seg: bytes, s': Server)
    requires seg != []
  {
    Feed(c, s, seg[..|seg| - 1]).1 == [] && Feed(c, s, seg) == (s', [ACK])
  }

  lemma QueuePrompt(c: Conf, r: Request)
    requires NL !in Queue(r) && c.allowed(ServerQueue(r))
    ensures Prompt(c, START, [2] + Queue(r) + [NL], Server(SubCommand, Opened(r), []))
  {
    hide Feed, Queue, TrimEol, TrimSpace;
    var seg, line := [2] + Queue(r) + [NL], Queue(r) + [NL];
    assert seg == [2] + line && line[..|line| - 1] == Queue(r);
    assert seg[..|seg|] == seg;
    OpeningLine(c, seg, |seg|, line);
    var init := seg[..|seg| - 1];
    assert init == [2] + Queue(r) && init[..|init|] == init;
    OpeningLine(c, init, |init|, Queue(r));
  }

  lemma ControlHeaderPrompt(c: Conf, s: Server, n: nat, name: bytes)
    requires s.phase == SubCommand && NL !in name && 0 < n <= MAX_INT
    ensures Prompt(c, s, Header(2, n, name), s.(phase := ControlBody(Min(n, MAX_CONTROL), [])))
  {
    hide Feed, ParseCount, Digits;
    DigitsRead(n);
    CountRead(n, name);
    var text := Digits(n) + ([SPACE] + name);
    var seg, line := Header(2, n, name), text + [NL];
    assert seg == [2] + line && line[..|line| - 1] == text;
    assert NL !in text;
    ControlLineFed(c, s, line);
    assert seg[..|seg| - 1] == [2] + text;
    ControlLineFed(c, s, text);
  }

  lemma DataHeaderPrompt(c: Conf, s: Server, n: nat, name: bytes)
    requires s.phase == SubCommand && NL !in name && n <= MAX_INT && (c.cap <= 0 || n <= c.cap)
    ensures Prompt(c, s, Header(3, n, name), s.(phase := if n == 0 then DataStream([]) else DataBody(n, [], false)))
  {
    hide Feed, ParseCount, Digits;
    DigitsRead(n);
    CountRead(n, name);
    var text := Digits(n) + ([SPACE] + name);
    var seg, line := Header(3, n, name), text + [NL];
    assert seg == [3] + line && line[..|line| - 1] == text;
    assert NL !in text;
    DataLineFed(c, s, line);
    assert seg[..|seg| - 1] == [3] + text;
    DataLineFed(c, s, text);
  }

  lemma ControlBodyPrompt(c: Conf, s: Server, ctrl: bytes)
    requires ctrl != [] && s.phase == ControlBody(|ctrl|, [])
    ensures Prompt(c, s, ctrl + [0], WithControl(s, ctrl))
  {
    hide Feed, WithControl, Step, Finish, AtEnd;
    ControlBodyDone(c, s, ctrl);
    assert (ctrl + [0])[..|ctrl|] == ctrl;
    ControlFed(c, s, ctrl, [0]);
  }

  lemma DataBodyPrompt(c: Conf, s: Server, data: bytes)
    requires data != [] && s.phase == DataBody(|data|, [], false)
    ensures Prompt(c, s, data + [0], WithData(s, data).(phase := SubCommand))
  {
    hide Feed, WithData, Step, Finish, AtEnd, SaveCapped;
    DataBodyDone(c, s, data);
    assert (data + [0])[..|data|] == data;
    DataFed(c, s, data, [0]);
  }

  lemma SegmentWorks(c: Conf, r: Request, k: nat)
    requires ControlSendable(c, r) && k < SEGMENTS && (k >= 3 ==> Sendable(c, r)) && (k == 4 ==> Answered(c, r))
    ensures Prompt(c, Stage(c, r, k), Segment(r, k), Stage(c, r, k + 1))
  {
    hide Prompt, Control, Header, Host, User, Name, Queue, ServerQueue, ParseControl, CarriageHint;
    if k == 0 {
      QueuePrompt(c, r);
    } else if k == 1 {
      ControlNotEmpty(r);
      ControlHeaderPrompt(c, Stage(c, r, 1), |Control(r)|, CF + Host(r));
    } else if k == 2 {
      ControlNotEmpty(r);
      ControlBodyPrompt(c, Stage(c, r, 2), Control(r));
      ControlRead(Opened(r), r);
      NoHint(r);
    } else if k == 3 {
      DataHeaderPrompt(c, Stage(c, r, 3), |r.data|, DF + Host(r));
    } else if r.data != [] {
      DataBodyPrompt(c, Stage(c, r, 4), r.data);
    } else {
      EmptyPrompt(c, r);
    }
  }

  lemma EmptyPrompt(c: Conf, r: Request)
    requires r.data == [] && c.cap == 1
    ensures Prompt(c, Stage(c, r, 4), Segment(r, 4), Stage(c, r, 5))
  {
    hide Stage, Step;
    EmptyDocument(c, r);
    assert Segment(r, 4)[..0] == [];
  }

  /** The server reads an empty document, announced with count 0, to the end: only a cap of one octet ends it earlier. */
  lemma EmptyDocument(c: Conf, r: Request)
    requires r.data == []
    ensures Segment(r, 4) == [0]
    ensures Feed(c, Stage(c, r, 4), [0]) == (Stage(c, r, 5), if c.cap == 1 then [ACK] else [])
  {
    hide Control, ServerQueue, Host, User, Name, Step, TrimCr;
    var s := Stage(c, r, 4);
    var empty: bytes := [];
    assert empty + [0] == [0];
    FeedLast(c, s, 0);
    if c.cap == 1 {
      DataBodyDone(c, s, [0]);
      assert [] + [Named(r).(data := [0])] == [Named(r).(data := [0])];
    } else {
      BodyCollects(c, s, [0]);
    }
  }

  /** After each segment the server is at the next stage; it has acknowledged the segment, or waits for the end. */
  lemma SegmentEnds(c: Conf, r: Request, k: nat)
    requires ControlSendable(c, r) && k < SEGMENTS && (k >= 3 ==> Sendable(c, r))
    ensures Feed(c, Stage(c, r, k), Segment(r, k)) == (Stage(c, r, k + 1), if k < 4 || Answered(c, r) then [ACK] else [])
  {
    hide Feed, Stage, Segment, ControlSendable, Sendable;
    if k < 4 || Answered(c, r) {
      SegmentWorks(c, r, k);
    } else {
      EmptyDocument(c, r);
    }
  }

  lemma ControlNotEmpty(r: Request)
    ensures Control(r) != []
  {
  }

  // -- The server alone, for every size -------------------------------------------------------------------------------

  /** The job keeps its names: they end in no CR. */
  predicate NamesKept(r: Request) { TrimCr(Host(r)) == Host(r) && TrimCr(User(r)) == User(r) && TrimCr(Name(r)) == Name(r) }

  /** Behind a control file cut at the limit stands, after the octet taken for its terminator, no sub-command. */
  predicate CutEnds(r: Request)
    requires |Control(r)| > MAX_CONTROL
  {
    (Control(r) + [0])[MAX_CONTROL + 1] !in {1, 2, 3}
  }

  /** Names without octets below 4 are enough for that. */
  lemma TextNamesEnd(r: Request)
    requires |Control(r)| > MAX_CONTROL && forall b | b in Host(r) + User(r) + Name(r) :: b > 3
    ensures CutEnds(r)
  {
    hide Host, User, Name;
    assert forall x | x in Host(r) :: x in Host(r) + User(r) + Name(r);
    assert forall x | x in User(r) :: x in Host(r) + User(r) + Name(r);
    assert forall x | x in Name(r) :: x in Host(r) + User(r) + Name(r);
    assert forall x | x in DF :: x > 3;
    assert (Control(r) + [0])[MAX_CONTROL + 1] in Control(r) + [0];
  }

  /** The first k segments, one after the other. */
  lemma {:induction false} SegmentsWork(c: Conf, r: Request, k: nat)
    requires ControlSendable(c, r) && k <= SEGMENTS && (k > 3 ==> Sendable(c, r))
    ensures Feed(c, START, Written(r, k)).0 == Stage(c, r, k)
  {
    hide Feed, Segment, Stage, Sendable, ControlSendable;
    if k == 0 {
      StageStart(c, r);
    } else {
      SegmentsWork(c, r, k - 1);
      SegmentEnds(c, r, k - 1);
      FeedSplits(c, START, Written(r, k - 1), Segment(r, k - 1));
    }
  }

  lemma StageStart(c: Conf, r: Request)
    ensures Feed(c, START, []).0 == START == Stage(c, r, 0)
  {
  }

  /** A control file beyond the limit: the server takes the octet after the limit for the terminator and the next one for a
      sub-command. The conversation is over there if and only if it is none; then nothing is saved, whatever follows. */
  lemma OversizeControlIsLost(c: Conf, r: Request, rest: bytes)
    requires NewlineFree(r) && c.allowed(ServerQueue(r)) && MAX_CONTROL < |Control(r)| <= MAX_INT
    ensures Feed(c, START, Written(r, 2) + (Control(r) + [0])[..MAX_CONTROL + 2]).0.phase == Closed <==> CutEnds(r)
    ensures var s := Feed(c, START, Written(r, 3) + rest).0;
            CutEnds(r) ==> s.phase == Closed && s.saved == [] && AtEnd(c, s).saved == []
  {
    hide Feed, Control, Header, Host, User, Name, Queue, ServerQueue, Step, CutEnds;
    var s1 := Server(SubCommand, Opened(r), []);
    QueuePrompt(c, r);
    ControlHeaderPrompt(c, s1, |Control(r)|, CF + Host(r));
    TwoSegments(c, r, s1);
    var s2 := s1.(phase := ControlBody(MAX_CONTROL, []));
    CutDecides(c, r, s2);
    FeedSplits(c, START, Written(r, 2), (Control(r) + [0])[..MAX_CONTROL + 2]);
    if CutEnds(r) {
      ControlOverflows(c, r, s2);
      ThreeSegments(c, r, s2);
      var done := Feed(c, s2, Control(r) + [0]).0;
      FeedSplits(c, START, Written(r, 3), rest);
      FeedClosed(c, done, rest);
    }
  }

  lemma TwoSegments(c: Conf, r: Request, s1: Server)
    requires Prompt(c, START, [2] + Queue(r) + [NL], s1)
    ensures Feed(c, START, Written(r, 2)).0 == Feed(c, s1, Header(2, |Control(r)|, CF + Host(r))).0
  {
    hide Feed, Control, Header, Host, User, Name, Queue;
    var q := [2] + Queue(r) + [NL];
    var empty: bytes := [];
    assert Written(r, 0) == empty && Written(r, 1) == empty + q == q;
    assert Written(r, 2) == q + Header(2, |Control(r)|, CF + Host(r));
    FeedSplits(c, START, q, Header(2, |Control(r)|, CF + Host(r)));
  }

  lemma ThreeSegments(c: Conf, r: Request, s2: Server)
    requires Feed(c, START, Written(r, 2)).0 == s2
    ensures Feed(c, START, Written(r, 3)).0 == Feed(c, s2, Control(r) + [0]).0
  {
    hide Feed, Control, Header, Host, User, Name, Queue;
    assert Written(r, 3) == Written(r, 2) + (Control(r) + [0]);
    FeedSplits(c, START, Written(r, 2), Control(r) + [0]);
  }

  /** What follows the limit: a terminator, and an octet that ends the conversation unless it is a sub-command. */
  lemma CutDecides(c: Conf, r: Request, s2: Server)
    requires |Control(r)| > MAX_CONTROL && s2.phase == ControlBody(MAX_CONTROL, []) && s2.saved == []
    ensures var s := Feed(c, s2, (Control(r) + [0])[..MAX_CONTROL + 2]).0;
            s.saved == [] && (s.phase == Closed <==> CutEnds(r))
  {
    hide Feed, Control, Step, ParseControl, CarriageHint;
    var all := Control(r) + [0];
    var head, e, b := all[..MAX_CONTROL], all[MAX_CONTROL], all[MAX_CONTROL + 1];
    assert all[..MAX_CONTROL + 2] == head + ([e] + [b]);
    FeedSplits(c, s2, head, [e] + [b]);
    ControlBodyDone(c, s2, head);
    FeedOne(c, s2.(phase := ControlEnd(head)), e, [b]);
    StepControlEnd(c, s2, head, e);
    var none: bytes := [];
    assert [b] == [b] + none;
    FeedOne(c, WithControl(s2, head), b, none);
    FeedNothing(c, Step(c, WithControl(s2, head), b).0);
    AtSubCommand(c, WithControl(s2, head), b);
  }

  lemma FeedNothing(c: Conf, s: Server)
    ensures Feed(c, s, []) == (s, [])
  {
  }

  lemma ControlOverflows(c: Conf, r: Request, s2: Server)
    requires |Control(r)| > MAX_CONTROL && CutEnds(r) && s2.phase == ControlBody(MAX_CONTROL, []) && s2.saved == []
    ensures var s := Feed(c, s2, Control(r) + [0]).0;
            s.phase == Closed && s.saved == [] && AtEnd(c, s).saved == []
  {
    hide Feed, Control, CutEnds;
    var all := Control(r) + [0];
    CutDecides(c, r, s2);
    assert all == all[..MAX_CONTROL + 2] + all[MAX_CONTROL + 2..];
    FeedSplits(c, s2, all[..MAX_CONTROL + 2], all[MAX_CONTROL + 2..]);
    FeedClosed(c, Feed(c, s2, all[..MAX_CONTROL + 2]).0, all[MAX_CONTROL + 2..]);
  }

  lemma AtSubCommand(c: Conf, s: Server, b: byte)
    requires s.phase == SubCommand
    ensures Step(c, s, b).0.saved == s.saved && (Step(c, s, b).0.phase == Closed <==> b !in {1, 2, 3})
  {
  }

  /** A document beyond the cap: its first cap octets are saved as they are, and the conversation is over. */
  lemma OversizeDataIsClipped(c: Conf, r: Request)
    requires ControlSendable(c, r) && 0 < c.cap < |r.data| <= MAX_INT
    ensures Feed(c, START, Written(r, 5)).0 == Server(Closed, Named(r).(data := r.data[..c.cap]), [Named(r).(data := r.data[..c.cap])])
  {
    hide Feed, Control, Header, Host, User, Name, Queue, ServerQueue, Step, TrimCr, Written, Segment, ControlSendable;
    SegmentsWork(c, r, 3);
    var s3 := Stage(c, r, 3);
    HostIsLine(c, r);
    CappedHeader(c, s3, |r.data|, DF + Host(r));
    var s4 := s3.(phase := DataBody(c.cap, [], true));
    var head, tail := r.data[..c.cap], r.data[c.cap..] + [0];
    DataBodyDone(c, s4, head);
    assert r.data + [0] == head + tail;
    FeedSplits(c, s4, head, tail);
    FeedClosed(c, SaveCapped(WithData(s4, head)), tail);
    LastSegments(c, r, s3, s4);
  }

  lemma HostIsLine(c: Conf, r: Request)
    requires ControlSendable(c, r)
    ensures NL !in DF + Host(r)
  {
  }

  lemma LastSegments(c: Conf, r: Request, s3: Server, s4: Server)
    requires Feed(c, START, Written(r, 3)).0 == s3
    requires Feed(c, s3, Header(3, |r.data|, DF + Host(r))).0 == s4
    ensures Feed(c, START, Written(r, 5)).0 == Feed(c, s4, r.data + [0]).0
  {
    hide Feed, Control, Header, Host, User, Name, Queue;
    assert Written(r, 4) == Written(r, 3) + Header(3, |r.data|, DF + Host(r));
    FeedSplits(c, START, Written(r, 3), Header(3, |r.data|, DF + Host(r)));
    assert Written(r, 5) == Written(r, 4) + (r.data + [0]);
    FeedSplits(c, START, Written(r, 4), r.data + [0]);
  }

  lemma CappedHeader(c: Conf, s: Server, n: nat, name: bytes)
    requires s.phase == SubCommand && NL !in name && 0 < c.cap < n <= MAX_INT
    ensures Feed(c, s, Header(3, n, name)).0 == s.(phase := DataBody(c.cap, [], true))
  {
    hide Feed, ParseCount, Digits;
    DigitsRead(n);
    CountRead(n, name);
    var text := Digits(n) + ([SPACE] + name);
    assert Header(3, n, name) == [3] + (text + [NL]);
    assert NL !in text && (text + [NL])[..|text|] == text;
    DataLineFed(c, s, text + [NL]);
  }

  /** One job with this data; and when its names keep their ends, exactly as the client described it. */
  predicate SavedAs(r: Request, saved: seq<Job>, data: bytes) {
    && |saved| == 1 && saved[0].data == data
    && (NamesKept(r) ==> saved[0] == Job(ServerQueue(r), Host(r), User(r), Name(r), [], [], false, data))
  }

  /** What the server saves of a whole conversation, for a document and a control file of any size: nothing exactly when
      the control file is beyond the limit (and is followed there by no sub-command), else one job with the document up to the cap. An empty document becomes the one
      octet that was to end it. */
  lemma ServerSaves(c: Conf, r: Request)
    requires NewlineFree(r) && c.allowed(ServerQueue(r)) && (|Control(r)| > MAX_CONTROL ==> CutEnds(r))
    requires |r.data| <= MAX_INT && |Control(r)| <= MAX_INT
    ensures var saved := AtEnd(c, Feed(c, START, Written(r, SEGMENTS)).0).saved;
            if |Control(r)| > MAX_CONTROL then saved == []
            else SavedAs(r, saved, if 0 < c.cap < |Document(r)| then Document(r)[..c.cap] else Document(r))
  {
    hide Feed, Written, Control, CutEnds, NewlineFree, Segment, Host, User, Name, ServerQueue, TrimCr, Stage, AtEnd;
    if |Control(r)| > MAX_CONTROL {
      OversizeControlIsLost(c, r, Segment(r, 3) + Segment(r, 4));
      FiveSegments(r);
    } else if 0 < c.cap < |r.data| {
      OversizeDataIsClipped(c, r);
      ClosedIsOver(c, Feed(c, START, Written(r, SEGMENTS)).0);
    } else {
      SegmentsWork(c, r, SEGMENTS);
      WholeIsSaved(c, r);
    }
  }

  lemma ClosedIsOver(c: Conf, s: Server)
    requires s.phase == Closed
    ensures AtEnd(c, s) == s
  {
  }

  /** What is saved when the input ends behind the last segment. */
  lemma WholeIsSaved(c: Conf, r: Request)
    ensures SavedAs(r, AtEnd(c, Stage(c, r, SEGMENTS)).saved, Document(r))
  {
    hide Host, User, Name, ServerQueue, TrimCr;
    NamesFill(r);
    if r.data != [] || c.cap != 1 {
      FinishSaves(c, r, Document(r));
    }
  }

  lemma FinishSaves(c: Conf, r: Request, data: bytes)
    requires data != []
    ensures SavedAs(r, Finish(c, Server(SubCommand, Named(r).(data := data), [])).saved, data)
  {
    hide Host, User, Name, ServerQueue, TrimCr;
    NamesFill(r);
  }

  lemma FiveSegments(r: Request)
    ensures Written(r, 5) == Written(r, 3) + (Segment(r, 3) + Segment(r, 4))
  {
    hide Segment;
    assert Written(r, 5) == Written(r, 3) + Segment(r, 3) + Segment(r, 4);
  }

  lemma NamesFill(r: Request)
    ensures Host(r) != [] && User(r) != [] && Name(r) != []
  {
  }
}
