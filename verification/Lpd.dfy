/** The LPD server (lpd.go): lines, counts, control files, and the conversation as a machine that is fed one
    octet at a time. */
module Lpd {
  import opened Bytes
  import opened Text

  const NL: byte := 10
  const CR: byte := 13
  const SPACE: byte := 32
  const ACK: byte := 0
  const NACK: byte := 1
  const MAX_CONTROL: nat := 0x10_0000

  // -- Text --------------------------------------------------------------------------------------------

  /** s without the CRs and LFs it ends in. */
  function TrimEol(s: bytes): bytes {
    if s != [] && (s[|s| - 1] == CR || s[|s| - 1] == NL) then TrimEol(s[..|s| - 1]) else s
  }

  function TrimCr(s: bytes): bytes { if s != [] && s[|s| - 1] == CR then TrimCr(s[..|s| - 1]) else s }

  /** The index of the first c in s; |s| when there is none. */
  function IndexOf(s: bytes, c: byte): (k: nat)
    ensures k <= |s|
    ensures forall i | 0 <= i < k :: s[i] != c
    ensures k < |s| ==> s[k] == c
  {
    if s == [] || s[0] == c then 0 else 1 + IndexOf(s[1..], c)
  }

  const MAX_INT: int := 0x7FFF_FFFF_FFFF_FFFF

  /** strconv.Atoi with the error ignored: 0 for anything but a number, the nearest int for one too large. */
  function Atoi(s: bytes): int {
    var neg := s != [] && s[0] == 45;
    var body := if s != [] && (s[0] == 45 || s[0] == 43) then s[1..] else s;
    if body == [] || !AllDigits(body) then 0
    else if neg then (if Decimal(body) > MAX_INT + 1 then -MAX_INT - 1 else 0 - Decimal(body) as int)
    else (if Decimal(body) > MAX_INT then MAX_INT else Decimal(body))
  }

  /** The count of a sub-command argument "<count> <name>". */
  function ParseCount(line: bytes): int {
    var s := TrimSpace(line);
    Atoi(s[..IndexOf(s, SPACE)])
  }

  // -- The job -----------------------------------------------------------------------------------------

  datatype Job = Job(queue: bytes, host: bytes, user: bytes, jobName: bytes, class_: bytes, title: bytes, asa: bool, data: bytes)

  const NEW_JOB: Job := Job([], [], [], [], [], [], false, [])

  /** One line of a control file: a command letter and its operand. */
  function ApplyLine(j: Job, line: bytes): Job {
    if line == [] then j
    else
      var val := TrimCr(line[1..]);
      if line[0] == 72 then j.(host := val)
      else if line[0] == 80 then j.(user := val)
      else if line[0] == 74 then j.(jobName := val)
      else if line[0] == 67 then j.(class_ := val)
      else if line[0] == 84 then j.(title := val)
      else j
  }

  function ParseControl(j: Job, ctrl: bytes): Job
    decreases |ctrl|
  {
    var k := IndexOf(ctrl, NL);
    var j' := ApplyLine(j, ctrl[..k]);
    if k < |ctrl| then ParseControl(j', ctrl[k + 1..]) else j'
  }

  /** Some line begins with the FORTRAN carriage-control letter. */
  predicate CarriageHint(ctrl: bytes) {
    var k := IndexOf(ctrl, NL);
    (k > 0 && ctrl[0] == 114) || (k < |ctrl| && CarriageHint(ctrl[k + 1..]))
  }

  method ParseControlFile(ctrl: bytes, j0: Job) returns (j: Job)
    ensures j == ParseControl(j0, ctrl)
  {
    j := j0;
    var rest := ctrl;
    while true
      invariant ParseControl(j, rest) == ParseControl(j0, ctrl)
      decreases |rest|
    {
      var k := IndexOf(rest, NL);
      j := ApplyLine(j, rest[..k]);
      if k == |rest| {
        return;
      }
      rest := rest[k + 1..];
    }
  }

  // -- The conversation ----------------------------------------------------------------------------------

  /** The configuration: which queues are accepted, the job cap (0: none), whether PJL fills gaps and how. */
  datatype Conf = Conf(allowed: bytes -> bool, cap: int, usePjl: bool, pjl: bytes -> (bytes, bytes))

  datatype Phase =
    | Command
    | QueueLine(line: bytes)
    | SubCommand
    | ControlLine(line: bytes)
    | ControlBody(left: nat, got: bytes)   // left octets are still to come
    | ControlStream(got: bytes)            // no usable count: until the end, or the limit
    | ControlEnd(ctrl: bytes)              // the octet after the file
    | DataLine(line: bytes)
    | DataBody(left: nat, got: bytes, capped: bool)
    | DataStream(got: bytes)
    | DataEnd
    | Closed

  datatype Server = Server(phase: Phase, job: Job, saved: seq<Job>)

  const START: Server := Server(Command, NEW_JOB, [])

  /** What is saved when the conversation is over. */
  function Finish(c: Conf, s: Server): Server {
    if s.job.data == [] then s.(phase := Closed)
    else
      var j := s.job;
      var fill := c.usePjl && (j.jobName == [] || j.user == []);
      var (name, user) := c.pjl(j.data);
      var j1 := if fill && j.jobName == [] then j.(jobName := name) else j;
      var j2 := if fill && j1.user == [] then j1.(user := user) else j1;
      Server(Closed, j2, s.saved + [j2])
  }

  /** The cap was hit in the middle of a data file: what has arrived is saved as it is. */
  function SaveCapped(s: Server): Server {
    Server(Closed, s.job, if s.job.data == [] then s.saved else s.saved + [s.job])
  }

  function WithControl(s: Server, ctrl: bytes): Server {
    Server(SubCommand, ParseControl(s.job, ctrl).(asa := CarriageHint(ctrl)), s.saved)
  }

  function WithData(s: Server, data: bytes): Server { s.(job := s.job.(data := data)) }

  function AfterControlLine(s: Server, line: bytes): Server {
    var count := ParseCount(TrimEol(line));
    s.(phase := if count > 0 then ControlBody(Min(count, MAX_CONTROL), []) else ControlStream([]))
  }

  function AfterDataLine(c: Conf, s: Server, line: bytes): Server {
    var count := ParseCount(TrimEol(line));
    s.(phase := if count > 0 then
                  if 0 < c.cap < count then DataBody(c.cap, [], true) else DataBody(count, [], false)
                else DataStream([]))
  }

  /** The server after one more octet, and what it answers. */
  function Step(c: Conf, s: Server, b: byte): (Server, bytes) {
    match s.phase
    case Command => if b == 2 then (s.(phase := QueueLine([])), []) else (s.(phase := Closed), [ACK])
    case QueueLine(line) =>
      if b != NL then (s.(phase := QueueLine(line + [b])), [])
      else
        var queue := TrimSpace(TrimEol(line + [b]));
        if c.allowed(queue) then (s.(phase := SubCommand, job := s.job.(queue := queue)), [ACK])
        else (s.(phase := Closed), [NACK])
    case SubCommand =>
      if b == 1 then (s, [ACK])
      else if b == 2 then (s.(phase := ControlLine([])), [])
      else if b == 3 then (s.(phase := DataLine([])), [])
      else (s.(phase := Closed), [])
    case ControlLine(line) =>
      if b != NL then (s.(phase := ControlLine(line + [b])), []) else (AfterControlLine(s, line + [b]), [ACK])
    case ControlBody(left, got) =>
      if left <= 1 then (s.(phase := ControlEnd(got + [b])), []) else (s.(phase := ControlBody(left - 1, got + [b])), [])
    case ControlStream(got) =>
      if |got| + 1 < MAX_CONTROL then (s.(phase := ControlStream(got + [b])), [])
      else (s.(phase := ControlEnd(got + [b])), [])
    case ControlEnd(ctrl) => (WithControl(s, ctrl), [ACK])
    case DataLine(line) =>
      if b != NL then (s.(phase := DataLine(line + [b])), []) else (AfterDataLine(c, s, line + [b]), [ACK])
    case DataBody(left, got, capped) =>
      if left > 1 then (s.(phase := DataBody(left - 1, got + [b], capped)), [])
      else if capped then (SaveCapped(WithData(s, got + [b])), [ACK])
      else (WithData(s, got + [b]).(phase := DataEnd), [])
    case DataStream(got) =>
      if 0 < c.cap <= |got| + 1 then (SaveCapped(WithData(s, got + [b])), [ACK])
      else (s.(phase := DataStream(got + [b])), [])
    case DataEnd => (s.(phase := SubCommand), [ACK])
    case Closed => (s, [])
  }

  /** The server when the client has closed its side. */
  function AtEnd(c: Conf, s: Server): Server {
    match s.phase
    case Command => s.(phase := Closed)
    case QueueLine(_) => s.(phase := Closed)
    case SubCommand => Finish(c, s)
    case ControlLine(_) => Finish(c, WithControl(s, []))
    case ControlBody(_, got) => Finish(c, WithControl(s, got))
    case ControlStream(got) => Finish(c, WithControl(s, got))
    case ControlEnd(ctrl) => Finish(c, WithControl(s, ctrl))
    case DataLine(_) => s.(phase := Closed, job := s.job.(data := []))
    case DataBody(_, got, capped) => if capped then SaveCapped(WithData(s, got)) else Finish(c, WithData(s, got))
    case DataStream(got) => Finish(c, WithData(s, got))
    case DataEnd => Finish(c, s)
    case Closed => s
  }

  /** The server after a stretch of input, and everything it answered meanwhile. */
  function Feed(c: Conf, s: Server, input: bytes): (Server, bytes)
    decreases |input|
  {
    if input == [] then (s, [])
    else
      var (s1, out) := Step(c, s, input[0]);
      var (s2, more) := Feed(c, s1, input[1..]);
      (s2, out + more)
  }

  // -- Feeding lines and bodies ----------------------------------------------------------------------------

  lemma FeedOne(c: Conf, s: Server, b: byte, rest: bytes)
    ensures var (s1, out) := Step(c, s, b);
            Feed(c, s, [b] + rest) == (Feed(c, s1, rest).0, out + Feed(c, s1, rest).1)
  {
    hide Step;
    assert ([b] + rest)[1..] == rest;
  }

  lemma {:induction false} FeedSplits(c: Conf, s: Server, a: bytes, b: bytes)
    ensures var (s1, out) := Feed(c, s, a);
            Feed(c, s, a + b) == (Feed(c, s1, b).0, out + Feed(c, s1, b).1)
    decreases |a|
  {
    hide Step;
    if a == [] {
      assert a + b == b && [] + Feed(c, s, b).1 == Feed(c, s, b).1;
    } else {
      var (s1, out) := Step(c, s, a[0]);
      assert (a + b)[1..] == a[1..] + b;
      FeedSplits(c, s1, a[1..], b);
      var (s2, more) := Feed(c, s1, a[1..]);
      assert out + (more + Feed(c, s2, b).1) == (out + more) + Feed(c, s2, b).1;
    }
  }

  lemma FeedQuiet(c: Conf, s: Server, input: bytes)
    requires input != [] && Step(c, s, input[0]).1 == []
    ensures Feed(c, s, input) == Feed(c, Step(c, s, input[0]).0, input[1..])
  {
    hide Step;
    var more := Feed(c, Step(c, s, input[0]).0, input[1..]).1;
    assert Step(c, s, input[0]).1 + more == more;
  }

  predicate IsLine(p: Phase) { p.QueueLine? || p.ControlLine? || p.DataLine? }

  function WithLine(p: Phase, line: bytes): Phase
    requires IsLine(p)
  {
    if p.QueueLine? then QueueLine(line) else if p.ControlLine? then ControlLine(line) else DataLine(line)
  }

  /** Until its newline a line is only collected. */
  lemma {:induction false} LineCollects(c: Conf, s: Server, pre: bytes)
    requires IsLine(s.phase) && NL !in pre
    ensures Feed(c, s, pre) == (s.(phase := WithLine(s.phase, s.phase.line + pre)), [])
    decreases |pre|
  {
    if pre == [] {
      assert s.phase.line + [] == s.phase.line;
    } else {
      var s1 := s.(phase := WithLine(s.phase, s.phase.line + [pre[0]]));
      assert pre[0] in pre;
      assert Step(c, s, pre[0]) == (s1, []);
      FeedQuiet(c, s, pre);
      LineCollects(c, s1, pre[1..]);
      assert s.phase.line + [pre[0]] + pre[1..] == s.phase.line + pre;
    }
  }

  predicate IsBody(p: Phase) { p.ControlBody? || p.ControlStream? || p.DataBody? || p.DataStream? }

  /** Whether n more octets leave a body still incomplete. */
  predicate StaysOpen(c: Conf, p: Phase, n: nat)
    requires IsBody(p)
  {
    match p
    case ControlBody(left, _) => n < left
    case ControlStream(got) => |got| + n < MAX_CONTROL
    case DataBody(left, _, _) => n < left
    case DataStream(got) => c.cap <= 0 || |got| + n < c.cap
  }

  function Grown(p: Phase, data: bytes): Phase
    requires IsBody(p)
  {
    match p
    case ControlBody(left, got) => ControlBody(if |data| <= left then left - |data| else 0, got + data)
    case ControlStream(got) => ControlStream(got + data)
    case DataBody(left, got, capped) => DataBody(if |data| <= left then left - |data| else 0, got + data, capped)
    case DataStream(got) => DataStream(got + data)
  }

  /** The octets of a file are only collected until the last one that was announced or is allowed. */
  lemma {:induction false} BodyCollects(c: Conf, s: Server, data: bytes)
    requires IsBody(s.phase) && StaysOpen(c, s.phase, |data|)
    ensures Feed(c, s, data) == (s.(phase := Grown(s.phase, data)), [])
    decreases |data|
  {
    if data == [] {
      assert s.phase.got + [] == s.phase.got;
    } else {
      var s1 := s.(phase := Grown(s.phase, [data[0]]));
      assert Step(c, s, data[0]) == (s1, []);
      FeedQuiet(c, s, data);
      BodyCollects(c, s1, data[1..]);
      assert s.phase.got + [data[0]] + data[1..] == s.phase.got + data;
    }
  }

  /** The last octet of a body completes it. */
  lemma BodyCompletes(c: Conf, s: Server, data: bytes)
    requires IsBody(s.phase) && data != [] && StaysOpen(c, s.phase, |data| - 1)
    ensures Feed(c, s, data) == Step(c, s.(phase := Grown(s.phase, data[..|data| - 1])), data[|data| - 1])
  {
    hide Step, Grown, StaysOpen;
    var init, last := data[..|data| - 1], data[|data| - 1];
    BodyCollects(c, s, init);
    var s1 := s.(phase := Grown(s.phase, init));
    assert data == init + [last];
    FeedSplits(c, s, init, [last]);
    FeedLast(c, s1, last);
    var out := Step(c, s1, last).1;
    assert [] + out == out;
  }

  lemma FeedLast(c: Conf, s: Server, b: byte)
    ensures Feed(c, s, [b]) == Step(c, s, b)
  {
    hide Step;
    assert [b][1..] == [];
    var out := Step(c, s, b).1;
    assert out + [] == out;
  }

  /** A line and its newline. */
  lemma LineCompletes(c: Conf, s: Server, line: bytes)
    requires IsLine(s.phase) && NL !in line
    ensures Feed(c, s, line + [NL]) == Step(c, s.(phase := WithLine(s.phase, s.phase.line + line)), NL)
  {
    hide Step;
    LineCollects(c, s, line);
    FeedSplits(c, s, line, [NL]);
    var s1 := s.(phase := WithLine(s.phase, s.phase.line + line));
    FeedLast(c, s1, NL);
    var out := Step(c, s1, NL).1;
    assert [] + out == out;
  }

  // -- At most one job --------------------------------------------------------------------------------------

  predicate OneJob(s: Server) { |s.saved| <= 1 && (s.phase != Closed ==> s.saved == []) }

  lemma StepOneJob(c: Conf, s: Server, b: byte)
    requires OneJob(s)
    ensures OneJob(Step(c, s, b).0)
  {
    hide ParseControl, ParseCount, CarriageHint, TrimEol, TrimSpace;
  }

  lemma {:induction false} FeedOneJob(c: Conf, s: Server, input: bytes)
    requires OneJob(s)
    ensures OneJob(Feed(c, s, input).0)
    decreases |input|
  {
    hide Step, OneJob;
    if input != [] {
      StepOneJob(c, s, input[0]);
      FeedOneJob(c, Step(c, s, input[0]).0, input[1..]);
    }
  }

  /** Whatever a client sends, one conversation saves at most one job, and nothing before it is over. */
  lemma AtMostOneJob(c: Conf, input: bytes)
    ensures var s := Feed(c, START, input).0;
            |s.saved| <= 1 && |AtEnd(c, s).saved| <= 1 && (s.phase != Closed ==> s.saved == [])
  {
    hide Feed, ParseControl, CarriageHint;
    FeedOneJob(c, START, input);
  }

  // -- The server in its own form ---------------------------------------------------------------------------

  /** The buffered reader over all that the client sends before it closes its side, and the replies written. */
  class Conn {
    const input: bytes
    var pos: nat
    var replies: bytes

    constructor (input: bytes)
      ensures this.input == input && pos == 0 && replies == []
    {
      this.input, pos, replies := input, 0, [];
    }

    method ReadByte() returns (b: Option<byte>)
      requires pos <= |input|
      modifies this`pos
      ensures old(pos) < |input| ==> b == Some(input[old(pos)]) && pos == old(pos) + 1
      ensures old(pos) == |input| ==> b == None && pos == old(pos)
    {
      if pos == |input| {
        return None;
      }
      b := Some(input[pos]);
      pos := pos + 1;
    }

    /** Through the next newline, or to the end. */
    method ReadLine() returns (line: bytes)
      requires pos <= |input|
      modifies this`pos
      ensures old(pos) <= pos <= |input| && line == input[old(pos)..pos]
      ensures NL in line ==> line[|line| - 1] == NL && NL !in line[..|line| - 1]
      ensures NL !in line ==> pos == |input|
    {
      var rest := input[pos..];
      var k := IndexOf(rest, NL);
      var n := if k < |rest| then k + 1 else k;
      line := rest[..n];
      pos := pos + n;
      if k < |rest| { assert line[k] == NL; }
    }

    /** readChunk: count octets, but no more than cap; everything, but no more than cap, for no count. */
    method ReadChunk(count: int, cap: int) returns (data: bytes, capped: bool)
      requires pos <= |input|
      modifies this`pos
      ensures old(pos) <= pos <= |input| && data == input[old(pos)..pos]
      ensures count > 0 ==> |data| == Min(if 0 < cap < count then cap else count, |input| - old(pos)) && (capped <==> 0 < cap < count)
      ensures count <= 0 ==>
                && |data| == (if cap > 0 then Min(cap, |input| - old(pos)) else |input| - old(pos))
                && (capped <==> cap > 0 && |data| == cap)
    {
      var left := |input| - pos;
      var n: nat;
      if count > 0 {
        n, capped := Min(if 0 < cap < count then cap else count, left), 0 < cap < count;
      } else if cap > 0 {
        n := Min(cap, left);
        capped := n == cap;
      } else {
        n, capped := left, false;
      }
      data := input[pos..pos + n];
      pos := pos + n;
    }

    method Reply(b: byte)
      modifies this`replies
      ensures replies == old(replies) + [b]
    {
      replies := replies + [b];
    }
  }

  /** A line as ReadLine returns it: one newline, at its end, unless the input ended first. */
  ghost predicate LineRead(line: bytes) { NL in line ==> line[|line| - 1] == NL && NL !in line[..|line| - 1] }

  lemma StepSub(c: Conf, s: Server, sub: byte)
    requires s.phase == SubCommand && (sub == 2 || sub == 3)
    ensures Step(c, s, sub) == (s.(phase := if sub == 2 then ControlLine([]) else DataLine([])), [])
  {
    hide AfterControlLine, AfterDataLine;
  }

  lemma StepEol(c: Conf, s: Server, line: bytes)
    ensures Step(c, s.(phase := ControlLine(line)), NL) == (AfterControlLine(s, line + [NL]), [ACK])
    ensures Step(c, s.(phase := DataLine(line)), NL) == (AfterDataLine(c, s, line + [NL]), [ACK])
  {
    hide ParseCount, WithControl, SaveCapped, ParseControl;
  }

  /** A whole line as ReadLine returns it, or what came of it. */
  lemma LineFed(c: Conf, s: Server, line: bytes)
    requires IsLine(s.phase) && s.phase.line == [] && LineRead(line)
    ensures Feed(c, s, line) ==
            if NL !in line then (s.(phase := WithLine(s.phase, line)), [])
            else Step(c, s.(phase := WithLine(s.phase, line[..|line| - 1])), NL)
  {
    hide Step, Feed, WithLine;
    var empty: bytes := [];
    if NL !in line {
      LineCollects(c, s, line);
      assert empty + line == line;
    } else {
      var init := line[..|line| - 1];
      assert line == init + [NL] && empty + init == init;
      LineCompletes(c, s, init);
    }
  }

  /** A sub-command octet and its argument line. */
  lemma ControlLineFed(c: Conf, s: Server, line: bytes)
    requires s.phase == SubCommand && LineRead(line)
    ensures Feed(c, s, [2] + line) ==
            if NL !in line then (s.(phase := ControlLine(line)), []) else (AfterControlLine(s, line), [ACK])
  {
    hide AfterControlLine, Step, Feed;
    var s1 := s.(phase := ControlLine([]));
    StepSub(c, s, 2);
    FeedQuiet(c, s, [2] + line);
    assert ([2] + line)[1..] == line;
    LineFed(c, s1, line);
    if NL in line {
      var init := line[..|line| - 1];
      assert line == init + [NL];
      StepEol(c, s, init);
      assert s1.(phase := ControlLine(init)) == s.(phase := ControlLine(init));
    }
  }

  lemma DataLineFed(c: Conf, s: Server, line: bytes)
    requires s.phase == SubCommand && LineRead(line)
    ensures Feed(c, s, [3] + line) ==
            if NL !in line then (s.(phase := DataLine(line)), []) else (AfterDataLine(c, s, line), [ACK])
  {
    hide AfterDataLine, Step, Feed;
    var s1 := s.(phase := DataLine([]));
    StepSub(c, s, 3);
    FeedQuiet(c, s, [3] + line);
    assert ([3] + line)[1..] == line;
    LineFed(c, s1, line);
    if NL in line {
      var init := line[..|line| - 1];
      assert line == init + [NL];
      StepEol(c, s, init);
      assert s1.(phase := DataLine(init)) == s.(phase := DataLine(init));
    }
  }

  /** The end of a control body in the machine: completed by its last octet, or cut off. */
  lemma StepControlLast(c: Conf, s: Server, init: bytes, last: byte)
    requires (s.phase.ControlBody? || s.phase.ControlStream?) && s.phase.got == []
    requires StaysOpen(c, s.phase, |init|) && !StaysOpen(c, s.phase, |init| + 1)
    ensures Step(c, s.(phase := Grown(s.phase, init)), last) == (s.(phase := ControlEnd(init + [last])), [])
  {
    hide ParseControl, ParseCount;
    var empty: bytes := [];
    assert empty + init == init;
  }

  lemma ControlCutOff(c: Conf, s: Server, data: bytes)
    requires (s.phase.ControlBody? || s.phase.ControlStream?) && s.phase.got == []
    ensures AtEnd(c, s.(phase := Grown(s.phase, data))) == Finish(c, WithControl(s, data))
    ensures AtEnd(c, s.(phase := ControlEnd(data))) == Finish(c, WithControl(s, data))
  {
    hide ParseControl, ParseCount, Finish;
    var empty: bytes := [];
    assert empty + data == data;
  }

  predicate ControlPhase(p: Phase) { (p.ControlBody? || p.ControlStream?) && p.got == [] }

  lemma AfterControlLineIs(s: Server, line: bytes)
    ensures var s1 := AfterControlLine(s, line);
            ControlPhase(s1.phase) && s1 == s.(phase := s1.phase)
  {
    hide ParseCount;
  }

  lemma ControlBodyDone(c: Conf, s: Server, data: bytes)
    requires ControlPhase(s.phase) && data != []
    requires !StaysOpen(c, s.phase, |data|) && StaysOpen(c, s.phase, |data| - 1)
    ensures Feed(c, s, data) == (s.(phase := ControlEnd(data)), [])
  {
    hide StaysOpen, Step, Feed, Grown;
    var init, last := data[..|data| - 1], data[|data| - 1];
    BodyCompletes(c, s, data);
    StepControlLast(c, s, init, last);
    assert init + [last] == data;
  }

  /** A control file after its line: the octets that came, and the one after them if it came. */
  lemma ControlFed(c: Conf, s: Server, data: bytes, end: bytes)
    requires |end| <= 1 && ControlPhase(s.phase)
    requires if StaysOpen(c, s.phase, |data|) then end == [] else data != [] && StaysOpen(c, s.phase, |data| - 1)
    ensures if end != [] then Feed(c, s, data + end) == (WithControl(s, data), [ACK])
            else AtEnd(c, Feed(c, s, data).0) == Finish(c, WithControl(s, data)) && Feed(c, s, data).1 == []
  {
    hide WithControl, Finish, Step, Feed, AtEnd, Grown, StaysOpen;
    ControlCutOff(c, s, data);
    if StaysOpen(c, s.phase, |data|) {
      BodyCollects(c, s, data);
    } else {
      ControlBodyDone(c, s, data);
      if end != [] {
        assert end == [end[0]];
        FeedSplits(c, s, data, end);
        FeedLast(c, s.(phase := ControlEnd(data)), end[0]);
        StepControlEnd(c, s, data, end[0]);
        var empty: bytes := [];
        assert empty + [ACK] == [ACK];
      }
    }
  }

  lemma StepControlEnd(c: Conf, s: Server, ctrl: bytes, b: byte)
    ensures Step(c, s.(phase := ControlEnd(ctrl)), b) == (WithControl(s, ctrl), [ACK])
  {
    hide ParseControl, ParseCount;
  }

  lemma StepDataLast(c: Conf, s: Server, init: bytes, last: byte)
    requires (s.phase.DataBody? || s.phase.DataStream?) && s.phase.got == []
    requires StaysOpen(c, s.phase, |init|) && !StaysOpen(c, s.phase, |init| + 1)
    ensures var d := WithData(s, init + [last]);
            Step(c, s.(phase := Grown(s.phase, init)), last) ==
            if s.phase.DataStream? || s.phase.capped then (SaveCapped(d), [ACK]) else (d.(phase := DataEnd), [])
  {
    hide ParseControl, ParseCount;
    var empty: bytes := [];
    assert empty + init == init;
  }

  lemma DataCutOff(c: Conf, s: Server, data: bytes)
    requires (s.phase.DataBody? || s.phase.DataStream?) && s.phase.got == []
    ensures AtEnd(c, s.(phase := Grown(s.phase, data))) ==
            if s.phase.DataBody? && s.phase.capped then SaveCapped(WithData(s, data)) else Finish(c, WithData(s, data))
    ensures AtEnd(c, WithData(s, data).(phase := DataEnd)) == Finish(c, WithData(s, data))
  {
    hide ParseControl, ParseCount;
    var empty: bytes := [];
    assert empty + data == data;
  }

  lemma StepDataEnd(c: Conf, s: Server, d: Server, b: byte)
    ensures Step(c, d.(phase := DataEnd), b) == (d.(phase := SubCommand), [ACK])
  {
    hide ParseControl, ParseCount;
  }

  predicate DataPhase(p: Phase) { (p.DataBody? || p.DataStream?) && p.got == [] }

  predicate Capped(p: Phase) { p.DataBody? && p.capped }

  lemma AfterDataLineIs(c: Conf, s: Server, line: bytes)
    ensures var s1 := AfterDataLine(c, s, line);
            DataPhase(s1.phase) && s1 == s.(phase := s1.phase)
  {
    hide ParseCount;
  }

  lemma DataBodyDone(c: Conf, s: Server, data: bytes)
    requires DataPhase(s.phase) && data != []
    requires !StaysOpen(c, s.phase, |data|) && StaysOpen(c, s.phase, |data| - 1)
    ensures var d := WithData(s, data);
            Feed(c, s, data) == if s.phase.DataStream? || Capped(s.phase) then (SaveCapped(d), [ACK]) else (d.(phase := DataEnd), [])
  {
    hide StaysOpen, Step, Feed, Grown, WithData, SaveCapped;
    var init, last := data[..|data| - 1], data[|data| - 1];
    BodyCompletes(c, s, data);
    StepDataLast(c, s, init, last);
    assert init + [last] == data;
  }

  /** A data file after its line. */
  lemma DataFed(c: Conf, s: Server, data: bytes, end: bytes)
    requires DataPhase(s.phase) && |end| <= 1
    requires if StaysOpen(c, s.phase, |data|) then end == [] else data != [] && StaysOpen(c, s.phase, |data| - 1)
    ensures var d := WithData(s, data);
            if StaysOpen(c, s.phase, |data|) then
              AtEnd(c, Feed(c, s, data).0) == (if Capped(s.phase) then SaveCapped(d) else Finish(c, d)) && Feed(c, s, data).1 == []
            else if Capped(s.phase) || s.phase.DataStream? then Feed(c, s, data) == (SaveCapped(d), [ACK])
            else if end != [] then Feed(c, s, data + end) == (d.(phase := SubCommand), [ACK])
            else AtEnd(c, Feed(c, s, data).0) == Finish(c, d) && Feed(c, s, data).1 == []
  {
    hide WithData, SaveCapped, Finish, Step, Feed, AtEnd, Grown, StaysOpen;
    DataCutOff(c, s, data);
    if StaysOpen(c, s.phase, |data|) {
      BodyCollects(c, s, data);
    } else {
      DataBodyDone(c, s, data);
      if s.phase.DataBody? && !s.phase.capped && end != [] {
        var d := WithData(s, data);
        assert end == [end[0]];
        FeedSplits(c, s, data, end);
        FeedLast(c, d.(phase := DataEnd), end[0]);
        StepDataEnd(c, s, d, end[0]);
        var empty: bytes := [];
        assert empty + [ACK] == [ACK];
      }
    }
  }

  // -- One sub-command, as the reader sees it -----------------------------------------------------------------

  /** The number of octets ReadChunk takes for this count when the rest of the input is long enough; 0: all of it. */
  function Limit(count: int, cap: int): int { if count <= 0 then cap else if 0 < cap < count then cap else count }

  /** data is what ReadChunk returns, and end the octet read after it: something is missing only at the end of
      the input. */
  predicate ChunkRead(count: int, cap: int, data: bytes, end: bytes) {
    var n := Limit(count, cap);
    |end| <= 1 && (n <= 0 || |data| <= n) && (end != [] ==> n > 0 && |data| == n)
  }

  /** A control-file sub-command: its octet, its line, its file and the terminator. */
  lemma ControlWhole(c: Conf, s: Server, line: bytes, data: bytes, end: bytes)
    requires s.phase == SubCommand && LineRead(line)
    requires if NL in line then ChunkRead(ParseCount(TrimEol(line)), MAX_CONTROL, data, end) else data == [] == end
    ensures var (s1, out) := Feed(c, s, [2] + line + data + end);
            if end != [] then s1 == WithControl(s, data) && out == [ACK, ACK]
            else AtEnd(c, s1) == Finish(c, WithControl(s, data)) && out <= [ACK, ACK]
  {
    hide Feed, ParseCount, TrimEol, Finish, WithControl;
    ControlLineFed(c, s, line);
    var head := [2] + line;
    if NL !in line {
      assert head + data + end == head;
      ControlLineEnds(c, s, line);
    } else {
      AfterControlLineIs(s, line);
      var s1 := AfterControlLine(s, line);
      ControlIgnoresPhase(s, s1.phase, data);
      ControlFed(c, s1, data, end);
      FeedSplits(c, s, head, data + end);
      assert head + data + end == head + (data + end);
      assert data + [] == data;
    }
  }

  lemma ControlIgnoresPhase(s: Server, p: Phase, ctrl: bytes)
    ensures WithControl(s.(phase := p), ctrl) == WithControl(s, ctrl)
  {
  }

  lemma ControlLineEnds(c: Conf, s: Server, line: bytes)
    ensures AtEnd(c, s.(phase := ControlLine(line))) == Finish(c, WithControl(s, []))
  {
    hide Finish, ParseControl;
  }

  /** What ReadChunk reports of the cap. */
  predicate HitsCap(count: int, cap: int, data: bytes) { if count > 0 then 0 < cap < count else cap > 0 && |data| == cap }

  /** What a data-file sub-command leaves behind: s1 and out are the machine's, d has the data stored. */
  predicate DataOutcome(c: Conf, d: Server, count: int, data: bytes, end: bytes, s1: Server, out: bytes) {
    if end != [] then s1 == d && out == [ACK]
    else
      && out <= [ACK]
      && AtEnd(c, s1).saved == (if HitsCap(count, c.cap, data) then SaveCapped(d) else Finish(c, d)).saved
      && (HitsCap(count, c.cap, data) && |data| == c.cap ==> s1.phase == Closed)
  }

  lemma DataFileFed(c: Conf, s: Server, line: bytes, data: bytes, end: bytes)
    requires s.phase == SubCommand && ChunkRead(ParseCount(TrimEol(line)), c.cap, data, end)
    requires HitsCap(ParseCount(TrimEol(line)), c.cap, data) ==> end == []
    ensures var (s1, out) := Feed(c, AfterDataLine(c, s, line), data + end);
            DataOutcome(c, WithData(s, data), ParseCount(TrimEol(line)), data, end, s1, out)
  {
    hide Feed, ParseCount, TrimEol, Finish, AfterDataLine, SaveCapped, AtEnd, WithData, StaysOpen;
    AfterDataLineIs(c, s, line);
    var s1 := AfterDataLine(c, s, line);
    DataPhaseIs(c, s, line, |data|);
    if data != [] {
      DataPhaseIs(c, s, line, |data| - 1);
    }
    DataIgnoresPhase(c, s, s1.phase, data);
    DataFed(c, s1, data, end);
    SavedIsClosed(c, WithData(s, data));
    assert data + [] == data;
  }

  /** A data-file sub-command. */
  lemma DataWhole(c: Conf, s: Server, line: bytes, data: bytes, end: bytes)
    requires s.phase == SubCommand && LineRead(line) && NL in line
    requires ChunkRead(ParseCount(TrimEol(line)), c.cap, data, end)
    requires HitsCap(ParseCount(TrimEol(line)), c.cap, data) ==> end == []
    ensures var (s1, out) := Feed(c, s, [3] + line + data + end);
            |out| > 0 && out[0] == ACK
            && DataOutcome(c, WithData(s, data), ParseCount(TrimEol(line)), data, end, s1, out[1..])
  {
    hide Feed, ParseCount, TrimEol, AfterDataLine, WithData, DataOutcome, ChunkRead, HitsCap;
    DataLineFed(c, s, line);
    DataFileFed(c, s, line, data, end);
    var head := [3] + line;
    FeedSplits(c, s, head, data + end);
    assert head + data + end == head + (data + end);
    var out := Feed(c, AfterDataLine(c, s, line), data + end).1;
    assert ([ACK] + out)[1..] == out;
  }

  lemma DataPhaseIs(c: Conf, s: Server, line: bytes, n: nat)
    ensures var p := AfterDataLine(c, s, line).phase;
            var count := ParseCount(TrimEol(line));
            && (IsBody(p) && (StaysOpen(c, p, n) <==> Limit(count, c.cap) <= 0 || n < Limit(count, c.cap)))
            && (Capped(p) <==> 0 < c.cap < count)
            && (p.DataStream? <==> count <= 0)
  {
    hide ParseCount;
  }

  lemma DataIgnoresPhase(c: Conf, s: Server, p: Phase, data: bytes)
    ensures SaveCapped(WithData(s.(phase := p), data)) == SaveCapped(WithData(s, data))
    ensures Finish(c, WithData(s.(phase := p), data)) == Finish(c, WithData(s, data))
    ensures WithData(s.(phase := p), data).(phase := s.phase) == WithData(s, data)
  {
  }

  lemma SavedIsClosed(c: Conf, d: Server)
    ensures SaveCapped(d).phase == Closed && AtEnd(c, SaveCapped(d)) == SaveCapped(d)
  {
    hide Finish;
  }

  /** A data-file sub-command whose line never ended: nothing is stored, so nothing is saved. */
  lemma DataLineEnds(c: Conf, s: Server, line: bytes)
    requires s.phase == SubCommand && NL !in line
    ensures var (s1, out) := Feed(c, s, [3] + line);
            var d := WithData(s, []);
            out == [] && AtEnd(c, s1).saved == s.saved == Finish(c, d).saved == SaveCapped(d).saved
  {
    hide ParseControl, Feed;
    DataLineFed(c, s, line);
  }

  // -- The handler ----------------------------------------------------------------------------------------------

  lemma Advance(c: Conf, input: bytes, p: nat, q: nat)
    requires p <= q <= |input|
    ensures var (s, out) := Feed(c, START, input[..p]);
            Feed(c, START, input[..q]) == (Feed(c, s, input[p..q]).0, out + Feed(c, s, input[p..q]).1)
  {
    hide Feed;
    assert input[..q] == input[..p] + input[p..q];
    FeedSplits(c, START, input[..p], input[p..q]);
  }

  lemma {:induction false} FeedClosed(c: Conf, s: Server, input: bytes)
    requires s.phase == Closed
    ensures Feed(c, s, input) == (s, [])
  {
    if input != [] {
      FeedQuiet(c, s, input);
      FeedClosed(c, s, input[1..]);
    }
  }

  /** The machine has seen what the handler has read, is between sub-commands, and answered what it answered. */
  ghost predicate Synced(c: Conf, conn: Conn, j: Job)
    reads conn
  {
    conn.pos <= |conn.input| && Feed(c, START, conn.input[..conn.pos]) == (Server(SubCommand, j, []), conn.replies)
  }

  /** The whole input is decided: this is what the machine saves of it, and it answered no more than the handler. */
  ghost predicate Decided(c: Conf, conn: Conn, saved: seq<Job>)
    reads conn
  {
    AtEnd(c, Feed(c, START, conn.input).0).saved == saved && Feed(c, START, conn.input).1 <= conn.replies
  }

  /** A sub-command's octets, joined, are what was read for it. */
  lemma Pieces(input: bytes, p: nat, p1: nat, p2: nat, q: nat)
    requires p < p1 <= p2 <= q <= |input|
    ensures input[p..q] == [input[p]] + input[p + 1..p1] + input[p1..p2] + input[p2..q]
  {
  }

  /** The control-file branch. */
  method ReceiveControl(c: Conf, conn: Conn, j: Job) returns (j': Job)
    requires 1 <= conn.pos <= |conn.input| && conn.input[conn.pos - 1] == 2
    requires Feed(c, START, conn.input[..conn.pos - 1]) == (Server(SubCommand, j, []), conn.replies)
    modifies conn
    ensures old(conn.pos) <= conn.pos <= |conn.input|
    ensures Synced(c, conn, j') || (conn.pos == |conn.input| && Decided(c, conn, Finish(c, Server(SubCommand, j', [])).saved))
  {
    hide Feed, ParseControl, ParseCount, TrimEol, Finish, AtEnd;
    ghost var p, s, before := conn.pos - 1, Server(SubCommand, j, []), conn.replies;
    var line := conn.ReadLine();
    ghost var p1 := conn.pos;
    conn.Reply(ACK);
    var ctrl, _ := conn.ReadChunk(ParseCount(TrimEol(line)), MAX_CONTROL);
    ghost var p2 := conn.pos;
    var end := conn.ReadByte();
    conn.Reply(ACK);
    j' := ParseControl(j, ctrl).(asa := CarriageHint(ctrl));
    ghost var last := if end.Some? then [end.value] else [];
    Pieces(conn.input, p, p1, p2, conn.pos);
    assert conn.input[p..conn.pos] == [2] + line + ctrl + last;
    ControlWhole(c, s, line, ctrl, last);
    Advance(c, conn.input, p, conn.pos);
    assert conn.replies == before + [ACK, ACK];
    if last == [] {
      assert conn.input[..conn.pos] == conn.input;
    }
  }

  /** The data-file branch. stop: the cap was hit, and the handler returns. */
  method ReceiveData(c: Conf, conn: Conn, j: Job) returns (j': Job, stop: bool, saved: seq<Job>)
    requires 1 <= conn.pos <= |conn.input| && conn.input[conn.pos - 1] == 3
    requires Feed(c, START, conn.input[..conn.pos - 1]) == (Server(SubCommand, j, []), conn.replies)
    modifies conn
    ensures old(conn.pos) <= conn.pos <= |conn.input|
    ensures stop ==> Decided(c, conn, saved)
    ensures !stop ==> saved == []
    ensures !stop ==> Synced(c, conn, j') || (conn.pos == |conn.input| && Decided(c, conn, Finish(c, Server(SubCommand, j', [])).saved))
  {
    hide Feed, ParseCount, TrimEol, Finish, AtEnd, DataOutcome;
    ghost var p, s, before := conn.pos - 1, Server(SubCommand, j, []), conn.replies;
    saved := [];
    var line := conn.ReadLine();
    ghost var p1 := conn.pos;
    conn.Reply(ACK);
    var count := ParseCount(TrimEol(line));
    var data;
    data, stop := conn.ReadChunk(count, c.cap);
    ghost var p2 := conn.pos;
    j' := j.(data := data);
    ghost var last: bytes := [];
    if stop {
      conn.Reply(ACK);
      if data != [] {
        saved := [j'];
      }
    } else {
      if count > 0 {
        var end := conn.ReadByte();
        last := if end.Some? then [end.value] else [];
      }
      conn.Reply(ACK);
    }
    assert conn.replies == before + [ACK, ACK];
    DataReceived(c, conn.input, p, p1, p2, conn.pos, j, before, line, data, last);
  }

  /** What the machine has made of a data file when the handler is done with it. */
  lemma DataReceived(c: Conf, input: bytes, p: nat, p1: nat, p2: nat, q: nat, j: Job, before: bytes, line: bytes, data: bytes, last: bytes)
    requires p < p1 <= p2 <= q <= |input| && input[p] == 3
    requires line == input[p + 1..p1] && data == input[p1..p2] && last == input[p2..q] && LineRead(line)
    requires Feed(c, START, input[..p]) == (Server(SubCommand, j, []), before)
    requires ChunkRead(ParseCount(TrimEol(line)), c.cap, data, last)
    requires HitsCap(ParseCount(TrimEol(line)), c.cap, data) ==> last == []
    requires NL !in line ==> p1 == |input|
    requires last == [] ==> q == |input| || (HitsCap(ParseCount(TrimEol(line)), c.cap, data) && |data| == c.cap)
    ensures var d := Server(SubCommand, j.(data := data), []);
            if last != [] then Feed(c, START, input[..q]) == (d, before + [ACK, ACK])
            else
              && AtEnd(c, Feed(c, START, input).0).saved ==
                 (if HitsCap(ParseCount(TrimEol(line)), c.cap, data) then SaveCapped(d) else Finish(c, d)).saved
              && Feed(c, START, input).1 <= before + [ACK, ACK]
  {
    hide Feed, ParseCount, TrimEol, Finish, AtEnd, HitsCap, DataOutcome, SaveCapped, ChunkRead;
    var s := Server(SubCommand, j, []);
    Pieces(input, p, p1, p2, q);
    Advance(c, input, p, q);
    if NL !in line {
      assert data == last == [];
      assert input[p..q] == [3] + line && input[..q] == input;
      DataLineEnds(c, s, line);
    } else {
      DataWhole(c, s, line, data, last);
      DataSettles(c, input, p, q, s, before, j.(data := data), ParseCount(TrimEol(line)), line, data, last);
    }
  }

  lemma DataSettles(c: Conf, input: bytes, p: nat, q: nat, s: Server, before: bytes, j: Job,
                    count: int, line: bytes, data: bytes, end: bytes)
    requires p <= q <= |input| && input[p..q] == [3] + line + data + end
    requires Feed(c, START, input[..p]) == (s, before)
    requires WithData(s, data) == Server(SubCommand, j, [])
    requires var (s1, out) := Feed(c, s, input[p..q]);
             |out| > 0 && out[0] == ACK && DataOutcome(c, WithData(s, data), count, data, end, s1, out[1..])
    requires end == [] ==> q == |input| || (HitsCap(count, c.cap, data) && |data| == c.cap)
    ensures end != [] ==> Feed(c, START, input[..q]) == (Server(SubCommand, j, []), before + [ACK, ACK])
    ensures end == [] ==>
              && AtEnd(c, Feed(c, START, input).0).saved ==
                 (if HitsCap(count, c.cap, data) then SaveCapped(WithData(s, data)) else Finish(c, WithData(s, data))).saved
              && Feed(c, START, input).1 <= before + [ACK, ACK]
  {
    hide Feed, Finish, AtEnd, HitsCap, WithData, SaveCapped;
    var (s1, out) := Feed(c, s, input[p..q]);
    Advance(c, input, p, q);
    if end == [] {
      AtMostTwo(before, out);
      if q == |input| {
        assert input[..q] == input;
      } else {
        NothingMore(c, input, q, s1, before + out);
      }
    } else {
      assert out == [ACK] + out[1..];
      assert out == [ACK, ACK];
    }
  }

  lemma AtMostTwo(before: bytes, out: bytes)
    requires |out| > 0 && out[0] == ACK && out[1..] <= [ACK]
    ensures before + out <= before + [ACK, ACK]
  {
    assert out == [ACK] + out[1..];
  }

  /** Once closed, the machine neither moves nor answers. */
  lemma NothingMore(c: Conf, input: bytes, q: nat, s: Server, out: bytes)
    requires q <= |input| && Feed(c, START, input[..q]) == (s, out) && s.phase == Closed
    ensures Feed(c, START, input) == (s, out)
  {
    hide Feed;
    Advance(c, input, q, |input|);
    assert input[..|input|] == input;
    FeedClosed(c, s, input[q..]);
    assert out + [] == out;
  }

  /** The opening of the conversation: the queue is taken, or the handler is done. */
  method ReceiveQueue(c: Conf, conn: Conn) returns (j: Job, stop: bool)
    requires conn.pos == 0 && conn.replies == []
    modifies conn
    ensures conn.pos <= |conn.input|
    ensures stop ==> Decided(c, conn, [])
    ensures !stop ==> Synced(c, conn, j) || (conn.pos == |conn.input| && Decided(c, conn, []) && j.data == [])
  {
    hide Feed, TrimEol, TrimSpace;
    j := NEW_JOB;
    var cmd := conn.ReadByte();
    if cmd == None {
      OpeningNone(c, conn.input);
      return j, true;
    }
    if cmd != Some(2) {
      conn.Reply(ACK);
      OpeningOther(c, conn.input);
      return j, true;
    }
    var line := conn.ReadLine();
    var queue := TrimSpace(TrimEol(line));
    assert conn.input[..conn.pos] == [2] + line;
    OpeningLine(c, conn.input, conn.pos, line);
    stop := !c.allowed(queue);
    if stop {
      conn.Reply(NACK);
    } else {
      conn.Reply(ACK);
      assert conn.replies == [ACK];
      j := j.(queue := queue);
    }
  }

  lemma OpeningNone(c: Conf, input: bytes)
    requires input == []
    ensures Feed(c, START, input) == (START, []) && AtEnd(c, START).saved == []
  {
  }

  lemma OpeningOther(c: Conf, input: bytes)
    requires input != [] && input[0] != 2
    ensures Feed(c, START, input) == (START.(phase := Closed), [ACK])
    ensures AtEnd(c, START.(phase := Closed)).saved == []
  {
    hide Feed;
    FeedOne(c, START, input[0], input[1..]);
    assert [input[0]] + input[1..] == input;
    FeedClosed(c, START.(phase := Closed), input[1..]);
    var empty: bytes := [];
    assert [ACK] + empty == [ACK];
  }

  lemma StepOpen(c: Conf)
    ensures Step(c, START, 2) == (START.(phase := QueueLine([])), [])
  {
  }

  lemma StepQueueLine(c: Conf, init: bytes)
    ensures var queue := TrimSpace(TrimEol(init + [NL]));
            Step(c, START.(phase := QueueLine(init)), NL) ==
            if c.allowed(queue) then (Server(SubCommand, NEW_JOB.(queue := queue), []), [ACK])
            else (Server(Closed, NEW_JOB, []), [NACK])
  {
    hide TrimEol, TrimSpace, ParseCount, ParseControl;
  }

  lemma OpeningLine(c: Conf, input: bytes, q: nat, line: bytes)
    requires q <= |input| && input[..q] == [2] + line && LineRead(line) && (NL !in line ==> q == |input|)
    ensures var queue := TrimSpace(TrimEol(line));
            if NL !in line then Feed(c, START, input).1 == [] && AtEnd(c, Feed(c, START, input).0).saved == []
            else if c.allowed(queue) then Feed(c, START, input[..q]) == (Server(SubCommand, NEW_JOB.(queue := queue), []), [ACK])
            else Feed(c, START, input) == (Server(Closed, NEW_JOB, []), [NACK]) && AtEnd(c, Server(Closed, NEW_JOB, [])).saved == []
  {
    hide Feed, TrimEol, TrimSpace, Step;
    var s1 := START.(phase := QueueLine([]));
    StepOpen(c);
    FeedQuiet(c, START, input[..q]);
    assert input[..q][1..] == line;
    LineFed(c, s1, line);
    if NL !in line {
      assert input[..q] == input;
    } else {
      var init := line[..|line| - 1];
      assert init + [NL] == line;
      StepQueueLine(c, init);
      if !c.allowed(TrimSpace(TrimEol(line))) {
        NothingMore(c, input, q, Server(Closed, NEW_JOB, []), [NACK]);
      }
    }
  }

  /** A finished job with no title of its own takes what PJL says, and is handed to the sink. */
  method FinishJob(c: Conf, j: Job) returns (saved: seq<Job>)
    ensures saved == Finish(c, Server(SubCommand, j, [])).saved
  {
    saved := [];
    var done := j;
    if j.data != [] {
      if c.usePjl && (j.jobName == [] || j.user == []) {
        var (name, user) := c.pjl(j.data);
        if done.jobName == [] {
          done := done.(jobName := name);
        }
        if done.user == [] {
          done := done.(user := user);
        }
      }
      saved := [done];
    }
  }

  /** Between sub-commands: the end of the input, an abort, or an octet that is no sub-command. */
  lemma BetweenCommands(c: Conf, input: bytes, q: nat, j: Job, replies: bytes)
    requires q <= |input| && Feed(c, START, input[..q]) == (Server(SubCommand, j, []), replies)
    ensures q == |input| ==> AtEnd(c, Feed(c, START, input).0).saved == Finish(c, Server(SubCommand, j, [])).saved
    ensures q == |input| ==> Feed(c, START, input).1 == replies
    ensures q < |input| && input[q] == 1 ==> Feed(c, START, input[..q + 1]) == (Server(SubCommand, j, []), replies + [ACK])
    ensures q < |input| && input[q] !in {1, 2, 3} ==>
              AtEnd(c, Feed(c, START, input).0).saved == [] && Feed(c, START, input).1 == replies
  {
    hide Feed, Finish, ParseControl, ParseCount;
    if q == |input| {
      assert input[..q] == input;
    } else {
      assert input[q..q + 1] == [input[q]];
      Advance(c, input, q, q + 1);
      FeedLast(c, Server(SubCommand, j, []), input[q]);
      assert replies + [] == replies;
      if input[q] !in {1, 2, 3} {
        NothingMore(c, input, q + 1, Server(Closed, j, []), replies);
      }
    }
  }

  lemma NothingToSave(c: Conf, j: Job)
    requires j.data == []
    ensures Finish(c, Server(SubCommand, j, [])).saved == []
  {
  }

  /** handleLPD: what it saves of a conversation is what the machine saves, and every answer the machine gives
      is given. */
  method HandleLpd(c: Conf, input: bytes) returns (saved: seq<Job>, replies: bytes)
    ensures saved == AtEnd(c, Feed(c, START, input).0).saved
    ensures Feed(c, START, input).1 <= replies
  {
    hide Feed, AtEnd, Finish;
    var conn := new Conn(input);
    var j, stop := ReceiveQueue(c, conn);
    if stop {
      return [], conn.replies;
    }
    if j.data == [] {
      NothingToSave(c, j);
    }
    while true
      invariant conn.pos <= |input| && conn.input == input
      invariant Synced(c, conn, j) || (conn.pos == |input| && Decided(c, conn, Finish(c, Server(SubCommand, j, [])).saved))
      decreases |input| - conn.pos
    {
      if Synced(c, conn, j) {
        BetweenCommands(c, input, conn.pos, j, conn.replies);
      }
      var sub := conn.ReadByte();
      if sub == None {
        break;
      } else if sub == Some(1) {
        conn.Reply(ACK);
      } else if sub == Some(2) {
        j := ReceiveControl(c, conn, j);
      } else if sub == Some(3) {
        j, stop, saved := ReceiveData(c, conn, j);
        if stop {
          return saved, conn.replies;
        }
      } else {
        return [], conn.replies;
      }
    }
    saved := FinishJob(c, j);
    replies := conn.replies;
  }
}
