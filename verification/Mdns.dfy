/** mDNS messages: records, questions, the responses that are built (dnsmsg.go), known answers and instance names
    (mdns.go). */
module Mdns {
  import opened Bytes
  import opened Dns
  import opened Text

  const CLASS_IN: u16 := 1
  const FLUSH_BIT: u16 := 0x8000

  datatype Record = Record(name: bytes, rtype: u16, ttl: u32, data: bytes, flush: bool)

  datatype Question = Question(name: bytes, qtype: u16, unicast: bool)

  // -- Writing --------------------------------------------------------------------------------------------------------

  function ClassOf(bit: bool): u16 { if bit then CLASS_IN + FLUSH_BIT else CLASS_IN }

  /** What follows the name of a record. */
  function RecordTail(r: Record): bytes {
    Put16BE(r.rtype) + Put16BE(ClassOf(r.flush)) + Put32BE(r.ttl) + Put16BE(|r.data| % 0x1_0000) + r.data
  }

  function EncodeRecord(r: Record): bytes { EncodeName(r.name) + RecordTail(r) }

  function EncodeRecords(rs: seq<Record>): bytes { if rs == [] then [] else EncodeRecord(rs[0]) + EncodeRecords(rs[1..]) }

  function EncodeQuestion(q: Question): bytes { EncodeName(q.name) + (Put16BE(q.qtype) + Put16BE(ClassOf(q.unicast))) }

  function EncodeQuestions(qs: seq<Question>): bytes { if qs == [] then [] else EncodeQuestion(qs[0]) + EncodeQuestions(qs[1..]) }

  function Head(flags: u16, questions: nat, answers: nat): (h: bytes)
    ensures |h| == 12
  {
    Put16BE(0) + Put16BE(flags) + Put16BE(questions % 0x1_0000) + Put16BE(answers % 0x1_0000) + [0, 0, 0, 0]
  }

  function Message(flags: u16, qs: seq<Question>, rs: seq<Record>): bytes {
    Head(flags, |qs|, |rs|) + (EncodeQuestions(qs) + EncodeRecords(rs))
  }

  lemma {:induction false} RecordsSplit(a: seq<Record>, b: seq<Record>)
    ensures EncodeRecords(a + b) == EncodeRecords(a) + EncodeRecords(b)
  {
    hide EncodeRecord;
    if a == [] {
      assert a + b == b;
    } else {
      assert (a + b)[1..] == a[1..] + b;
      RecordsSplit(a[1..], b);
    }
  }

  /** buildResponse: QR and AA set, no question. */
  method BuildResponse(answers: seq<Record>) returns (out: bytes)
    ensures out == Message(0x8400, [], answers)
  {
    hide EncodeRecord, Put16BE;
    var head := Head(0x8400, 0, |answers|);
    out := head;
    for i := 0 to |answers|
      invariant out == head + EncodeRecords(answers[..i])
    {
      out := out + EncodeRecord(answers[i]);
      assert answers[..i + 1] == answers[..i] + [answers[i]];
      RecordsSplit(answers[..i], [answers[i]]);
      assert EncodeRecords([answers[i]]) == EncodeRecord(answers[i]) + EncodeRecords([]);
    }
    assert answers[..|answers|] == answers;
    assert EncodeQuestions([]) + EncodeRecords(answers) == EncodeRecords(answers);
  }

  // -- Reading --------------------------------------------------------------------------------------------------------

  /** A record and the offset behind it; flush is not looked at. */
  function RecordAt(b: bytes, off: nat): (r: Option<(Record, nat)>)
    ensures r.Some? ==> off < r.value.1 <= |b|
  {
    match NameAt(b, off)
    case None => None
    case Some(p) =>
      if p.next + 10 > |b| then None
      else
        var end := p.next + 10 + U16BE(b, p.next + 8) as int;
        if end > |b| then None
        else Some((Record(p.name, U16BE(b, p.next), U32BE(b, p.next + 4), b[p.next + 10..end], false), end))
  }

  function Answers(b: bytes, off: nat, n: nat): seq<Record>
    decreases n
  {
    if n == 0 then []
    else match RecordAt(b, off)
         case None => []
         case Some((r, next)) => [r] + Answers(b, next, n - 1)
  }

  function QuestionAt(b: bytes, off: nat): (r: Option<(Question, nat)>)
    ensures r.Some? ==> r.value.1 <= |b|
  {
    match NameAt(b, off)
    case None => None
    case Some(p) =>
      if p.next + 4 > |b| then None
      else Some((Question(p.name, U16BE(b, p.next), U16BE(b, p.next + 2) >= FLUSH_BIT), p.next + 4))
  }

  /** n questions and the offset behind them. */
  function Questions(b: bytes, off: nat, n: nat): Option<(seq<Question>, nat)>
    decreases n
  {
    if n == 0 then Some(([], off))
    else match QuestionAt(b, off)
         case None => None
         case Some((q, next)) =>
           match Questions(b, next, n - 1)
           case None => None
           case Some((qs, end)) => Some(([q] + qs, end))
  }

  function ParsedQuestions(b: bytes): Option<seq<Question>> {
    if |b| < 12 then None
    else match Questions(b, 12, U16BE(b, 4))
         case None => None
         case Some((qs, _)) => Some(qs)
  }

  function KnownAnswers(b: bytes): seq<Record> {
    if |b| < 12 then []
    else match Questions(b, 12, U16BE(b, 4))
         case None => []
         case Some((_, off)) => Answers(b, off, U16BE(b, 6))
  }

  lemma QuestionsStep(b: bytes, off: nat, n: nat, seen: seq<Question>)
    requires n > 0 && QuestionAt(b, off).Some?
    ensures var (q, next) := QuestionAt(b, off).value;
            Behind(seen, Questions(b, off, n)) == Behind(seen + [q], Questions(b, next, n - 1))
  {
    var (q, next) := QuestionAt(b, off).value;
    var r := Questions(b, next, n - 1);
    if r.Some? {
      assert seen + ([q] + r.value.0) == seen + [q] + r.value.0;
    }
  }

  function Behind(seen: seq<Question>, r: Option<(seq<Question>, nat)>): Option<(seq<Question>, nat)> {
    if r.None? then None else Some((seen + r.value.0, r.value.1))
  }

  lemma NothingSeen(r: Option<(seq<Question>, nat)>)
    ensures Behind([], r) == r
  {
    if r.Some? {
      assert [] + r.value.0 == r.value.0;
    }
  }

  /** parseQuestions. */
  method ParseQuestions(b: bytes) returns (r: Option<seq<Question>>)
    ensures r == ParsedQuestions(b)
  {
    hide Questions, U16BE;
    if |b| < 12 {
      return None;
    }
    var qd := U16BE(b, 4);
    var off := 12;
    var out: seq<Question> := [];
    NothingSeen(Questions(b, 12, qd));
    for i := 0 to qd
      invariant 0 <= off
      invariant Questions(b, 12, qd) == Behind(out, Questions(b, off, qd - i))
    {
      QuestionsNone(b, off, qd - i);
      var p := ParseName(b, off);
      if p == None {
        return None;
      }
      var next := p.value.next;
      if next + 4 > |b| {
        return None;
      }
      QuestionsStep(b, off, qd - i, out);
      var q := Question(p.value.name, U16BE(b, next), U16BE(b, next + 2) >= FLUSH_BIT);
      out := out + [q];
      off := next + 4;
    }
    QuestionsNone(b, off, 0);
    assert out + [] == out;
    return Some(out);
  }

  lemma QuestionsNone(b: bytes, off: nat, n: nat)
    ensures n > 0 && QuestionAt(b, off).None? ==> Questions(b, off, n) == None
    ensures n == 0 ==> Questions(b, off, n) == Some(([], off))
  {
  }

  /** knownAnswers: on any error, what was decoded so far. */
  method ReadKnownAnswers(b: bytes) returns (out: seq<Record>)
    ensures out == KnownAnswers(b)
  {
    hide Questions, Answers, U16BE, U32BE, NameAt;
    out := [];
    if |b| < 12 {
      return;
    }
    var qd, an := U16BE(b, 4), U16BE(b, 6);
    var off := 12;
    ghost var seen: seq<Question> := [];
    NothingSeen(Questions(b, 12, qd));
    for i := 0 to qd
      invariant 0 <= off
      invariant Questions(b, 12, qd) == Behind(seen, Questions(b, off, qd - i))
    {
      QuestionsNone(b, off, qd - i);
      var p := ParseName(b, off);
      if p == None || p.value.next + 4 > |b| {
        return;
      }
      QuestionsStep(b, off, qd - i, seen);
      seen := seen + [QuestionAt(b, off).value.0];
      off := p.value.next + 4;
    }
    QuestionsNone(b, off, 0);
    out := ReadAnswers(b, off, an);
  }

  method ReadAnswers(b: bytes, start: nat, an: nat) returns (out: seq<Record>)
    ensures out == Answers(b, start, an)
  {
    hide Answers, U16BE, U32BE, NameAt;
    out := [];
    var off := start;
    for i := 0 to an
      invariant 0 <= off
      invariant Answers(b, start, an) == out + Answers(b, off, an - i)
    {
      AnswersStep(b, off, an - i, out);
      var p := ParseName(b, off);
      if p == None || p.value.next + 10 > |b| {
        return;
      }
      var next := p.value.next;
      var rdlen := U16BE(b, next + 8);
      var rdStart := next + 10;
      if rdStart + rdlen as int > |b| {
        return;
      }
      out := out + [Record(p.value.name, U16BE(b, next), U32BE(b, next + 4), b[rdStart..rdStart + rdlen as int], false)];
      off := rdStart + rdlen as int;
    }
    AnswersStep(b, off, 0, out);
  }

  lemma AnswersStep(b: bytes, off: nat, n: nat, seen: seq<Record>)
    ensures n == 0 || RecordAt(b, off).None? ==> seen + Answers(b, off, n) == seen
    ensures n > 0 && RecordAt(b, off).Some? ==>
              var (r, next) := RecordAt(b, off).value;
              seen + Answers(b, off, n) == seen + [r] + Answers(b, next, n - 1)
  {
    hide RecordAt;
    if n > 0 && RecordAt(b, off).Some? {
      var (r, next) := RecordAt(b, off).value;
      assert seen + ([r] + Answers(b, next, n - 1)) == seen + [r] + Answers(b, next, n - 1);
    }
  }

  // -- Round trips ------------------------------------------------------------------------------------------------------

  /** A name of at most 127 non-empty labels of at most 63 octets; the empty name is the root. */
  ghost predicate Travels(name: bytes) {
    exists labels :: Ordinary(labels) && |labels| <= 127 && (forall l | l in labels :: |l| <= MAX_LABEL) && name == Join(labels)
  }

  lemma NameRead(pre: bytes, name: bytes, post: bytes)
    requires Travels(name)
    ensures NameAt(pre + EncodeName(name) + post, |pre|) == Some(Parsed(name, |pre| + |EncodeName(name)|))
  {
    hide NameAt, EncodeName, Join;
    var labels :| Ordinary(labels) && |labels| <= 127 && (forall l | l in labels :: |l| <= MAX_LABEL) && name == Join(labels);
    NameRoundTrip(pre, labels, post);
  }

  ghost predicate ValidRecord(r: Record) { Travels(r.name) && |r.data| < 0x1_0000 }

  /** The flush bit is not part of what is compared with a known answer. */
  function Plain(rs: seq<Record>): seq<Record> { seq(|rs|, i requires 0 <= i < |rs| => rs[i].(flush := false)) }

  lemma TailRead(front: bytes, r: Record, post: bytes)
    requires |r.data| < 0x1_0000
    ensures var b, at := front + RecordTail(r) + post, |front|;
            && at + 10 + |r.data| <= |b|
            && U16BE(b, at) == r.rtype && U32BE(b, at + 4) == r.ttl && U16BE(b, at + 8) == |r.data|
            && b[at + 10..at + 10 + |r.data|] == r.data
  {
    hide Put16BE, Put32BE, U16BE, U32BE;
    var b, at, w := front + RecordTail(r) + post, |front|, RecordTail(r);
    assert forall k | 0 <= k < |w| :: b[at + k] == w[k];
    assert b[at..at + 2] == w[0..2] == Put16BE(r.rtype);
    assert b[at + 4..at + 8] == w[4..8] == Put32BE(r.ttl);
    assert b[at + 8..at + 10] == w[8..10] == Put16BE(|r.data|);
    assert b[at + 10..at + 10 + |r.data|] == w[10..] == r.data;
    Get16BE(b, at, r.rtype);
    Get32BE(b, at + 4, r.ttl);
    Get16BE(b, at + 8, |r.data|);
  }

  lemma RecordRead(pre: bytes, r: Record, post: bytes)
    requires ValidRecord(r)
    ensures RecordAt(pre + EncodeRecord(r) + post, |pre|) == Some((r.(flush := false), |pre| + |EncodeRecord(r)|))
  {
    hide NameAt, EncodeName, U16BE, U32BE, RecordTail, Travels;
    Rejoined(pre, EncodeName(r.name), RecordTail(r), post);
    NameRead(pre, r.name, RecordTail(r) + post);
    TailRead(pre + EncodeName(r.name), r, post);
    TailLength(r);
  }

  lemma TailLength(r: Record)
    ensures |RecordTail(r)| == 10 + |r.data|
  {
  }

  lemma {:induction false} AnswersRead(pre: bytes, rs: seq<Record>, post: bytes)
    requires forall r | r in rs :: ValidRecord(r)
    ensures Answers(pre + EncodeRecords(rs) + post, |pre|, |rs|) == Plain(rs)
    decreases |rs|
  {
    hide RecordAt, EncodeRecord, ValidRecord;
    if rs != [] {
      assert rs[0] in rs && forall r | r in rs[1..] :: r in rs;
      Rejoined(pre, EncodeRecord(rs[0]), EncodeRecords(rs[1..]), post);
      RecordRead(pre, rs[0], EncodeRecords(rs[1..]) + post);
      AnswersRead(pre + EncodeRecord(rs[0]), rs[1..], post);
      assert Plain(rs) == [rs[0].(flush := false)] + Plain(rs[1..]);
    }
  }

  lemma QuestionRead(pre: bytes, q: Question, post: bytes)
    requires Travels(q.name)
    ensures QuestionAt(pre + EncodeQuestion(q) + post, |pre|) == Some((q, |pre| + |EncodeQuestion(q)|))
  {
    hide NameAt, EncodeName, U16BE, Put16BE, Travels;
    var tail := Put16BE(q.qtype) + Put16BE(ClassOf(q.unicast));
    Rejoined(pre, EncodeName(q.name), tail, post);
    NameRead(pre, q.name, tail + post);
    var front := pre + EncodeName(q.name);
    var b := front + tail + post;
    assert b[|front|..|front| + 2] == Put16BE(q.qtype);
    assert b[|front| + 2..|front| + 4] == Put16BE(ClassOf(q.unicast));
    Get16BE(b, |front|, q.qtype);
    Get16BE(b, |front| + 2, ClassOf(q.unicast));
  }

  lemma {:induction false} QuestionsRead(pre: bytes, qs: seq<Question>, post: bytes)
    requires forall q | q in qs :: Travels(q.name)
    ensures Questions(pre + EncodeQuestions(qs) + post, |pre|, |qs|) == Some((qs, |pre| + |EncodeQuestions(qs)|))
    decreases |qs|
  {
    hide QuestionAt, EncodeQuestion, Travels;
    if qs != [] {
      assert qs[0] in qs && forall q | q in qs[1..] :: q in qs;
      Rejoined(pre, EncodeQuestion(qs[0]), EncodeQuestions(qs[1..]), post);
      QuestionRead(pre, qs[0], EncodeQuestions(qs[1..]) + post);
      QuestionsRead(pre + EncodeQuestion(qs[0]), qs[1..], post);
      assert [qs[0]] + qs[1..] == qs;
    }
  }

  lemma HeadRead(flags: u16, qs: nat, rs: nat, rest: bytes)
    requires qs < 0x1_0000 && rs < 0x1_0000
    ensures U16BE(Head(flags, qs, rs) + rest, 4) == qs && U16BE(Head(flags, qs, rs) + rest, 6) == rs
  {
    hide Put16BE, U16BE;
    var b := Head(flags, qs, rs) + rest;
    assert b[4..6] == Put16BE(qs) && b[6..8] == Put16BE(rs);
    Get16BE(b, 4, qs);
    Get16BE(b, 6, rs);
  }

  /** A message gives back its questions, and of every record the name, type, TTL and data. */
  lemma MessageRoundTrip(flags: u16, qs: seq<Question>, rs: seq<Record>)
    requires |qs| < 0x1_0000 && |rs| < 0x1_0000
    requires (forall q | q in qs :: Travels(q.name)) && forall r | r in rs :: ValidRecord(r)
    ensures ParsedQuestions(Message(flags, qs, rs)) == Some(qs)
    ensures KnownAnswers(Message(flags, qs, rs)) == Plain(rs)
  {
    hide Questions, Answers, U16BE, Head, EncodeQuestions, EncodeRecords, Travels, ValidRecord;
    var head := Head(flags, |qs|, |rs|);
    HeadRead(flags, |qs|, |rs|, EncodeQuestions(qs) + EncodeRecords(rs));
    var b := Message(flags, qs, rs);
    assert b == head + EncodeQuestions(qs) + EncodeRecords(rs);
    QuestionsRead(head, qs, EncodeRecords(rs));
    AnswersRead(head + EncodeQuestions(qs), rs, []);
    assert b + [] == b;
  }

  // -- Known answers ----------------------------------------------------------------------------------------------------

  lemma RecordInLonger(b: bytes, more: bytes, off: nat)
    requires RecordAt(b, off).Some?
    ensures RecordAt(b + more, off) == RecordAt(b, off)
  {
    hide LabelsAt, Join;
    LongerInput(b, more, off, MAX_STEPS);
    var next, end := NameAt(b, off).value.next, RecordAt(b, off).value.1;
    assert (b + more)[next + 10..end] == b[next + 10..end];
  }

  lemma {:induction false} AnswersInLonger(b: bytes, more: bytes, off: nat, n: nat)
    ensures Answers(b, off, n) <= Answers(b + more, off, n)
    decreases n
  {
    hide RecordAt;
    if n > 0 && RecordAt(b, off).Some? {
      RecordInLonger(b, more, off);
      AnswersInLonger(b, more, RecordAt(b, off).value.1, n - 1);
    }
  }

  lemma QuestionInLonger(b: bytes, more: bytes, off: nat)
    requires QuestionAt(b, off).Some?
    ensures QuestionAt(b + more, off) == QuestionAt(b, off)
  {
    hide LabelsAt, Join;
    LongerInput(b, more, off, MAX_STEPS);
  }

  lemma {:induction false} QuestionsInLonger(b: bytes, more: bytes, off: nat, n: nat)
    requires Questions(b, off, n).Some?
    ensures Questions(b + more, off, n) == Questions(b, off, n)
    decreases n
  {
    hide QuestionAt;
    if n > 0 {
      QuestionInLonger(b, more, off);
      QuestionsInLonger(b, more, QuestionAt(b, off).value.1, n - 1);
    }
  }

  /** A query that was cut off anywhere yields a beginning of its known answers, whatever it holds. */
  lemma TruncatedKnowsLess(b: bytes, more: bytes)
    ensures KnownAnswers(b) <= KnownAnswers(b + more)
  {
    hide Questions, Answers;
    if |b| >= 12 && Questions(b, 12, U16BE(b, 4)).Some? {
      QuestionsInLonger(b, more, 12, U16BE(b, 4));
      AnswersInLonger(b, more, Questions(b, 12, U16BE(b, 4)).value.1, U16BE(b, 6));
    }
  }

  predicate Knows(k: Record, rec: Record) { k.name == rec.name && k.rtype == rec.rtype && k.ttl >= rec.ttl / 2 }

  predicate RecordKnown(rec: Record, known: seq<Record>) { exists i | 0 <= i < |known| :: Knows(known[i], rec) }

  method IsKnown(rec: Record, known: seq<Record>) returns (yes: bool)
    ensures yes <==> RecordKnown(rec, known)
  {
    for i := 0 to |known|
      invariant forall k | 0 <= k < i :: !Knows(known[k], rec)
    {
      if Knows(known[i], rec) {
        return true;
      }
    }
    return false;
  }

  /** Suppression errs on the safe side: an answer that the truncated query suppresses is suppressed by the whole one. */
  lemma TruncationSuppressesLess(b: bytes, more: bytes, rec: Record)
    requires RecordKnown(rec, KnownAnswers(b))
    ensures RecordKnown(rec, KnownAnswers(b + more))
  {
    hide KnownAnswers, Knows;
    TruncatedKnowsLess(b, more);
    var i :| 0 <= i < |KnownAnswers(b)| && Knows(KnownAnswers(b)[i], rec);
    assert KnownAnswers(b + more)[i] == KnownAnswers(b)[i];
  }

  /** A responder that hears its own response suppresses every record of it. */
  lemma OwnAnswersAreKnown(rs: seq<Record>, i: nat)
    requires i < |rs| < 0x1_0000 && forall r | r in rs :: ValidRecord(r)
    ensures RecordKnown(rs[i], KnownAnswers(Message(0x8400, [], rs)))
  {
    hide Message, KnownAnswers, ValidRecord;
    MessageRoundTrip(0x8400, [], rs);
    assert Knows(Plain(rs)[i], rs[i]);
  }

  // -- Instance names ---------------------------------------------------------------------------------------------------

  function Candidate(base: bytes, n: nat): bytes { base + [32, 40] + Digits(n) + [41] }

  lemma CandidatesDiffer(base: bytes, n: nat, m: nat)
    requires Candidate(base, n) == Candidate(base, m)
    ensures n == m
  {
    hide Digits;
    var c, d := Candidate(base, n), Candidate(base, m);
    var k := |base| + 2;
    assert c[k..|c| - 1] == Digits(n) && d[k..|d| - 1] == Digits(m);
    DigitsRead(n);
    DigitsRead(m);
  }

  lemma Pigeons(tried: set<bytes>, taken: set<bytes>)
    requires tried <= taken
    ensures |tried| <= |taken|
  {
    assert taken == tried + (taken - tried);
  }

  /** uniqueInstance: the base itself, or the first numbered candidate that is free. The search ends, since every
      candidate that it passes is another taken name. */
  method UniqueInstance(base: bytes, taken: set<bytes>) returns (name: bytes)
    ensures name !in taken
    ensures base !in taken ==> name == base
    ensures base in taken ==> exists n :: n >= 2 && name == Candidate(base, n) && forall k | 2 <= k < n :: Candidate(base, k) in taken
  {
    hide Candidate;
    if base !in taken {
      return base;
    }
    var n := 2;
    ghost var tried: set<bytes> := {};
    while true
      invariant n >= 2 && |tried| == n - 2 && tried <= taken
      invariant forall k | 2 <= k < n :: Candidate(base, k) in taken
      invariant forall c | c in tried :: exists k | 2 <= k < n :: c == Candidate(base, k)
      decreases |taken| + 2 - n
    {
      var cand := Candidate(base, n);
      if cand !in taken {
        return cand;
      }
      if cand in tried {
        var k :| 2 <= k < n && cand == Candidate(base, k);
        CandidatesDiffer(base, n, k);
      }
      tried := tried + {cand};
      Pigeons(tried, taken);
      n := n + 1;
    }
  }
}
