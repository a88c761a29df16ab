/** The LPR client (fwd_lpr.go): what send writes, and when it reports success. */
module Lpr {
  import opened Bytes
  import opened Text

  const PRINTCAP: bytes := [112, 114, 105, 110, 116, 99, 97, 112]
  const JOB: bytes := [106, 111, 98]
  const LP: bytes := [108, 112]
  const AUTO: bytes := [97, 117, 116, 111]
  const CF: bytes := [99, 102, 65, 48, 48, 49]
  const DF: bytes := [100, 102, 65, 48, 48, 49]

  /** What send is given: the target's queue, the job's own fields, and the document. */
  datatype Request = Request(target: bytes, queue: bytes, host: bytes, user: bytes, name: bytes, data: bytes)

  function OrElse(s: bytes, alt: bytes): bytes { if s == [] then alt else s }

  function Queue(r: Request): bytes { if r.target == [] || r.target == AUTO then OrElse(r.queue, LP) else r.target }

  function Host(r: Request): bytes { OrElse(r.host, PRINTCAP) }

  function User(r: Request): bytes { OrElse(r.user, PRINTCAP) }

  function Name(r: Request): bytes { OrElse(r.name, JOB) }

  function Line(letter: byte, value: bytes): bytes { [letter] + value + [10] }

  function Control(r: Request): bytes {
    Line(72, Host(r)) + (Line(80, User(r)) + (Line(74, Name(r)) + Line(102, DF + Host(r))))
  }

  function Header(sub: byte, n: nat, name: bytes): bytes { [sub] + (Digits(n) + ([32] + name)) + [10] }

  const SEGMENTS: nat := 5

  /** The octets written before the k-th acknowledgement is read. */
  function Segment(r: Request, k: nat): (s: bytes)
    requires k < SEGMENTS
    ensures s != []
  {
    if k == 0 then [2] + Queue(r) + [10]
    else if k == 1 then Header(2, |Control(r)|, CF + Host(r))
    else if k == 2 then Control(r) + [0]
    else if k == 3 then Header(3, |r.data|, DF + Host(r))
    else r.data + [0]
  }

  function Written(r: Request, n: nat): bytes
    requires n <= SEGMENTS
  {
    if n == 0 then [] else Written(r, n - 1) + Segment(r, n - 1)
  }

  lemma WrittenNext(r: Request, k: nat)
    requires k < SEGMENTS
    ensures Written(r, k + 1) == Written(r, k) + Segment(r, k)
  {
  }

  /** How many leading answers are acknowledgements. */
  function Acked(answers: bytes): (n: nat)
    ensures n <= |answers|
    ensures forall i | 0 <= i < n :: answers[i] == 0
    ensures n < |answers| ==> answers[n] != 0
  {
    if answers == [] || answers[0] != 0 then 0 else 1 + Acked(answers[1..])
  }

  lemma {:induction false} AckedAt(answers: bytes, n: nat)
    requires n <= |answers| && forall i | 0 <= i < n :: answers[i] == 0
    ensures Acked(answers) >= n
    ensures n == |answers| || answers[n] != 0 ==> Acked(answers) == n
  {
    if n > 0 {
      AckedAt(answers[1..], n - 1);
    }
  }

  /** The connection: what is written to it, and the answers that are going to arrive before it ends. */
  class Link {
    const answers: bytes
    var pos: nat
    var sent: bytes

    constructor (answers: bytes)
      ensures this.answers == answers && pos == 0 && sent == []
    {
      this.answers, pos, sent := answers, 0, [];
    }

    method Write(b: bytes)
      modifies this`sent
      ensures sent == old(sent) + b
    {
      sent := sent + b;
    }

    method ExpectAck() returns (ok: bool)
      requires pos <= |answers|
      modifies this`pos
      ensures old(pos) <= pos <= |answers|
      ensures ok <==> old(pos) < |answers| && answers[old(pos)] == 0
      ensures ok ==> pos == old(pos) + 1
    {
      if pos == |answers| {
        return false;
      }
      ok := answers[pos] == 0;
      pos := pos + 1;
    }

    /** sendLPRFile: segments k and k + 1 of the conversation. */
    method SendFile(ghost r: Request, ghost k: nat, sub: byte, name: bytes, body: bytes) returns (ok: bool)
      requires k + 1 < SEGMENTS && Segment(r, k) == Header(sub, |body|, name) && Segment(r, k + 1) == body + [0]
      requires pos == k <= |answers| && sent == Written(r, k) && Acked(answers) >= k
      modifies this
      ensures ok <==> Acked(answers) >= k + 2
      ensures ok ==> pos == k + 2 <= |answers| && sent == Written(r, k + 2)
      ensures !ok ==> k <= Acked(answers) < k + 2 && sent == Written(r, Acked(answers) + 1)
    {
      hide Segment, Header, Written, Acked;
      WrittenNext(r, k);
      WrittenNext(r, k + 1);
      Write(Header(sub, |body|, name));
      ok := ExpectAck();
      if !ok {
        AckedAt(answers, k);
        return;
      }
      AckedAt(answers, k + 1);
      ghost var before := sent;
      Write(body);
      Write([0]);
      assert sent == before + (body + [0]);
      ok := ExpectAck();
      AckedAt(answers, if ok then k + 2 else k + 1);
    }

    /** send: nil exactly after five acknowledgements; one segment more than was acknowledged is written. */
    method Send(r: Request) returns (ok: bool)
      requires pos == 0 && sent == []
      modifies this
      ensures ok <==> Acked(answers) >= SEGMENTS
      ensures sent == Written(r, if ok then SEGMENTS else Acked(answers) + 1)
    {
      Write([2] + Queue(r) + [10]);
      assert sent == Written(r, 1);
      ok := ExpectAck();
      AckedAt(answers, if ok then 1 else 0);
      if !ok {
        return;
      }
      ok := SendFile(r, 1, 2, CF + Host(r), Control(r));
      if !ok {
        return;
      }
      ok := SendFile(r, 3, 3, DF + Host(r), r.data);
    }
  }
}
