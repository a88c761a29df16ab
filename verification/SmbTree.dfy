/** Shares, open files and pipes (smb_tree.go): the handlers over trees, printTrees and handles. */
module SmbTree {
  import opened Bytes
  import opened SmbFrame
  import Dcerpc
  import Spoolss

  const INVALID_PARAMETER: u32 := 0xC000_000D
  const NAME_NOT_FOUND: u32 := 0xC000_0034
  const SHARE_PIPE: byte := 2
  const SHARE_PRINT: byte := 3
  const ALL_ACCESS: u32 := 0x001F_01FF
  const BACKSLASH: u16 := 0x5C

  /** An open \spoolss pipe with the octets waiting to be read, or an open spool file. */
  datatype Handle = RpcHandle(pipe: Dcerpc.Pipe, readBuf: bytes) | SpoolHandle(doc: seq<u16>, buf: bytes)

  /** A captured job: of a spool file on the print share, or of the spoolss calls on a pipe. */
  datatype Captured = FromSpool(doc: seq<u16>, user: seq<u16>, data: bytes) | FromRpc(job: Spoolss.Job)

  datatype Shares = Shares(trees: map<u32, seq<u16>>, printTrees: set<u32>, nextId: u32, handles: map<bytes, Handle>,
                           jobs: seq<Captured>)

  const NO_SHARES: Shares := Shares(map[], {}, 0, map[], [])

  const NEW_PIPE: Dcerpc.Pipe := Dcerpc.Pipe(false, Dcerpc.IDLE, Spoolss.Spool([], [], false, []))

  /** Case-insensitive comparisons with IPC$, the configured share name and spoolss; and the job cap. */
  datatype ShareConf = ShareConf(isPipe: seq<u16> -> bool, isPrint: seq<u16> -> bool, isSpoolss: seq<u16> -> bool, cap: int)

  // -- Requests -----------------------------------------------------------------------------------------------------

  datatype Request =
    | Malformed
    | TreeConnect(path: seq<u16>)
    | Create(tree: u32, name: seq<u16>)
    | Write(fid: bytes, data: bytes)
    | Read(fid: bytes, length: u32)
    | Close(fid: bytes)
    | TreeDisconnect(tree: u32)
    | Acknowledge      // LOGOFF and FLUSH change nothing

  function Units(b: bytes): seq<u16> { if |b| < 2 then [] else [U16LE(b, 0)] + Units(b[2..]) }

  /** The octets of a message at an offset from its header, when they lie behind the header and inside it. */
  function Field(req: bytes, off: int, len: int): Option<bytes> {
    if HEADER_SIZE <= off && 0 <= len && off + len <= |req| then Some(req[off..off + len]) else None
  }

  predicate HasSize(req: bytes, atLeast: nat, size: u16) { |req| >= HEADER_SIZE + 2 + atLeast && U16LE(req, HEADER_SIZE) == size }

  function ParseTreeConnect(req: bytes): Request {
    if !HasSize(req, 6, 9) then Malformed
    else match Field(req, U16LE(req, 68), U16LE(req, 70))
         case None => Malformed
         case Some(path) => TreeConnect(Units(path))
  }

  function TrimBackslash(name: seq<u16>): seq<u16> { if name != [] && name[0] == BACKSLASH then name[1..] else name }

  function ParseCreate(h: Header, req: bytes): Request {
    if !HasSize(req, 54, 57) then Malformed
    else
      var len := U16LE(req, 110);
      if len == 0 then Create(h.treeId, [])
      else match Field(req, U16LE(req, 108), len)
           case None => Malformed
           case Some(name) => Create(h.treeId, TrimBackslash(Units(name)))
  }

  function ParseWrite(req: bytes): Request {
    if !HasSize(req, 46, 49) then Malformed
    else match Field(req, U16LE(req, 66), U32LE(req, 68))
         case None => Malformed
         case Some(data) => Write(req[80..96], data)
  }

  function ParseRead(req: bytes): Request {
    if !HasSize(req, 46, 49) then Malformed else Read(req[80..96], U32LE(req, 68))
  }

  function ParseClose(req: bytes): Request { if !HasSize(req, 22, 24) then Malformed else Close(req[72..88]) }

  predicate IsTreeCommand(command: u16) {
    command in {TREE_CONNECT, CREATE, WRITE, READ, CLOSE, TREE_DISCONNECT, LOGOFF, FLUSH}
  }

  function ParseRequest(h: Header, req: bytes): Request {
    if h.command == TREE_CONNECT then ParseTreeConnect(req)
    else if h.command == CREATE then ParseCreate(h, req)
    else if h.command == WRITE then ParseWrite(req)
    else if h.command == READ then ParseRead(req)
    else if h.command == CLOSE then ParseClose(req)
    else if h.command == TREE_DISCONNECT then TreeDisconnect(h.treeId)
    else Acknowledge
  }

  // -- Replies ------------------------------------------------------------------------------------------------------

  /** The status, the tree id when it is not the request's, and the body. */
  datatype Reply = Reply(status: u32, tree: Option<u32>, body: bytes)

  function Refuse(status: u32): Reply { Reply(status, None, Put16LE(9) + Zeros(7)) }

  function Accept(body: bytes): Reply { Reply(SUCCESS, None, body) }

  function ReplyHeader(h: Header, command: u16, status: u32, tree: u32): (r: Header)
    ensures ValidHeader(r)
  {
    Header(0, status, command, 1, WithResponseFlag(h.flags), 0, h.messageId, tree, h.sessionId, NO_SIGNATURE)
  }

  function ReplyBytes(h: Header, command: u16, r: Reply): (b: bytes)
    ensures |b| >= HEADER_SIZE
  {
    Encode(ReplyHeader(h, command, r.status, if r.tree.Some? then r.tree.value else h.treeId)) + r.body
  }

  // -- The handlers ---------------------------------------------------------------------------------------------------

  /** The final segment of a UNC path. */
  function LastSegment(path: seq<u16>): seq<u16> {
    if path == [] then []
    else if path[|path| - 1] == BACKSLASH then []
    else LastSegment(path[..|path| - 1]) + [path[|path| - 1]]
  }

  function NextTreeId(id: u32): u32 { if id + 1 == 0x1_0000_0000 then 1 else id + 1 }

  function Connect(c: ShareConf, s: Shares, path: seq<u16>): (Shares, Reply) {
    var share := LastSegment(path);
    if !c.isPipe(share) && !c.isPrint(share) then (s, Refuse(NAME_NOT_FOUND))
    else
      var id := NextTreeId(s.nextId);
      var kind := if c.isPrint(share) then SHARE_PRINT else SHARE_PIPE;
      (s.(trees := s.trees[id := path], nextId := id, printTrees := if c.isPrint(share) then s.printTrees + {id} else s.printTrees),
       Reply(SUCCESS, Some(id), Put16LE(16) + [kind, 0] + Zeros(8) + Put32LE(ALL_ACCESS)))
  }

  function Open(c: ShareConf, s: Shares, tree: u32, name: seq<u16>, fid: bytes): (Shares, Reply) {
    if tree !in s.printTrees && !c.isSpoolss(name) then (s, Refuse(ACCESS_DENIED))
    else
      var h := if tree in s.printTrees then SpoolHandle(name, []) else RpcHandle(NEW_PIPE, []);
      (s.(handles := s.handles[fid := h]),
       Accept(Put16LE(89) + Zeros(2) + Put32LE(1) + Zeros(56) + fid + Zeros(8)))
  }

  /** A write to a handle: the handle after it, and the jobs it completes. The jobs of a pipe are handed over at
      once, so that the state kept for it holds none. */
  function WriteTo(h: Handle, data: bytes, cap: int): (Handle, seq<Captured>) {
    match h
    case SpoolHandle(doc, buf) => (SpoolHandle(doc, Spoolss.AppendCapped(buf, data, cap)), [])
    case RpcHandle(pipe, readBuf) =>
      var (p, out) := Dcerpc.OnWrite(pipe, data, cap);
      (RpcHandle(p.(spool := p.spool.(captured := [])), readBuf + (if out.Some? then out.value else [])), Rpc(p.spool.captured))
  }

  function Rpc(jobs: seq<Spoolss.Job>): seq<Captured> { seq(|jobs|, i requires 0 <= i < |jobs| => FromRpc(jobs[i])) }

  /** A read from a handle: the handle after it, and the octets returned. */
  function ReadFrom(h: Handle, length: u32): (Handle, bytes) {
    match h
    case SpoolHandle(_, _) => (h, [])
    case RpcHandle(pipe, readBuf) =>
      var n := Min(length, |readBuf|);
      (RpcHandle(pipe, readBuf[n..]), readBuf[..n])
  }

  /** What closing a handle captures. */
  function Completed(h: Handle, user: seq<u16>): seq<Captured> {
    if h.SpoolHandle? && h.buf != [] then [FromSpool(h.doc, user, h.buf)] else []
  }

  function ReadBody(data: bytes): bytes {
    Put16LE(17) + [80, 0] + Put32LE(|data| % 0x1_0000_0000) + Zeros(8) + data
  }

  function WriteBody(data: bytes): bytes { Put16LE(17) + [0, 0] + Put32LE(|data| % 0x1_0000_0000) + Zeros(9) }

  /** One request of an authenticated session; fid is the file id that is minted if one is. */
  function Apply(c: ShareConf, user: seq<u16>, s: Shares, r: Request, fid: bytes): (Shares, Reply) {
    match r
    case Malformed => (s, Refuse(INVALID_PARAMETER))
    case TreeConnect(path) => Connect(c, s, path)
    case Create(tree, name) => Open(c, s, tree, name, fid)
    case Write(f, data) =>
      if f !in s.handles then (s, Refuse(ACCESS_DENIED))
      else
        var (h, jobs) := WriteTo(s.handles[f], data, c.cap);
        (s.(handles := s.handles[f := h], jobs := s.jobs + jobs), Accept(WriteBody(data)))
    case Read(f, length) =>
      if f !in s.handles then (s, Refuse(ACCESS_DENIED))
      else
        var (h, data) := ReadFrom(s.handles[f], length);
        (s.(handles := s.handles[f := h]), Accept(ReadBody(data)))
    case Close(f) =>
      if f !in s.handles then (s, Refuse(ACCESS_DENIED))
      else
        (s.(handles := s.handles - {f}, jobs := s.jobs + Completed(s.handles[f], user)), Accept(Put16LE(60) + Zeros(58)))
    case TreeDisconnect(tree) =>
      (s.(trees := s.trees - {tree}, printTrees := s.printTrees - {tree}), Accept(Put16LE(4) + Zeros(2)))
    case Acknowledge => (s, Accept(Put16LE(4) + Zeros(2)))
  }

  // -- Runs ---------------------------------------------------------------------------------------------------------

  datatype Event = Event(request: Request, fid: bytes)

  function Run(c: ShareConf, user: seq<u16>, s: Shares, events: seq<Event>): Shares
    decreases |events|
  {
    if events == [] then s else Run(c, user, Apply(c, user, s, events[0].request, events[0].fid).0, events[1..])
  }

  /** What a run does to one handle. */
  datatype Use = Written(data: bytes) | Consumed(length: u32)

  function UsesOf(fid: bytes, events: seq<Event>): seq<Use>
    decreases |events|
  {
    if events == [] then []
    else
      var rest := UsesOf(fid, events[1..]);
      match events[0].request
      case Write(f, data) => if f == fid then [Written(data)] + rest else rest
      case Read(f, length) => if f == fid then [Consumed(length)] + rest else rest
      case _ => rest
  }

  function UseOne(h: Handle, u: Use, cap: int): Handle {
    match u
    case Written(data) => WriteTo(h, data, cap).0
    case Consumed(length) => ReadFrom(h, length).0
  }

  function UseAll(h: Handle, uses: seq<Use>, cap: int): Handle
    decreases |uses|
  {
    if uses == [] then h else UseAll(UseOne(h, uses[0], cap), uses[1..], cap)
  }

  /** No event closes the handle, and no other file is given its id. */
  predicate LeavesOpen(fid: bytes, events: seq<Event>) {
    forall i | 0 <= i < |events| :: events[i].request != Close(fid) && (events[i].request.Create? ==> events[i].fid != fid)
  }

  /** An open handle is what its own writes and reads make of it: nothing that happens to other handles, trees or
      sessions touches it. */
  lemma {:induction false} HandleIsItsUses(c: ShareConf, user: seq<u16>, s: Shares, events: seq<Event>, fid: bytes)
    requires fid in s.handles && LeavesOpen(fid, events)
    ensures var t := Run(c, user, s, events);
            fid in t.handles && t.handles[fid] == UseAll(s.handles[fid], UsesOf(fid, events), c.cap)
    decreases |events|
  {
    hide WriteTo, ReadFrom, Refuse, Accept, Connect, Open, ReadBody, WriteBody, Completed, Apply;
    if events != [] {
      var e := events[0];
      HandleStep(c, user, s, e, fid);
      var s1 := Apply(c, user, s, e.request, e.fid).0;
      HandleIsItsUses(c, user, s1, events[1..], fid);
      UsesCons(s.handles[fid], fid, events, c.cap);
    }
  }

  /** The use that an event makes of the handle. */
  function UseIn(fid: bytes, r: Request): Option<Use> {
    match r
    case Write(f, data) => if f == fid then Some(Written(data)) else None
    case Read(f, length) => if f == fid then Some(Consumed(length)) else None
    case _ => None
  }

  lemma UsesCons(h: Handle, fid: bytes, events: seq<Event>, cap: int)
    requires events != []
    ensures var u := UseIn(fid, events[0].request);
            UseAll(h, UsesOf(fid, events), cap) ==
            UseAll(if u.Some? then UseOne(h, u.value, cap) else h, UsesOf(fid, events[1..]), cap)
  {
    hide UseOne;
    var u := UseIn(fid, events[0].request);
    var rest := UsesOf(fid, events[1..]);
    if u.Some? {
      assert UsesOf(fid, events) == [u.value] + rest;
      assert ([u.value] + rest)[1..] == rest;
    }
  }

  lemma HandleStep(c: ShareConf, user: seq<u16>, s: Shares, e: Event, fid: bytes)
    requires fid in s.handles && e.request != Close(fid) && (e.request.Create? ==> e.fid != fid)
    ensures var t := Apply(c, user, s, e.request, e.fid).0;
            var u := UseIn(fid, e.request);
            fid in t.handles && t.handles[fid] == (if u.Some? then UseOne(s.handles[fid], u.value, c.cap) else s.handles[fid])
  {
    hide WriteTo, ReadFrom, Refuse, Accept, ReadBody, WriteBody, Completed;
  }

  // -- Print trees ----------------------------------------------------------------------------------------------------

  /** The print trees are exactly the connected trees whose share is the print share. */
  ghost predicate TreesAgree(c: ShareConf, s: Shares) {
    && (forall id | id in s.printTrees :: id in s.trees)
    && (forall id | id in s.trees :: c.isPrint(LastSegment(s.trees[id])) <==> id in s.printTrees)
  }

  /** Not a connection to the pipe share under the id of a print tree. */
  predicate KeepsMarks(c: ShareConf, s: Shares, r: Request) {
    r.TreeConnect? ==>
      var share := LastSegment(r.path);
      c.isPrint(share) || !c.isPipe(share) || NextTreeId(s.nextId) !in s.printTrees
  }

  /** Every event of a run keeps the marks in the state it meets. */
  predicate AllKeepMarks(c: ShareConf, user: seq<u16>, s: Shares, events: seq<Event>)
    decreases |events|
  {
    events != [] ==>
      && KeepsMarks(c, s, events[0].request)
      && AllKeepMarks(c, user, Apply(c, user, s, events[0].request, events[0].fid).0, events[1..])
  }

  /** At every point of a run a file can be spooled exactly on the trees connected to the print share. */
  ghost predicate AlwaysAgree(c: ShareConf, user: seq<u16>, s: Shares, events: seq<Event>) {
    forall n | 0 <= n <= |events| :: TreesAgree(c, Run(c, user, s, events[..n]))
  }

  /** One request keeps the marks right if and only if it is not a connection to the pipe share whose id marks a print tree. */
  lemma StepAgrees(c: ShareConf, user: seq<u16>, s: Shares, r: Request, fid: bytes)
    requires TreesAgree(c, s)
    ensures TreesAgree(c, Apply(c, user, s, r, fid).0) <==> KeepsMarks(c, s, r)
  {
    hide LastSegment, WriteTo, ReadFrom, Refuse, Accept, ReadBody, WriteBody, Completed, NextTreeId;
    if !KeepsMarks(c, s, r) {
      assert NextTreeId(s.nextId) in Apply(c, user, s, r, fid).0.trees;
    }
  }

  lemma AgreesLater(c: ShareConf, user: seq<u16>, s: Shares, events: seq<Event>)
    requires events != []
    ensures var next := Apply(c, user, s, events[0].request, events[0].fid).0;
            AlwaysAgree(c, user, s, events) <==> TreesAgree(c, s) && AlwaysAgree(c, user, next, events[1..])
  {
    hide Apply, TreesAgree;
    var next := Apply(c, user, s, events[0].request, events[0].fid).0;
    forall n | 0 < n <= |events| ensures Run(c, user, s, events[..n]) == Run(c, user, next, events[1..][..n - 1]) {
      assert events[..n][1..] == events[1..][..n - 1];
    }
    assert events[..0] == [];
    if AlwaysAgree(c, user, s, events) {
      assert TreesAgree(c, Run(c, user, s, events[..0]));
      forall m | 0 <= m <= |events[1..]| ensures TreesAgree(c, Run(c, user, next, events[1..][..m])) {
        assert TreesAgree(c, Run(c, user, s, events[..m + 1]));
      }
    }
  }

  /** The marks are right all along a run if and only if every connection in it meets the guard. */
  lemma {:induction false} PrintTreesAreShares(c: ShareConf, user: seq<u16>, s: Shares, events: seq<Event>)
    requires TreesAgree(c, s)
    ensures AlwaysAgree(c, user, s, events) <==> AllKeepMarks(c, user, s, events)
    decreases |events|
  {
    hide Apply, TreesAgree, KeepsMarks, AlwaysAgree;
    if events == [] {
      NoEventsAgree(c, user, s);
    } else {
      var next := Apply(c, user, s, events[0].request, events[0].fid).0;
      AgreesLater(c, user, s, events);
      StepAgrees(c, user, s, events[0].request, events[0].fid);
      if TreesAgree(c, next) {
        PrintTreesAreShares(c, user, next, events[1..]);
      } else {
        NotAtFirst(c, user, next, events[1..]);
      }
    }
  }

  lemma NoEventsAgree(c: ShareConf, user: seq<u16>, s: Shares)
    ensures AlwaysAgree(c, user, s, []) <==> TreesAgree(c, s)
  {
    hide TreesAgree;
    var none: seq<Event> := [];
    assert none[..0] == none;
    assert AlwaysAgree(c, user, s, none) ==> TreesAgree(c, Run(c, user, s, none[..0]));
  }

  lemma NotAtFirst(c: ShareConf, user: seq<u16>, s: Shares, events: seq<Event>)
    requires !TreesAgree(c, s)
    ensures !AlwaysAgree(c, user, s, events)
  {
    hide TreesAgree;
    assert events[..0] == [] && Run(c, user, s, events[..0]) == s;
  }

  function Connects(events: seq<Event>): nat {
    if events == [] then 0 else (if events[0].request.TreeConnect? then 1 else 0) + Connects(events[1..])
  }

  /** Before the ids wrap around the guard is always met: with fewer than 2^32 connections nothing can go wrong. */
  lemma {:induction false} FewConnectsKeepMarks(c: ShareConf, user: seq<u16>, s: Shares, events: seq<Event>)
    requires (forall id | id in s.printTrees :: id <= s.nextId) && s.nextId + Connects(events) < 0x1_0000_0000
    ensures AllKeepMarks(c, user, s, events)
    decreases |events|
  {
    hide Apply, LastSegment;
    if events != [] {
      CounterLeads(c, user, s, events[0]);
      FewConnectsKeepMarks(c, user, Apply(c, user, s, events[0].request, events[0].fid).0, events[1..]);
    }
  }

  lemma CounterLeads(c: ShareConf, user: seq<u16>, s: Shares, e: Event)
    requires forall id | id in s.printTrees :: id <= s.nextId
    requires e.request.TreeConnect? ==> s.nextId + 1 < 0x1_0000_0000
    ensures var t := Apply(c, user, s, e.request, e.fid).0;
            && (forall id | id in t.printTrees :: id <= t.nextId)
            && s.nextId <= t.nextId <= s.nextId + (if e.request.TreeConnect? then 1 else 0)
  {
    hide LastSegment, WriteTo, ReadFrom, Refuse, Accept, ReadBody, WriteBody, Completed;
  }

  /** After the wrap an id can be in use twice: a pipe tree that takes over the id of a print tree is a print tree still. */
  lemma WrappedIdKeepsPrinting(c: ShareConf, user: seq<u16>, s: Shares, path: seq<u16>)
    requires s.nextId == 0xFFFF_FFFF && 1 in s.printTrees
    requires c.isPipe(LastSegment(path)) && !c.isPrint(LastSegment(path))
    ensures var t := Apply(c, user, s, TreeConnect(path), []).0;
            t.trees[1] == path && 1 in t.printTrees && !TreesAgree(c, t)
  {
    hide LastSegment, Refuse, Accept;
    assert 1 in Apply(c, user, s, TreeConnect(path), []).0.trees;
  }
}
