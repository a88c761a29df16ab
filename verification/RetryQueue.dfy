/** The durable retry queue (fwd_spool.go, forward.go) as a protocol over an on-disk directory.
    Every filesystem call is one atomic step; the process may crash between any two steps. */
module RetryQueue {
  import opened Bytes

  type Id = int

  datatype Meta = Meta(id: Id, target: string, attempts: nat, nextAttempt: nat, deadline: Option<nat>)

  /** The content of a file; Partial is a temporary file that is still being written. */
  datatype File = Payload(data: bytes) | MetaFile(meta: Meta) | Partial

  datatype Name = Json(id: Id) | Data(id: Id) | DeadJson(id: Id) | DeadData(id: Id) | Temp(n: nat)

  type Disk = map<Name, File>

  /** How far writeFileAtomic has come: temp file created, then filled; the rename ends it. */
  datatype Write = Unopened | Open(n: nat) | Written(n: nat)

  datatype Phase =
    | PutData(w: Write)
    | PutMeta(w: Write)
    | Starting
    | Waiting
    | Ready
    | Recording(w: Write)
    | Removing(jsonGone: bool)
    | Burying(jsonGone: bool)

  datatype Worker = Worker(meta: Meta, payload: bytes, phase: Phase)

  /** What put has promised to keep. */
  datatype Item = Item(payload: bytes, target: string, deadline: Option<nat>)

  /** What has happened so far: the items that put has reported stored, the sends per item, the items
      given up and the crashes. */
  datatype History = History(
    stored: map<Id, Item>, succeeded: map<Id, nat>, failed: map<Id, nat>, givenUp: map<Id, nat>, crashes: nat)

  /** The disk, the process and its workers, the clock and the history. */
  datatype State = State(
    disk: Disk, up: bool, closing: bool, workers: map<Id, Worker>, clock: nat, past: History)

  datatype Action =
    | Enqueue(meta: Meta, payload: bytes)   // deliver, spool_retry branch: put begins
    | FileStep(id: Id, temp: nat)           // the next filesystem call of a worker
    | Load(id: Id)                          // the worker reads its payload
    | Wake(id: Id)                          // NextAttempt is due
    | Send(id: Id, ok: bool, due: nat)      // one delivery attempt
    | Expire(id: Id)                        // the deadline has passed
    | Tick
    | Close                                 // shutdown is signalled
    | Quit(id: Id)                          // a waiting worker sees it
    | Stop                                  // all workers have exited
    | Crash
    | Restart(known: set<string>)           // newForwarder: load and replaySpool

  /** The effective attempt limit of a target. */
  function MaxAttempts(configured: string -> int, target: string): (max: nat)
    ensures max > 0
  {
    if configured(target) <= 0 then 3 else configured(target)
  }

  const INIT: State := State(map[], true, false, map[], 0, History(map[], map[], map[], map[], 0))

  function Count(m: map<Id, nat>, id: Id): nat { if id in m then m[id] else 0 }

  predicate Expired(m: Meta, clock: nat) { m.deadline.Some? && clock > m.deadline.value }

  /** The ids of the items that load returns: a readable metadata file, and the payload beside it. */
  predicate Loadable(disk: Disk, id: Id) {
    Json(id) in disk && disk[Json(id)].MetaFile? && Data(disk[Json(id)].meta.id) in disk
  }

  /** The file a worker is in the middle of writing, and what is to be in it. */
  function Target(w: Worker): Option<(Name, File)> {
    match w.phase
    case PutData(_) => Some((Data(w.meta.id), Payload(w.payload)))
    case PutMeta(_) => Some((Json(w.meta.id), MetaFile(w.meta)))
    case Recording(_) => Some((Json(w.meta.id), MetaFile(w.meta)))
    case _ => None
  }

  function Progress(w: Worker): Write
    requires Target(w).Some?
  {
    w.phase.w
  }

  predicate Enabled(s: State, a: Action) {
    match a
    case Enqueue(m, _) =>
      && s.up && m.attempts == 0 && m.id !in s.workers && m.id !in s.past.stored
      && Count(s.past.failed, m.id) == 0 && Count(s.past.succeeded, m.id) == 0 && m.id !in s.past.givenUp
      && Json(m.id) !in s.disk && Data(m.id) !in s.disk && DeadJson(m.id) !in s.disk && DeadData(m.id) !in s.disk
    case FileStep(id, n) =>
      && s.up && id in s.workers
      && (Target(s.workers[id]).Some? || s.workers[id].phase.Removing? || s.workers[id].phase.Burying?)
      && (Target(s.workers[id]).Some? && Progress(s.workers[id]).Unopened? ==> Temp(n) !in s.disk)
    case Load(id) => s.up && id in s.workers && s.workers[id].phase.Starting?
    case Wake(id) => s.up && id in s.workers && s.workers[id].phase.Waiting? && s.clock >= s.workers[id].meta.nextAttempt
    case Send(id, _, due) =>
      && s.up && id in s.workers && s.workers[id].phase.Ready?
      && !Expired(s.workers[id].meta, s.clock) && due >= s.clock
    case Expire(id) => s.up && id in s.workers && s.workers[id].phase.Ready? && Expired(s.workers[id].meta, s.clock)
    case Tick => true
    case Close => s.up
    case Quit(id) => s.up && s.closing && id in s.workers && s.workers[id].phase.Waiting?
    case Stop => s.up && s.closing && |s.workers| == 0
    case Crash => s.up
    case Restart(_) => !s.up
  }

  function Rename(d: Disk, from: Name, to: Name): Disk {
    if from in d then (d - {from})[to := d[from]] else d
  }

  /** The disk after the worker's next filesystem call. */
  function DiskStep(d: Disk, w: Worker, n: nat): Disk {
    match Target(w)
    case Some(t) =>
      (match Progress(w)
       case Unopened => d[Temp(n) := Partial]
       case Open(k) => d[Temp(k) := t.1]
       case Written(k) => Rename(d, Temp(k), t.0))
    case None =>
      var id := w.meta.id;
      match w.phase
      case Removing(second) => d - {if second then Data(id) else Json(id)}
      case Burying(second) => if second then Rename(d, Data(id), DeadData(id)) else Rename(d, Json(id), DeadJson(id))
      case _ => d
  }

  /** The worker after its next filesystem call; None when it is done. */
  function WorkerStep(w: Worker, n: nat, max: nat): Option<Worker> {
    match w.phase
    case PutData(Written(_)) => Some(w.(phase := PutMeta(Unopened)))
    case PutData(p) => Some(w.(phase := PutData(Advance(p, n))))
    case PutMeta(Written(_)) => Some(w.(phase := Starting))
    case PutMeta(p) => Some(w.(phase := PutMeta(Advance(p, n))))
    case Recording(Written(_)) => Some(w.(phase := if w.meta.attempts >= max then Burying(false) else Waiting))
    case Recording(p) => Some(w.(phase := Recording(Advance(p, n))))
    case Removing(second) => if second then None else Some(w.(phase := Removing(true)))
    case Burying(second) => if second then None else Some(w.(phase := Burying(true)))
    case _ => Some(w)
  }

  function Advance(p: Write, n: nat): Write {
    match p
    case Unopened => Open(n)
    case Open(k) => Written(k)
    case Written(k) => Written(k)
  }

  function Assign(workers: map<Id, Worker>, id: Id, w: Option<Worker>): map<Id, Worker> {
    if w.Some? then workers[id := w.value] else workers - {id}
  }

  /** The history after the worker's next filesystem call: the metadata rename of put makes the item
      stored, recording the last allowed attempt gives it up. */
  function HistoryStep(h: History, w: Worker, clock: nat, max: nat): History {
    if w.phase.PutMeta? && w.phase.w.Written? then
      h.(stored := h.stored[w.meta.id := Item(w.payload, w.meta.target, w.meta.deadline)])
    else if w.phase.Recording? && w.phase.w.Written? && w.meta.attempts >= max then
      h.(givenUp := h.givenUp[w.meta.id := clock])
    else h
  }

  /** Reading the payload: an unreadable one is given up at once. */
  function Loaded(d: Disk, w: Worker, id: Id): Worker {
    if Data(id) in d && d[Data(id)].Payload? then w.(payload := d[Data(id)].data, phase := Waiting)
    else w.(phase := Burying(false))
  }

  function Sent(w: Worker, ok: bool, due: nat): Worker {
    if ok then w.(phase := Removing(false))
    else w.(meta := w.meta.(attempts := w.meta.attempts + 1, nextAttempt := due), phase := Recording(Unopened))
  }

  /** One worker for every loadable item whose target is still configured. */
  function Replayed(disk: Disk, known: set<string>): map<Id, Worker> {
    map n | n in disk && n.Json? && Loadable(disk, n.id) && disk[n].meta.target in known
        :: n.id := Worker(disk[n].meta, [], Starting)
  }

  function DiskAfter(s: State, a: Action): Disk
    requires Enabled(s, a)
  {
    if a.FileStep? then DiskStep(s.disk, s.workers[a.id], a.temp) else s.disk
  }

  function WorkersAfter(s: State, a: Action, configured: string -> int): map<Id, Worker>
    requires Enabled(s, a)
  {
    match a
    case Enqueue(m, payload) => s.workers[m.id := Worker(m, payload, PutData(Unopened))]
    case FileStep(id, n) =>
      Assign(s.workers, id, WorkerStep(s.workers[id], n, MaxAttempts(configured, s.workers[id].meta.target)))
    case Load(id) => s.workers[id := Loaded(s.disk, s.workers[id], id)]
    case Wake(id) => s.workers[id := s.workers[id].(phase := Ready)]
    case Send(id, ok, due) => s.workers[id := Sent(s.workers[id], ok, due)]
    case Expire(id) => s.workers[id := s.workers[id].(phase := Burying(false))]
    case Quit(id) => s.workers - {id}
    case Crash => map[]
    case Restart(known) => Replayed(s.disk, known)
    case _ => s.workers
  }

  function PastAfter(s: State, a: Action, configured: string -> int): History
    requires Enabled(s, a)
  {
    var h := s.past;
    match a
    case FileStep(id, n) =>
      HistoryStep(h, s.workers[id], s.clock, MaxAttempts(configured, s.workers[id].meta.target))
    case Load(id) =>
      if Loaded(s.disk, s.workers[id], id).phase.Burying? then h.(givenUp := h.givenUp[id := s.clock]) else h
    case Send(id, ok, _) =>
      if ok then h.(succeeded := h.succeeded[id := Count(h.succeeded, id) + 1])
      else h.(failed := h.failed[id := Count(h.failed, id) + 1])
    case Expire(id) => h.(givenUp := h.givenUp[id := s.clock])
    case Crash => h.(crashes := h.crashes + 1)
    case _ => h
  }

  function Next(s: State, a: Action, configured: string -> int): State
    requires Enabled(s, a)
  {
    State(DiskAfter(s, a),
          if a.Stop? || a.Crash? then false else if a.Restart? then true else s.up,
          if a.Close? then true else if a.Restart? then false else s.closing,
          WorkersAfter(s, a, configured),
          if a.Tick? then s.clock + 1 else s.clock,
          PastAfter(s, a, configured))
  }

  /** The state after a run from an empty queue; None when some action was not enabled. */
  function Run(acts: seq<Action>, configured: string -> int): Option<State> {
    if acts == [] then Some(INIT)
    else
      var a := acts[|acts| - 1];
      match Run(acts[..|acts| - 1], configured)
      case None => None
      case Some(s) => if Enabled(s, a) then Some(Next(s, a, configured)) else None
  }
}
