/** Every run of the retry queue, with crashes between any two filesystem steps. */
module RetryQueueSafety {
  import opened Bytes
  import opened RetryQueue

  function Get(d: Disk, n: Name): Option<File> { if n in d then Some(d[n]) else None }

  /** All that a state says about one item. */
  datatype View = View(
    json: Option<File>, data: Option<File>, deadJson: Option<File>, deadData: Option<File>,
    worker: Option<Worker>, stored: Option<Item>, ok: nat, failed: nat, givenUp: bool,
    clock: nat, crashes: nat)

  function ViewOf(s: State, id: Id): View {
    View(Get(s.disk, Json(id)), Get(s.disk, Data(id)), Get(s.disk, DeadJson(id)), Get(s.disk, DeadData(id)),
         if id in s.workers then Some(s.workers[id]) else None,
         if id in s.past.stored then Some(s.past.stored[id]) else None,
         Count(s.past.succeeded, id), Count(s.past.failed, id), id in s.past.givenUp, s.clock, s.past.crashes)
  }

  /** A metadata file describes a stored item and has its payload beside it. */
  ghost predicate Paired(v: View, id: Id) {
    v.json.Some? ==>
      && v.json.value.MetaFile? && v.stored.Some?
      && Describes(v.json.value.meta, id, v.stored.value)
      && v.data == Some(Payload(v.stored.value.payload))
  }

  ghost predicate Describes(m: Meta, id: Id, it: Item) {
    m.id == id && m.target == it.target && m.deadline == it.deadline
  }

  /** Before put has succeeded nothing but the payload file may exist. */
  ghost predicate Unstored(v: View, id: Id) {
    && v.json.None? && v.deadJson.None? && v.deadData.None?
    && v.ok == 0 && v.failed == 0 && !v.givenUp
    && (v.worker.Some? ==>
          var w := v.worker.value;
          && w.meta.id == id && w.meta.attempts == 0
          && (w.phase.PutData? || w.phase.PutMeta?)
          && (w.phase.PutData? ==> v.data.None?)
          && (w.phase.PutMeta? ==> v.data == Some(Payload(w.payload))))
  }

  /** What a stored item keeps: its payload until it is sent, its metadata until it is given up, and the
      account of its sends. */
  ghost predicate Kept(v: View, it: Item, max: nat) {
    && v.failed <= max + v.crashes
    && v.ok <= 1 + v.crashes
    && (v.ok == 0 ==> v.data == Some(Payload(it.payload)) || v.deadData == Some(Payload(it.payload)))
    && (v.ok == 0 && !v.givenUp ==> v.json.Some?)
    && (v.givenUp ==> v.failed >= max || (it.deadline.Some? && v.clock > it.deadline.value))
  }

  /** A stored item without a worker: recorded and unrecorded failures, and no send in flight. */
  ghost predicate AtRest(v: View, max: nat)
    requires v.json.Some? ==> v.json.value.MetaFile?
  {
    v.json.Some? ==>
      && v.json.value.meta.attempts <= v.failed <= v.json.value.meta.attempts + v.crashes
      && v.failed <= max - 1 + v.crashes
      && v.ok <= v.crashes
  }

  ghost predicate AtWork(v: View, w: Worker, id: Id, it: Item, max: nat) {
    var recorded := v.json == Some(MetaFile(w.meta));
    && Describes(w.meta, id, it)
    && w.meta.attempts <= v.failed <= w.meta.attempts + v.crashes
    && match w.phase
       case PutData(_) => false
       case PutMeta(_) => false
       case Starting => recorded && v.failed <= max - 1 + v.crashes && v.ok <= v.crashes
       case Waiting => recorded && v.failed <= max - 1 + v.crashes && v.ok <= v.crashes && w.payload == it.payload
       case Ready =>
         && recorded && v.failed <= max - 1 + v.crashes && v.ok <= v.crashes && w.payload == it.payload
         && w.meta.nextAttempt <= v.clock
       case Recording(_) =>
         && v.json.Some? && v.json.value.MetaFile? && v.json.value.meta.attempts + 1 == w.meta.attempts
         && v.ok <= v.crashes && w.payload == it.payload
       case Removing(jsonGone) => v.ok >= 1 && (if jsonGone then v.json.None? else recorded && v.failed <= max - 1 + v.crashes)
       case Burying(jsonGone) =>
         && v.givenUp && v.ok <= v.crashes
         && v.data == Some(Payload(it.payload))
         && if jsonGone then v.json.None? else recorded
  }

  ghost predicate ItemInv(v: View, id: Id, configured: string -> int) {
    && Paired(v, id)
    && (v.stored.None? ==> Unstored(v, id))
    && (v.stored.Some? ==>
          var max := MaxAttempts(configured, v.stored.value.target);
          && Kept(v, v.stored.value, max)
          && (if v.worker.Some? then AtWork(v, v.worker.value, id, v.stored.value, max) else AtRest(v, max)))
  }

  function TempOf(w: Worker): Option<nat> {
    if Target(w).None? then None
    else match Progress(w)
      case Unopened => None
      case Open(n) => Some(n)
      case Written(n) => Some(n)
  }

  /** A worker's temporary file is on disk, and holds what is to be renamed once it is finished. */
  ghost predicate TempHeld(d: Disk, w: Worker) {
    TempOf(w).Some? ==>
      && Temp(TempOf(w).value) in d
      && (Progress(w).Written? ==> d[Temp(TempOf(w).value)] == Target(w).value.1)
  }

  /** No two workers write to the same temporary file, and each file in progress is as its worker left it. */
  ghost predicate TempsInv(d: Disk, ws: map<Id, Worker>) {
    && (forall i, j | i in ws && j in ws && i != j :: TempOf(ws[i]).Some? ==> TempOf(ws[i]) != TempOf(ws[j]))
    && (forall i | i in ws :: TempHeld(d, ws[i]))
  }

  ghost predicate Inv(s: State, configured: string -> int) {
    && (s.up || |s.workers| == 0)
    && TempsInv(s.disk, s.workers)
    && forall id: Id :: ItemInv(ViewOf(s, id), id, configured)
  }

  // -- The queue as seen by one item -------------------------------------------------------------

  function Subject(a: Action): Option<Id> {
    match a
    case Enqueue(m, _) => Some(m.id)
    case FileStep(id, _) => Some(id)
    case Load(id) => Some(id)
    case Wake(id) => Some(id)
    case Send(id, _, _) => Some(id)
    case Expire(id) => Some(id)
    case Quit(id) => Some(id)
    case _ => None
  }

  /** The item's files after the worker's next filesystem call: a finished temporary file replaces its
      target whole, remove and rename take away or move one file; nothing else changes. */
  function FilesAfter(v: View, w: Worker): View {
    match w.phase
    case PutData(Written(_)) => v.(data := Some(Payload(w.payload)))
    case PutMeta(Written(_)) => v.(json := Some(MetaFile(w.meta)))
    case Recording(Written(_)) => v.(json := Some(MetaFile(w.meta)))
    case Removing(second) => if second then v.(data := None) else v.(json := None)
    case Burying(second) =>
      if second then v.(data := None, deadData := if v.data.Some? then v.data else v.deadData)
      else v.(json := None, deadJson := if v.json.Some? then v.json else v.deadJson)
    case _ => v
  }

  /** What a file step also settles: the item counts as stored, or as given up. */
  function LedgerAfter(v: View, w: Worker, max: nat): View {
    match w.phase
    case PutMeta(Written(_)) => v.(stored := Some(Item(w.payload, w.meta.target, w.meta.deadline)))
    case Recording(Written(_)) => if w.meta.attempts >= max then v.(givenUp := true) else v
    case _ => v
  }

  lemma DiskOfOthers(d: Disk, w: Worker, n: nat, id: Id)
    requires w.meta.id != id
    ensures Get(DiskStep(d, w, n), Json(id)) == Get(d, Json(id))
    ensures Get(DiskStep(d, w, n), Data(id)) == Get(d, Data(id))
    ensures Get(DiskStep(d, w, n), DeadJson(id)) == Get(d, DeadJson(id))
    ensures Get(DiskStep(d, w, n), DeadData(id)) == Get(d, DeadData(id))
  {
  }

  lemma WriteOfOwn(d: Disk, w: Worker, n: nat, v: View)
    requires Target(w).Some?
    requires Progress(w).Written? ==> Temp(Progress(w).n) in d && d[Temp(Progress(w).n)] == Target(w).value.1
    requires v.json == Get(d, Json(w.meta.id)) && v.data == Get(d, Data(w.meta.id))
    requires v.deadJson == Get(d, DeadJson(w.meta.id)) && v.deadData == Get(d, DeadData(w.meta.id))
    ensures var f := FilesAfter(v, w);
            && f.json == Get(DiskStep(d, w, n), Json(w.meta.id))
            && f.data == Get(DiskStep(d, w, n), Data(w.meta.id))
            && f.deadJson == Get(DiskStep(d, w, n), DeadJson(w.meta.id))
            && f.deadData == Get(DiskStep(d, w, n), DeadData(w.meta.id))
  {
  }

  lemma MoveOfOwn(d: Disk, w: Worker, n: nat, v: View)
    requires Target(w).None? && (w.phase.Removing? || w.phase.Burying?)
    requires v.json == Get(d, Json(w.meta.id)) && v.data == Get(d, Data(w.meta.id))
    requires v.deadJson == Get(d, DeadJson(w.meta.id)) && v.deadData == Get(d, DeadData(w.meta.id))
    ensures var f := FilesAfter(v, w);
            && f.json == Get(DiskStep(d, w, n), Json(w.meta.id))
            && f.data == Get(DiskStep(d, w, n), Data(w.meta.id))
            && f.deadJson == Get(DiskStep(d, w, n), DeadJson(w.meta.id))
            && f.deadData == Get(DiskStep(d, w, n), DeadData(w.meta.id))
  {
  }

  lemma DiskOfOwn(d: Disk, w: Worker, n: nat, v: View)
    requires Target(w).Some? && Progress(w).Written? ==> Temp(Progress(w).n) in d && d[Temp(Progress(w).n)] == Target(w).value.1
    requires v.json == Get(d, Json(w.meta.id)) && v.data == Get(d, Data(w.meta.id))
    requires v.deadJson == Get(d, DeadJson(w.meta.id)) && v.deadData == Get(d, DeadData(w.meta.id))
    ensures var f := FilesAfter(v, w);
            && f.json == Get(DiskStep(d, w, n), Json(w.meta.id))
            && f.data == Get(DiskStep(d, w, n), Data(w.meta.id))
            && f.deadJson == Get(DiskStep(d, w, n), DeadJson(w.meta.id))
            && f.deadData == Get(DiskStep(d, w, n), DeadData(w.meta.id))
  {
    if Target(w).Some? {
      WriteOfOwn(d, w, n, v);
    } else if w.phase.Removing? || w.phase.Burying? {
      MoveOfOwn(d, w, n, v);
    }
  }

  ghost predicate EnabledView(v: View, a: Action, id: Id) {
    match a
    case Enqueue(m, _) =>
      && m.id == id && m.attempts == 0 && v.worker.None? && v.stored.None?
      && v.json.None? && v.data.None? && v.deadJson.None? && v.deadData.None?
    case FileStep(_, _) =>
      && v.worker.Some?
      && (Target(v.worker.value).Some? || v.worker.value.phase.Removing? || v.worker.value.phase.Burying?)
    case Load(_) => v.worker.Some? && v.worker.value.phase.Starting?
    case Wake(_) => v.worker.Some? && v.worker.value.phase.Waiting? && v.clock >= v.worker.value.meta.nextAttempt
    case Send(_, _, _) => v.worker.Some? && v.worker.value.phase.Ready?
    case Expire(_) => v.worker.Some? && v.worker.value.phase.Ready? && Expired(v.worker.value.meta, v.clock)
    case Quit(_) => v.worker.Some? && v.worker.value.phase.Waiting?
    case Restart(_) => v.worker.None?
    case _ => true
  }

  /** The item-level machine: what each action does to the view of the item it concerns. */
  function NextView(v: View, a: Action, configured: string -> int): View
    requires a.FileStep? || a.Load? || a.Wake? || a.Send? || a.Expire? ==> v.worker.Some?
  {
    match a
    case Enqueue(m, payload) => v.(worker := Some(Worker(m, payload, PutData(Unopened))))
    case FileStep(_, n) =>
      var w := v.worker.value;
      var max := MaxAttempts(configured, w.meta.target);
      LedgerAfter(FilesAfter(v, w), w, max).(worker := WorkerStep(w, n, max))
    case Load(_) =>
      var w := v.worker.value;
      if v.data.Some? && v.data.value.Payload? then
        v.(worker := Some(w.(payload := v.data.value.data, phase := Waiting)))
      else
        v.(worker := Some(w.(phase := Burying(false))), givenUp := true)
    case Wake(_) => v.(worker := Some(v.worker.value.(phase := Ready)))
    case Send(_, ok, due) =>
      var w := Some(Sent(v.worker.value, ok, due));
      if ok then v.(worker := w, ok := v.ok + 1) else v.(worker := w, failed := v.failed + 1)
    case Expire(_) => v.(worker := Some(v.worker.value.(phase := Burying(false))), givenUp := true)
    case Tick => v.(clock := v.clock + 1)
    case Close => v
    case Quit(_) => v.(worker := None)
    case Stop => v
    case Crash => v.(worker := None, crashes := v.crashes + 1)
    case Restart(known) =>
      if v.json.Some? && v.json.value.MetaFile? && v.data.Some? && v.json.value.meta.target in known then
        v.(worker := Some(Worker(v.json.value.meta, [], Starting)))
      else v
  }

  lemma FilesOfNext(s: State, a: Action, i: Id)
    requires Enabled(s, a) && TempsInv(s.disk, s.workers)
    requires a.FileStep? ==> s.workers[a.id].meta.id == a.id
    ensures var d, v := DiskAfter(s, a), ViewOf(s, i);
            var f := if a.FileStep? && a.id == i then FilesAfter(v, s.workers[i]) else v;
            && f.json == Get(d, Json(i)) && f.data == Get(d, Data(i))
            && f.deadJson == Get(d, DeadJson(i)) && f.deadData == Get(d, DeadData(i))
  {
    hide DiskStep, FilesAfter, TempOf;
    if a.FileStep? {
      assert TempHeld(s.disk, s.workers[a.id]);
      if a.id == i {
        HeldWhole(s.disk, s.workers[i]);
        DiskOfOwn(s.disk, s.workers[i], a.temp, ViewOf(s, i));
      } else {
        DiskOfOthers(s.disk, s.workers[a.id], a.temp, i);
      }
    }
  }

  lemma HeldWhole(d: Disk, w: Worker)
    requires TempHeld(d, w)
    ensures Target(w).Some? && Progress(w).Written? ==> Temp(Progress(w).n) in d && d[Temp(Progress(w).n)] == Target(w).value.1
  {
  }

  lemma WorkerOfNext(s: State, a: Action, i: Id, configured: string -> int)
    requires Enabled(s, a) && Paired(ViewOf(s, i), i) && (s.up || |s.workers| == 0)
    requires (Subject(a).Some? ==> Subject(a).value == i) ==> EnabledView(ViewOf(s, i), a, i)
    ensures var ws := WorkersAfter(s, a, configured);
            (if i in ws then Some(ws[i]) else None) ==
            if Subject(a).Some? && Subject(a).value != i then ViewOf(s, i).worker
            else NextView(ViewOf(s, i), a, configured).worker
  {
    hide WorkerStep, Sent, FilesAfter, LedgerAfter, MaxAttempts, Replayed, Loadable, Count;
    if a.Restart? {
      RestartOf(s, a.known, i);
    } else if a.Load? {
      WorkerOfLoad(s, a, i, configured);
    }
  }

  lemma WorkerOfLoad(s: State, a: Action, i: Id, configured: string -> int)
    requires Enabled(s, a) && a.Load?
    ensures var ws := WorkersAfter(s, a, configured);
            (if i in ws then Some(ws[i]) else None) ==
            if a.id != i then ViewOf(s, i).worker else NextView(ViewOf(s, i), a, configured).worker
  {
    hide WorkerStep, Sent, FilesAfter, LedgerAfter, MaxAttempts, Replayed, Count;
  }

  lemma RestartOf(s: State, known: set<string>, id: Id)
    requires Paired(ViewOf(s, id), id)
    ensures var v, t := ViewOf(s, id), Replayed(s.disk, known);
            && (id in t <==> v.json.Some? && v.json.value.meta.target in known)
            && (id in t ==> t[id] == Worker(v.json.value.meta, [], Starting) && v.data.Some?)
  {
    if Json(id) in s.disk && Loadable(s.disk, id) && s.disk[Json(id)].meta.target in known {
      assert Json(id).id in Replayed(s.disk, known);
    }
  }

  /** The ledger of an item agrees with the history. */
  ghost predicate Accounts(v: View, h: History, i: Id) {
    && v.stored == (if i in h.stored then Some(h.stored[i]) else None)
    && v.ok == Count(h.succeeded, i) && v.failed == Count(h.failed, i)
    && (v.givenUp <==> i in h.givenUp) && v.crashes == h.crashes
  }

  lemma PastOfFileStep(h: History, w: Worker, clock: nat, max: nat, v: View, i: Id)
    requires Accounts(v, h, i)
    ensures Accounts(if w.meta.id == i then LedgerAfter(v, w, max) else v, HistoryStep(h, w, clock, max), i)
  {
  }

  lemma PastOfFileAction(s: State, a: Action, i: Id, configured: string -> int)
    requires Enabled(s, a) && a.FileStep? && s.workers[a.id].meta.id == a.id
    ensures var v := ViewOf(s, i);
            Accounts(if a.id != i then v else NextView(v, a, configured), PastAfter(s, a, configured), i)
  {
    hide WorkerStep, HistoryStep, FilesAfter, LedgerAfter;
    var w := s.workers[a.id];
    var v := if w.meta.id == i then FilesAfter(ViewOf(s, i), w) else ViewOf(s, i);
    FilesAfterKeepsRest(ViewOf(s, i), w);
    PastOfFileStep(s.past, w, s.clock, MaxAttempts(configured, w.meta.target), v, i);
  }

  lemma PastOfSend(s: State, a: Action, i: Id, configured: string -> int)
    requires Enabled(s, a) && a.Send?
    ensures var v := ViewOf(s, i);
            Accounts(if a.id != i then v else NextView(v, a, configured), PastAfter(s, a, configured), i)
  {
    hide WorkerStep, HistoryStep, FilesAfter, LedgerAfter;
  }

  lemma PastOfLoad(s: State, a: Action, i: Id, configured: string -> int)
    requires Enabled(s, a) && a.Load?
    ensures var v := ViewOf(s, i);
            Accounts(if a.id != i then v else NextView(v, a, configured), PastAfter(s, a, configured), i)
  {
    hide WorkerStep, HistoryStep, FilesAfter, LedgerAfter, Sent, MaxAttempts, Count;
    assert a.id in s.workers;
  }

  lemma PastOfExpire(s: State, a: Action, i: Id, configured: string -> int)
    requires Enabled(s, a) && a.Expire?
    ensures var v := ViewOf(s, i);
            Accounts(if a.id != i then v else NextView(v, a, configured), PastAfter(s, a, configured), i)
  {
    hide WorkerStep, HistoryStep, FilesAfter, LedgerAfter, Sent, MaxAttempts, Count, Loaded;
  }

  lemma PastOfNext(s: State, a: Action, i: Id, configured: string -> int)
    requires Enabled(s, a)
    requires a.FileStep? ==> s.workers[a.id].meta.id == a.id
    ensures var v := ViewOf(s, i);
            Accounts(if Subject(a).Some? && Subject(a).value != i then v else NextView(v, a, configured),
                     PastAfter(s, a, configured), i)
  {
    if a.FileStep? {
      PastOfFileAction(s, a, i, configured);
    } else if a.Send? {
      PastOfSend(s, a, i, configured);
    } else if a.Load? {
      PastOfLoad(s, a, i, configured);
    } else if a.Expire? {
      PastOfExpire(s, a, i, configured);
    } else {
      hide WorkerStep, HistoryStep, FilesAfter, LedgerAfter;
    }
  }

  lemma FilesAfterKeepsRest(v: View, w: Worker)
    ensures FilesAfter(v, w) == v.(json := FilesAfter(v, w).json, data := FilesAfter(v, w).data,
                                   deadJson := FilesAfter(v, w).deadJson, deadData := FilesAfter(v, w).deadData)
  {
  }

  lemma FilesOfNextView(v: View, a: Action, configured: string -> int)
    requires a.FileStep? || a.Load? || a.Wake? || a.Send? || a.Expire? ==> v.worker.Some?
    ensures var v' := NextView(v, a, configured);
            var f := if a.FileStep? then FilesAfter(v, v.worker.value) else v;
            && v'.json == f.json && v'.data == f.data && v'.deadJson == f.deadJson && v'.deadData == f.deadData
            && v'.clock == if a.Tick? then v.clock + 1 else v.clock
  {
    hide WorkerStep;
  }

  lemma EnabledAsViewed(s: State, a: Action, i: Id)
    requires Enabled(s, a) && (s.up || |s.workers| == 0)
    requires Subject(a).Some? ==> Subject(a).value == i
    ensures EnabledView(ViewOf(s, i), a, i)
  {
  }

  /** The whole queue, seen through one item, is the item-level machine. */
  lemma ViewOfNext(s: State, a: Action, i: Id, configured: string -> int)
    requires Enabled(s, a) && TempsInv(s.disk, s.workers) && Paired(ViewOf(s, i), i) && (s.up || |s.workers| == 0)
    requires forall id :: id in s.workers ==> s.workers[id].meta.id == id
    ensures ViewOf(Next(s, a, configured), i) ==
            if Subject(a).Some? && Subject(a).value != i then ViewOf(s, i) else NextView(ViewOf(s, i), a, configured)
    ensures (Subject(a).Some? ==> Subject(a).value == i) ==> EnabledView(ViewOf(s, i), a, i)
  {
    hide DiskAfter, WorkersAfter, PastAfter, TempsInv, NextView, Paired;
    FilesOfNext(s, a, i);
    PastOfNext(s, a, i, configured);
    if Subject(a).Some? ==> Subject(a).value == i {
      EnabledAsViewed(s, a, i);
      FilesOfNextView(ViewOf(s, i), a, configured);
    }
    WorkerOfNext(s, a, i, configured);
  }

  // -- The item-level machine keeps the item's invariant ------------------------------------------

  lemma PutStepKeeps(v: View, n: nat, id: Id, configured: string -> int)
    requires ItemInv(v, id, configured) && v.worker.Some?
    requires v.worker.value.phase.PutData? || v.worker.value.phase.PutMeta?
    ensures ItemInv(NextView(v, FileStep(id, n), configured), id, configured)
  {
  }

  lemma RecordStepKeeps(v: View, n: nat, id: Id, configured: string -> int)
    requires ItemInv(v, id, configured) && v.worker.Some? && v.worker.value.phase.Recording?
    ensures ItemInv(NextView(v, FileStep(id, n), configured), id, configured)
  {
    hide MaxAttempts;
    if v.worker.value.phase.w.Written? {
      RecordedKeeps(v, n, id, configured);
    }
  }

  lemma RecordedKeeps(v: View, n: nat, id: Id, configured: string -> int)
    requires ItemInv(v, id, configured) && v.worker.Some? && v.worker.value.phase.Recording? && v.worker.value.phase.w.Written?
    ensures ItemInv(NextView(v, FileStep(id, n), configured), id, configured)
  {
    hide MaxAttempts;
  }

  lemma EndStepKeeps(v: View, n: nat, id: Id, configured: string -> int)
    requires ItemInv(v, id, configured) && v.worker.Some?
    requires v.worker.value.phase.Removing? || v.worker.value.phase.Burying?
    ensures ItemInv(NextView(v, FileStep(id, n), configured), id, configured)
  {
  }

  lemma FileStepKeeps(v: View, a: Action, id: Id, configured: string -> int)
    requires ItemInv(v, id, configured) && v.worker.Some? && a.FileStep?
    requires Target(v.worker.value).Some? || v.worker.value.phase.Removing? || v.worker.value.phase.Burying?
    ensures ItemInv(NextView(v, a, configured), id, configured)
  {
    hide ItemInv, NextView;
    var phase := v.worker.value.phase;
    if phase.PutData? || phase.PutMeta? {
      PutStepKeeps(v, a.temp, id, configured);
    } else if phase.Recording? {
      RecordStepKeeps(v, a.temp, id, configured);
    } else {
      EndStepKeeps(v, a.temp, id, configured);
    }
    SameFileStep(v, a, FileStep(id, a.temp), configured);
  }

  lemma SameFileStep(v: View, a: Action, b: Action, configured: string -> int)
    requires v.worker.Some? && a.FileStep? && b.FileStep? && a.temp == b.temp
    ensures NextView(v, a, configured) == NextView(v, b, configured)
  {
  }

  lemma SendStepKeeps(v: View, a: Action, id: Id, configured: string -> int)
    requires ItemInv(v, id, configured) && EnabledView(v, a, id) && a.Send?
    ensures ItemInv(NextView(v, a, configured), id, configured)
  {
    hide FilesAfter, LedgerAfter, WorkerStep, MaxAttempts;
  }

  lemma WorkerStepKeeps(v: View, a: Action, id: Id, configured: string -> int)
    requires ItemInv(v, id, configured) && EnabledView(v, a, id) && (a.Load? || a.Wake? || a.Expire? || a.Quit?)
    ensures ItemInv(NextView(v, a, configured), id, configured)
  {
    hide FilesAfter, LedgerAfter, WorkerStep, MaxAttempts, Sent;
  }

  lemma CrashKeeps(v: View, id: Id, configured: string -> int)
    requires ItemInv(v, id, configured)
    ensures ItemInv(NextView(v, Crash, configured), id, configured)
  {
    hide FilesAfter, LedgerAfter, WorkerStep, MaxAttempts, Sent;
  }

  lemma ViewStepKeeps(v: View, a: Action, id: Id, configured: string -> int)
    requires ItemInv(v, id, configured) && EnabledView(v, a, id) && !a.FileStep?
    ensures ItemInv(NextView(v, a, configured), id, configured)
  {
    hide FilesAfter, LedgerAfter, WorkerStep, MaxAttempts, Sent;
    if a.Send? {
      SendStepKeeps(v, a, id, configured);
    } else if a.Load? || a.Wake? || a.Expire? || a.Quit? {
      WorkerStepKeeps(v, a, id, configured);
    } else if a.Crash? {
      CrashKeeps(v, id, configured);
    }
  }

  // -- Every step, every run ----------------------------------------------------------------------

  lemma OwnTemp(d: Disk, w: Worker, n: nat, max: nat)
    requires TempHeld(d, w)
    ensures var w' := WorkerStep(w, n, max);
            w'.Some? ==>
              && TempHeld(DiskStep(d, w, n), w'.value)
              && (TempOf(w'.value).None? || TempOf(w'.value) == TempOf(w) || (TempOf(w).None? && TempOf(w'.value).value == n))
              && (TempOf(w).None? && TempOf(w'.value).Some? ==> Target(w).Some? && Progress(w).Unopened?)
  {
  }

  lemma OtherTemp(d: Disk, w: Worker, n: nat, m: nat)
    requires TempOf(w) != Some(m)
    requires Target(w).Some? && Progress(w).Unopened? ==> n != m
    ensures Get(DiskStep(d, w, n), Temp(m)) == Get(d, Temp(m))
  {
  }

  lemma HeldOn(d: Disk, d': Disk, w: Worker)
    requires TempHeld(d, w)
    requires TempOf(w).Some? ==> Get(d', Temp(TempOf(w).value)) == Get(d, Temp(TempOf(w).value))
    ensures TempHeld(d', w)
  {
  }

  lemma HeldIsThere(d: Disk, w: Worker)
    requires TempHeld(d, w) && TempOf(w).Some?
    ensures Temp(TempOf(w).value) in d
  {
  }

  lemma TempsOfFileStep(s: State, id: Id, n: nat, configured: string -> int)
    requires TempsInv(s.disk, s.workers) && Enabled(s, FileStep(id, n))
    ensures TempsInv(DiskStep(s.disk, s.workers[id], n), WorkersAfter(s, FileStep(id, n), configured))
  {
    hide DiskStep, WorkerStep, TempOf, TempHeld, Target, MaxAttempts;
    var w := s.workers[id];
    var d, ws := DiskStep(s.disk, w, n), WorkersAfter(s, FileStep(id, n), configured);
    OwnTemp(s.disk, w, n, MaxAttempts(configured, w.meta.target));
    forall i | i in ws && i != id
      ensures TempHeld(d, ws[i])
      ensures TempOf(ws[i]).Some? && id in ws ==> TempOf(ws[i]) != TempOf(ws[id])
    {
      assert ws[i] == s.workers[i] && TempHeld(s.disk, s.workers[i]);
      if TempOf(s.workers[i]).Some? {
        HeldIsThere(s.disk, s.workers[i]);
        OtherTemp(s.disk, w, n, TempOf(s.workers[i]).value);
      }
      HeldOn(s.disk, d, s.workers[i]);
    }
  }

  /** Apart from file steps, an action changes no worker that has a temporary file in hand. */
  lemma TempsUntouched(s: State, a: Action, configured: string -> int, i: Id)
    requires Enabled(s, a) && !a.FileStep?
    requires i in WorkersAfter(s, a, configured) && TempOf(WorkersAfter(s, a, configured)[i]).Some?
    ensures i in s.workers && WorkersAfter(s, a, configured)[i] == s.workers[i]
  {
  }

  lemma TempsKept(s: State, a: Action, configured: string -> int)
    requires TempsInv(s.disk, s.workers) && Enabled(s, a)
    ensures TempsInv(DiskAfter(s, a), WorkersAfter(s, a, configured))
  {
    hide DiskStep, WorkersAfter, TempOf;
    if a.FileStep? {
      TempsOfFileStep(s, a.id, a.temp, configured);
    } else {
      var ws := WorkersAfter(s, a, configured);
      forall i | i in ws && TempOf(ws[i]).Some?
        ensures i in s.workers && ws[i] == s.workers[i]
      {
        TempsUntouched(s, a, configured, i);
      }
      forall i | i in ws ensures TempHeld(s.disk, ws[i]) {
        if TempOf(ws[i]).Some? { assert TempHeld(s.disk, s.workers[i]); }
      }
    }
  }

  lemma ProcessKept(s: State, a: Action, configured: string -> int)
    requires Enabled(s, a) && (s.up || |s.workers| == 0)
    ensures var t := Next(s, a, configured); t.up || |t.workers| == 0
  {
    hide DiskAfter, PastAfter;
  }

  lemma WorkersKeyed(s: State, configured: string -> int)
    requires Inv(s, configured)
    ensures forall id :: id in s.workers ==> s.workers[id].meta.id == id
  {
    forall id | id in s.workers ensures s.workers[id].meta.id == id {
      assert ItemInv(ViewOf(s, id), id, configured);
    }
  }

  lemma ItemStepKeeps(s: State, a: Action, id: Id, configured: string -> int)
    requires Inv(s, configured) && Enabled(s, a)
    ensures ItemInv(ViewOf(Next(s, a, configured), id), id, configured)
  {
    hide Next, ViewOf, NextView, Enabled;
    assert ItemInv(ViewOf(s, id), id, configured);
    WorkersKeyed(s, configured);
    ViewOfNext(s, a, id, configured);
    if Subject(a).Some? && Subject(a).value != id {
    } else if a.FileStep? {
      FileStepKeeps(ViewOf(s, id), a, id, configured);
    } else {
      ViewStepKeeps(ViewOf(s, id), a, id, configured);
    }
  }

  lemma StepKeeps(s: State, a: Action, configured: string -> int)
    requires Inv(s, configured) && Enabled(s, a)
    ensures Inv(Next(s, a, configured), configured)
  {
    hide ItemInv, ViewOf, TempsInv, Enabled, WorkersAfter, DiskAfter, PastAfter;
    ProcessKept(s, a, configured);
    TempsKept(s, a, configured);
    forall id: Id ensures ItemInv(ViewOf(Next(s, a, configured), id), id, configured) {
      ItemStepKeeps(s, a, id, configured);
    }
  }

  /** The invariant holds after every run. */
  lemma {:induction false} RunKeeps(acts: seq<Action>, configured: string -> int)
    requires Run(acts, configured).Some?
    ensures Inv(Run(acts, configured).value, configured)
  {
    hide Next, ItemInv, Enabled;
    if acts == [] {
      forall id: Id ensures ItemInv(ViewOf(INIT, id), id, configured) { InitialItem(id, configured); }
    } else {
      RunKeeps(acts[..|acts| - 1], configured);
      StepKeeps(Run(acts[..|acts| - 1], configured).value, acts[|acts| - 1], configured);
    }
  }

  lemma InitialItem(id: Id, configured: string -> int)
    ensures ItemInv(ViewOf(INIT, id), id, configured)
  {
  }

  // -- What every run guarantees -------------------------------------------------------------------

  /** At every point of every run, crashes included, an active metadata file has its payload beside it. */
  lemma MetadataHasPayload(acts: seq<Action>, configured: string -> int, id: Id)
    requires Run(acts, configured).Some?
    ensures var s := Run(acts, configured).value;
            Json(id) in s.disk ==> Data(id) in s.disk && s.disk[Data(id)].Payload?
                                   && s.disk[Json(id)].MetaFile? && s.disk[Json(id)].meta.id == id
  {
    hide Run;
    RunKeeps(acts, configured);
    assert ItemInv(ViewOf(Run(acts, configured).value, id), id, configured);
  }

  /** Once put has succeeded, the payload stays on disk, in the queue or in dead/, until a send succeeds;
      and the item stays in the queue proper until it is given up, for a reason. */
  lemma StoredPayloadSurvives(acts: seq<Action>, configured: string -> int, id: Id)
    requires Run(acts, configured).Some?
    requires id in Run(acts, configured).value.past.stored
    requires Count(Run(acts, configured).value.past.succeeded, id) == 0
    ensures var s := Run(acts, configured).value;
            var it := s.past.stored[id];
            && (Get(s.disk, Data(id)) == Some(Payload(it.payload)) || Get(s.disk, DeadData(id)) == Some(Payload(it.payload)))
            && (id !in s.past.givenUp ==> Json(id) in s.disk && Get(s.disk, Data(id)) == Some(Payload(it.payload)))
            && (id in s.past.givenUp ==>
                  Count(s.past.failed, id) >= MaxAttempts(configured, it.target)
                  || (it.deadline.Some? && s.clock > it.deadline.value))
  {
    hide Run;
    RunKeeps(acts, configured);
    assert ItemInv(ViewOf(Run(acts, configured).value, id), id, configured);
  }

  /** Over any run with k crashes an item sees at most max_attempts + k failed sends and at most 1 + k
      successful ones; without a crash at most max_attempts and one. */
  lemma SendsAreBounded(acts: seq<Action>, configured: string -> int, id: Id)
    requires Run(acts, configured).Some?
    requires id in Run(acts, configured).value.past.stored
    ensures var h := Run(acts, configured).value.past;
            && Count(h.failed, id) <= MaxAttempts(configured, h.stored[id].target) + h.crashes
            && Count(h.succeeded, id) <= 1 + h.crashes
  {
    hide Run;
    RunKeeps(acts, configured);
    assert ItemInv(ViewOf(Run(acts, configured).value, id), id, configured);
  }

  /** A restart takes up again every stored item that was neither delivered nor given up, if its target is
      still configured, with the payload that was stored. */
  lemma RestartRecovers(acts: seq<Action>, configured: string -> int, id: Id, known: set<string>)
    requires Run(acts, configured).Some?
    requires var s := Run(acts, configured).value;
             && !s.up && id in s.past.stored && Count(s.past.succeeded, id) == 0 && id !in s.past.givenUp
             && s.past.stored[id].target in known
    ensures var s := Run(acts, configured).value;
            var t := Next(s, Restart(known), configured);
            && id in t.workers && Enabled(t, Load(id))
            && Next(t, Load(id), configured).workers[id].phase == Waiting
            && Next(t, Load(id), configured).workers[id].payload == s.past.stored[id].payload
  {
    hide Run;
    RunKeeps(acts, configured);
    var s := Run(acts, configured).value;
    assert ItemInv(ViewOf(s, id), id, configured);
    RestartOf(s, known, id);
  }

  /** Every send carries the payload that put stored, and is made only once it is due. */
  lemma SendsWhatWasStored(acts: seq<Action>, configured: string -> int, id: Id, ok: bool, due: nat)
    requires Run(acts, configured).Some? && Enabled(Run(acts, configured).value, Send(id, ok, due))
    ensures var s := Run(acts, configured).value;
            id in s.past.stored && s.workers[id].payload == s.past.stored[id].payload
            && s.workers[id].meta.nextAttempt <= s.clock
  {
    hide Run;
    RunKeeps(acts, configured);
    assert ItemInv(ViewOf(Run(acts, configured).value, id), id, configured);
  }

  // -- Termination of a worker ------------------------------------------------------------------------

  function WriteRank(w: Write): nat { match w case Unopened => 3 case Open(_) => 2 case Written(_) => 1 }

  /** The steps a worker can still take before it uses up another attempt. */
  function PhaseRank(p: Phase, last: bool): nat {
    match p
    case PutData(w) => 24 + WriteRank(w)
    case PutMeta(w) => 20 + WriteRank(w)
    case Starting => 16
    case Waiting => 12
    case Ready => 11
    case Recording(w) => (if last then 4 else 12) + WriteRank(w)
    case Removing(gone) => if gone then 1 else 2
    case Burying(gone) => if gone then 1 else 2
  }

  /** The measure of the retry loop: attempts left, then the phase. */
  function Rank(w: Worker, max: nat): nat {
    var left := if w.meta.attempts < max then max - w.meta.attempts else 0;
    32 * left + PhaseRank(w.phase, left == 0)
  }

  /** Every action of a worker uses up its measure, so between restarts a worker takes at most as many
      steps as its measure says, whatever the sends return. */
  lemma WorkersTerminate(s: State, a: Action, configured: string -> int)
    requires Enabled(s, a) && Subject(a).Some? && !a.Enqueue?
    ensures var id := Subject(a).value;
            var max := MaxAttempts(configured, s.workers[id].meta.target);
            var t := WorkersAfter(s, a, configured);
            id in t ==> Rank(t[id], max) < Rank(s.workers[id], max)
  {
  }
}
