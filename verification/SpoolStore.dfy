/** fwd_spool.go and the durable retry loop of forward.go in their own form: methods that change a
    directory, one filesystem call at a time. The directories they pass through are those of a run of the
    protocol in RetryQueue, so a crash between any two calls is a crash of that protocol. */
module SpoolStore {
  import opened Bytes
  import opened RetryQueue
  import opened RetryQueueSafety

  lemma {:induction false} TempsAreFew(n: nat, d: Disk)
    requires forall k: nat | k < n :: Temp(k) in d
    ensures n <= |d|
  {
    if n > 0 {
      TempsAreFew(n - 1, d - {Temp(n - 1)});
      assert (d - {Temp(n - 1)}).Keys == d.Keys - {Temp(n - 1)};
      assert |d - {Temp(n - 1)}| == |(d - {Temp(n - 1)}).Keys| && |d| == |d.Keys|;
    }
  }

  /** The directories writeFileAtomic passes through: create, fill, rename into place. */
  ghost function WriteSteps(d: Disk, n: nat, path: Name, f: File): (ds: seq<Disk>)
    ensures |ds| == 3
  {
    var d2 := d[Temp(n) := Partial][Temp(n) := f];
    [d[Temp(n) := Partial], d2, Rename(d2, Temp(n), path)]
  }

  lemma WriteStepsEnd(d: Disk, n: nat, path: Name, f: File)
    requires Temp(n) !in d && !path.Temp?
    ensures WriteSteps(d, n, path, f)[2] == d[path := f]
  {
  }

  /** The two calls that delete an item, or move it to dead/. */
  ghost function EndSteps(d: Disk, id: Id, bury: bool): (ds: seq<Disk>)
    ensures |ds| == 2
  {
    if bury then
      var d1 := Rename(d, Json(id), DeadJson(id));
      [d1, Rename(d1, Data(id), DeadData(id))]
    else [d - {Json(id)}, d - {Json(id)} - {Data(id)}]
  }

  // -- Runs of the protocol from a state -----------------------------------------------------------

  /** Where a run leads from a state, and the directory after each of its filesystem calls; None when some action was
      not enabled. */
  ghost function Trace(s: State, run: seq<Action>, configured: string -> int): Option<(State, seq<Disk>)> {
    if run == [] then Some((s, []))
    else
      var a := run[|run| - 1];
      match Trace(s, run[..|run| - 1], configured)
      case None => None
      case Some((t, ds)) =>
        if Enabled(t, a) then Some((Next(t, a, configured), if a.FileStep? then ds + [DiskAfter(t, a)] else ds)) else None
  }

  lemma Act(s: State, run: seq<Action>, a: Action, configured: string -> int)
    requires Trace(s, run, configured).Some? && Enabled(Trace(s, run, configured).value.0, a)
    ensures var (t, ds) := Trace(s, run, configured).value;
            Trace(s, run + [a], configured) == Some((Next(t, a, configured), if a.FileStep? then ds + [DiskAfter(t, a)] else ds))
  {
    hide Enabled, Next;
    assert (run + [a])[..|run|] == run;
  }

  /** A run from the empty queue goes on as a run from where it has led. */
  lemma {:induction false} RunGoesOn(acts: seq<Action>, run: seq<Action>, configured: string -> int)
    requires Run(acts, configured).Some? && Trace(Run(acts, configured).value, run, configured).Some?
    ensures Run(acts + run, configured) == Some(Trace(Run(acts, configured).value, run, configured).value.0)
    decreases |run|
  {
    hide Enabled, Next;
    if run == [] {
      assert acts + run == acts;
    } else {
      var init := run[..|run| - 1];
      RunGoesOn(acts, init, configured);
      assert (acts + run)[..|acts + run| - 1] == acts + init;
    }
  }

  /** The worker of an item, in a run that has led to this directory and this time. */
  ghost predicate Reached(s: State, run: seq<Action>, configured: string -> int, ds: seq<Disk>, d: Disk, w: Worker, now: nat) {
    var r := Trace(s, run, configured);
    r.Some? && var t := r.value.0;
      t.up && t.disk == d && t.clock == now && w.meta.id in t.workers && t.workers[w.meta.id] == w && r.value.1 == ds
  }

  /** A run that has led to this directory. */
  ghost predicate Ended(s: State, run: seq<Action>, configured: string -> int, ds: seq<Disk>, d: Disk, now: nat) {
    var r := Trace(s, run, configured);
    r.Some? && r.value.0.disk == d && r.value.0.clock == now && r.value.1 == ds
  }

  lemma LoadReached(s: State, run: seq<Action>, configured: string -> int, ds: seq<Disk>, d: Disk, w: Worker, now: nat)
    requires Reached(s, run, configured, ds, d, w, now) && w.phase == Starting
    ensures Reached(s, run + [Load(w.meta.id)], configured, ds, d, Loaded(d, w, w.meta.id), now)
  {
    hide Trace, Loaded, PastAfter;
    Act(s, run, Load(w.meta.id), configured);
    SameId(d, w);
  }

  lemma SameId(d: Disk, w: Worker)
    ensures Loaded(d, w, w.meta.id).meta == w.meta
  {
  }

  function Ticks(n: nat): seq<Action> { seq(n, i => Tick) }

  lemma {:induction false} TicksReached(s: State, run: seq<Action>, configured: string -> int, ds: seq<Disk>, d: Disk, w: Worker, now: nat, n: nat)
    requires Reached(s, run, configured, ds, d, w, now)
    ensures Reached(s, run + Ticks(n), configured, ds, d, w, now + n)
  {
    hide Trace, PastAfter;
    if n == 0 {
      assert run + Ticks(0) == run;
    } else {
      TicksReached(s, run, configured, ds, d, w, now, n - 1);
      Act(s, run + Ticks(n - 1), Tick, configured);
      assert run + Ticks(n - 1) + [Tick] == run + Ticks(n);
    }
  }

  /** What a worker can do without touching a file. */
  ghost predicate Can(w: Worker, a: Action, now: nat) {
    match a
    case Wake(id) => id == w.meta.id && w.phase == Waiting && now >= w.meta.nextAttempt
    case Send(id, _, due) => id == w.meta.id && w.phase == Ready && !Expired(w.meta, now) && due >= now
    case Expire(id) => id == w.meta.id && w.phase == Ready && Expired(w.meta, now)
    case _ => false
  }

  ghost function Does(w: Worker, a: Action): Worker {
    match a
    case Wake(_) => w.(phase := Ready)
    case Send(_, ok, due) => Sent(w, ok, due)
    case Expire(_) => w.(phase := Burying(false))
    case _ => w
  }

  lemma ActReached(s: State, run: seq<Action>, configured: string -> int, ds: seq<Disk>, d: Disk, w: Worker, now: nat, a: Action)
    requires Reached(s, run, configured, ds, d, w, now) && Can(w, a, now)
    ensures Reached(s, run + [a], configured, ds, d, Does(w, a), now)
  {
    hide Trace, PastAfter, Expired;
    Act(s, run, a, configured);
  }

  lemma QuitEnds(s: State, run: seq<Action>, configured: string -> int, ds: seq<Disk>, d: Disk, w: Worker, now: nat)
    requires Reached(s, run, configured, ds, d, w, now) && w.phase == Waiting
    ensures Ended(s, run + [Close, Quit(w.meta.id)], configured, ds, d, now)
  {
    hide Trace, PastAfter;
    Act(s, run, Close, configured);
    Act(s, run + [Close], Quit(w.meta.id), configured);
    assert run + [Close] + [Quit(w.meta.id)] == run + [Close, Quit(w.meta.id)];
  }

  lemma FileStepReached(s: State, run: seq<Action>, configured: string -> int, ds: seq<Disk>, d: Disk, w: Worker, now: nat, n: nat)
    requires Reached(s, run, configured, ds, d, w, now)
    requires Target(w).Some? || w.phase.Removing? || w.phase.Burying?
    requires Target(w).Some? && Progress(w).Unopened? ==> Temp(n) !in d
    ensures var next := WorkerStep(w, n, MaxAttempts(configured, w.meta.target));
            var d' := DiskStep(d, w, n);
            && Ended(s, run + [FileStep(w.meta.id, n)], configured, ds + [d'], d', now)
            && (next.Some? && next.value.meta == w.meta ==>
                  Reached(s, run + [FileStep(w.meta.id, n)], configured, ds + [d'], d', next.value, now))
  {
    hide Trace, PastAfter, DiskStep, WorkerStep, Target, MaxAttempts;
    Act(s, run, FileStep(w.meta.id, n), configured);
  }

  /** The worker after an atomic write. */
  function AfterWrite(w: Worker, max: nat): Worker {
    match w.phase
    case PutData(_) => w.(phase := PutMeta(Unopened))
    case PutMeta(_) => w.(phase := Starting)
    case _ => w.(phase := if w.meta.attempts >= max then Burying(false) else Waiting)
  }

  /** The three states a writing worker goes through, and the directory after each. */
  lemma WriteStates(d: Disk, w: Worker, n: nat, max: nat)
    requires Target(w).Some? && Progress(w).Unopened?
    ensures var t := Target(w).value;
            var d2 := d[Temp(n) := Partial][Temp(n) := t.1];
            && DiskStep(d, w, n) == d[Temp(n) := Partial]
            && WorkerStep(w, n, max).Some?
            && var w1 := WorkerStep(w, n, max).value;
            && w1.meta == w.meta && Target(w1).Some? && !Progress(w1).Unopened?
            && DiskStep(d[Temp(n) := Partial], w1, n) == d2
            && WorkerStep(w1, n, max).Some?
            && var w2 := WorkerStep(w1, n, max).value;
            && w2.meta == w.meta && Target(w2).Some? && !Progress(w2).Unopened?
            && DiskStep(d2, w2, n) == Rename(d2, Temp(n), t.0)
            && WorkerStep(w2, n, max) == Some(AfterWrite(w, max))
  {
    hide Rename;
  }

  function Writes(id: Id, n: nat): seq<Action> { [FileStep(id, n), FileStep(id, n), FileStep(id, n)] }

  /** An atomic write is the next three file steps of a worker about to write. */
  lemma WriteReached(s: State, run: seq<Action>, configured: string -> int, ds: seq<Disk>, d: Disk, w: Worker, now: nat, n: nat)
    requires Reached(s, run, configured, ds, d, w, now)
    requires Target(w).Some? && Progress(w).Unopened? && Temp(n) !in d
    ensures var t := Target(w).value;
            Reached(s, run + Writes(w.meta.id, n), configured, ds + WriteSteps(d, n, t.0, t.1), d[t.0 := t.1],
                    AfterWrite(w, MaxAttempts(configured, w.meta.target)), now)
  {
    hide Reached, Ended, WorkerStep, DiskStep, MaxAttempts, Rename;
    var t, max, x := Target(w).value, MaxAttempts(configured, w.meta.target), FileStep(w.meta.id, n);
    WriteStates(d, w, n, max);
    WriteStepsEnd(d, n, t.0, t.1);
    var w1 := WorkerStep(w, n, max).value;
    var w2 := WorkerStep(w1, n, max).value;
    var d1, d2 := d[Temp(n) := Partial], d[Temp(n) := Partial][Temp(n) := t.1];
    var d3 := d[t.0 := t.1];
    FileStepReached(s, run, configured, ds, d, w, now, n);
    FileStepReached(s, run + [x], configured, ds + [d1], d1, w1, now, n);
    FileStepReached(s, run + [x] + [x], configured, ds + [d1] + [d2], d2, w2, now, n);
    assert run + [x] + [x] + [x] == run + Writes(w.meta.id, n);
    assert ds + [d1] + [d2] + [d3] == ds + WriteSteps(d, n, t.0, t.1);
  }

  function Ends(id: Id): seq<Action> { [FileStep(id, 0), FileStep(id, 0)] }

  /** The two calls that end an item are the file steps of a worker that removes or buries it. */
  lemma EndReached(s: State, run: seq<Action>, configured: string -> int, ds: seq<Disk>, d: Disk, w: Worker, now: nat)
    requires Reached(s, run, configured, ds, d, w, now) && (w.phase == Removing(false) || w.phase == Burying(false))
    ensures var ends := EndSteps(d, w.meta.id, w.phase.Burying?);
            Ended(s, run + Ends(w.meta.id), configured, ds + ends, ends[1], now)
  {
    hide Reached, Ended, MaxAttempts, Rename;
    var x := FileStep(w.meta.id, 0);
    var w1 := w.(phase := if w.phase.Removing? then Removing(true) else Burying(true));
    var ends := EndSteps(d, w.meta.id, w.phase.Burying?);
    FileStepReached(s, run, configured, ds, d, w, now, 0);
    FileStepReached(s, run + [x], configured, ds + [ends[0]], ends[0], w1, now, 0);
    assert run + [x] + [x] == run + Ends(w.meta.id);
    assert ds + [ends[0]] + [ends[1]] == ds + ends;
  }

  /** put, as a run: the item is announced, its payload is written, then its metadata; after that it counts as stored. */
  lemma PutRuns(s: State, configured: string -> int, m: Meta, payload: bytes, n1: nat, n2: nat)
    requires Enabled(s, Enqueue(m, payload)) && Temp(n1) !in s.disk
    requires Temp(n2) !in s.disk[Data(m.id) := Payload(payload)]
    ensures var run := [Enqueue(m, payload)] + Writes(m.id, n1) + Writes(m.id, n2);
            var d1 := s.disk[Data(m.id) := Payload(payload)];
            Reached(s, run, configured,
                    WriteSteps(s.disk, n1, Data(m.id), Payload(payload)) + WriteSteps(d1, n2, Json(m.id), MetaFile(m)),
                    d1[Json(m.id) := MetaFile(m)], Worker(m, payload, Starting), s.clock)
  {
    hide Trace, PastAfter, WriteSteps, Writes, MaxAttempts;
    var none: seq<Action>, nothing: seq<Disk> := [], [];
    assert Trace(s, none, configured) == Some((s, nothing)) by { StartOfTrace(s, configured); }
    Act(s, none, Enqueue(m, payload), configured);
    var w := Worker(m, payload, PutData(Unopened));
    var run1 := none + [Enqueue(m, payload)];
    assert run1 == [Enqueue(m, payload)];
    WriteReached(s, run1, configured, nothing, s.disk, w, s.clock, n1);
    var ds1 := WriteSteps(s.disk, n1, Data(m.id), Payload(payload));
    assert nothing + ds1 == ds1;
    WriteReached(s, run1 + Writes(m.id, n1), configured, ds1, s.disk[Data(m.id) := Payload(payload)],
                 w.(phase := PutMeta(Unopened)), s.clock, n2);
  }

  lemma StartOfTrace(s: State, configured: string -> int)
    ensures Trace(s, [], configured) == Some((s, []))
  {
  }

  /** The steps are the item's own, but for the passing of time and the signal to shut down. */
  ghost predicate Own(run: seq<Action>, id: Id) { forall a | a in run :: a == Tick || a == Close || Subject(a) == Some(id) }

  lemma OwnMore(run: seq<Action>, more: seq<Action>, id: Id)
    requires Own(run, id) && Own(more, id)
    ensures Own(run + more, id)
  {
  }

  lemma OwnSteps(id: Id, n: nat)
    ensures Own([Load(id)], id) && Own([Close, Quit(id)], id)
    ensures Own(Ticks(n), id) && Own(Writes(id, n), id) && Own(Ends(id), id)
  {
  }

  lemma OwnAct(run: seq<Action>, a: Action, id: Id)
    requires Own(run, id) && Subject(a) == Some(id)
    ensures Own(run + [a], id)
  {
  }

  lemma StartReached(s: State, configured: string -> int, id: Id)
    requires s.up && id in s.workers && s.workers[id].phase == Starting && s.workers[id].meta.id == id
    ensures Reached(s, [Load(id)], configured, [], s.disk, Loaded(s.disk, s.workers[id], id), s.clock)
  {
    hide Loaded;
    var none: seq<Action>, nothing: seq<Disk> := [], [];
    StartOfTrace(s, configured);
    assert Reached(s, none, configured, nothing, s.disk, s.workers[id], s.clock);
    LoadReached(s, none, configured, nothing, s.disk, s.workers[id], s.clock);
    assert none + [Load(id)] == [Load(id)];
  }

  // -- The journal of a worker -----------------------------------------------------------------------

  /** What is remembered of a worker's run: the state it began in and what the directory had been through by then, the
      steps, the worker as it is now, and the time. */
  datatype Journal = Journal(from: State, configured: string -> int, before: seq<Disk>, run: seq<Action>, worker: Worker, now: nat)

  ghost function DirsOf(j: Journal): seq<Disk> {
    var r := Trace(j.from, j.run, j.configured);
    if r.None? then [] else r.value.1
  }

  /** The journal is up to date: its steps are the item's own, they lead to this worker and this directory, and the directory
      has been through what they say. */
  ghost predicate UpToDate(j: Journal, d: Disk, passed: seq<Disk>) {
    && Own(j.run, j.worker.meta.id) && passed == j.before + DirsOf(j)
    && Reached(j.from, j.run, j.configured, DirsOf(j), d, j.worker, j.now)
  }

  /** The worker has ended, and the journal with it. */
  ghost predicate Complete(j: Journal, d: Disk, passed: seq<Disk>) {
    && Own(j.run, j.worker.meta.id) && passed == j.before + DirsOf(j)
    && Ended(j.from, j.run, j.configured, DirsOf(j), d, j.now)
  }

  ghost function WithAct(j: Journal, a: Action): Journal { j.(run := j.run + [a], worker := Does(j.worker, a)) }

  lemma ActJournal(j: Journal, a: Action, d: Disk, passed: seq<Disk>)
    requires UpToDate(j, d, passed) && Can(j.worker, a, j.now)
    ensures UpToDate(WithAct(j, a), d, passed)
  {
    hide Trace, Own;
    ActReached(j.from, j.run, j.configured, DirsOf(j), d, j.worker, j.now, a);
    OwnAct(j.run, a, j.worker.meta.id);
  }

  ghost function WithTicks(j: Journal, n: nat): Journal { j.(run := j.run + Ticks(n), now := j.now + n) }

  lemma WaitJournal(j: Journal, n: nat, d: Disk, passed: seq<Disk>)
    requires UpToDate(j, d, passed)
    ensures UpToDate(WithTicks(j, n), d, passed)
  {
    hide Trace, Own, Ticks;
    TicksReached(j.from, j.run, j.configured, DirsOf(j), d, j.worker, j.now, n);
    OwnSteps(j.worker.meta.id, n);
    OwnMore(j.run, Ticks(n), j.worker.meta.id);
  }

  ghost function WithWrite(j: Journal, n: nat): Journal {
    j.(run := j.run + Writes(j.worker.meta.id, n), worker := AfterWrite(j.worker, MaxAttempts(j.configured, j.worker.meta.target)))
  }

  lemma WriteJournal(j: Journal, n: nat, d: Disk, passed: seq<Disk>)
    requires UpToDate(j, d, passed) && Target(j.worker).Some? && Progress(j.worker).Unopened? && Temp(n) !in d
    ensures var t := Target(j.worker).value;
            UpToDate(WithWrite(j, n), d[t.0 := t.1], passed + WriteSteps(d, n, t.0, t.1))
  {
    hide Trace, Own, Writes, WriteSteps, MaxAttempts;
    var t := Target(j.worker).value;
    WriteReached(j.from, j.run, j.configured, DirsOf(j), d, j.worker, j.now, n);
    OwnSteps(j.worker.meta.id, n);
    OwnMore(j.run, Writes(j.worker.meta.id, n), j.worker.meta.id);
    Appended(j.before, DirsOf(j), WriteSteps(d, n, t.0, t.1));
  }

  lemma EndJournal(j: Journal, d: Disk, passed: seq<Disk>)
    requires UpToDate(j, d, passed) && (j.worker.phase == Removing(false) || j.worker.phase == Burying(false))
    ensures var ends := EndSteps(d, j.worker.meta.id, j.worker.phase.Burying?);
            Complete(j.(run := j.run + Ends(j.worker.meta.id)), ends[1], passed + ends)
  {
    hide Trace, Own, Ends, EndSteps;
    EndReached(j.from, j.run, j.configured, DirsOf(j), d, j.worker, j.now);
    OwnSteps(j.worker.meta.id, 0);
    OwnMore(j.run, Ends(j.worker.meta.id), j.worker.meta.id);
    Appended(j.before, DirsOf(j), EndSteps(d, j.worker.meta.id, j.worker.phase.Burying?));
  }

  ghost function WithQuit(j: Journal): Journal { j.(run := j.run + [Close, Quit(j.worker.meta.id)]) }

  lemma QuitJournal(j: Journal, d: Disk, passed: seq<Disk>)
    requires UpToDate(j, d, passed) && j.worker.phase == Waiting
    ensures Complete(WithQuit(j), d, passed)
  {
    hide Trace, Own;
    QuitEnds(j.from, j.run, j.configured, DirsOf(j), d, j.worker, j.now);
    OwnSteps(j.worker.meta.id, 0);
    OwnMore(j.run, [Close, Quit(j.worker.meta.id)], j.worker.meta.id);
  }

  /** The first entry: the payload is read. */
  ghost function Begun(s: State, configured: string -> int, passed: seq<Disk>, id: Id): Journal
    requires id in s.workers
  {
    Journal(s, configured, passed, [Load(id)], Loaded(s.disk, s.workers[id], id), s.clock)
  }

  lemma BeginJournal(s: State, configured: string -> int, passed: seq<Disk>, id: Id)
    requires s.up && id in s.workers && s.workers[id].phase == Starting && s.workers[id].meta.id == id
    ensures UpToDate(Begun(s, configured, passed, id), s.disk, passed)
  {
    hide Trace, Own, Loaded;
    StartReached(s, configured, id);
    OwnSteps(id, 0);
    SameId(s.disk, s.workers[id]);
    assert passed + [] == passed;
  }

  lemma CompleteIs(j: Journal, d: Disk, passed: seq<Disk>)
    requires Complete(j, d, passed)
    ensures var r := Trace(j.from, j.run, j.configured);
            r.Some? && r.value.0.disk == d && r.value.0.clock == j.now && passed == j.before + r.value.1
    ensures Own(j.run, j.worker.meta.id)
  {
    hide Trace;
  }

  lemma Rewritten(d: Disk, d': Disk, id: Id, f: File, g: File)
    requires d' == d || d' == d[Json(id) := f]
    ensures d'[Json(id) := g] == d[Json(id) := g]
  {
  }

  lemma BuriedFiles(d: Disk, id: Id)
    ensures var d' := Rename(Rename(d, Json(id), DeadJson(id)), Data(id), DeadData(id));
            && Json(id) !in d' && Data(id) !in d'
            && (Data(id) in d ==> DeadData(id) in d' && d'[DeadData(id)] == d[Data(id)])
  {
  }

  // -- Crashes ---------------------------------------------------------------------------------------

  /** This directory holds the payload, in the queue or in dead/. */
  ghost predicate Holds(d: Disk, id: Id, payload: bytes) {
    Get(d, Data(id)) == Some(Payload(payload)) || Get(d, DeadData(id)) == Some(Payload(payload))
  }

  lemma LedgerGrows(s: State, a: Action, configured: string -> int, id: Id)
    requires Enabled(s, a) && id in s.past.stored && Inv(s, configured)
    ensures var t := Next(s, a, configured);
            id in t.past.stored && t.past.stored[id] == s.past.stored[id]
            && Count(t.past.succeeded, id) >= Count(s.past.succeeded, id)
  {
    hide WorkersAfter, DiskAfter, TempsInv, MaxAttempts;
    if a.FileStep? {
      var w := s.workers[a.id];
      assert ItemInv(ViewOf(s, a.id), a.id, configured);
      assert w.meta.id == a.id by { WorkersKeyed(s, configured); }
      assert w.phase.PutMeta? ==> a.id !in s.past.stored;
    }
  }

  /** A crash at any moment of a worker's run finds the payload: every directory that a run of the queue passes through
      while the item is stored and not yet delivered holds it. */
  lemma {:induction false} EveryDirectoryHoldsThePayload(acts: seq<Action>, run: seq<Action>, configured: string -> int, id: Id, k: nat)
    requires Run(acts, configured).Some? && Trace(Run(acts, configured).value, run, configured).Some?
    requires id in Run(acts, configured).value.past.stored
    requires var (t, ds) := Trace(Run(acts, configured).value, run, configured).value;
             k < |ds| && Count(t.past.succeeded, id) == 0
    ensures Holds(Trace(Run(acts, configured).value, run, configured).value.1[k], id,
                  Run(acts, configured).value.past.stored[id].payload)
    decreases |run|
  {
    hide Run, Enabled, Next, DiskAfter, Inv;
    LedgerKept(acts, run, configured, id);
    var s := Run(acts, configured).value;
    var init := run[..|run| - 1];
    var (t, ds) := Trace(s, init, configured).value;
    LedgerKept(acts, init, configured, id);
    RunGoesOn(acts, init, configured);
    RunKeeps(acts + init, configured);
    LedgerGrows(t, run[|run| - 1], configured, id);
    if k < |ds| {
      EveryDirectoryHoldsThePayload(acts, init, configured, id, k);
    } else {
      RunGoesOn(acts, run, configured);
      StoredPayloadSurvives(acts + run, configured, id);
      LastDirectory(t, run[|run| - 1], configured);
    }
  }

  lemma LastDirectory(s: State, a: Action, configured: string -> int)
    requires Enabled(s, a)
    ensures Next(s, a, configured).disk == DiskAfter(s, a)
  {
    hide DiskAfter, WorkersAfter, PastAfter;
  }

  lemma {:induction false} LedgerKept(acts: seq<Action>, run: seq<Action>, configured: string -> int, id: Id)
    requires Run(acts, configured).Some? && Trace(Run(acts, configured).value, run, configured).Some?
    requires id in Run(acts, configured).value.past.stored
    ensures var s, t := Run(acts, configured).value, Trace(Run(acts, configured).value, run, configured).value.0;
            id in t.past.stored && t.past.stored[id] == s.past.stored[id]
    decreases |run|
  {
    hide Run, Enabled, Next, DiskAfter, Inv;
    if run != [] {
      var init := run[..|run| - 1];
      LedgerKept(acts, init, configured, id);
      RunGoesOn(acts, init, configured);
      RunKeeps(acts + init, configured);
      LedgerGrows(Trace(Run(acts, configured).value, init, configured).value.0, run[|run| - 1], configured, id);
    }
  }

  // -- The store -------------------------------------------------------------------------------------

  /** How a retry worker ends: the item was sent, given up, or left on disk at shutdown. */
  datatype Outcome = Delivered | Dead | Left

  /** What a worker leaves behind: nothing of a delivered item; the metadata of the attempts made when it was left; the payload
      in dead/ when the item was given up, for one of three reasons. */
  ghost predicate Settled(before: Disk, after: Disk, m0: Meta, m: Meta, max: nat, tries: nat, outcome: Outcome, now: nat) {
    match outcome
    case Delivered => tries > 0 && after == before - {Json(m.id), Data(m.id)}
    case Left =>
      && m.attempts == m0.attempts + tries && (tries > 0 ==> m.attempts < max)
      && after == if tries == 0 then before else before[Json(m.id) := MetaFile(m)]
    case Dead =>
      && Json(m.id) !in after && Data(m.id) !in after
      && (Data(m.id) in before ==> DeadData(m.id) in after && after[DeadData(m.id)] == before[Data(m.id)])
      && (|| Data(m.id) !in before || !before[Data(m.id)].Payload?
          || m0.attempts + tries >= max || Expired(m0, now))
  }

  lemma DeadSettles(before: Disk, d: Disk, m0: Meta, m: Meta, max: nat, tries: nat, now: nat)
    requires d == before || d == before[Json(m.id) := MetaFile(m)]
    requires || Data(m.id) !in before || !before[Data(m.id)].Payload?
             || m0.attempts + tries >= max || Expired(m, now)
    requires m.deadline == m0.deadline
    ensures Settled(before, Rename(Rename(d, Json(m.id), DeadJson(m.id)), Data(m.id), DeadData(m.id)), m0, m, max, tries, Dead, now)
  {
    hide Rename;
    BuriedFiles(d, m.id);
  }

  lemma LeftSettles(before: Disk, d: Disk, m0: Meta, m: Meta, max: nat, tries: nat, now: nat)
    requires m.attempts == m0.attempts + tries && (tries > 0 ==> m.attempts < max)
    requires d == if tries == 0 then before else before[Json(m.id) := MetaFile(m)]
    ensures Settled(before, d, m0, m, max, tries, Left, now)
  {
  }

  lemma DeliveredSettles(before: Disk, d: Disk, m0: Meta, m: Meta, max: nat, tries: nat, now: nat)
    requires tries > 0 && (d == before || d == before[Json(m.id) := MetaFile(m)])
    ensures Settled(before, d - {Json(m.id), Data(m.id)}, m0, m, max, tries, Delivered, now)
  {
  }

  /** What one round leaves of an item that it has ended. */
  lemma Settles(before: Disk, last: Disk, after: Disk, m0: Meta, was: Meta, m: Meta, max: nat, tries: nat, outcome: Outcome, made: bool, now: nat)
    requires last == before || last == before[Json(m.id) := MetaFile(was)]
    requires was.id == m.id && was.deadline == m0.deadline && m.deadline == m0.deadline
    requires outcome == Delivered ==> tries > 0 && after == last - {Json(m.id), Data(m.id)}
    requires outcome != Left
    requires outcome == Dead ==>
               var d := if made then last[Json(m.id) := MetaFile(m)] else last;
               && after == Rename(Rename(d, Json(m.id), DeadJson(m.id)), Data(m.id), DeadData(m.id))
               && (if made then m0.attempts + tries >= max else Expired(was, now) && m == was)
    ensures Settled(before, after, m0, m, max, tries, outcome, now)
  {
    hide Rename, Settled, Expired;
    if outcome == Delivered {
      DeliveredSettles(before, last, m0, was, max, tries, now);
      SameSettled(before, after, m0, was, m, max, tries, now);
    } else if made {
      Rewritten(before, last, m.id, MetaFile(was), MetaFile(m));
      DeadSettles(before, before[Json(m.id) := MetaFile(m)], m0, m, max, tries, now);
    } else {
      DeadSettles(before, last, m0, m, max, tries, now);
    }
  }

  lemma SameSettled(before: Disk, after: Disk, m0: Meta, a: Meta, b: Meta, max: nat, tries: nat, now: nat)
    requires Settled(before, after, m0, a, max, tries, Delivered, now) && a.id == b.id
    ensures Settled(before, after, m0, b, max, tries, Delivered, now)
  {
  }

  class Store {
    var dir: Disk
    ghost var passed: seq<Disk>  // the directory after every filesystem call, in order
    ghost var journal: Journal   // of the worker that uses the store

    constructor ()
      ensures dir == map[] && passed == []
    {
      dir, passed := map[], [];
      journal := Journal(INIT, target => 0, [], [], Worker(Meta(0, "", 0, 0, None), [], Starting), 0);
    }

    /** os.CreateTemp: an empty file under a name that was not in use. */
    method CreateTemp() returns (n: nat)
      modifies `dir, `passed
      ensures Temp(n) !in old(dir)
      ensures dir == old(dir)[Temp(n) := Partial] && passed == old(passed) + [dir]
    {
      n := 0;
      while Temp(n) in dir
        invariant dir == old(dir) && passed == old(passed)
        invariant forall k: nat | k < n :: Temp(k) in dir
        decreases |dir| - n
      {
        TempsAreFew(n + 1, dir);
        n := n + 1;
      }
      dir := dir[Temp(n) := Partial];
      passed := passed + [dir];
    }

    method WriteTemp(n: nat, f: File)
      modifies `dir, `passed
      ensures dir == old(dir)[Temp(n) := f] && passed == old(passed) + [dir]
    {
      dir := dir[Temp(n) := f];
      passed := passed + [dir];
    }

    /** os.Rename; false when there is no such file. */
    method RenameFile(from: Name, to: Name) returns (found: bool)
      modifies `dir, `passed
      ensures found <==> from in old(dir)
      ensures dir == Rename(old(dir), from, to) && passed == old(passed) + [dir]
    {
      found := from in dir;
      if found {
        dir := (dir - {from})[to := dir[from]];
      }
      passed := passed + [dir];
    }

    /** os.Remove; false when there is no such file. */
    method RemoveFile(name: Name) returns (found: bool)
      modifies `dir, `passed
      ensures found <==> name in old(dir)
      ensures dir == old(dir) - {name} && passed == old(passed) + [dir]
    {
      found := name in dir;
      dir := dir - {name};
      passed := passed + [dir];
    }

    /** Create, fill, rename: only the last call touches the target, and it replaces it whole. */
    method WriteFileAtomic(path: Name, f: File) returns (ghost n: nat)
      requires !path.Temp?
      modifies `dir, `passed
      ensures Temp(n) !in old(dir) && dir == old(dir)[path := f]
      ensures passed == old(passed) + WriteSteps(old(dir), n, path, f)
    {
      var tmp := CreateTemp();
      n := tmp;
      WriteTemp(tmp, f);
      var found := RenameFile(Temp(tmp), path);
      WriteStepsEnd(old(dir), n, path, f);
    }

    /** Payload first, metadata second. */
    method Put(m: Meta, payload: bytes) returns (ghost n1: nat, ghost n2: nat)
      modifies `dir, `passed
      ensures dir == old(dir)[Data(m.id) := Payload(payload)][Json(m.id) := MetaFile(m)]
      ensures Temp(n1) !in old(dir) && Temp(n2) !in old(dir)[Data(m.id) := Payload(payload)]
      ensures passed == old(passed) + (WriteSteps(old(dir), n1, Data(m.id), Payload(payload))
                                       + WriteSteps(old(dir)[Data(m.id) := Payload(payload)], n2, Json(m.id), MetaFile(m)))
    {
      n1 := WriteFileAtomic(Data(m.id), Payload(payload));
      n2 := WriteFileAtomic(Json(m.id), MetaFile(m));
    }

    /** Rewrites the metadata. */
    method Update(m: Meta) returns (ghost n: nat)
      modifies `dir, `passed
      ensures dir == old(dir)[Json(m.id) := MetaFile(m)] && Temp(n) !in old(dir)
      ensures passed == old(passed) + WriteSteps(old(dir), n, Json(m.id), MetaFile(m))
    {
      n := WriteFileAtomic(Json(m.id), MetaFile(m));
    }

    /** Deletes an item after delivery, metadata first. A file that is already gone is no error. */
    method RemoveItem(id: Id)
      modifies `dir, `passed
      ensures dir == old(dir) - {Json(id), Data(id)}
      ensures passed == old(passed) + EndSteps(old(dir), id, false) && dir == passed[|passed| - 1]
    {
      var jsonFound := RemoveFile(Json(id));
      var dataFound := RemoveFile(Data(id));
    }

    /** Moves an item to dead/, metadata first. A file that is already gone is no error. */
    method DeadLetter(id: Id)
      modifies `dir, `passed
      ensures dir == Rename(Rename(old(dir), Json(id), DeadJson(id)), Data(id), DeadData(id))
      ensures passed == old(passed) + EndSteps(old(dir), id, true) && dir == passed[|passed| - 1]
    {
      var jsonFound := RenameFile(Json(id), DeadJson(id));
      var dataFound := RenameFile(Data(id), DeadData(id));
    }

    /** The metadata of every loadable item, and of no other; anything else in the directory is skipped. */
    method Load() returns (out: seq<Meta>)
      ensures forall id | Json(id) in dir && Loadable(dir, id) :: dir[Json(id)].meta in out
      ensures forall m | m in out :: exists id :: Json(id) in dir && Loadable(dir, id) && dir[Json(id)].meta == m
    {
      out := [];
      var names := dir.Keys;
      while names != {}
        invariant names <= dir.Keys
        invariant forall id | Json(id) in dir && Json(id) !in names && Loadable(dir, id) :: dir[Json(id)].meta in out
        invariant forall m | m in out :: exists id :: Json(id) in dir && Loadable(dir, id) && dir[Json(id)].meta == m
        decreases names
      {
        var name :| name in names;
        names := names - {name};
        if name.Json? {
          match dir[name]
          case MetaFile(m) =>
            if Data(m.id) in dir {
              assert Loadable(dir, name.id);
              out := out + [m];
            }
          case _ =>
        }
      }
    }

    /** The next entry of the journal. */
    ghost method Enter(a: Action)
      requires UpToDate(journal, dir, passed) && Can(journal.worker, a, journal.now)
      modifies `journal
      ensures UpToDate(journal, dir, passed)
      ensures journal == old(journal).(run := journal.run, worker := Does(old(journal.worker), a))
    {
      hide UpToDate, Can, Does;
      ActJournal(journal, a, dir, passed);
      journal := WithAct(journal, a);
    }

    ghost method EnterWake(m: Meta, payload: bytes)
      requires UpToDate(journal, dir, passed) && journal.worker == Worker(m, payload, Waiting) && m.nextAttempt <= journal.now
      modifies `journal
      ensures UpToDate(journal, dir, passed)
      ensures journal == old(journal).(run := journal.run, worker := Worker(m, payload, Ready))
    {
      Enter(Action.Wake(m.id));
    }

    ghost method EnterExpiry(m: Meta, payload: bytes)
      requires UpToDate(journal, dir, passed) && journal.worker == Worker(m, payload, Ready) && Expired(m, journal.now)
      modifies `journal
      ensures UpToDate(journal, dir, passed)
      ensures journal == old(journal).(run := journal.run, worker := Worker(m, payload, Burying(false)))
    {
      Enter(Action.Expire(m.id));
    }

    ghost method EnterSuccess(m: Meta, payload: bytes)
      requires UpToDate(journal, dir, passed) && journal.worker == Worker(m, payload, Ready) && !Expired(m, journal.now)
      modifies `journal
      ensures UpToDate(journal, dir, passed)
      ensures journal == old(journal).(run := journal.run, worker := Worker(m, payload, Removing(false)))
    {
      Enter(Action.Send(m.id, true, journal.now));
    }

    ghost method EnterWait(until: nat)
      requires UpToDate(journal, dir, passed) && journal.now <= until
      modifies `journal
      ensures UpToDate(journal, dir, passed)
      ensures journal == old(journal).(run := journal.run, now := until)
    {
      hide UpToDate, Ticks;
      WaitJournal(journal, until - journal.now, dir, passed);
      journal := WithTicks(journal, until - journal.now);
    }

    ghost method EnterQuit()
      requires UpToDate(journal, dir, passed) && journal.worker.phase == Waiting
      modifies `journal
      ensures Complete(journal, dir, passed)
      ensures journal == old(journal).(run := journal.run)
    {
      hide UpToDate, Complete;
      QuitJournal(journal, dir, passed);
      journal := WithQuit(journal);
    }

    /** Gives an item up, as the last two steps of its run. */
    method Bury(id: Id)
      requires UpToDate(journal, dir, passed) && journal.worker.phase == Burying(false) && journal.worker.meta.id == id
      modifies this
      ensures Complete(journal, dir, passed) && journal == old(journal).(run := journal.run)
      ensures dir == Rename(Rename(old(dir), Json(id), DeadJson(id)), Data(id), DeadData(id))
    {
      hide UpToDate, Complete;
      EndJournal(journal, dir, passed);
      journal := journal.(run := journal.run + Ends(id));
      DeadLetter(id);
    }

    /** Removes a delivered item, as the last two steps of its run. */
    method Discard(id: Id)
      requires UpToDate(journal, dir, passed) && journal.worker.phase == Removing(false) && journal.worker.meta.id == id
      modifies this
      ensures Complete(journal, dir, passed) && journal == old(journal).(run := journal.run)
      ensures dir == old(dir) - {Json(id), Data(id)}
    {
      hide UpToDate, Complete;
      EndJournal(journal, dir, passed);
      journal := journal.(run := journal.run + Ends(id));
      RemoveItem(id);
    }

    /** A failed send: it is recorded, and the item given up when it was the last one allowed. */
    method Fail(m: Meta, payload: bytes, max: nat, due: nat) returns (m': Meta, givenUp: bool)
      requires UpToDate(journal, dir, passed) && journal.worker == Worker(m, payload, Ready)
      requires max == MaxAttempts(journal.configured, m.target) && journal.now <= due && !Expired(m, journal.now)
      modifies this
      ensures journal == old(journal).(run := journal.run, worker := journal.worker)
      ensures m' == m.(attempts := m.attempts + 1, nextAttempt := due) && (givenUp <==> m'.attempts >= max)
      ensures var d := old(dir)[Json(m.id) := MetaFile(m')];
              if givenUp then
                && dir == Rename(Rename(d, Json(m.id), DeadJson(m.id)), Data(m.id), DeadData(m.id))
                && Complete(journal, dir, passed) && journal.worker.meta.id == m.id
              else dir == d && UpToDate(journal, dir, passed) && journal.worker == Worker(m', payload, Waiting)
    {
      hide UpToDate, Complete, Rename, MaxAttempts, Expired, WriteSteps, Writes;
      Enter(Action.Send(m.id, false, due));
      m' := m.(attempts := m.attempts + 1, nextAttempt := due);
      ghost var was, before, d := journal, passed, dir;
      ghost var n := Update(m');
      WriteJournal(was, n, d, before);
      journal := WithWrite(journal, n);
      givenUp := m'.attempts >= max;
      if givenUp {
        Bury(m'.id);
      }
    }

    /** One round of the loop: the deadline is checked, and if it has not passed a send is made, with the result ok. */
    method Attempt(m: Meta, payload: bytes, max: nat, now: nat, due: nat, ok: bool) returns (m': Meta, outcome: Option<Outcome>, made: bool)
      requires UpToDate(journal, dir, passed) && journal.worker == Worker(m, payload, Waiting)
      requires m.nextAttempt <= now == journal.now <= due && max == MaxAttempts(journal.configured, m.target)
      modifies this
      ensures journal == old(journal).(run := journal.run, worker := journal.worker) && journal.worker.meta.id == m.id
      ensures m' == if made && !ok then m.(attempts := m.attempts + 1, nextAttempt := due) else m
      ensures made <==> !Expired(m, now)
      ensures outcome == if !made then Some(Dead) else if ok then Some(Delivered) else if m'.attempts >= max then Some(Dead) else None
      ensures outcome.Some? ==> Complete(journal, dir, passed)
      ensures outcome.None? ==> UpToDate(journal, dir, passed) && journal.worker == Worker(m', payload, Waiting)
      ensures var d := if made && !ok then old(dir)[Json(m.id) := MetaFile(m')] else old(dir);
              dir == match outcome
                     case None => d
                     case Some(Delivered) => d - {Json(m.id), Data(m.id)}
                     case Some(_) => Rename(Rename(d, Json(m.id), DeadJson(m.id)), Data(m.id), DeadData(m.id))
    {
      hide *;
      EnterWake(m, payload);
      m', made := m, !Expired(m, now);
      if !made {
        EnterExpiry(m, payload);
        Bury(m.id);
        outcome := Some(Dead);
      } else if ok {
        EnterSuccess(m, payload);
        Discard(m.id);
        outcome := Some(Delivered);
      } else {
        var givenUp;
        m', givenUp := Fail(m, payload, max, due);
        outcome := if givenUp then Some(Dead) else None;
      }
    }

    /** The loop of the worker: m0 is the metadata it starts with, and start the time of its first check. */
    method Retry(m0: Meta, payload: bytes, max: nat, backoff: nat, start: nat, sends: nat -> bool, took: nat -> nat, late: nat -> nat,
                 stop: nat -> bool) returns (m: Meta, outcome: Outcome, tries: nat)
      requires UpToDate(journal, dir, passed) && journal.worker == Worker(m0, payload, Waiting) && journal.now == start
      requires max == MaxAttempts(journal.configured, m0.target) && m0.nextAttempt <= start
      modifies this
      ensures Complete(journal, dir, passed) && journal.worker.meta.id == m0.id
      ensures journal == old(journal).(run := journal.run, worker := journal.worker, now := journal.now)
      ensures m.id == m0.id && tries <= if m0.attempts < max then max - m0.attempts else 1
      ensures forall k | 0 <= k < tries :: sends(k) <==> outcome == Delivered && k == tries - 1
      ensures outcome == Left ==> tries > 0 && stop(tries)
      ensures Settled(old(dir), dir, m0, m, max, tries, outcome, journal.now)
    {
      hide *;
      ghost var id := m0.id;
      var now := start;
      m, tries := m0, 0;
      while true
        invariant m == m0.(attempts := m0.attempts + tries, nextAttempt := m.nextAttempt) && m.nextAttempt <= now
        invariant forall k | 0 <= k < tries :: !sends(k)
        invariant tries > 0 ==> m.attempts < max
        invariant dir == if tries == 0 then old(dir) else old(dir)[Json(id) := MetaFile(m)]
        invariant UpToDate(journal, dir, passed) && journal.worker == Worker(m, payload, Waiting) && journal.now == now
        invariant journal == old(journal).(run := journal.run, worker := journal.worker, now := journal.now)
        decreases max - m.attempts
      {
        var due := now + took(tries) + backoff;
        ghost var last, before := m, dir;
        var ended, made;
        m, ended, made := Attempt(m, payload, max, now, due, sends(tries));
        if made {
          tries := tries + 1;
        }
        Rewritten(old(dir), before, id, MetaFile(last), MetaFile(m));
        if ended.Some? {
          Settles(old(dir), before, dir, m0, last, m, max, tries, ended.value, made, now);
          return m, ended.value, tries;
        }
        if stop(tries) {
          LeftSettles(old(dir), dir, m0, m, max, tries, now);
          EnterQuit();
          outcome := Left;
          return;
        }
        now := due + late(tries);
        EnterWait(now);
      }
    }

    /** The retry worker. sends(k) is the outcome of its k-th send, took(k) how long that took, late(k) how late the worker
        is back from its k-th wait, and stop(k) whether shutdown ends that wait. The journal begins in a state of the queue
        with this directory in which the item has a worker about to start: what the worker does is a run of the queue from
        there, and the directories it passes through are those of the run's filesystem calls. */
    method RetryLoopPersisted(m0: Meta, max: nat, backoff: nat, start: nat, sends: nat -> bool, took: nat -> nat, late: nat -> nat,
                              stop: nat -> bool) returns (m: Meta, outcome: Outcome, tries: nat)
      requires journal.from.up && journal.from.disk == dir && journal.from.clock == start
      requires m0.id in journal.from.workers && journal.from.workers[m0.id].meta == m0 && journal.from.workers[m0.id].phase == Starting
      requires max == MaxAttempts(journal.configured, m0.target)
      modifies this
      ensures journal.from == old(journal.from) && journal.configured == old(journal.configured)
      ensures Trace(journal.from, journal.run, journal.configured).Some? && Own(journal.run, m0.id)
      ensures dir == Trace(journal.from, journal.run, journal.configured).value.0.disk
      ensures passed == old(passed) + Trace(journal.from, journal.run, journal.configured).value.1
      ensures m.id == m0.id && tries <= if m0.attempts < max then max - m0.attempts else 1
      ensures forall k | 0 <= k < tries :: sends(k) <==> outcome == Delivered && k == tries - 1
      ensures outcome == Left ==> stop(tries)
      ensures Settled(old(dir), dir, m0, m, max, tries, outcome, Trace(journal.from, journal.run, journal.configured).value.0.clock)
    {
      hide UpToDate, Complete, Trace, Own, Rename, MaxAttempts, Settled, Ticks;
      m, tries := m0, 0;
      BeginJournal(journal.from, journal.configured, passed, m0.id);
      journal := Begun(journal.from, journal.configured, passed, m0.id);
      if Data(m.id) !in dir || !dir[Data(m.id)].Payload? {
        DeadSettles(dir, dir, m0, m, max, 0, start);
        Bury(m.id);
        outcome := Dead;
      } else if m.nextAttempt > start && stop(0) {
        LeftSettles(dir, dir, m0, m, max, 0, start);
        EnterQuit();
        outcome := Left;
      } else {
        var payload := dir[Data(m.id)].data;
        var now := (if m.nextAttempt > start then m.nextAttempt else start) + late(0);
        EnterWait(now);
        m, outcome, tries := Retry(m0, payload, max, backoff, now, sends, took, late, stop);
      }
      CompleteIs(journal, dir, passed);
    }
  }
}
