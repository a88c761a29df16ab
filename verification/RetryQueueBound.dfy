/** The bounds on the sends of one item are attained: runs from the empty queue in which every crash costs one more. */
module RetryQueueBound {
  import opened Bytes
  import opened RetryQueue
  import opened RetryQueueSafety
  import opened SpoolStore

  // -- The ledger counts sends and crashes ---------------------------------------------------------

  function Sends(run: seq<Action>, id: Id, ok: bool): nat {
    if run == [] then 0
    else
      var a := run[|run| - 1];
      Sends(run[..|run| - 1], id, ok) + if a.Send? && a.id == id && a.ok == ok then 1 else 0
  }

  function Crashes(run: seq<Action>): nat {
    if run == [] then 0 else Crashes(run[..|run| - 1]) + if run[|run| - 1].Crash? then 1 else 0
  }

  /** After any run the history holds exactly the sends of each item, by outcome, and the crashes. */
  lemma {:induction false} LedgerIsExact(s: State, run: seq<Action>, configured: string -> int, id: Id)
    requires Trace(s, run, configured).Some?
    ensures var h := Trace(s, run, configured).value.0.past;
            && Count(h.failed, id) == Count(s.past.failed, id) + Sends(run, id, false)
            && Count(h.succeeded, id) == Count(s.past.succeeded, id) + Sends(run, id, true)
            && h.crashes == s.past.crashes + Crashes(run)
    decreases |run|
  {
    hide Enabled, Next;
    if run != [] {
      LedgerIsExact(s, run[..|run| - 1], configured, id);
      LedgerStep(Trace(s, run[..|run| - 1], configured).value.0, run[|run| - 1], configured, id);
    }
  }

  lemma LedgerStep(s: State, a: Action, configured: string -> int, id: Id)
    requires Enabled(s, a)
    ensures var h := Next(s, a, configured).past;
            && Count(h.failed, id) == Count(s.past.failed, id) + (if a.Send? && a.id == id && !a.ok then 1 else 0)
            && Count(h.succeeded, id) == Count(s.past.succeeded, id) + (if a.Send? && a.id == id && a.ok then 1 else 0)
            && h.crashes == s.past.crashes + (if a.Crash? then 1 else 0)
  {
    hide WorkersAfter, DiskAfter, MaxAttempts, Loaded;
  }

  lemma CountsOne(a: Action, id: Id, ok: bool)
    ensures Sends([a], id, ok) == if a.Send? && a.id == id && a.ok == ok then 1 else 0
    ensures Crashes([a]) == if a.Crash? then 1 else 0
  {
    assert [a][..0] == [];
  }

  lemma CountsThree(a: Action, b: Action, c: Action, id: Id, ok: bool)
    ensures Sends([a, b, c], id, ok) == Sends([a], id, ok) + Sends([b], id, ok) + Sends([c], id, ok)
    ensures Crashes([a, b, c]) == Crashes([a]) + Crashes([b]) + Crashes([c])
  {
    hide Sends, Crashes;
    CountsAdd([a], [b], id, ok);
    CountsAdd([a, b], [c], id, ok);
    assert [a] + [b] == [a, b] && [a, b] + [c] == [a, b, c];
  }

  lemma {:induction false} CountsAdd(a: seq<Action>, b: seq<Action>, id: Id, ok: bool)
    ensures Sends(a + b, id, ok) == Sends(a, id, ok) + Sends(b, id, ok)
    ensures Crashes(a + b) == Crashes(a) + Crashes(b)
    decreases |b|
  {
    if b == [] {
      assert a + b == a;
    } else {
      assert (a + b)[..|a + b| - 1] == a + b[..|b| - 1];
      CountsAdd(a, b[..|b| - 1], id, ok);
    }
  }

  lemma {:induction false} RunIsTrace(acts: seq<Action>, configured: string -> int)
    requires Run(acts, configured).Some?
    ensures Trace(INIT, acts, configured).Some? && Trace(INIT, acts, configured).value.0 == Run(acts, configured).value
    decreases |acts|
  {
    hide Enabled, Next;
    if acts != [] {
      RunIsTrace(acts[..|acts| - 1], configured);
    }
  }

  /** Among the steps of any run from the empty queue: failed sends of a stored item are at most max_attempts and one for
      every crash, successful ones at most one and one for every crash. */
  lemma SendsOfARunAreBounded(acts: seq<Action>, configured: string -> int, id: Id)
    requires Run(acts, configured).Some? && id in Run(acts, configured).value.past.stored
    ensures Sends(acts, id, false) <= MaxAttempts(configured, Run(acts, configured).value.past.stored[id].target) + Crashes(acts)
    ensures Sends(acts, id, true) <= 1 + Crashes(acts)
  {
    hide Run, Trace, MaxAttempts, Sends, Crashes;
    RunIsTrace(acts, configured);
    LedgerIsExact(INIT, acts, configured, id);
    SendsAreBounded(acts, configured, id);
  }

  // -- The run -----------------------------------------------------------------------------------------

  /** The directory with nothing but one item in it. */
  function Lone(m: Meta, payload: bytes): Disk { map[Data(m.id) := Payload(payload), Json(m.id) := MetaFile(m)] }

  /** One attempt that fails and is recorded. */
  function FailedTry(id: Id): seq<Action> { [Wake(id), Send(id, false, 0)] + Writes(id, 0) }

  /** A crash and a restart. */
  function Relaunch(id: Id, target: string): seq<Action> { [Crash, Restart({target}), Load(id)] }

  function Tries(id: Id, n: nat): seq<Action> { if n == 0 then [] else Tries(id, n - 1) + FailedTry(id) }

  function Crashed(id: Id, target: string, k: nat): seq<Action> {
    if k == 0 then [] else Crashed(id, target, k - 1) + (Relaunch(id, target) + FailedTry(id))
  }

  /** A send that succeeds. */
  function Delivery(id: Id): seq<Action> { [Wake(id), Send(id, true, 0)] }

  function Redelivered(id: Id, target: string, k: nat): seq<Action> {
    if k == 0 then [] else Redelivered(id, target, k - 1) + (Relaunch(id, target) + Delivery(id))
  }

  function Stored(m: Meta, payload: bytes): seq<Action> {
    [Enqueue(m, payload)] + Writes(m.id, 0) + Writes(m.id, 0) + [Load(m.id)]
  }

  /** All attempts fail, and after the last one, and every further one, the process crashes before the item is moved. */
  function Worst(m: Meta, payload: bytes, max: nat, k: nat): seq<Action> {
    Stored(m, payload) + Tries(m.id, max) + Crashed(m.id, m.target, k)
  }

  /** The first send succeeds, and after it, and after every further one, the process crashes before the item is removed. */
  function Repeated(m: Meta, payload: bytes, k: nat): seq<Action> {
    Stored(m, payload) + Delivery(m.id) + Redelivered(m.id, m.target, k)
  }

  /** The item's metadata after n attempts. */
  function Tried(m: Meta, n: nat): Meta { m.(attempts := n, nextAttempt := 0) }

  /** The run has led to n attempts, and to a worker in this phase, with nothing else in the directory. */
  ghost predicate Has(run: seq<Action>, configured: string -> int, m: Meta, payload: bytes, n: nat, phase: Phase) {
    exists ds :: Reached(INIT, run, configured, ds, Lone(Tried(m, n), payload), Worker(Tried(m, n), payload, phase), 0)
  }

  lemma FailedTryHas(run: seq<Action>, configured: string -> int, m: Meta, payload: bytes, n: nat)
    requires m.deadline.None? && Has(run, configured, m, payload, n, Waiting)
    ensures Has(run + FailedTry(m.id), configured, m, payload, n + 1,
                if n + 1 >= MaxAttempts(configured, m.target) then Burying(false) else Waiting)
  {
    hide Reached, MaxAttempts, Writes, WriteSteps;
    var d, w := Lone(Tried(m, n), payload), Worker(Tried(m, n), payload, Waiting);
    var ds :| Reached(INIT, run, configured, ds, d, w, 0);
    ActReached(INIT, run, configured, ds, d, w, 0, Wake(m.id));
    var w1 := w.(phase := Ready);
    ActReached(INIT, run + [Wake(m.id)], configured, ds, d, w1, 0, Send(m.id, false, 0));
    var w2 := Worker(Tried(m, n + 1), payload, Recording(Unopened));
    var run2 := run + [Wake(m.id)] + [Send(m.id, false, 0)];
    WriteReached(INIT, run2, configured, ds, d, w2, 0, 0);
    assert run2 + Writes(m.id, 0) == run + FailedTry(m.id);
    assert d[Json(m.id) := MetaFile(Tried(m, n + 1))] == Lone(Tried(m, n + 1), payload);
  }

  lemma DeliveryHas(run: seq<Action>, configured: string -> int, m: Meta, payload: bytes)
    requires m.deadline.None? && Has(run, configured, m, payload, 0, Waiting)
    ensures Has(run + Delivery(m.id), configured, m, payload, 0, Removing(false))
  {
    hide Reached, MaxAttempts;
    var d, w := Lone(Tried(m, 0), payload), Worker(Tried(m, 0), payload, Waiting);
    var ds :| Reached(INIT, run, configured, ds, d, w, 0);
    ActReached(INIT, run, configured, ds, d, w, 0, Wake(m.id));
    ActReached(INIT, run + [Wake(m.id)], configured, ds, d, w.(phase := Ready), 0, Send(m.id, true, 0));
    assert run + [Wake(m.id)] + [Send(m.id, true, 0)] == run + Delivery(m.id);
  }

  lemma CrashReached(run: seq<Action>, configured: string -> int, ds: seq<Disk>, d: Disk, w: Worker)
    requires Reached(INIT, run, configured, ds, d, w, 0)
    requires Json(w.meta.id) in d && d[Json(w.meta.id)] == MetaFile(w.meta) && Data(w.meta.id) in d
    ensures Reached(INIT, run + [Crash] + [Restart({w.meta.target})], configured, ds, d, Worker(w.meta, [], Starting), 0)
  {
    hide Trace, PastAfter;
    Act(INIT, run, Crash, configured);
    Act(INIT, run + [Crash], Restart({w.meta.target}), configured);
    assert Json(w.meta.id).id in Replayed(d, {w.meta.target});
  }

  lemma RelaunchHas(run: seq<Action>, configured: string -> int, m: Meta, payload: bytes, n: nat, phase: Phase)
    requires Has(run, configured, m, payload, n, phase)
    ensures Has(run + Relaunch(m.id, m.target), configured, m, payload, n, Waiting)
  {
    hide Reached, MaxAttempts;
    var d, w := Lone(Tried(m, n), payload), Worker(Tried(m, n), payload, phase);
    var ds :| Reached(INIT, run, configured, ds, d, w, 0);
    CrashReached(run, configured, ds, d, w);
    var run2 := run + [Crash] + [Restart({m.target})];
    LoadReached(INIT, run2, configured, ds, d, Worker(w.meta, [], Starting), 0);
    assert run2 + [Load(m.id)] == run + Relaunch(m.id, m.target);
  }

  lemma StoredHas(configured: string -> int, m: Meta, payload: bytes)
    requires m.attempts == 0 && m.nextAttempt == 0
    ensures Has(Stored(m, payload), configured, m, payload, 0, Waiting)
  {
    hide Reached, WriteSteps, Writes;
    PutRuns(INIT, configured, m, payload, 0, 0);
    var d := map[][Data(m.id) := Payload(payload)][Json(m.id) := MetaFile(m)];
    assert d == Lone(Tried(m, 0), payload);
    var ds := WriteSteps(INIT.disk, 0, Data(m.id), Payload(payload))
              + WriteSteps(INIT.disk[Data(m.id) := Payload(payload)], 0, Json(m.id), MetaFile(m));
    LoadReached(INIT, [Enqueue(m, payload)] + Writes(m.id, 0) + Writes(m.id, 0), configured, ds, d, Worker(m, payload, Starting), 0);
  }

  lemma {:induction false} TriesHas(run: seq<Action>, configured: string -> int, m: Meta, payload: bytes, n: nat)
    requires m.deadline.None? && Has(run, configured, m, payload, 0, Waiting) && n <= MaxAttempts(configured, m.target)
    ensures Has(run + Tries(m.id, n), configured, m, payload, n,
                if n >= MaxAttempts(configured, m.target) then Burying(false) else Waiting)
  {
    hide Has, MaxAttempts, FailedTry;
    if n == 0 {
      assert run + Tries(m.id, 0) == run;
    } else {
      TriesHas(run, configured, m, payload, n - 1);
      FailedTryHas(run + Tries(m.id, n - 1), configured, m, payload, n - 1);
      assert run + Tries(m.id, n - 1) + FailedTry(m.id) == run + Tries(m.id, n);
    }
  }

  lemma {:induction false} CrashedHas(run: seq<Action>, configured: string -> int, m: Meta, payload: bytes, k: nat)
    requires m.deadline.None? && Has(run, configured, m, payload, MaxAttempts(configured, m.target), Burying(false))
    ensures Has(run + Crashed(m.id, m.target, k), configured, m, payload, MaxAttempts(configured, m.target) + k, Burying(false))
    decreases k
  {
    hide Has, MaxAttempts, FailedTry, Relaunch;
    var max := MaxAttempts(configured, m.target);
    if k == 0 {
      assert run + Crashed(m.id, m.target, 0) == run;
    } else {
      CrashedHas(run, configured, m, payload, k - 1);
      var run1 := run + Crashed(m.id, m.target, k - 1);
      RelaunchHas(run1, configured, m, payload, max + k - 1, Burying(false));
      FailedTryHas(run1 + Relaunch(m.id, m.target), configured, m, payload, max + k - 1);
      assert run1 + Relaunch(m.id, m.target) + FailedTry(m.id) == run + Crashed(m.id, m.target, k);
    }
  }

  lemma {:induction false} RedeliveredHas(run: seq<Action>, configured: string -> int, m: Meta, payload: bytes, k: nat)
    requires m.deadline.None? && Has(run, configured, m, payload, 0, Removing(false))
    ensures Has(run + Redelivered(m.id, m.target, k), configured, m, payload, 0, Removing(false))
    decreases k
  {
    hide Has, Delivery, Relaunch;
    if k == 0 {
      assert run + Redelivered(m.id, m.target, 0) == run;
    } else {
      RedeliveredHas(run, configured, m, payload, k - 1);
      var run1 := run + Redelivered(m.id, m.target, k - 1);
      RelaunchHas(run1, configured, m, payload, 0, Removing(false));
      DeliveryHas(run1 + Relaunch(m.id, m.target), configured, m, payload);
      assert run1 + Relaunch(m.id, m.target) + Delivery(m.id) == run + Redelivered(m.id, m.target, k);
    }
  }

  lemma WritesCount(id: Id, ok: bool)
    ensures Sends(Writes(id, 0), id, ok) == 0 && Crashes(Writes(id, 0)) == 0
  {
    hide Sends, Crashes;
    var x := FileStep(id, 0);
    CountsThree(x, x, x, id, ok);
    CountsOne(x, id, ok);
  }

  lemma RelaunchCounts(id: Id, target: string, ok: bool)
    ensures Sends(Relaunch(id, target), id, ok) == 0 && Crashes(Relaunch(id, target)) == 1
  {
    hide Sends, Crashes;
    CountsThree(Crash, Restart({target}), Load(id), id, ok);
    CountsOne(Crash, id, ok);
    CountsOne(Restart({target}), id, ok);
    CountsOne(Load(id), id, ok);
  }

  lemma DeliveryCounts(id: Id)
    ensures Sends(Delivery(id), id, true) == 1 && Crashes(Delivery(id)) == 0
  {
    hide Sends, Crashes;
    CountsOne(Wake(id), id, true);
    CountsOne(Send(id, true, 0), id, true);
    CountsAdd([Wake(id)], [Send(id, true, 0)], id, true);
    assert [Wake(id)] + [Send(id, true, 0)] == Delivery(id);
  }

  lemma {:induction false} RedeliveredCount(id: Id, target: string, k: nat)
    ensures Sends(Redelivered(id, target, k), id, true) == k && Crashes(Redelivered(id, target, k)) == k
  {
    hide Delivery, Relaunch, Sends, Crashes;
    if k == 0 {
      NoCounts(id, true);
    } else {
      RedeliveredCount(id, target, k - 1);
      RelaunchCounts(id, target, true);
      DeliveryCounts(id);
      CountsAdd(Relaunch(id, target), Delivery(id), id, true);
      CountsAdd(Redelivered(id, target, k - 1), Relaunch(id, target) + Delivery(id), id, true);
    }
  }

  lemma FailedTryCounts(id: Id)
    ensures Sends(FailedTry(id), id, false) == 1 && Crashes(FailedTry(id)) == 0
  {
    hide Sends, Crashes, Writes;
    CountsOne(Wake(id), id, false);
    CountsOne(Send(id, false, 0), id, false);
    CountsAdd([Wake(id)], [Send(id, false, 0)], id, false);
    assert [Wake(id)] + [Send(id, false, 0)] == [Wake(id), Send(id, false, 0)];
    WritesCount(id, false);
    CountsAdd([Wake(id), Send(id, false, 0)], Writes(id, 0), id, false);
  }

  lemma {:induction false} TriesCount(id: Id, target: string, n: nat)
    ensures Sends(Tries(id, n), id, false) == n && Crashes(Tries(id, n)) == 0
    ensures Sends(Crashed(id, target, n), id, false) == n && Crashes(Crashed(id, target, n)) == n
  {
    hide FailedTry, Relaunch, Sends, Crashes;
    if n == 0 {
      NoCounts(id, false);
    } else {
      TriesCount(id, target, n - 1);
      FailedTryCounts(id);
      RelaunchCounts(id, target, false);
      CountsAdd(Tries(id, n - 1), FailedTry(id), id, false);
      CountsAdd(Relaunch(id, target), FailedTry(id), id, false);
      CountsAdd(Crashed(id, target, n - 1), Relaunch(id, target) + FailedTry(id), id, false);
    }
  }

  lemma NoCounts(id: Id, ok: bool)
    ensures Sends([], id, ok) == 0 && Crashes([]) == 0
  {
  }

  lemma StoredCounts(m: Meta, payload: bytes, ok: bool)
    ensures Sends(Stored(m, payload), m.id, ok) == 0 && Crashes(Stored(m, payload)) == 0
  {
    hide Sends, Crashes, Writes;
    var e, w, l := [Enqueue(m, payload)], Writes(m.id, 0), [Load(m.id)];
    WritesCount(m.id, ok);
    CountsOne(Enqueue(m, payload), m.id, ok);
    CountsOne(Load(m.id), m.id, ok);
    CountsAdd(e + w + w, l, m.id, ok);
    CountsAdd(e + w, w, m.id, ok);
    CountsAdd(e, w, m.id, ok);
  }

  /** For every limit and every k there is a run from the empty queue with k crashes in which one item sees max_attempts + k
      failed sends. */
  lemma BoundIsAttained(configured: string -> int, m: Meta, payload: bytes, k: nat)
    requires m.attempts == 0 && m.nextAttempt == 0 && m.deadline.None?
    ensures var max := MaxAttempts(configured, m.target);
            var r := Run(Worst(m, payload, max, k), configured);
            && r.Some? && r.value.past.crashes == k
            && Count(r.value.past.failed, m.id) == max + k
  {
    hide Run, Trace, Has, MaxAttempts, Stored, Tries, Crashed, Sends, Crashes;
    var max := MaxAttempts(configured, m.target);
    var run1 := Stored(m, payload);
    var run2 := run1 + Tries(m.id, max);
    var run := run2 + Crashed(m.id, m.target, k);
    StoredHas(configured, m, payload);
    TriesHas(run1, configured, m, payload, max);
    CrashedHas(run2, configured, m, payload, k);
    HasTrace(run, configured, m, payload, max + k, Burying(false));
    LedgerIsExact(INIT, run, configured, m.id);
    StoredCounts(m, payload, false);
    TriesCount(m.id, m.target, max);
    TriesCount(m.id, m.target, k);
    CountsAdd(run2, Crashed(m.id, m.target, k), m.id, false);
    CountsAdd(run1, Tries(m.id, max), m.id, false);
    EmptyRun(configured);
    RunGoesOn([], run, configured);
    assert [] + run == run;
  }

  /** And for every k there is one with k crashes in which one item is sent successfully 1 + k times. */
  lemma RepeatsAreAttained(configured: string -> int, m: Meta, payload: bytes, k: nat)
    requires m.attempts == 0 && m.nextAttempt == 0 && m.deadline.None?
    ensures var r := Run(Repeated(m, payload, k), configured);
            r.Some? && r.value.past.crashes == k && Count(r.value.past.succeeded, m.id) == 1 + k
  {
    hide Run, Trace, Has, Stored, Delivery, Redelivered, Sends, Crashes;
    var run1 := Stored(m, payload);
    var run2 := run1 + Delivery(m.id);
    var run := run2 + Redelivered(m.id, m.target, k);
    StoredHas(configured, m, payload);
    DeliveryHas(run1, configured, m, payload);
    RedeliveredHas(run2, configured, m, payload, k);
    HasTrace(run, configured, m, payload, 0, Removing(false));
    LedgerIsExact(INIT, run, configured, m.id);
    StoredCounts(m, payload, true);
    DeliveryCounts(m.id);
    RedeliveredCount(m.id, m.target, k);
    CountsAdd(run2, Redelivered(m.id, m.target, k), m.id, true);
    CountsAdd(run1, Delivery(m.id), m.id, true);
    EmptyRun(configured);
    RunGoesOn([], run, configured);
    assert [] + run == run;
  }

  lemma HasTrace(run: seq<Action>, configured: string -> int, m: Meta, payload: bytes, n: nat, phase: Phase)
    requires Has(run, configured, m, payload, n, phase)
    ensures Trace(INIT, run, configured).Some?
  {
    hide Trace;
  }

  lemma EmptyRun(configured: string -> int)
    ensures Run([], configured) == Some(INIT) && Count(INIT.past.failed, 0) == 0
  {
  }
}
