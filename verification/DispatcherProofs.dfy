/** What the dispatcher loses when handlers throw, the order one worker keeps, and what stop() leaves behind. */
module DispatcherProofs {
  import opened Totals
  import opened DispatcherModel

  // ---- bounded loss ----

  /** No worker holds more than one array of entries, and one that threw has handled at least one of them. */
  predicate WorkerInv(x: Worker) {
    match x
    case Waiting(last) => |last| <= BATCH
    case Dispatching(batch, next, running) => next <= |batch| <= BATCH && (running ==> next < |batch|)
    case Exited(lost, threw) => |lost| < BATCH && (!threw ==> lost == [])
  }

  predicate BatchInv(s: State) { forall w :: 0 <= w < |s.workers| ==> WorkerInv(s.workers[w]) }

  lemma StepKeepsBatches(s: State, a: Step)
    requires BatchInv(s) && Enabled(s, a)
    ensures BatchInv(Next(s, a)) && |Next(s, a).workers| == |s.workers|
  {
  }

  function LostBy(x: Worker): nat { if x.Exited? then |x.lost| else 0 }

  function ThrewOnce(x: Worker): nat { if x.Exited? && x.threw then 1 else 0 }

  lemma {:induction false} LossBound(workers: seq<Worker>)
    requires forall w :: 0 <= w < |workers| ==> WorkerInv(workers[w])
    ensures Total(workers, LostBy) <= 63 * Total(workers, ThrewOnce)
    ensures Total(workers, ThrewOnce) <= |workers|
  {
    if workers == [] {
    } else {
      assert WorkerInv(workers[0]);
      LossBound(workers[1..]);
    }
  }

  predicate NoThrow(steps: seq<Step>) { forall i :: 0 <= i < |steps| ==> !steps[i].Throw? }

  lemma NobodyThrew(s: State, a: Step)
    requires Enabled(s, a) && !a.Throw?
    ensures Total(Next(s, a).workers, ThrewOnce) == Total(s.workers, ThrewOnce)
  {
    if a.TakeBatch? || a.Begin? || a.Return? || a.EndBatch? || a.Alert? || a.WaitFails? {
      TotalUpdate(s.workers, a.w, Next(s, a).workers[a.w], ThrewOnce);
    }
  }

  lemma {:induction false} RunKeepsBatches(s: State, steps: seq<Step>)
    requires BatchInv(s) && Runs(s, steps)
    ensures BatchInv(After(s, steps)) && |After(s, steps).workers| == |s.workers|
    ensures NoThrow(steps) && Total(s.workers, ThrewOnce) == 0 ==> Total(After(s, steps).workers, ThrewOnce) == 0
    decreases |steps|
  {
    if steps == [] {
    } else {
      var a, t := steps[0], Next(s, steps[0]);
      StepKeepsBatches(s, a);
      if NoThrow(steps) && Total(s.workers, ThrewOnce) == 0 {
        assert !a.Throw?;
        NobodyThrew(s, a);
      }
      RunKeepsBatches(t, steps[1..]);
    }
  }

  lemma {:induction false} NoneThrewAtStart(workers: seq<Worker>)
    requires forall w :: 0 <= w < |workers| ==> workers[w].Waiting?
    ensures Total(workers, ThrewOnce) == 0
  {
    if workers == [] {
    } else {
      NoneThrewAtStart(workers[1..]);
    }
  }

  /** Bounded loss: over any run, however often handlers throw, the callbacks abandoned in batches number at
      most 63 for each worker that threw, and a worker throws once; without a throw none is abandoned. */
  lemma BoundedLoss(workers: nat, steps: seq<Step>)
    requires Runs(Initial(workers), steps)
    ensures var t := After(Initial(workers), steps);
            && Total(t.workers, LostBy) <= 63 * Total(t.workers, ThrewOnce) <= 63 * workers
            && (NoThrow(steps) ==> Total(t.workers, LostBy) == 0)
  {
    var s := Initial(workers);
    NoneThrewAtStart(s.workers);
    RunKeepsBatches(s, steps);
    LossBound(After(s, steps).workers);
  }

  // ---- order with one worker ----

  /** The callbacks that workers have begun, in order. */
  function Dispatched(invoked: seq<nat>, runners: seq<Runner>): seq<nat>
    requires |invoked| == |runners|
  {
    if invoked == [] then []
    else
      var n := |invoked| - 1;
      Dispatched(invoked[..n], runners[..n]) + if runners[n].ByWorker? then [invoked[n]] else []
  }

  lemma DispatchedAppend(invoked: seq<nat>, runners: seq<Runner>, id: nat, r: Runner)
    requires |invoked| == |runners|
    ensures Dispatched(invoked + [id], runners + [r]) == Dispatched(invoked, runners) + if r.ByWorker? then [id] else []
  {
  }

  /** What the worker has taken and not begun. */
  function Ahead(x: Worker): seq<nat> {
    match x
    case Waiting(_) => []
    case Dispatching(batch, next, running) =>
      var from := if running then next + 1 else next;
      if from <= |batch| then batch[from..] else []
    case Exited(lost, _) => lost
  }

  /** One worker: begun, then taken, then queued is the order of arrival. */
  predicate FifoInv(s: State) {
    && |s.workers| == 1 && |s.invoked| == |s.runners| && WorkerInv(s.workers[0])
    && Dispatched(s.invoked, s.runners) + Ahead(s.workers[0]) + s.queue == s.arrivals
  }

  lemma BeginKeepsFifo(s: State)
    requires FifoInv(s) && Enabled(s, Begin(0))
    ensures FifoInv(Next(s, Begin(0)))
  {
    var x, t := s.workers[0], Next(s, Begin(0));
    var id, d := x.batch[x.next], Dispatched(s.invoked, s.runners);
    DispatchedAppend(s.invoked, s.runners, id, ByWorker(0));
    assert Ahead(x) == [id] + Ahead(t.workers[0]);
    assert d + [id] + Ahead(t.workers[0]) + s.queue == d + Ahead(x) + s.queue;
  }

  lemma EndKeepsFifo(s: State, a: Step)
    requires FifoInv(s) && Enabled(s, a) && (a == Return(0) || a == Throw(0))
    ensures FifoInv(Next(s, a))
  {
    assert Ahead(s.workers[0]) == Ahead(Next(s, a).workers[0]);
  }

  lemma TakeKeepsFifo(s: State, n: nat)
    requires FifoInv(s) && Enabled(s, TakeBatch(0, n))
    ensures FifoInv(Next(s, TakeBatch(0, n)))
  {
  }

  /** A handler run by its submitter is not among those workers have begun. */
  lemma SubmitterRunKeepsFifo(s: State, id: nat)
    requires FifoInv(s) && id in s.submitting
    ensures FifoInv(RunBySubmitter(s, id))
  {
    DispatchedAppend(s.invoked, s.runners, id, Submitter);
  }

  lemma SubmitStepKeepsFifo(s: State, a: Step)
    requires FifoInv(s) && Enabled(s, a)
    requires a.Make? || a.Post? || a.SubmitPends? || a.KernelCompletes? || a.Stop?
    ensures FifoInv(Next(s, a))
  {
  }

  lemma StepKeepsFifo(s: State, a: Step)
    requires FifoInv(s) && Enabled(s, a) && !Hazard(s, a)
    ensures FifoInv(Next(s, a))
  {
    match a
    case Begin(w) => BeginKeepsFifo(s);
    case Return(w) => EndKeepsFifo(s, a);
    case Throw(w) => EndKeepsFifo(s, a);
    case TakeBatch(w, n) => TakeKeepsFifo(s, n);
    case EndBatch(w) => assert Ahead(s.workers[0]) == [];
    case Alert(w) =>
    case WaitFails(w) => assert Ahead(Next(s, a).workers[0]) == [];
    case SubmitFails(id) => SubmitterRunKeepsFifo(s, id);
    case SubmitInline(id, _) => SubmitterRunKeepsFifo(s, id);
    case _ => SubmitStepKeepsFifo(s, a);
  }

  lemma {:induction false} RunKeepsFifo(s: State, steps: seq<Step>)
    requires FifoInv(s) && Runs(s, steps) && HazardFree(s, steps)
    ensures FifoInv(After(s, steps))
    decreases |steps|
  {
    if steps == [] {
    } else {
      StepKeepsFifo(s, steps[0]);
      RunKeepsFifo(Next(s, steps[0]), steps[1..]);
    }
  }

  /** Single-worker order: whatever batch sizes the port returns, across batches, and even if a handler throws,
      the worker begins callbacks in the order they arrived: those begun, those taken, those queued. */
  lemma SingleWorkerFifo(steps: seq<Step>)
    requires Runs(Initial(1), steps) && HazardFree(Initial(1), steps)
    ensures var t := After(Initial(1), steps);
            && |t.invoked| == |t.runners| && |t.workers| == 1
            && t.arrivals == Dispatched(t.invoked, t.runners) + Ahead(t.workers[0]) + t.queue
  {
    RunKeepsFifo(Initial(1), steps);
  }

  // ---- a worker that has left, and stop() ----

  /** Worker w has left: it stays as it is and begins nothing. */
  predicate LeftAlone(s: State, t: State, w: nat) {
    && w < |s.workers| == |t.workers| && t.workers[w] == s.workers[w]
    && s.runners <= t.runners && forall k :: |s.runners| <= k < |t.runners| ==> t.runners[k] != ByWorker(w)
  }

  lemma StepLeavesAlone(s: State, a: Step, w: nat)
    requires w < |s.workers| && s.workers[w].Exited? && Enabled(s, a)
    ensures LeftAlone(s, Next(s, a), w)
  {
  }

  lemma LeftAloneChain(s: State, t: State, u: State, w: nat)
    requires LeftAlone(s, t, w) && LeftAlone(t, u, w)
    ensures LeftAlone(s, u, w)
  {
  }

  lemma {:induction false} ExitedForGood(s: State, steps: seq<Step>, w: nat)
    requires w < |s.workers| && s.workers[w].Exited? && Runs(s, steps)
    ensures LeftAlone(s, After(s, steps), w)
    decreases |steps|
  {
    if steps == [] {
    } else {
      var t := Next(s, steps[0]);
      StepLeavesAlone(s, steps[0], w);
      ExitedForGood(t, steps[1..], w);
      LeftAloneChain(s, t, After(t, steps[1..]), w);
    }
  }

  /** The APC ends a waiting worker: in every continuation it has left, holds nothing and begins nothing. */
  lemma AlertEndsWorker(s: State, w: nat, steps: seq<Step>)
    requires Enabled(s, Alert(w)) && Runs(Next(s, Alert(w)), steps)
    ensures var t := After(Next(s, Alert(w)), steps);
            && w < |t.workers| && t.workers[w].Exited? && !t.workers[w].threw && Held(t.workers[w]) == []
            && s.runners <= t.runners && forall k :: |s.runners| <= k < |t.runners| ==> t.runners[k] != ByWorker(w)
  {
    ExitedForGood(Next(s, Alert(w)), steps, w);
  }

  predicate NoStop(steps: seq<Step>) { forall i :: 0 <= i < |steps| ==> !steps[i].Stop? }

  predicate NobodyLeft(s: State) { !s.stopping && forall w :: 0 <= w < |s.workers| ==> !s.workers[w].Exited? }

  /** Until stop() is called a worker leaves only with a throwing handler. */
  lemma {:induction false} WorkersStay(s: State, steps: seq<Step>)
    requires NobodyLeft(s) && Runs(s, steps) && NoStop(steps) && NoThrow(steps)
    ensures NobodyLeft(After(s, steps))
    decreases |steps|
  {
    if steps == [] {
    } else {
      assert !steps[0].Stop? && !steps[0].Throw?;
      WorkersStay(Next(s, steps[0]), steps[1..]);
    }
  }

  function Alerts(from: nat, n: nat): seq<Step>
    requires from <= n
    decreases n - from
  {
    if from == n then [] else [Alert(from)] + Alerts(from + 1, n)
  }

  predicate AllExited(s: State) { forall w :: 0 <= w < |s.workers| ==> s.workers[w].Exited? }

  /** The workers before `from` have left, the others wait. */
  predicate PartlyLeft(s: State, from: nat) {
    && s.stopping && from <= |s.workers|
    && (forall w :: 0 <= w < from ==> s.workers[w].Exited?)
    && (forall w :: from <= w < |s.workers| ==> s.workers[w].Waiting?)
  }

  lemma {:induction false} AlertsEndAll(s: State, from: nat)
    requires PartlyLeft(s, from)
    ensures var steps := Alerts(from, |s.workers|);
            && Runs(s, steps) && HazardFree(s, steps) && AllExited(After(s, steps))
            && After(s, steps).queue == s.queue && After(s, steps).invoked == s.invoked
    decreases |s.workers| - from
  {
    if from == |s.workers| {
    } else {
      var t, rest := Next(s, Alert(from)), Alerts(from + 1, |s.workers|);
      assert PartlyLeft(t, from + 1);
      AlertsEndAll(t, from + 1);
      assert ([Alert(from)] + rest)[1..] == rest;
    }
  }

  lemma {:induction false} AlertsLength(from: nat, n: nat)
    requires from <= n
    ensures |Alerts(from, n)| == n - from
    decreases n - from
  {
    if from == n {
    } else {
      AlertsLength(from + 1, n);
    }
  }

  /** stop() ends the dispatcher: from any state in which all workers wait, Stop and one APC for each lead to a state
      in which all have left; nothing is begun on the way, and nothing leaves the port. */
  lemma StopEndsAll(s: State) returns (steps: seq<Step>)
    requires forall w :: 0 <= w < |s.workers| ==> s.workers[w].Waiting?
    ensures Runs(s, steps) && HazardFree(s, steps) && AllExited(After(s, steps)) && |steps| == |s.workers| + 1
    ensures After(s, steps).queue == s.queue && After(s, steps).invoked == s.invoked
    ensures Linear(s) ==> Linear(After(s, steps))
  {
    var t, rest := Next(s, Stop), Alerts(0, |s.workers|);
    AlertsEndAll(t, 0);
    AlertsLength(0, |s.workers|);
    steps := [Stop] + rest;
    assert steps[1..] == rest;
    if Linear(s) {
      RunKeepsLinear(s, steps);
    }
  }


  /** What the workers have begun stays as it is, and so does what the port holds. */
  predicate Frozen(s: State, t: State)
    requires |s.invoked| == |s.runners|
  {
    && t.workers == s.workers && |t.invoked| == |t.runners| && s.queue <= t.queue
    && Dispatched(t.invoked, t.runners) == Dispatched(s.invoked, s.runners)
  }

  lemma StoppedStep(s: State, a: Step)
    requires AllExited(s) && Enabled(s, a) && |s.invoked| == |s.runners|
    ensures Frozen(s, Next(s, a))
  {
    if a.SubmitFails? || a.SubmitInline? {
      DispatchedAppend(s.invoked, s.runners, a.id, Submitter);
    }
  }

  /** Once every worker has left, no worker begins another callback and nothing leaves the queue. */
  lemma {:induction false} StoppedNeverDispatches(s: State, steps: seq<Step>)
    requires AllExited(s) && Runs(s, steps) && |s.invoked| == |s.runners|
    ensures Frozen(s, After(s, steps))
    decreases |steps|
  {
    if steps == [] {
    } else {
      StoppedStep(s, steps[0]);
      StoppedNeverDispatches(Next(s, steps[0]), steps[1..]);
    }
  }

  /** What stop() leaves behind: a callback the port still holds when every worker has left is held there in every
      later state, never begun by anybody and never freed. */
  lemma AbandonedForGood(workers: nat, steps: seq<Step>, t: State, more: seq<Step>, id: nat)
    requires Runs(Initial(workers), steps) && HazardFree(Initial(workers), steps)
    requires t == After(Initial(workers), steps) && AllExited(t) && id in t.queue
    requires Runs(t, more) && HazardFree(t, more)
    ensures var u := After(t, more);
            id in u.queue && id !in u.invoked && u.freed[id] == 0
  {
    InitialLinear(workers);
    RunKeepsLinear(Initial(workers), steps);
    RunKeepsLinear(t, more);
    StoppedNeverDispatches(t, more);
    var u := After(t, more);
    assert LinearAt(u, id);
    CountMember(u.queue, id);
    CountMember(u.invoked, id);
    RunningIsHeld(u.workers, id);
  }
}
