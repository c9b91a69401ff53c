/** The completion dispatcher (iocp_impl.cc) and the submissions that feed it. A callback is known by the
    number of its allocation; the state says who owns it. */
module DispatcherModel {
  import opened Totals

  /** The array entrys of run holds this many entries. */
  const BATCH := 64

  datatype Worker =
    | Waiting(last: seq<nat>)                                   // line 82; entrys[0..ret_number) of the last batch
    | Dispatching(batch: seq<nat>, next: nat, running: bool)    // lines 90-96; running: inside invoke
    | Exited(lost: seq<nat>, threw: bool)                       // left run; lost: entries of its batch not handled

  /** Who ran a handler. */
  datatype Runner = Submitter | ByWorker(id: nat)

  datatype State = State(
    made: nat,               // callbacks are numbered 0, 1, ... as they are made
    submitting: multiset<nat>,    // held by a unique_ptr of post or of an async_read/async_write
    pending: multiset<nat>,       // released to the kernel, the operation still under way
    queue: seq<nat>,              // in the completion port, first in first out
    workers: seq<Worker>,
    freed: multiset<nat>,         // deleted
    leaked: multiset<nat>,        // released although PostQueuedCompletionStatus failed
    invoked: seq<nat>,            // handlers begun, in order, with `runners`
    runners: seq<Runner>,
    arrivals: seq<nat>,           // callbacks the port has received, in order
    stopping: bool)               // stop() has queued an APC to every worker

  datatype Step =
    | Make                        // make_callback_ptr
    | Post(id: nat, ok: bool)     // post's call of the port, then release()
    | SubmitFails(id: nat)        // the operation fails at once: the submitter invokes and frees
    | SubmitPends(id: nat)        // the operation is under way: release()
    | SubmitInline(id: nat, skip: bool)  // a socket operation completes at once: the submitter invokes and
                                         // frees; `skip`: the port gets no packet for it
    | KernelCompletes(id: nat)
    | TakeBatch(w: nat, n: nat)   // GetQueuedCompletionStatusEx returns n entries
    | Begin(w: nat)               // handle_callback takes entry i and invokes it
    | Return(w: nat)              // the handler returns; the unique_ptr frees the callback
    | Throw(w: nat)               // the handler throws; the unique_ptr frees it and run's catch leaves the loop
    | EndBatch(w: nat)
    | Stop                        // stop(): QueueUserAPC to every worker
    | Alert(w: nat)               // the wait is broken by the APC: WAIT_IO_COMPLETION
    | WaitFails(w: nat)           // the wait fails otherwise: ret_number and entrys keep the last batch

  predicate IsWaiting(s: State, w: nat) { w < |s.workers| && s.workers[w].Waiting? }

  predicate IsDispatching(s: State, w: nat) {
    w < |s.workers| && s.workers[w].Dispatching? && s.workers[w].next <= |s.workers[w].batch|
  }

  predicate AtEntry(s: State, w: nat) { IsDispatching(s, w) && s.workers[w].next < |s.workers[w].batch| }

  predicate Enabled(s: State, a: Step) {
    match a
    case Make => true
    case Post(id, _) => id in s.submitting
    case SubmitFails(id) => id in s.submitting
    case SubmitPends(id) => id in s.submitting
    case SubmitInline(id, _) => id in s.submitting
    case KernelCompletes(id) => id in s.pending
    case TakeBatch(w, n) => IsWaiting(s, w) && 1 <= n <= BATCH && n <= |s.queue|
    case Begin(w) => AtEntry(s, w) && !s.workers[w].running
    case Return(w) => AtEntry(s, w) && s.workers[w].running
    case Throw(w) => AtEntry(s, w) && s.workers[w].running
    case EndBatch(w) => IsDispatching(s, w) && s.workers[w].next == |s.workers[w].batch| && !s.workers[w].running
    case Stop => true
    case Alert(w) => IsWaiting(s, w) && s.stopping
    case WaitFails(w) => IsWaiting(s, w)
  }

  function Set(s: State, w: nat, x: Worker): State
    requires w < |s.workers|
  {
    s.(workers := s.workers[w := x])
  }

  /** The submitter runs the handler itself and its unique_ptr frees the callback. */
  function RunBySubmitter(s: State, id: nat): State {
    s.(submitting := s.submitting - multiset{id}, invoked := s.invoked + [id], runners := s.runners + [Submitter],
       freed := s.freed + multiset{id})
  }

  function Arrive(s: State, id: nat): State { s.(queue := s.queue + [id], arrivals := s.arrivals + [id]) }

  function Next(s: State, a: Step): State
    requires Enabled(s, a)
  {
    match a
    case Make => s.(made := s.made + 1, submitting := s.submitting + multiset{s.made})
    case Post(id, ok) =>
      var t := s.(submitting := s.submitting - multiset{id});
      if ok then Arrive(t, id) else t.(leaked := s.leaked + multiset{id})
    case SubmitFails(id) => RunBySubmitter(s, id)
    case SubmitPends(id) => s.(submitting := s.submitting - multiset{id}, pending := s.pending + multiset{id})
    case SubmitInline(id, skip) =>
      if skip then RunBySubmitter(s, id) else Arrive(RunBySubmitter(s, id), id)
    case KernelCompletes(id) => Arrive(s.(pending := s.pending - multiset{id}), id)
    case TakeBatch(w, n) => Set(s.(queue := s.queue[n..]), w, Dispatching(s.queue[..n], 0, false))
    case Begin(w) =>
      var x := s.workers[w];
      Set(s.(invoked := s.invoked + [x.batch[x.next]], runners := s.runners + [ByWorker(w)]), w, x.(running := true))
    case Return(w) =>
      var x := s.workers[w];
      Set(s.(freed := s.freed + multiset{x.batch[x.next]}), w, x.(running := false, next := x.next + 1))
    case Throw(w) =>
      var x := s.workers[w];
      Set(s.(freed := s.freed + multiset{x.batch[x.next]}), w, Exited(x.batch[x.next + 1..], true))
    case EndBatch(w) => Set(s, w, Waiting(s.workers[w].batch))
    case Stop => s.(stopping := true)
    case Alert(w) => Set(s, w, Exited([], false))
    case WaitFails(w) => Set(s, w, Dispatching(s.workers[w].last, 0, false))
  }

  predicate Runs(s: State, steps: seq<Step>)
    decreases |steps|
  {
    steps == [] || (Enabled(s, steps[0]) && Runs(Next(s, steps[0]), steps[1..]))
  }

  function After(s: State, steps: seq<Step>): State
    requires Runs(s, steps)
    decreases |steps|
  {
    if steps == [] then s else After(Next(s, steps[0]), steps[1..])
  }

  function Initial(workers: nat): State {
    State(0, multiset{}, multiset{}, [], seq(workers, _ => Waiting([])), multiset{}, multiset{}, [], [], [], false)
  }

  // ---- who owns what ----

  /** What a worker still owns: the entry it runs, the entries it has not reached, or those it gave up. */
  function Held(x: Worker): seq<nat> {
    match x
    case Waiting(_) => []
    case Dispatching(batch, next, _) => if next <= |batch| then batch[next..] else []
    case Exited(lost, _) => lost
  }

  /** The entry whose handler a worker is in. */
  function Running(x: Worker): seq<nat> {
    if x.Dispatching? && x.running && x.next < |x.batch| then [x.batch[x.next]] else []
  }

  function Count(ids: seq<nat>, id: nat): nat {
    if ids == [] then 0 else (if ids[0] == id then 1 else 0) + Count(ids[1..], id)
  }

  lemma {:induction false} CountAppend(xs: seq<nat>, ys: seq<nat>, id: nat)
    ensures Count(xs + ys, id) == Count(xs, id) + Count(ys, id)
  {
    if xs == [] {
      assert xs + ys == ys;
    } else {
      assert (xs + ys)[1..] == xs[1..] + ys;
      CountAppend(xs[1..], ys, id);
    }
  }

  lemma CountOne(x: nat, id: nat)
    ensures Count([x], id) == if x == id then 1 else 0
  {
    assert [x][1..] == [];
  }

  lemma {:induction false} CountMember(ids: seq<nat>, id: nat)
    ensures Count(ids, id) > 0 <==> id in ids
  {
    if ids == [] {
    } else {
      CountMember(ids[1..], id);
    }
  }

  function HeldCount(id: nat): Worker -> nat { x => Count(Held(x), id) }

  function RunningCount(id: nat): Worker -> nat { x => Count(Running(x), id) }

  /** How many owners a callback has: its submitter, the kernel, the port, a worker, or nobody any more. */
  function Owners(s: State, id: nat): nat {
    s.submitting[id] + s.pending[id] + Count(s.queue, id) + Total(s.workers, HeldCount(id)) + s.freed[id] + s.leaked[id]
  }

  /** Owners a step adds to what it takes away. */
  function Gained(s: State, a: Step, id: nat): nat
    requires Enabled(s, a)
  {
    match a
    case Make => if id == s.made then 1 else 0
    case WaitFails(w) => Count(s.workers[w].last, id)
    case SubmitInline(i, skip) => if !skip && id == i then 1 else 0
    case _ => 0
  }

  lemma EntryCounts(x: Worker, id: nat)
    requires x.Dispatching? && x.next < |x.batch|
    ensures Count(Held(x), id) == (if x.batch[x.next] == id then 1 else 0) + Count(x.batch[x.next + 1..], id)
    ensures Count(Running(x), id) == if x.running && x.batch[x.next] == id then 1 else 0
  {
    var rest := x.batch[x.next..];
    assert rest[0] == x.batch[x.next] && rest[1..] == x.batch[x.next + 1..];
    CountOne(x.batch[x.next], id);
  }

  /** The step hands on what it takes, and each handler it begins is one that is now running or freed. */
  predicate Conserves(s: State, a: Step, id: nat)
    requires Enabled(s, a)
  {
    var t := Next(s, a);
    && Owners(t, id) == Owners(s, id) + Gained(s, a, id)
    && Count(t.invoked, id) + s.freed[id] + Total(s.workers, RunningCount(id))
       == Count(s.invoked, id) + t.freed[id] + Total(t.workers, RunningCount(id))
  }

  lemma UpdateCounts(s: State, w: nat, y: Worker, id: nat)
    requires w < |s.workers|
    ensures Total(s.workers[w := y], HeldCount(id)) + Count(Held(s.workers[w]), id)
         == Total(s.workers, HeldCount(id)) + Count(Held(y), id)
    ensures Total(s.workers[w := y], RunningCount(id)) + Count(Running(s.workers[w]), id)
         == Total(s.workers, RunningCount(id)) + Count(Running(y), id)
  {
    TotalUpdate(s.workers, w, y, HeldCount(id));
    TotalUpdate(s.workers, w, y, RunningCount(id));
  }

  lemma BeginConserves(s: State, w: nat, id: nat)
    requires Enabled(s, Begin(w))
    ensures Conserves(s, Begin(w), id)
  {
    var x := s.workers[w];
    UpdateCounts(s, w, x.(running := true), id);
    EntryCounts(x, id);
    EntryCounts(x.(running := true), id);
    CountAppend(s.invoked, [x.batch[x.next]], id);
    CountOne(x.batch[x.next], id);
  }

  lemma ReturnConserves(s: State, w: nat, id: nat)
    requires Enabled(s, Return(w))
    ensures Conserves(s, Return(w), id)
  {
    var x, t := s.workers[w], Next(s, Return(w));
    var y := x.(running := false, next := x.next + 1);
    assert t.workers == s.workers[w := y] && t.freed == s.freed + multiset{x.batch[x.next]};
    assert Held(y) == x.batch[x.next + 1..] && Running(y) == [];
    UpdateCounts(s, w, y, id);
    EntryCounts(x, id);
  }

  lemma ThrowConserves(s: State, w: nat, id: nat)
    requires Enabled(s, Throw(w))
    ensures Conserves(s, Throw(w), id)
  {
    var x, t := s.workers[w], Next(s, Throw(w));
    var y := Exited(x.batch[x.next + 1..], true);
    assert t.workers == s.workers[w := y] && t.freed == s.freed + multiset{x.batch[x.next]};
    assert Held(y) == x.batch[x.next + 1..] && Running(y) == [];
    UpdateCounts(s, w, y, id);
    EntryCounts(x, id);
  }

  lemma TakeConserves(s: State, w: nat, n: nat, id: nat)
    requires Enabled(s, TakeBatch(w, n))
    ensures Conserves(s, TakeBatch(w, n), id)
  {
    var y := Dispatching(s.queue[..n], 0, false);
    UpdateCounts(s, w, y, id);
    assert s.queue == s.queue[..n] + s.queue[n..] && Held(y) == s.queue[..n];
    CountAppend(s.queue[..n], s.queue[n..], id);
  }

  lemma LoopConserves(s: State, w: nat, a: Step, id: nat)
    requires Enabled(s, a) && (a == EndBatch(w) || a == Alert(w) || a == WaitFails(w))
    ensures Conserves(s, a, id)
  {
    var x, y := s.workers[w], Next(s, a).workers[w];
    UpdateCounts(s, w, y, id);
    if a.WaitFails? {
      assert Held(y) == x.last;
    }
  }

  lemma FailConserves(s: State, i: nat, id: nat)
    requires Enabled(s, SubmitFails(i))
    ensures Conserves(s, SubmitFails(i), id)
  {
    CountAppend(s.invoked, [i], id);
    CountOne(i, id);
  }

  lemma InlineConserves(s: State, i: nat, skip: bool, id: nat)
    requires Enabled(s, SubmitInline(i, skip))
    ensures Conserves(s, SubmitInline(i, skip), id)
  {
    FailConserves(s, i, id);
    CountAppend(s.queue, [i], id);
    CountOne(i, id);
  }

  lemma PostConserves(s: State, i: nat, ok: bool, id: nat)
    requires Enabled(s, Post(i, ok))
    ensures Conserves(s, Post(i, ok), id)
  {
    CountAppend(s.queue, [i], id);
    CountOne(i, id);
  }

  lemma HandOverConserves(s: State, a: Step, id: nat)
    requires Enabled(s, a) && (a.SubmitPends? || a.KernelCompletes?)
    ensures Conserves(s, a, id)
  {
    CountAppend(s.queue, [a.id], id);
    CountOne(a.id, id);
  }

  /** Conservation, step by step and callback by callback. */
  lemma StepConserves(s: State, a: Step, id: nat)
    requires Enabled(s, a)
    ensures Conserves(s, a, id)
  {
    match a
    case Begin(w) => BeginConserves(s, w, id);
    case Return(w) => ReturnConserves(s, w, id);
    case Throw(w) => ThrowConserves(s, w, id);
    case TakeBatch(w, n) => TakeConserves(s, w, n, id);
    case EndBatch(w) => LoopConserves(s, w, a, id);
    case Alert(w) => LoopConserves(s, w, a, id);
    case WaitFails(w) => LoopConserves(s, w, a, id);
    case SubmitFails(i) => FailConserves(s, i, id);
    case SubmitInline(i, skip) => InlineConserves(s, i, skip, id);
    case Post(i, ok) => PostConserves(s, i, ok, id);
    case SubmitPends(_) => HandOverConserves(s, a, id);
    case KernelCompletes(_) => HandOverConserves(s, a, id);
    case Make =>
    case Stop =>
  }

  /** One callback's share of linear ownership: it has one owner from the moment it is made, and is begun as
      often as it is freed or running now. */
  predicate LinearAt(s: State, id: nat) {
    && Owners(s, id) == (if id < s.made then 1 else 0)
    && Count(s.invoked, id) == s.freed[id] + Total(s.workers, RunningCount(id))
  }

  ghost predicate Linear(s: State) { |s.runners| == |s.invoked| && forall id: nat :: LinearAt(s, id) }

  /** The two ways the code gives up linear ownership: a wait that fails without an APC dispatches the last
      batch again, and an immediate success on a handle that still queues a packet for it. */
  predicate Hazard(s: State, a: Step)
    requires Enabled(s, a)
  {
    || (a.WaitFails? && s.workers[a.w].last != [])
    || (a.SubmitInline? && !a.skip)
  }

  lemma CleanStepKeepsLinear(s: State, a: Step)
    requires Linear(s) && Enabled(s, a) && !Hazard(s, a)
    ensures Linear(Next(s, a))
  {
    forall id: nat
      ensures LinearAt(Next(s, a), id)
    {
      assert LinearAt(s, id);
      StepConserves(s, a, id);
    }
  }

  lemma HazardBreaksLinear(s: State, a: Step)
    requires Linear(s) && Enabled(s, a) && Hazard(s, a)
    ensures !Linear(Next(s, a))
  {
    var id := if a.WaitFails? then s.workers[a.w].last[0] else a.id;
    assert LinearAt(s, id);
    StepConserves(s, a, id);
    if a.WaitFails? {
      CountMember(s.workers[a.w].last, id);
    }
    assert !LinearAt(Next(s, a), id);
  }

  /** From a linear state a step leads to a linear state exactly when it is not one of the two hazards. */
  lemma StepKeepsLinearExactly(s: State, a: Step)
    requires Linear(s) && Enabled(s, a)
    ensures Linear(Next(s, a)) <==> !Hazard(s, a)
  {
    if Hazard(s, a) {
      HazardBreaksLinear(s, a);
    } else {
      CleanStepKeepsLinear(s, a);
    }
  }

  predicate HazardFree(s: State, steps: seq<Step>)
    requires Runs(s, steps)
    decreases |steps|
  {
    steps == [] || (!Hazard(s, steps[0]) && HazardFree(Next(s, steps[0]), steps[1..]))
  }

  lemma {:induction false} RunKeepsLinear(s: State, steps: seq<Step>)
    requires Linear(s) && Runs(s, steps) && HazardFree(s, steps)
    ensures Linear(After(s, steps))
    decreases |steps|
  {
    if steps == [] {
    } else {
      CleanStepKeepsLinear(s, steps[0]);
      RunKeepsLinear(Next(s, steps[0]), steps[1..]);
    }
  }

  ghost predicate LinearThroughout(s: State, steps: seq<Step>)
    requires Runs(s, steps)
    decreases |steps|
  {
    Linear(s) && (steps == [] || LinearThroughout(Next(s, steps[0]), steps[1..]))
  }

  /** Over whole runs: ownership is linear in every state exactly when neither hazard happens. */
  lemma {:induction false} LinearExactly(s: State, steps: seq<Step>)
    requires Linear(s) && Runs(s, steps)
    ensures LinearThroughout(s, steps) <==> HazardFree(s, steps)
    decreases |steps|
  {
    if steps == [] {
    } else {
      StepKeepsLinearExactly(s, steps[0]);
      if !Hazard(s, steps[0]) {
        LinearExactly(Next(s, steps[0]), steps[1..]);
      }
    }
  }

  lemma {:induction false} IdleHoldsNothing(workers: seq<Worker>, id: nat)
    requires forall w :: 0 <= w < |workers| ==> workers[w] == Waiting([])
    ensures Total(workers, HeldCount(id)) == 0 && Total(workers, RunningCount(id)) == 0
  {
    if workers == [] {
    } else {
      IdleHoldsNothing(workers[1..], id);
    }
  }

  lemma InitialLinear(workers: nat)
    ensures Linear(Initial(workers))
  {
    forall id: nat
      ensures LinearAt(Initial(workers), id)
    {
      IdleHoldsNothing(Initial(workers).workers, id);
    }
  }

  lemma {:induction false} RunningIsHeld(workers: seq<Worker>, id: nat)
    ensures Total(workers, RunningCount(id)) <= Total(workers, HeldCount(id))
  {
    if workers == [] {
    } else {
      RunningIsHeld(workers[1..], id);
      var x := workers[0];
      if x.Dispatching? && x.next < |x.batch| {
        EntryCounts(x, id);
      }
    }
  }

  /** Callback ownership is linear over every run of any number of workers, with handlers that post, submit and
      throw: each callback made has exactly one owner, its handler is begun at most once, by the submitter or
      by one worker, and once it is freed nobody holds it or will run it. */
  lemma LinearOwnership(workers: nat, steps: seq<Step>, id: nat)
    requires Runs(Initial(workers), steps) && HazardFree(Initial(workers), steps)
    ensures var t := After(Initial(workers), steps);
            && Owners(t, id) == (if id < t.made then 1 else 0)
            && Count(t.invoked, id) <= 1 && |t.runners| == |t.invoked|
            && (t.freed[id] > 0 ==> Count(t.invoked, id) == 1 && id !in t.queue && Total(t.workers, HeldCount(id)) == 0)
            && (Count(t.invoked, id) == 1 ==> t.freed[id] == 1 || Total(t.workers, RunningCount(id)) == 1)
  {
    InitialLinear(workers);
    RunKeepsLinear(Initial(workers), steps);
    var t := After(Initial(workers), steps);
    assert LinearAt(t, id);
    RunningIsHeld(t.workers, id);
    CountMember(t.queue, id);
  }
}
