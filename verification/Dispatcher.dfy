/** iocp_impl as an object: the port, the worker threads and the submissions, one action a method. */
module Dispatcher {
  import opened DispatcherModel
  import opened DispatcherProofs

  /** The state after worker w has begun the entry it stands at and its handler has returned or thrown. */
  function Handled(s: State, w: nat, threw: bool): State
    requires Enabled(s, Begin(w))
  {
    var t := Next(s, Begin(w));
    Next(t, if threw then Throw(w) else Return(w))
  }

  lemma HandledSteps(s: State, w: nat, threw: bool)
    requires Enabled(s, Begin(w))
    ensures AtEntry(Next(s, Begin(w)), w) && Next(s, Begin(w)).workers[w].running
    ensures Handled(s, w, threw) == Next(Next(s, Begin(w)), if threw then Throw(w) else Return(w))
  {
  }

  lemma HandledFields(s: State, w: nat, threw: bool)
    requires Enabled(s, Begin(w))
    ensures var x, t := s.workers[w], Handled(s, w, threw);
            && t.invoked == s.invoked + [x.batch[x.next]] && t.freed == s.freed + multiset{x.batch[x.next]}
            && t.queue == s.queue
            && t.workers == s.workers[w := if threw then Exited(x.batch[x.next + 1..], true)
                                           else Dispatching(x.batch, x.next + 1, false)]
  {
  }

  /** Worker w is about to look at entry i of its batch. */
  predicate AtStart(s: State, w: nat, throws: seq<bool>, i: nat) {
    && IsDispatching(s, w) && !s.workers[w].running && s.workers[w].next == i
    && |throws| == |s.workers[w].batch|
  }

  /** The rest of the batch from entry i on: entries are handled one by one until one throws. */
  function DispatchFrom(s: State, w: nat, throws: seq<bool>, i: nat): (t: State)
    requires AtStart(s, w, throws, i)
    ensures |t.workers| == |s.workers|
    decreases |throws| - i
  {
    if i == |throws| then Next(s, EndBatch(w))
    else
      HandledFields(s, w, throws[i]);
      if throws[i] then Handled(s, w, true) else DispatchFrom(Handled(s, w, false), w, throws, i + 1)
  }

  /** How far the batch gets: up to and including the first entry that throws. */
  function Reached(throws: seq<bool>, i: nat): (n: nat)
    requires i <= |throws|
    ensures i <= n <= |throws|
    decreases |throws| - i
  {
    if i == |throws| then i else if throws[i] then i + 1 else Reached(throws, i + 1)
  }

  lemma BatchStep(s: State, w: nat, throws: seq<bool>, i: nat)
    requires AtStart(s, w, throws, i) && i < |throws|
    ensures var t, x := Handled(s, w, throws[i]), s.workers[w];
            && t.invoked == s.invoked + [x.batch[i]] && t.queue == s.queue && |t.workers| == |s.workers|
            && t.workers[w] == (if throws[i] then Exited(x.batch[i + 1..], true)
                                else Dispatching(x.batch, i + 1, false))
            && DispatchFrom(s, w, throws, i) == if throws[i] then t else DispatchFrom(t, w, throws, i + 1)
  {
    HandledFields(s, w, throws[i]);
  }

  lemma OneEntry(done: seq<nat>, batch: seq<nat>, i: nat, n: nat)
    requires i < n <= |batch|
    ensures done + batch[i..n] == done + [batch[i]] + batch[i + 1..n]
    ensures n == i + 1 ==> done + batch[i..n] == done + [batch[i]]
  {
  }

  /** A batch is begun in order, without gaps, up to and including the first handler that throws. */
  lemma {:induction false} BatchInvoked(s: State, w: nat, throws: seq<bool>, i: nat)
    requires AtStart(s, w, throws, i)
    ensures DispatchFrom(s, w, throws, i).invoked == s.invoked + s.workers[w].batch[i..Reached(throws, i)]
    decreases |throws| - i
  {
    var n, batch := Reached(throws, i), s.workers[w].batch;
    if i == |throws| {
      assert batch[i..n] == [];
    } else {
      BatchStep(s, w, throws, i);
      OneEntry(s.invoked, batch, i, n);
      if !throws[i] {
        BatchInvoked(Handled(s, w, false), w, throws, i + 1);
      }
    }
  }

  /** The worker after its batch: the entries behind a throw are lost with it; without a throw it waits again. */
  function AfterBatch(batch: seq<nat>, throws: seq<bool>, i: nat): Worker
    requires i <= |throws| == |batch|
  {
    var n := Reached(throws, i);
    if n > i && throws[n - 1] then Exited(batch[n..], true) else Waiting(batch)
  }

  lemma AfterBatchStep(batch: seq<nat>, throws: seq<bool>, i: nat)
    requires i < |throws| == |batch|
    ensures AfterBatch(batch, throws, i)
         == if throws[i] then Exited(batch[i + 1..], true) else AfterBatch(batch, throws, i + 1)
  {
  }

  lemma {:induction false} BatchOutcome(s: State, w: nat, throws: seq<bool>, i: nat)
    requires AtStart(s, w, throws, i)
    ensures DispatchFrom(s, w, throws, i).workers[w] == AfterBatch(s.workers[w].batch, throws, i)
    decreases |throws| - i
  {
    if i < |throws| {
      BatchStep(s, w, throws, i);
      AfterBatchStep(s.workers[w].batch, throws, i);
      if !throws[i] {
        BatchOutcome(Handled(s, w, false), w, throws, i + 1);
      }
    }
  }

  ghost predicate Sound(s: State) { Linear(s) && BatchInv(s) }

  lemma StepKeepsSound(s: State, a: Step)
    requires Sound(s) && Enabled(s, a) && !Hazard(s, a)
    ensures Sound(Next(s, a))
  {
    CleanStepKeepsLinear(s, a);
    StepKeepsBatches(s, a);
  }

  class IocpImpl {
    var made: nat
    var submitting: multiset<nat>
    var pending: multiset<nat>
    var queue: seq<nat>
    var workers: seq<Worker>
    var freed: multiset<nat>
    var leaked: multiset<nat>
    var invoked: seq<nat>
    var runners: seq<Runner>
    var arrivals: seq<nat>
    var stopping: bool

    function Abs(): State
      reads this
    {
      State(made, submitting, pending, queue, workers, freed, leaked, invoked, runners, arrivals, stopping)
    }

    ghost predicate Valid()
      reads this
    {
      Sound(Abs())
    }

    /** start(): every worker is about to wait. */
    constructor (threadCount: nat)
      ensures Abs() == Initial(threadCount) && Valid()
    {
      made, queue, invoked, runners, arrivals, stopping := 0, [], [], [], [], false;
      submitting, pending, freed, leaked := multiset{}, multiset{}, multiset{}, multiset{};
      workers := seq(threadCount, _ => Waiting([]));
      InitialLinear(threadCount);
    }

    /** make_callback_ptr into a unique_ptr */
    method MakeCallback() returns (id: nat)
      requires Valid()
      modifies this
      ensures id == old(made) && Abs() == Next(old(Abs()), Make) && Valid()
    {
      StepKeepsSound(Abs(), Make);
      id := made;
      made := made + 1;
      submitting := submitting + multiset{id};
    }

    /** post: hand the callback to the port, then release() whatever the port answered. */
    method Post(id: nat, ok: bool)
      requires Valid() && id in submitting
      modifies this
      ensures Abs() == Next(old(Abs()), DispatcherModel.Step.Post(id, ok)) && Valid()
    {
      StepKeepsSound(Abs(), DispatcherModel.Step.Post(id, ok));
      submitting := submitting - multiset{id};
      if ok {
        queue, arrivals := queue + [id], arrivals + [id];
      } else {
        leaked := leaked + multiset{id};
      }
    }

    /** async_result->invoke by the submitter, whose unique_ptr then frees the callback. */
    method InvokeHere(id: nat)
      requires Valid() && id in submitting
      modifies this`submitting, this`invoked, this`runners, this`freed
      ensures Abs() == Next(old(Abs()), SubmitFails(id)) && Valid()
    {
      StepKeepsSound(Abs(), SubmitFails(id));
      submitting := submitting - multiset{id};
      invoked, runners := invoked + [id], runners + [Submitter];
      freed := freed + multiset{id};
    }

    /** async_result.release() with the operation under way */
    method Release(id: nat)
      requires Valid() && id in submitting
      modifies this`submitting, this`pending
      ensures Abs() == Next(old(Abs()), SubmitPends(id)) && Valid()
    {
      StepKeepsSound(Abs(), SubmitPends(id));
      submitting := submitting - multiset{id};
      pending := pending + multiset{id};
    }

    /** pipe_async_read and pipe_async_write: an operation that fails at once is reported and freed here, any
        other is released to the kernel. */
    method Submit(id: nat, failed: bool)
      requires Valid() && id in submitting
      modifies this
      ensures Abs() == Next(old(Abs()), if failed then SubmitFails(id) else SubmitPends(id)) && Valid()
    {
      if failed {
        InvokeHere(id);
        return;
      }
      Release(id);
    }

    /** The kernel completes an operation and queues its packet. */
    method Complete(id: nat)
      requires Valid() && id in pending
      modifies this
      ensures Abs() == Next(old(Abs()), KernelCompletes(id)) && Valid()
    {
      StepKeepsSound(Abs(), KernelCompletes(id));
      pending := pending - multiset{id};
      queue, arrivals := queue + [id], arrivals + [id];
    }

    /** get_status_ex returns the first n packets. */
    method GetStatus(w: nat, n: nat)
      requires Valid() && IsWaiting(Abs(), w) && 1 <= n <= BATCH && n <= |queue|
      modifies this
      ensures Abs() == Next(old(Abs()), TakeBatch(w, n)) && Valid()
    {
      StepKeepsSound(Abs(), TakeBatch(w, n));
      workers := workers[w := Dispatching(queue[..n], 0, false)];
      queue := queue[n..];
    }

    /** handle_callback up to the handler */
    method BeginCallback(w: nat)
      requires Valid() && AtEntry(Abs(), w) && !workers[w].running
      modifies this`invoked, this`runners, this`workers
      ensures Abs() == Next(old(Abs()), Begin(w)) && Valid()
    {
      StepKeepsSound(Abs(), Begin(w));
      var x := workers[w];
      invoked, runners := invoked + [x.batch[x.next]], runners + [ByWorker(w)];
      workers := workers[w := x.(running := true)];
    }

    method Advance(w: nat)
      requires Valid() && AtEntry(Abs(), w) && workers[w].running
      modifies this`workers, this`freed
      ensures Abs() == Next(old(Abs()), Return(w)) && Valid()
    {
      StepKeepsSound(Abs(), Return(w));
      var x := workers[w];
      freed := freed + multiset{x.batch[x.next]};
      workers := workers[w := x.(running := false, next := x.next + 1)];
    }

    method LeaveOnThrow(w: nat)
      requires Valid() && AtEntry(Abs(), w) && workers[w].running
      modifies this`workers, this`freed
      ensures Abs() == Next(old(Abs()), Throw(w)) && Valid()
    {
      StepKeepsSound(Abs(), Throw(w));
      var x := workers[w];
      freed := freed + multiset{x.batch[x.next]};
      workers := workers[w := Exited(x.batch[x.next + 1..], true)];
    }

    /** handle_callback after the handler: the unique_ptr frees the callback; a throw leaves run. */
    method EndCallback(w: nat, threw: bool)
      requires Valid() && AtEntry(Abs(), w) && workers[w].running
      modifies this`workers, this`freed
      ensures Abs() == Next(old(Abs()), if threw then Throw(w) else Return(w)) && Valid()
    {
      if threw {
        LeaveOnThrow(w);
      } else {
        Advance(w);
      }
    }

    /** handle_callback as a whole, with nothing else going on. */
    method HandleCallback(w: nat, threw: bool)
      requires Valid() && AtEntry(Abs(), w) && !workers[w].running
      modifies this`invoked, this`runners, this`workers, this`freed
      ensures Valid() && Abs() == Handled(old(Abs()), w, threw)
    {
      HandledSteps(Abs(), w, threw);
      BeginCallback(w);
      EndCallback(w, threw);
    }

    /** Back to the wait; the array keeps the entries. */
    method FinishBatch(w: nat)
      requires Valid() && IsDispatching(Abs(), w) && !workers[w].running && workers[w].next == |workers[w].batch|
      modifies this`workers
      ensures Abs() == Next(old(Abs()), EndBatch(w)) && Valid()
    {
      StepKeepsSound(Abs(), EndBatch(w));
      workers := workers[w := Waiting(workers[w].batch)];
    }

    /** The loop of run over one batch, lines 88-101, with nothing else going on: `throws[i]` says whether the
        handler of entry i throws. */
    method DispatchBatch(w: nat, throws: seq<bool>)
      requires Valid() && AtStart(Abs(), w, throws, 0)
      modifies this`invoked, this`runners, this`workers, this`freed
      ensures Valid() && Abs() == DispatchFrom(old(Abs()), w, throws, 0)
    {
      var i := 0;
      while i != |throws|
        invariant Valid() && i <= |throws| && AtStart(Abs(), w, throws, i)
        invariant DispatchFrom(Abs(), w, throws, i) == DispatchFrom(old(Abs()), w, throws, 0)
        decreases |throws| - i
      {
        HandledFields(Abs(), w, throws[i]);
        HandleCallback(w, throws[i]);
        if throws[i] {
          return;
        }
        i := i + 1;
      }
      FinishBatch(w);
    }

    /** stop() queues an APC to every worker. */
    method StopAll()
      requires Valid()
      modifies this
      ensures Abs() == Next(old(Abs()), Stop) && Valid()
    {
      StepKeepsSound(Abs(), Stop);
      stopping := true;
    }

    /** The APC breaks the wait. */
    method LeaveOnAlert(w: nat)
      requires Valid() && IsWaiting(Abs(), w) && stopping
      modifies this
      ensures Abs() == Next(old(Abs()), Alert(w)) && Valid()
    {
      StepKeepsSound(Abs(), Alert(w));
      workers := workers[w := Exited([], false)];
    }
  }
}
