/** Who runs a handler: the submitter, or the worker the port gave the callback to; and the runs in which both do. */
module DispatcherRunners {
  import opened Totals
  import opened DispatcherModel

  // ---- submitter or worker ----

  predicate AllIn(ids: seq<nat>, all: seq<nat>) { forall k :: 0 <= k < |ids| ==> ids[k] in all }

  /** What has gone through the port is with the port or a worker, or done; and workers have begun exactly what
      has gone through it. */
  ghost predicate Origins(s: State) {
    && (forall id: nat :: id in s.arrivals ==>
          id < s.made && id !in s.submitting && id !in s.pending && id !in s.leaked)
    && AllIn(s.queue, s.arrivals)
    && (forall w :: 0 <= w < |s.workers| ==> AllIn(Held(s.workers[w]), s.arrivals))
    && |s.runners| == |s.invoked|
    && (forall k :: 0 <= k < |s.invoked| ==> (s.runners[k].ByWorker? <==> s.invoked[k] in s.arrivals))
  }

  /** A callback on its way to the port has not been begun and is held by nobody else. */
  lemma OnItsWay(s: State, id: nat)
    requires Linear(s) && (id in s.submitting || id in s.pending)
    ensures id < s.made && id !in s.invoked && id !in s.leaked
    ensures s.submitting[id] + s.pending[id] == 1
  {
    assert LinearAt(s, id);
    RunningIsHeld(s.workers, id);
    CountMember(s.invoked, id);
  }

  lemma ArrivalKeepsOrigins(s: State, a: Step)
    requires Linear(s) && Origins(s) && Enabled(s, a) && ((a.Post? && a.ok) || a.KernelCompletes?)
    ensures Origins(Next(s, a))
  {
    OnItsWay(s, a.id);
  }

  lemma SubmitterKeepsOrigins(s: State, a: Step)
    requires Linear(s) && Origins(s) && Enabled(s, a) && !Hazard(s, a)
    requires a.Make? || (a.Post? && !a.ok) || a.SubmitFails? || a.SubmitPends? || a.SubmitInline?
    ensures Origins(Next(s, a))
  {
    if !a.Make? {
      OnItsWay(s, a.id);
    }
  }

  lemma TakeKeepsOrigins(s: State, w: nat, n: nat)
    requires Origins(s) && Enabled(s, TakeBatch(w, n))
    ensures Origins(Next(s, TakeBatch(w, n)))
  {
    var t := Next(s, TakeBatch(w, n));
    assert Held(t.workers[w]) == s.queue[..n];
  }

  /** The worker keeps or drops entries of its batch. */
  lemma HandleKeepsOrigins(s: State, w: nat, a: Step)
    requires Origins(s) && Enabled(s, a) && (a == Begin(w) || a == Return(w) || a == Throw(w))
    ensures Origins(Next(s, a))
  {
    var x, y := s.workers[w], Next(s, a).workers[w];
    assert AllIn(Held(x), s.arrivals) && Held(x)[0] == x.batch[x.next];
    assert Held(y) == if a.Begin? then Held(x) else Held(x)[1..];
  }

  lemma LoopKeepsOrigins(s: State, w: nat, a: Step)
    requires Origins(s) && Enabled(s, a) && !Hazard(s, a) && (a == EndBatch(w) || a == Alert(w) || a == WaitFails(w))
    ensures Origins(Next(s, a))
  {
    assert Held(Next(s, a).workers[w]) == [];
  }

  lemma StepKeepsOrigins(s: State, a: Step)
    requires Linear(s) && Origins(s) && Enabled(s, a) && !Hazard(s, a)
    ensures Origins(Next(s, a))
  {
    match a
    case TakeBatch(w, n) => TakeKeepsOrigins(s, w, n);
    case Begin(w) => HandleKeepsOrigins(s, w, a);
    case Return(w) => HandleKeepsOrigins(s, w, a);
    case Throw(w) => HandleKeepsOrigins(s, w, a);
    case EndBatch(w) => LoopKeepsOrigins(s, w, a);
    case Alert(w) => LoopKeepsOrigins(s, w, a);
    case WaitFails(w) => LoopKeepsOrigins(s, w, a);
    case KernelCompletes(_) => ArrivalKeepsOrigins(s, a);
    case Post(_, ok) => if ok { ArrivalKeepsOrigins(s, a); } else { SubmitterKeepsOrigins(s, a); }
    case Stop =>
    case _ => SubmitterKeepsOrigins(s, a);
  }

  lemma {:induction false} RunKeepsOrigins(s: State, steps: seq<Step>)
    requires Linear(s) && Origins(s) && Runs(s, steps) && HazardFree(s, steps)
    ensures Linear(After(s, steps)) && Origins(After(s, steps))
    decreases |steps|
  {
    if steps == [] {
    } else {
      CleanStepKeepsLinear(s, steps[0]);
      StepKeepsOrigins(s, steps[0]);
      RunKeepsOrigins(Next(s, steps[0]), steps[1..]);
    }
  }

  /** Over every run without a hazard: a handler has been begun by a worker exactly if its callback went through
      the port, that is, was posted to it or completed by the kernel; otherwise its submitter began it. */
  lemma RunnerExactly(workers: nat, steps: seq<Step>, k: nat)
    requires Runs(Initial(workers), steps) && HazardFree(Initial(workers), steps)
    requires k < |After(Initial(workers), steps).invoked|
    ensures var t := After(Initial(workers), steps);
            |t.runners| == |t.invoked| && (t.runners[k].ByWorker? <==> t.invoked[k] in t.arrivals)
  {
    InitialLinear(workers);
    RunKeepsOrigins(Initial(workers), steps);
  }

  /** Nothing is on its way: no submitter, kernel, port or worker holds a callback. */
  predicate Settled(s: State) {
    && s.submitting == multiset{} && s.pending == multiset{} && s.queue == []
    && forall w :: 0 <= w < |s.workers| ==> Held(s.workers[w]) == []
  }

  lemma {:induction false} NothingHeld(workers: seq<Worker>, id: nat)
    requires forall w :: 0 <= w < |workers| ==> Held(workers[w]) == []
    ensures Total(workers, HeldCount(id)) == 0
  {
    if workers == [] {
    } else {
      assert Held(workers[0]) == [];
      NothingHeld(workers[1..], id);
    }
  }

  /** A settled callback is freed, or leaked. */
  lemma SettledShares(s: State, id: nat)
    requires Linear(s) && Settled(s) && id < s.made
    ensures s.freed[id] + s.leaked[id] == 1 && Count(s.invoked, id) == s.freed[id]
  {
    assert LinearAt(s, id);
    NothingHeld(s.workers, id);
    RunningIsHeld(s.workers, id);
  }

  /** Submission exactly once: when everything has settled, each callback made has been run exactly once and freed,
      by a worker if it went through the port and by its submitter if not, unless the port refused it and it
      leaked unrun. */
  lemma ExactlyOnceWhenSettled(workers: nat, steps: seq<Step>, id: nat)
    requires Runs(Initial(workers), steps) && HazardFree(Initial(workers), steps)
    requires Settled(After(Initial(workers), steps)) && id < After(Initial(workers), steps).made
    ensures var t := After(Initial(workers), steps);
            && |t.runners| == |t.invoked|
            && (if id in t.leaked then id !in t.invoked && t.freed[id] == 0
                else Count(t.invoked, id) == 1 && t.freed[id] == 1)
            && forall k :: 0 <= k < |t.invoked| && t.invoked[k] == id ==>
                 t.runners[k].ByWorker? == (id in t.arrivals)
  {
    InitialLinear(workers);
    RunKeepsOrigins(Initial(workers), steps);
    var t := After(Initial(workers), steps);
    SettledShares(t, id);
    CountMember(t.invoked, id);
  }

  // ---- the two hazards happen ----

  lemma Prepend(s: State, a: Step, rest: seq<Step>, last: State)
    requires Enabled(s, a) && Runs(Next(s, a), rest) && After(Next(s, a), rest) == last
    ensures Runs(s, [a] + rest) && After(s, [a] + rest) == last
  {
    assert ([a] + rest)[1..] == rest;
  }

  /** The only worker is `x` and callback 0 the only one made; nothing is pending or leaked. */
  function OneCallback(submitting: multiset<nat>, queue: seq<nat>, x: Worker, freed: multiset<nat>,
                       invoked: seq<nat>, runners: seq<Runner>, arrivals: seq<nat>): State
  {
    State(1, submitting, multiset{}, queue, [x], freed, multiset{}, invoked, runners, arrivals, false)
  }

  lemma MakeFirst()
    ensures Enabled(Initial(1), Make)
    ensures Next(Initial(1), Make) == OneCallback(multiset{0}, [], Waiting([]), multiset{}, [], [], [])
  {
    assert Initial(1).workers == [Waiting([])];
  }

  /** The worker takes the queued callback and begins it. */
  lemma TakeAndBegin(x: Worker, freed: multiset<nat>, invoked: seq<nat>, runners: seq<Runner>, rest: seq<Step>,
                     last: State)
    requires x.Waiting?
    requires var t := OneCallback(multiset{}, [], Dispatching([0], 0, true), freed, invoked + [0],
                                  runners + [ByWorker(0)], [0]);
             Runs(t, rest) && After(t, rest) == last
    ensures var s := OneCallback(multiset{}, [0], x, freed, invoked, runners, [0]);
            var steps := [TakeBatch(0, 1)] + ([Begin(0)] + rest);
            Runs(s, steps) && After(s, steps) == last
  {
    var s := OneCallback(multiset{}, [0], x, freed, invoked, runners, [0]);
    var s1 := OneCallback(multiset{}, [], Dispatching([0], 0, false), freed, invoked, runners, [0]);
    assert [0][..1] == [0] && [0][1..] == [] && Next(s, TakeBatch(0, 1)) == s1;
    assert s1.workers[0 := Dispatching([0], 0, true)] == [Dispatching([0], 0, true)];
    Prepend(s1, Begin(0), rest, last);
    Prepend(s, TakeBatch(0, 1), [Begin(0)] + rest, last);
  }

  lemma SubmitAndQueue()
    ensures var s := OneCallback(multiset{0}, [], Waiting([]), multiset{}, [], [], []);
            && Enabled(s, SubmitInline(0, false))
            && Next(s, SubmitInline(0, false))
               == OneCallback(multiset{}, [0], Waiting([]), multiset{0}, [0], [Submitter], [0])
  {
  }

  /** An immediate success that still queues a packet: the submitter runs and frees the callback, and a worker
      begins it again. */
  lemma InlineSuccessRunsTwice() returns (steps: seq<Step>)
    ensures Runs(Initial(1), steps)
    ensures var t := After(Initial(1), steps);
            t.invoked == [0, 0] && t.runners == [Submitter, ByWorker(0)] && t.freed[0] == 1
  {
    var last := OneCallback(multiset{}, [], Dispatching([0], 0, true), multiset{0},
                            [0] + [0], [Submitter] + [ByWorker(0)], [0]);
    TakeAndBegin(Waiting([]), multiset{0}, [0], [Submitter], [], last);
    steps := [TakeBatch(0, 1)] + ([Begin(0)] + []);
    SubmitAndQueue();
    Prepend(OneCallback(multiset{0}, [], Waiting([]), multiset{}, [], [], []), SubmitInline(0, false), steps, last);
    steps := [SubmitInline(0, false)] + steps;
    MakeFirst();
    Prepend(Initial(1), Make, steps, last);
    steps := [Make] + steps;
  }

  /** Callback 0 has been posted and begun once by worker `x`. */
  function BegunOnce(x: Worker, freed: multiset<nat>): State {
    OneCallback(multiset{}, [], x, freed, [0], [ByWorker(0)], [0])
  }

  lemma ReturnAndEnd(rest: seq<Step>, last: State)
    requires var t := BegunOnce(Waiting([0]), multiset{0});
             Runs(t, rest) && After(t, rest) == last
    ensures var s, steps := BegunOnce(Dispatching([0], 0, true), multiset{}), [Return(0)] + ([EndBatch(0)] + rest);
            Runs(s, steps) && After(s, steps) == last
  {
    var s := BegunOnce(Dispatching([0], 0, true), multiset{});
    var s1 := BegunOnce(Dispatching([0], 1, false), multiset{0});
    assert s.workers[0 := s1.workers[0]] == s1.workers && Next(s, Return(0)) == s1;
    assert s1.workers[0 := Waiting([0])] == [Waiting([0])];
    Prepend(s1, EndBatch(0), rest, last);
    Prepend(s, Return(0), [EndBatch(0)] + rest, last);
  }

  /** The next wait fails, and the worker begins the callback it has freed. */
  lemma FailAndBegin()
    ensures var s, steps := BegunOnce(Waiting([0]), multiset{0}), [WaitFails(0)] + ([Begin(0)] + []);
            Runs(s, steps) && After(s, steps).invoked == [0, 0] && After(s, steps).freed[0] == 1
  {
    var s := BegunOnce(Waiting([0]), multiset{0});
    var s1 := BegunOnce(Dispatching([0], 0, false), multiset{0});
    assert s.workers[0 := s1.workers[0]] == s1.workers && Next(s, WaitFails(0)) == s1;
    var last := Next(s1, Begin(0));
    Prepend(s1, Begin(0), [], last);
    Prepend(s, WaitFails(0), [Begin(0)] + [], last);
  }

  /** A wait that fails after a batch: the worker begins a callback again that it has freed. */
  lemma FailedWaitRunsTwice() returns (steps: seq<Step>)
    ensures Runs(Initial(1), steps)
    ensures var t := After(Initial(1), steps); t.invoked == [0, 0] && t.freed[0] == 1
  {
    FailAndBegin();
    steps := [WaitFails(0)] + ([Begin(0)] + []);
    var last := After(BegunOnce(Waiting([0]), multiset{0}), steps);
    ReturnAndEnd(steps, last);
    steps := [Return(0)] + ([EndBatch(0)] + steps);
    assert [] + [0] == [0] && [] + [ByWorker(0)] == [ByWorker(0)];
    TakeAndBegin(Waiting([]), multiset{}, [], [], steps, last);
    steps := [TakeBatch(0, 1)] + ([Begin(0)] + steps);
    var s1 := OneCallback(multiset{0}, [], Waiting([]), multiset{}, [], [], []);
    assert Next(s1, Post(0, true)) == OneCallback(multiset{}, [0], Waiting([]), multiset{}, [], [], [0]);
    Prepend(s1, Post(0, true), steps, last);
    steps := [Post(0, true)] + steps;
    MakeFirst();
    Prepend(Initial(1), Make, steps, last);
    steps := [Make] + steps;
  }
}
