/** What holds of the thread pool in every reachable state, whatever Stop stores and wherever it stores it. */
module TaskPollSafety {
  import opened TaskPollModel

  predicate WorkerHolds(p: Phase) { p.EmptyTest? || p.AboutToWait? || p.StopTest? || p.Take? }

  predicate PosterHolds(p: PostPhase) { p.PostPush? || p.PostNotify? || p.PostUnlock? }

  predicate StopperHolds(cfg: StopOrder, p: StopPhase) {
    p.ClearAndSwap? || p.ReleaseLock? || (cfg.underLock && (p.StoreFlag? || p.NotifyAll?))
  }

  /** Stop has passed its store of the flag. */
  predicate PastStore(cfg: StopOrder, p: StopPhase) {
    !p.NotCalled? && !p.StoreFlag? && (p.WantStopLock? ==> !cfg.underLock)
  }

  /** Mutual exclusion: exactly the recorded owner stands inside a critical section. */
  predicate MutexInv(cfg: StopOrder, s: State) {
    && (forall w :: 0 <= w < |s.workers| ==> (WorkerHolds(s.workers[w]) <==> s.owner == Worker(w)))
    && (forall p :: 0 <= p < |s.posters| ==> (PosterHolds(s.posters[p]) <==> s.owner == Poster(p)))
    && (StopperHolds(cfg, s.stopper) <==> s.owner == Stopper)
    && (s.owner.Worker? ==> s.owner.id < |s.workers|)
    && (s.owner.Poster? ==> s.owner.id < |s.posters|)
  }

  /** The flag is set exactly after a store of true, and never goes back. */
  predicate FlagInv(cfg: StopOrder, s: State) { s.stop <==> cfg.stored && PastStore(cfg, s.stopper) }

  /** What each test that a worker has passed still guarantees. */
  predicate PhaseInv(s: State) {
    forall w :: 0 <= w < |s.workers| ==>
      && !s.workers[w].Undefined?
      && (s.workers[w].AboutToWait? ==> s.tasks == [])
      && (s.workers[w].StopTest? ==> s.tasks != [] || s.stop)
      && (s.workers[w].Take? ==> s.tasks != [])
      && (s.workers[w].Exited? ==> s.stop)
  }

  /** A poster stands between its push and its notify_all. */
  predicate PushPending(s: State) { exists p :: 0 <= p < |s.posters| && s.posters[p].PostNotify? }

  /** No lost wake-up: nobody sleeps un-notified beside a queued task. */
  predicate WakeInv(s: State) {
    s.tasks != [] && !PushPending(s) ==> forall w :: 0 <= w < |s.workers| ==> !s.workers[w].Parked?
  }

  predicate BusyWith(p: Phase, k: nat) { p.Busy? && p.ticket == k }

  /** tasks_ is what was posted and not yet taken, in order; each ticket that was handed to a worker is
      running on that worker or finished, never both, and a discarded one is neither. Only Stop discards. */
  predicate TicketInv(s: State) {
    && |s.fates| <= |s.posted| && s.tasks == s.posted[|s.fates|..]
    && (forall w | 0 <= w < |s.workers| && s.workers[w].Busy? ::
          && s.workers[w].ticket < |s.fates| && s.fates[s.workers[w].ticket] == RunBy(w)
          && s.workers[w].ticket !in s.finished)
    && (forall k | 0 <= k < |s.fates| && s.fates[k].RunBy? && k !in s.finished ::
          s.fates[k].worker < |s.workers| && BusyWith(s.workers[s.fates[k].worker], k))
    && (forall j | 0 <= j < |s.finished| :: s.finished[j] < |s.fates| && s.fates[s.finished[j]].RunBy?)
    && (forall i, j | 0 <= i < j < |s.finished| :: s.finished[i] != s.finished[j])
    && (s.stopper.NotCalled? ==> forall k | 0 <= k < |s.fates| :: s.fates[k].RunBy?)
  }

  /** Stop's view of the threads: it moves all of them out and has joined a prefix. */
  predicate JoinInv(s: State) {
    && (if s.stopper.ReleaseLock? || s.stopper.Join? || s.stopper.Returned?
        then s.threads == [] && s.joining == Range(|s.workers|)
        else s.threads == Range(|s.workers|) && s.joining == [])
    && (InsideStop(s) && s.caller.OfWorker?
        ==> s.caller.id < |s.workers| && s.workers[s.caller.id].Busy?)
    && (s.stopper.Join? ==> s.stopper.next <= |s.joining|)
    && (forall i | 0 <= i < |s.joining| && (s.stopper.Returned? || (s.stopper.Join? && i < s.stopper.next)) ::
          s.caller == OfWorker(i) || s.workers[i].Exited?)
  }

  predicate Inv(cfg: StopOrder, s: State) {
    MutexInv(cfg, s) && FlagInv(cfg, s) && PhaseInv(s) && WakeInv(s) && TicketInv(s) && JoinInv(s)
  }

  lemma WorkerKeepsMutex(cfg: StopOrder, s: State, w: nat)
    requires MutexInv(cfg, s) && PhaseInv(s) && WorkerEnabled(s, w)
    ensures MutexInv(cfg, WorkerNext(s, w))
  {
  }

  lemma PosterKeepsMutex(cfg: StopOrder, s: State, p: nat)
    requires MutexInv(cfg, s) && PosterEnabled(s, p)
    ensures MutexInv(cfg, PosterNext(s, p))
  {
  }

  lemma StopperKeepsMutex(cfg: StopOrder, s: State)
    requires MutexInv(cfg, s) && StopperEnabled(s)
    ensures MutexInv(cfg, StopperNext(cfg, s))
  {
  }

  lemma StepKeepsMutex(cfg: StopOrder, s: State, a: Step)
    requires MutexInv(cfg, s) && PhaseInv(s) && Enabled(s, a)
    ensures MutexInv(cfg, Next(cfg, s, a))
  {
    match a
    case WorkerStep(w) => WorkerKeepsMutex(cfg, s, w);
    case PosterStep(p) => PosterKeepsMutex(cfg, s, p);
    case StopperStep => StopperKeepsMutex(cfg, s);
    case _ =>
  }

  lemma StepKeepsFlag(cfg: StopOrder, s: State, a: Step)
    requires FlagInv(cfg, s) && Enabled(s, a)
    ensures FlagInv(cfg, Next(cfg, s, a))
  {
  }

  lemma WorkerKeepsPhase(cfg: StopOrder, s: State, w: nat)
    requires MutexInv(cfg, s) && PhaseInv(s) && WorkerEnabled(s, w)
    ensures PhaseInv(WorkerNext(s, w))
  {
  }

  lemma StopperKeepsPhase(cfg: StopOrder, s: State)
    requires MutexInv(cfg, s) && FlagInv(cfg, s) && PhaseInv(s) && StopperEnabled(s)
    ensures PhaseInv(StopperNext(cfg, s))
  {
  }

  /** The tests at lines 55 and 58 stay true up to the use they guard: the mutex keeps tasks_ still, and
      the flag, which changes without the mutex, only rises. */
  lemma StepKeepsPhase(cfg: StopOrder, s: State, a: Step)
    requires MutexInv(cfg, s) && FlagInv(cfg, s) && PhaseInv(s) && Enabled(s, a)
    ensures PhaseInv(Next(cfg, s, a))
  {
    match a
    case WorkerStep(w) => WorkerKeepsPhase(cfg, s, w);
    case StopperStep => StopperKeepsPhase(cfg, s);
    case _ =>
  }

  lemma StepKeepsWake(cfg: StopOrder, s: State, a: Step)
    requires MutexInv(cfg, s) && PhaseInv(s) && WakeInv(s) && Enabled(s, a)
    ensures WakeInv(Next(cfg, s, a))
  {
    var t := Next(cfg, s, a);
    if PushPending(s) && !(a.PosterStep? && s.posters[a.p].PostNotify?) {
      var p :| 0 <= p < |s.posters| && s.posters[p].PostNotify?;
      assert t.posters[p].PostNotify?;
    }
    if a.PosterStep? && s.posters[a.p].PostPush? {
      assert t.posters[a.p].PostNotify?;
    }
  }

  lemma TakeKeepsTickets(s: State, w: nat)
    requires TicketInv(s) && WorkerEnabled(s, w) && s.workers[w].Take? && s.tasks != []
    ensures TicketInv(WorkerNext(s, w))
  {
  }

  lemma ReturnKeepsTickets(s: State, w: nat)
    requires TicketInv(s) && WorkerEnabled(s, w) && s.workers[w].Busy?
    ensures TicketInv(WorkerNext(s, w))
  {
  }

  lemma WorkerKeepsTickets(s: State, w: nat)
    requires TicketInv(s) && PhaseInv(s) && WorkerEnabled(s, w)
    ensures TicketInv(WorkerNext(s, w))
  {
    if s.workers[w].Take? {
      TakeKeepsTickets(s, w);
    } else if s.workers[w].Busy? {
      ReturnKeepsTickets(s, w);
    } else {
      var t := WorkerNext(s, w);
      assert t.tasks == s.tasks && t.fates == s.fates && t.finished == s.finished && t.posted == s.posted;
      assert !t.workers[w].Busy? && t.workers == s.workers[w := t.workers[w]];
    }
  }

  lemma PosterKeepsTickets(s: State, p: nat)
    requires TicketInv(s) && PosterEnabled(s, p)
    ensures TicketInv(PosterNext(s, p))
  {
  }

  lemma StopperKeepsTickets(cfg: StopOrder, s: State)
    requires TicketInv(s) && StopperEnabled(s)
    ensures TicketInv(StopperNext(cfg, s))
  {
  }

  lemma StepKeepsTickets(cfg: StopOrder, s: State, a: Step)
    requires TicketInv(s) && PhaseInv(s) && Enabled(s, a)
    ensures TicketInv(Next(cfg, s, a))
  {
    match a
    case WorkerStep(w) => WorkerKeepsTickets(s, w);
    case PosterStep(p) => PosterKeepsTickets(s, p);
    case StopperStep => StopperKeepsTickets(cfg, s);
    case _ =>
  }

  lemma WorkerKeepsJoin(s: State, w: nat)
    requires JoinInv(s) && WorkerEnabled(s, w)
    ensures JoinInv(WorkerNext(s, w))
  {
  }

  lemma StopperKeepsJoin(cfg: StopOrder, s: State)
    requires JoinInv(s) && StopperEnabled(s)
    ensures JoinInv(StopperNext(cfg, s))
  {
  }

  lemma StepKeepsJoin(cfg: StopOrder, s: State, a: Step)
    requires JoinInv(s) && Enabled(s, a)
    ensures JoinInv(Next(cfg, s, a))
  {
    match a
    case WorkerStep(w) => WorkerKeepsJoin(s, w);
    case StopperStep => StopperKeepsJoin(cfg, s);
    case _ =>
  }

  lemma StepKeepsInv(cfg: StopOrder, s: State, a: Step)
    requires Inv(cfg, s) && Enabled(s, a)
    ensures Inv(cfg, Next(cfg, s, a))
  {
    StepKeepsMutex(cfg, s, a);
    StepKeepsFlag(cfg, s, a);
    StepKeepsPhase(cfg, s, a);
    StepKeepsWake(cfg, s, a);
    StepKeepsTickets(cfg, s, a);
    StepKeepsJoin(cfg, s, a);
  }

  lemma {:induction false} RunKeepsInv(cfg: StopOrder, s: State, steps: seq<Step>)
    requires Inv(cfg, s) && Runs(cfg, s, steps)
    ensures Inv(cfg, After(cfg, s, steps))
    ensures |After(cfg, s, steps).workers| == |s.workers|
    decreases |steps|
  {
    if steps == [] {
    } else {
      StepKeepsInv(cfg, s, steps[0]);
      RunKeepsInv(cfg, Next(cfg, s, steps[0]), steps[1..]);
    }
  }

  lemma InitHasInv(cfg: StopOrder, s: State, n: nat)
    requires Init(s, n)
    ensures Inv(cfg, s) && |s.workers| == n
  {
  }

  /** Every state of every run of a pool of any size keeps the whole invariant. */
  lemma ReachableInv(cfg: StopOrder, s: State, n: nat, steps: seq<Step>)
    requires Init(s, n) && Runs(cfg, s, steps)
    ensures Inv(cfg, After(cfg, s, steps)) && |After(cfg, s, steps).workers| == n
  {
    InitHasInv(cfg, s, n);
    RunKeepsInv(cfg, s, steps);
  }

  /** front and pop_front are never reached on an empty list. */
  lemma FrontNeverOnEmptyList(cfg: StopOrder, s: State, n: nat, steps: seq<Step>, w: nat)
    requires Init(s, n) && Runs(cfg, s, steps) && w < n
    ensures |After(cfg, s, steps).workers| == n
    ensures !After(cfg, s, steps).workers[w].Undefined?
    ensures After(cfg, s, steps).workers[w].Take? ==> After(cfg, s, steps).tasks != []
  {
    ReachableInv(cfg, s, n, steps);
  }

  /** The step of the thread that owns the mutex. */
  function OwnerStep(s: State): Step
    requires !s.owner.Nobody?
  {
    match s.owner
    case Worker(w) => WorkerStep(w)
    case Poster(p) => PosterStep(p)
    case Stopper => StopperStep
  }

  lemma OwnerCanStep(cfg: StopOrder, s: State)
    requires Inv(cfg, s) && !s.owner.Nobody?
    ensures Enabled(s, OwnerStep(s))
  {
  }

  /** No lost wake-up, for any number of posters and workers and with spurious wake-ups: beside a queued
      task whose notify_all is done nobody sleeps, and each worker that is not running a task or gone can
      step now, or waits only for a mutex whose owner can step. */
  lemma NoLostWakeUp(cfg: StopOrder, s: State, n: nat, steps: seq<Step>, w: nat)
    requires Init(s, n) && Runs(cfg, s, steps) && w < n
    requires After(cfg, s, steps).tasks != [] && !PushPending(After(cfg, s, steps))
    ensures var t := After(cfg, s, steps);
            && |t.workers| == n && !t.workers[w].Parked?
            && (t.workers[w].Busy? || t.workers[w].Exited? || WorkerEnabled(t, w)
                || (!t.owner.Nobody? && Enabled(t, OwnerStep(t))))
  {
    ReachableInv(cfg, s, n, steps);
    var t := After(cfg, s, steps);
    if !t.owner.Nobody? {
      OwnerCanStep(cfg, t);
    }
  }

  /** Tickets now running, as a sequence: one entry for each busy worker. */
  function Running(workers: seq<Phase>): seq<nat> {
    if workers == [] then []
    else (if workers[0].Busy? then [workers[0].ticket] else []) + Running(workers[1..])
  }

  lemma {:induction false} RunningHas(workers: seq<Phase>, k: nat)
    ensures k in Running(workers) <==> exists w :: 0 <= w < |workers| && BusyWith(workers[w], k)
  {
    if workers == [] {
    } else {
      RunningHas(workers[1..], k);
      if w :| 0 <= w < |workers| && BusyWith(workers[w], k) {
        assert w == 0 || BusyWith(workers[1..][w - 1], k);
      }
      if w :| 0 <= w < |workers[1..]| && BusyWith(workers[1..][w], k) {
        assert BusyWith(workers[w + 1], k);
      }
    }
  }

  predicate Distinct(ks: seq<nat>) { forall i, j :: 0 <= i < j < |ks| ==> ks[i] != ks[j] }

  lemma {:induction false} RunningDistinct(workers: seq<Phase>)
    requires forall v, w | 0 <= v < w < |workers| && workers[v].Busy? && workers[w].Busy? ::
               workers[v].ticket != workers[w].ticket
    ensures Distinct(Running(workers))
  {
    if workers == [] {
    } else {
      RunningDistinct(workers[1..]);
      if workers[0].Busy? {
        RunningHas(workers[1..], workers[0].ticket);
      }
    }
  }

  /** Conservation: what was posted is what was taken followed by what is queued; no ticket is run twice, at
      once or in succession; and a ticket has been run or is running exactly when it was handed to a worker. */
  lemma TaskConservation(cfg: StopOrder, s: State, n: nat, steps: seq<Step>)
    requires Init(s, n) && Runs(cfg, s, steps)
    ensures var t := After(cfg, s, steps);
            && |t.fates| <= |t.posted| && t.posted == t.posted[..|t.fates|] + t.tasks
            && Distinct(t.finished + Running(t.workers))
            && forall k: nat :: k in t.finished + Running(t.workers) <==> k < |t.fates| && t.fates[k].RunBy?
  {
    ReachableInv(cfg, s, n, steps);
    var t := After(cfg, s, steps);
    RunningDistinct(t.workers);
    forall k: nat
      ensures k in t.finished + Running(t.workers) <==> k < |t.fates| && t.fates[k].RunBy?
      ensures k in Running(t.workers) ==> k !in t.finished
    {
      RunningHas(t.workers, k);
    }
  }

  predicate InOrder(ks: seq<nat>) { forall i, j :: 0 <= i < j < |ks| ==> ks[i] < ks[j] }

  /** Tickets finished, then the one running: the order in which the tasks were begun. */
  function Begun(s: State): seq<nat> { s.finished + Running(s.workers) }

  lemma RunningOne(workers: seq<Phase>)
    requires |workers| == 1
    ensures Running(workers) == if workers[0].Busy? then [workers[0].ticket] else []
  {
    assert workers[1..] == [];
  }

  /** A worker that takes nothing begins nothing: at most it finishes what it runs. */
  lemma WorkerNextBegun(s: State)
    requires |s.workers| == 1 && WorkerEnabled(s, 0) && !s.workers[0].Take?
    ensures Begun(WorkerNext(s, 0)) == Begun(s)
  {
    RunningOne(s.workers);
    RunningOne(WorkerNext(s, 0).workers);
  }

  lemma OneWorkerStep(cfg: StopOrder, s: State, a: Step)
    requires |s.workers| == 1 && Enabled(s, a) && !(a.WorkerStep? && s.workers[0].Take?)
    ensures Begun(Next(cfg, s, a)) == Begun(s)
  {
    RunningOne(s.workers);
    RunningOne(Next(cfg, s, a).workers);
    if a.WorkerStep? {
      WorkerNextBegun(s);
    }
  }

  lemma OneWorkerTakes(cfg: StopOrder, s: State)
    requires Inv(cfg, s) && |s.workers| == 1 && s.workers[0].Take? && InOrder(Begun(s))
    ensures InOrder(Begun(WorkerNext(s, 0)))
  {
    var t := WorkerNext(s, 0);
    RunningOne(s.workers);
    RunningOne(t.workers);
    assert Begun(s) == s.finished && Begun(t) == s.finished + [|s.fates|];
    assert forall j :: 0 <= j < |s.finished| ==> s.finished[j] < |s.fates|;
  }

  predicate OneInOrder(cfg: StopOrder, s: State) { Inv(cfg, s) && |s.workers| == 1 && InOrder(Begun(s)) }

  lemma StepKeepsOneInOrder(cfg: StopOrder, s: State, a: Step)
    requires OneInOrder(cfg, s) && Enabled(s, a)
    ensures InOrder(Begun(Next(cfg, s, a))) && |Next(cfg, s, a).workers| == 1
  {
    if a.WorkerStep? && s.workers[0].Take? {
      OneWorkerTakes(cfg, s);
    } else {
      OneWorkerStep(cfg, s, a);
    }
  }

  /** With one worker, the size the control center asks for, tasks run in the order they were posted. */
  lemma {:induction false} SingleWorkerRunsInOrder(cfg: StopOrder, s: State, steps: seq<Step>)
    requires OneInOrder(cfg, s) && Runs(cfg, s, steps)
    ensures OneInOrder(cfg, After(cfg, s, steps))
    decreases |steps|
  {
    if steps == [] {
    } else {
      StepKeepsInv(cfg, s, steps[0]);
      StepKeepsOneInOrder(cfg, s, steps[0]);
      SingleWorkerRunsInOrder(cfg, Next(cfg, s, steps[0]), steps[1..]);
    }
  }

  /** From the start: one worker begins what was posted in the order it was posted. */
  lemma SingleWorkerIsFifo(cfg: StopOrder, s: State, steps: seq<Step>)
    requires Init(s, 1) && Runs(cfg, s, steps)
    ensures InOrder(Begun(After(cfg, s, steps)))
  {
    InitHasInv(cfg, s, 1);
    RunningOne(s.workers);
    assert Begun(s) == [];
    SingleWorkerRunsInOrder(cfg, s, steps);
  }
}
