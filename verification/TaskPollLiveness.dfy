/** What the thread pool brings to an end: the queue drains, and Stop returns exactly when its store and its
    notify cannot slip between a worker's test and its wait. */
module TaskPollLiveness {
  import opened TaskPollModel
  import opened TaskPollSafety
  import opened Totals

  // ---- every step but a spurious wake-up uses up work ----

  function WorkLeft(p: Phase): nat {
    match p
    case Busy(_, _) => 6
    case LoopTest => 5
    case WantLock | Woken => 4
    case EmptyTest => 3
    case StopTest => 2
    case Take | AboutToWait => 1
    case Parked | Exited | Undefined => 0
  }

  /** A notify_all may wake all `n` workers, so it is charged for them. */
  function PostWork(n: nat, p: PostPhase): nat {
    match p
    case PostWant(_) => 4 * n + 10
    case PostPush(_) => 4 * n + 9
    case PostNotify => 4 * n + 2
    case PostUnlock => 1
    case PostDone => 0
  }

  function PostWorkOf(n: nat): PostPhase -> nat { p => PostWork(n, p) }

  function StopWork(cfg: StopOrder, s: State): nat {
    var n, m := |s.workers|, |s.threads|;
    match s.stopper
    case NotCalled => m + 4 * n + 7
    case StoreFlag => m + 4 * n + (if cfg.underLock then 5 else 6)
    case NotifyAll => m + 4 * n + (if cfg.underLock then 4 else 5)
    case WantStopLock => m + (if cfg.underLock then 4 * n + 6 else 4)
    case ClearAndSwap => m + 3
    case ReleaseLock => |s.joining| + 2
    case Join(i) => if i <= |s.joining| then |s.joining| - i + 1 else 1
    case Returned => 0
  }

  /** Steps the pool can still make without a spurious wake-up. */
  function Potential(cfg: StopOrder, s: State): nat {
    6 * |s.tasks| + Total(s.workers, WorkLeft) + Total(s.posters, PostWorkOf(|s.workers|)) + StopWork(cfg, s)
  }

  /** A worker's step changes the queue and its own phase only, as far as work goes. */
  lemma WorkerSpends(s: State, w: nat)
    requires WorkerEnabled(s, w) && PhaseInv(s)
    ensures var t := WorkerNext(s, w);
            && |t.workers| == |s.workers| && t.workers == s.workers[w := t.workers[w]]
            && t.posters == s.posters && t.stopper == s.stopper && t.threads == s.threads && t.joining == s.joining
            && 6 * |t.tasks| + WorkLeft(t.workers[w]) < 6 * |s.tasks| + WorkLeft(s.workers[w])
  {
  }

  lemma WorkerUsesPotential(cfg: StopOrder, s: State, w: nat)
    requires WorkerEnabled(s, w) && PhaseInv(s)
    ensures Potential(cfg, WorkerNext(s, w)) < Potential(cfg, s)
  {
    WorkerSpends(s, w);
    TotalUpdate(s.workers, w, WorkerNext(s, w).workers[w], WorkLeft);
  }

  /** A poster's step may wake everybody and queue one task, and has put that much aside. */
  lemma PosterSpends(s: State, p: nat)
    requires PosterEnabled(s, p)
    ensures var t, n := PosterNext(s, p), |s.workers|;
            && |t.workers| == n && t.posters == s.posters[p := t.posters[p]]
            && t.stopper == s.stopper && t.threads == s.threads && t.joining == s.joining
            && 6 * |t.tasks| + Total(t.workers, WorkLeft) + PostWork(n, t.posters[p])
               < 6 * |s.tasks| + Total(s.workers, WorkLeft) + PostWork(n, s.posters[p])
  {
    TotalGrowth(s.workers, WakeAll(s.workers), WorkLeft, 4);
  }

  lemma PosterUsesPotential(cfg: StopOrder, s: State, p: nat)
    requires PosterEnabled(s, p)
    ensures Potential(cfg, PosterNext(s, p)) < Potential(cfg, s)
  {
    PosterSpends(s, p);
    TotalUpdate(s.posters, p, PosterNext(s, p).posters[p], PostWorkOf(|s.workers|));
  }

  lemma StopperUsesPotential(cfg: StopOrder, s: State)
    requires StopperEnabled(s) && JoinInv(s)
    ensures Potential(cfg, StopperNext(cfg, s)) < Potential(cfg, s)
  {
    TotalGrowth(s.workers, WakeAll(s.workers), WorkLeft, 4);
  }

  lemma StepUsesPotential(cfg: StopOrder, s: State, a: Step)
    requires Inv(cfg, s) && Enabled(s, a)
    ensures Potential(cfg, Next(cfg, s, a)) < Potential(cfg, s) + if a.SpuriousWake? then 5 else 0
  {
    match a
    case WorkerStep(w) => WorkerUsesPotential(cfg, s, w);
    case PosterStep(p) => PosterUsesPotential(cfg, s, p);
    case StopperStep => StopperUsesPotential(cfg, s);
    case SpuriousWake(w) => TotalUpdate(s.workers, w, Woken, WorkLeft);
    case CallStop(_) =>
  }

  function Spurious(steps: seq<Step>): nat {
    if steps == [] then 0 else (if steps[0].SpuriousWake? then 1 else 0) + Spurious(steps[1..])
  }

  /** A run is no longer than the work there was at its start and the work spurious wake-ups added. */
  lemma {:induction false} RunIsBounded(cfg: StopOrder, s: State, steps: seq<Step>)
    requires Inv(cfg, s) && Runs(cfg, s, steps)
    ensures |steps| + Potential(cfg, After(cfg, s, steps)) <= Potential(cfg, s) + 5 * Spurious(steps)
    decreases |steps|
  {
    if steps == [] {
    } else {
      StepKeepsInv(cfg, s, steps[0]);
      StepUsesPotential(cfg, s, steps[0]);
      RunIsBounded(cfg, Next(cfg, s, steps[0]), steps[1..]);
    }
  }

  // ---- nothing left undone when no thread can move ----

  /** No thread can make a step on its own account. */
  ghost predicate Halted(s: State) {
    forall a: Step :: Enabled(s, a) ==> a.SpuriousWake? || a.CallStop?
  }

  lemma HaltedLeavesMutexFree(cfg: StopOrder, s: State)
    requires Inv(cfg, s) && Halted(s)
    ensures s.owner.Nobody?
  {
    if !s.owner.Nobody? {
      OwnerCanStep(cfg, s);
    }
  }

  /** If Stop is never called, a pool that has come to rest has run every task that was posted. With
      RunIsBounded, every run without endless spurious wake-ups gets there. */
  lemma RestMeansDrained(cfg: StopOrder, s: State)
    requires Inv(cfg, s) && s.stopper.NotCalled? && |s.workers| > 0 && Halted(s)
    ensures s.tasks == [] && forall w :: 0 <= w < |s.workers| ==> s.workers[w].Parked?
    ensures forall p :: 0 <= p < |s.posters| ==> s.posters[p].PostDone?
    ensures forall k: nat :: k < |s.posted| ==> k in s.finished
  {
    HaltedLeavesMutexFree(cfg, s);
    forall p | 0 <= p < |s.posters|
      ensures s.posters[p].PostDone?
    {
      assert !Enabled(s, PosterStep(p));
    }
    forall w | 0 <= w < |s.workers|
      ensures s.workers[w].Parked?
    {
      assert !Enabled(s, WorkerStep(w));
    }
    assert s.workers[0].Parked?;
    forall k: nat | k < |s.posted|
      ensures k in s.finished
    {
      assert s.fates[k].RunBy?;
    }
  }

  // ---- shutdown ----

  /** Stop is past its notify_all. */
  predicate PastNotify(cfg: StopOrder, p: StopPhase) {
    PastStore(cfg, p) && !p.NotifyAll?
  }

  predicate Sleeper(p: Phase) { p.AboutToWait? || p.Parked? }

  predicate HasSleeper(s: State) { exists w :: 0 <= w < |s.workers| && Sleeper(s.workers[w]) }

  /** A poster has yet to call notify_all. */
  predicate HasNotifier(s: State) {
    exists p :: 0 <= p < |s.posters| && !s.posters[p].PostUnlock? && !s.posters[p].PostDone?
  }

  /** The flag is up, Stop has notified, and whoever sleeps or is about to will still be notified. */
  predicate Rescued(cfg: StopOrder, s: State) {
    s.stop && PastNotify(cfg, s.stopper) && (HasSleeper(s) ==> HasNotifier(s))
  }

  /** Everybody has left Run and Stop has returned. */
  predicate AllStopped(s: State) {
    && s.stopper.Returned?
    && (forall w :: 0 <= w < |s.workers| ==> s.workers[w].Exited?)
    && (forall p :: 0 <= p < |s.posters| ==> s.posters[p].PostDone?)
  }

  /** With the flag up nobody goes to sleep any more. */
  lemma NoNewSleeper(cfg: StopOrder, s: State, a: Step)
    requires FlagInv(cfg, s) && s.stop && PastNotify(cfg, s.stopper) && Enabled(s, a)
    ensures var t := Next(cfg, s, a);
            && t.stop && PastNotify(cfg, t.stopper) && |t.workers| == |s.workers|
            && forall w :: 0 <= w < |s.workers| && Sleeper(t.workers[w]) ==> Sleeper(s.workers[w])
  {
  }

  /** Beside a poster in its critical section nobody is about to wait. */
  lemma NotifierExcludesWaiter(cfg: StopOrder, s: State, p: nat, w: nat)
    requires MutexInv(cfg, s) && p < |s.posters| && s.posters[p].PostNotify? && w < |s.workers|
    ensures !s.workers[w].AboutToWait?
  {
    assert s.owner == Poster(p);
  }

  /** A notify_all leaves nobody asleep, so while somebody sleeps a poster has it still to do. */
  lemma NotifierStays(cfg: StopOrder, s: State, a: Step)
    requires MutexInv(cfg, s) && HasNotifier(s) && Enabled(s, a)
    ensures HasNotifier(Next(cfg, s, a)) || !HasSleeper(Next(cfg, s, a))
  {
    var t := Next(cfg, s, a);
    if a.PosterStep? && s.posters[a.p].PostNotify? {
      forall w | 0 <= w < |t.workers|
        ensures !Sleeper(t.workers[w])
      {
        NotifierExcludesWaiter(cfg, s, a.p, w);
      }
    } else {
      var p :| 0 <= p < |s.posters| && !s.posters[p].PostUnlock? && !s.posters[p].PostDone?;
      assert !t.posters[p].PostUnlock? && !t.posters[p].PostDone?;
    }
  }

  lemma StepKeepsRescued(cfg: StopOrder, s: State, a: Step)
    requires Inv(cfg, s) && Rescued(cfg, s) && Enabled(s, a)
    ensures Rescued(cfg, Next(cfg, s, a))
  {
    NoNewSleeper(cfg, s, a);
    if HasNotifier(s) {
      NotifierStays(cfg, s, a);
    }
  }

  lemma {:induction false} RunKeepsRescued(cfg: StopOrder, s: State, steps: seq<Step>)
    requires Inv(cfg, s) && Rescued(cfg, s) && Runs(cfg, s, steps)
    ensures Inv(cfg, After(cfg, s, steps)) && Rescued(cfg, After(cfg, s, steps))
    decreases |steps|
  {
    if steps == [] {
    } else {
      StepKeepsInv(cfg, s, steps[0]);
      StepKeepsRescued(cfg, s, steps[0]);
      RunKeepsRescued(cfg, Next(cfg, s, steps[0]), steps[1..]);
    }
  }

  /** No deadlock on the way out: a rescued pool comes to rest only when everybody has stopped. */
  lemma RestMeansStopped(cfg: StopOrder, s: State)
    requires Inv(cfg, s) && Rescued(cfg, s) && Halted(s)
    ensures AllStopped(s)
  {
    HaltedLeavesMutexFree(cfg, s);
    forall p | 0 <= p < |s.posters|
      ensures s.posters[p].PostDone?
    {
      assert !Enabled(s, PosterStep(p));
    }
    assert !Enabled(s, StopperStep);
    forall w | 0 <= w < |s.workers|
      ensures s.workers[w].Exited? || s.caller == OfWorker(w)
    {
      assert !Enabled(s, WorkerStep(w));
      assert !Sleeper(s.workers[w]);
    }
    assert s.stopper.Returned?;
    forall w | 0 <= w < |s.workers|
      ensures s.workers[w].Exited?
    {
      assert !Enabled(s, WorkerStep(w));
    }
  }

  // ---- the store and the notify under the mutex ----

  /** Under the mutex no worker can stand between its test and its wait when the flag goes up. */
  predicate UnderLockInv(cfg: StopOrder, s: State) {
    s.stop ==> forall w :: 0 <= w < |s.workers| ==>
      !s.workers[w].AboutToWait? && (s.workers[w].Parked? ==> s.stopper.NotifyAll?)
  }

  lemma WorkerKeepsUnderLock(cfg: StopOrder, s: State, w: nat)
    requires UnderLockInv(cfg, s) && WorkerEnabled(s, w)
    ensures UnderLockInv(cfg, WorkerNext(s, w))
  {
  }

  lemma StepKeepsUnderLock(cfg: StopOrder, s: State, a: Step)
    requires cfg.underLock && Inv(cfg, s) && UnderLockInv(cfg, s) && Enabled(s, a)
    ensures UnderLockInv(cfg, Next(cfg, s, a))
  {
    if a.WorkerStep? {
      WorkerKeepsUnderLock(cfg, s, a.w);
    }
  }

  lemma {:induction false} RunKeepsUnderLock(cfg: StopOrder, s: State, steps: seq<Step>)
    requires cfg.underLock && Inv(cfg, s) && UnderLockInv(cfg, s) && Runs(cfg, s, steps)
    ensures UnderLockInv(cfg, After(cfg, s, steps))
    decreases |steps|
  {
    if steps == [] {
    } else {
      StepKeepsInv(cfg, s, steps[0]);
      StepKeepsUnderLock(cfg, s, steps[0]);
      RunKeepsUnderLock(cfg, Next(cfg, s, steps[0]), steps[1..]);
    }
  }

  lemma NotifiedMeansRescued(cfg: StopOrder, s: State, n: nat, steps: seq<Step>)
    requires cfg.underLock && cfg.stored && Init(s, n)
    requires Runs(cfg, s, steps) && PastNotify(cfg, After(cfg, s, steps).stopper)
    ensures var t := After(cfg, s, steps);
            Inv(cfg, t) && UnderLockInv(cfg, t) && Rescued(cfg, t)
  {
    ReachableInv(cfg, s, n, steps);
    RunKeepsUnderLock(cfg, s, steps);
  }

  lemma RescuedRunStops(cfg: StopOrder, s: State, steps: seq<Step>)
    requires Inv(cfg, s) && Rescued(cfg, s) && Runs(cfg, s, steps)
    ensures Halted(After(cfg, s, steps)) ==> AllStopped(After(cfg, s, steps))
  {
    RunKeepsRescued(cfg, s, steps);
    if Halted(After(cfg, s, steps)) {
      RestMeansStopped(cfg, After(cfg, s, steps));
    }
  }

  lemma {:induction false} AwakeRunIsBounded(cfg: StopOrder, s: State, steps: seq<Step>)
    requires cfg.underLock && Inv(cfg, s) && UnderLockInv(cfg, s) && s.stop && PastNotify(cfg, s.stopper)
    requires Runs(cfg, s, steps)
    ensures |steps| <= Potential(cfg, s)
    decreases |steps|
  {
    if steps == [] {
    } else {
      StepKeepsInv(cfg, s, steps[0]);
      StepKeepsUnderLock(cfg, s, steps[0]);
      StepUsesPotential(cfg, s, steps[0]);
      AwakeRunIsBounded(cfg, Next(cfg, s, steps[0]), steps[1..]);
    }
  }

  /** If Stop stores true under the mutex, shutdown ends: once it has notified, nobody sleeps again, every
      further step of any thread uses up work, and the pool rests only with everybody gone and Stop returned. */
  lemma ShutdownEnds(cfg: StopOrder, s: State, n: nat, steps: seq<Step>, t: State, more: seq<Step>)
    requires cfg.underLock && cfg.stored && Init(s, n)
    requires Runs(cfg, s, steps) && t == After(cfg, s, steps) && PastNotify(cfg, t.stopper)
    requires Runs(cfg, t, more)
    ensures |more| <= Potential(cfg, t)
    ensures Halted(After(cfg, t, more)) ==> AllStopped(After(cfg, t, more))
  {
    NotifiedMeansRescued(cfg, s, n, steps);
    AwakeRunIsBounded(cfg, t, more);
    RescuedRunStops(cfg, t, more);
  }

  /** Every call of Stop reaches its notify_all, and with RunIsBounded its end: at rest it has returned. */
  lemma CalledStopReturns(cfg: StopOrder, s: State, n: nat, steps: seq<Step>)
    requires cfg.underLock && cfg.stored && Init(s, n) && Runs(cfg, s, steps)
    requires !After(cfg, s, steps).stopper.NotCalled? && Halted(After(cfg, s, steps))
    ensures AllStopped(After(cfg, s, steps))
  {
    var t := After(cfg, s, steps);
    ReachableInv(cfg, s, n, steps);
    RunKeepsUnderLock(cfg, s, steps);
    HaltedLeavesMutexFree(cfg, t);
    assert !Enabled(t, StopperStep);
    assert PastNotify(cfg, t.stopper);
    RestMeansStopped(cfg, t);
  }

  // ---- the store and the notify outside the mutex ----

  predicate Quiet(steps: seq<Step>) { forall i :: 0 <= i < |steps| ==> !steps[i].SpuriousWake? }

  /** Left to itself, without a spurious wake-up, the pool always shuts down. */
  ghost predicate ShutsDown(cfg: StopOrder, s: State) {
    forall steps :: Runs(cfg, s, steps) && Quiet(steps) && Halted(After(cfg, s, steps))
      ==> AllStopped(After(cfg, s, steps))
  }

  /** Nobody is left to wake the sleeper. */
  predicate Forgotten(cfg: StopOrder, s: State, w: nat) {
    s.stop && PastNotify(cfg, s.stopper) && !HasNotifier(s) && w < |s.workers| && Sleeper(s.workers[w])
  }

  lemma {:induction false} ForgottenStaysAsleep(cfg: StopOrder, s: State, steps: seq<Step>, w: nat)
    requires Inv(cfg, s) && Forgotten(cfg, s, w) && Runs(cfg, s, steps) && Quiet(steps)
    ensures Forgotten(cfg, After(cfg, s, steps), w)
    decreases |steps|
  {
    if steps == [] {
    } else {
      var t := Next(cfg, s, steps[0]);
      StepKeepsInv(cfg, s, steps[0]);
      assert steps[0] != SpuriousWake(w);
      ForgottenStaysAsleep(cfg, t, steps[1..], w);
    }
  }

  lemma {:induction false} RunsAppend(cfg: StopOrder, s: State, first: seq<Step>, second: seq<Step>)
    requires Runs(cfg, s, first) && Runs(cfg, After(cfg, s, first), second)
    ensures Runs(cfg, s, first + second)
    ensures After(cfg, s, first + second) == After(cfg, After(cfg, s, first), second)
    decreases |first|
  {
    if first == [] {
      assert first + second == second;
    } else {
      assert (first + second)[1..] == first[1..] + second;
      RunsAppend(cfg, Next(cfg, s, first[0]), first[1..], second);
    }
  }

  lemma OneMore(cfg: StopOrder, s: State, a: Step, rest: seq<Step>, last: State)
    requires Enabled(s, a) && Runs(cfg, Next(cfg, s, a), rest) && After(cfg, Next(cfg, s, a), rest) == last
    ensures Runs(cfg, s, [a] + rest) && After(cfg, s, [a] + rest) == last
  {
    assert ([a] + rest)[1..] == rest;
  }

  lemma SomeMove(cfg: StopOrder, s: State) returns (a: Step)
    requires Inv(cfg, s) && !s.stopper.NotCalled? && !Halted(s)
    ensures Enabled(s, a) && !a.SpuriousWake?
    ensures Inv(cfg, Next(cfg, s, a)) && !Next(cfg, s, a).stopper.NotCalled?
    ensures Potential(cfg, Next(cfg, s, a)) < Potential(cfg, s)
  {
    a :| Enabled(s, a) && !a.SpuriousWake? && !a.CallStop?;
    StepKeepsInv(cfg, s, a);
    StepUsesPotential(cfg, s, a);
  }

  /** From any state some quiet run comes to rest. */
  lemma {:induction false} SomeRunRests(cfg: StopOrder, s: State) returns (steps: seq<Step>)
    requires Inv(cfg, s) && !s.stopper.NotCalled?
    ensures Runs(cfg, s, steps) && Quiet(steps) && Halted(After(cfg, s, steps))
    decreases Potential(cfg, s)
  {
    if Halted(s) {
      steps := [];
    } else {
      var a := SomeMove(cfg, s);
      var t := Next(cfg, s, a);
      var rest := SomeRunRests(cfg, t);
      OneMore(cfg, s, a, rest, After(cfg, t, rest));
      steps := [a] + rest;
    }
  }

  /** Storing true before taking the mutex, as the source orders it, is right in exactly the states where at
      the notify_all no worker stands between its test and its wait, or some poster has yet to notify. */
  lemma OutsideLockExactly(cfg: StopOrder, s: State)
    requires !cfg.underLock && cfg.stored && Inv(cfg, s) && s.stopper.NotifyAll?
    ensures ShutsDown(cfg, StopperNext(cfg, s))
            <==> (forall w :: 0 <= w < |s.workers| ==> !s.workers[w].AboutToWait?) || HasNotifier(s)
  {
    var t := StopperNext(cfg, s);
    StepKeepsInv(cfg, s, StopperStep);
    assert HasNotifier(t) == HasNotifier(s);
    if (forall w :: 0 <= w < |s.workers| ==> !s.workers[w].AboutToWait?) || HasNotifier(s) {
      assert Rescued(cfg, t);
      forall steps | Runs(cfg, t, steps) && Quiet(steps) && Halted(After(cfg, t, steps))
        ensures AllStopped(After(cfg, t, steps))
      {
        RescuedRunStops(cfg, t, steps);
      }
    } else {
      var w :| 0 <= w < |s.workers| && s.workers[w].AboutToWait?;
      assert t.workers[w].AboutToWait?;
      var steps := SomeRunRests(cfg, t);
      ForgottenStaysAsleep(cfg, t, steps, w);
    }
  }

  /** One worker goes to its wait, then Stop stores its value. */
  lemma StoreBeforeWait(cfg: StopOrder, s: State, steps: seq<Step>) returns (t: State)
    requires !cfg.underLock && cfg.stored && Init(s, 1) && s.posters == []
    requires steps == [WorkerStep(0), WorkerStep(0), WorkerStep(0), CallStop(Outsider), StopperStep]
    ensures Runs(cfg, s, steps) && After(cfg, s, steps) == t
    ensures t.stopper.NotifyAll? && t.workers == [AboutToWait] && t.posters == []
  {
    var s1 := WorkerNext(s, 0);
    var s2 := WorkerNext(s1, 0);
    var s3 := WorkerNext(s2, 0);
    var s4 := Next(cfg, s3, CallStop(Outsider));
    t := StopperNext(cfg, s4);
    assert [StopperStep] + [] == [StopperStep];
    OneMore(cfg, s4, StopperStep, [], t);
    OneMore(cfg, s3, CallStop(Outsider), [StopperStep], t);
    OneMore(cfg, s2, WorkerStep(0), steps[3..], t);
    OneMore(cfg, s1, WorkerStep(0), steps[2..], t);
    OneMore(cfg, s, WorkerStep(0), steps[1..], t);
    assert steps == [WorkerStep(0)] + steps[1..];
  }

  /** The lost shutdown is reachable: one worker, between its test and its wait when Stop stores true. */
  lemma OutsideLockCanHang(cfg: StopOrder, s: State, steps: seq<Step>)
    requires !cfg.underLock && cfg.stored && Init(s, 1) && s.posters == []
    requires steps == [WorkerStep(0), WorkerStep(0), WorkerStep(0), CallStop(Outsider), StopperStep]
    ensures Runs(cfg, s, steps) && After(cfg, s, steps).stopper.NotifyAll?
    ensures !ShutsDown(cfg, StopperNext(cfg, After(cfg, s, steps)))
  {
    var t := StoreBeforeWait(cfg, s, steps);
    assert t.workers[0].AboutToWait?;
    ReachableInv(cfg, s, 1, steps);
    OutsideLockExactly(cfg, t);
  }

  // ---- Stop as written stores false ----

  ghost predicate CanReturn(cfg: StopOrder, s: State) {
    exists steps :: Runs(cfg, s, steps) && After(cfg, s, steps).stopper.Returned?
  }

  /** Stop leaves a worker only from inside a task, so somebody must have posted one. */
  predicate CalledFromTask(s: State) {
    && (s.caller.OfWorker? ==> |s.posters| > 0)
    && (|s.posted| > 0 ==> |s.posters| > 0)
  }

  lemma StepKeepsPosters(cfg: StopOrder, s: State, a: Step)
    requires TicketInv(s) && CalledFromTask(s) && Enabled(s, a)
    ensures CalledFromTask(Next(cfg, s, a)) && |Next(cfg, s, a).posters| == |s.posters|
  {
  }

  lemma {:induction false} RunKeepsPosters(cfg: StopOrder, s: State, steps: seq<Step>)
    requires Inv(cfg, s) && CalledFromTask(s) && Runs(cfg, s, steps)
    ensures CalledFromTask(After(cfg, s, steps)) && |After(cfg, s, steps).posters| == |s.posters|
    decreases |steps|
  {
    if steps == [] {
    } else {
      StepKeepsInv(cfg, s, steps[0]);
      StepKeepsPosters(cfg, s, steps[0]);
      RunKeepsPosters(cfg, Next(cfg, s, steps[0]), steps[1..]);
    }
  }

  /** Storing false lets no worker go. */
  lemma StoringFalseFreesNobody(cfg: StopOrder, s: State, n: nat, steps: seq<Step>)
    requires !cfg.stored && Init(s, n) && Runs(cfg, s, steps)
    ensures var t := After(cfg, s, steps);
            && |t.workers| == n && (forall w :: 0 <= w < n ==> !t.workers[w].Exited?)
            && (t.stopper.Returned? ==> n == 0 || (n == 1 && |s.posters| > 0))
  {
    ReachableInv(cfg, s, n, steps);
    var t := After(cfg, s, steps);
    RunKeepsPosters(cfg, s, steps);
    if t.stopper.Returned? && n > 0 {
      assert t.caller == OfWorker(0);
      assert !t.workers[n - 1].Exited?;
    }
  }

  /** A pool at rest whose Stop was called has returned from it if no thread but the caller is to be joined. */
  lemma NothingToJoin(cfg: StopOrder, s: State)
    requires Inv(cfg, s) && Halted(s) && !s.stopper.NotCalled?
    requires |s.workers| == 0 || (|s.workers| == 1 && s.caller == OfWorker(0))
    ensures s.stopper.Returned?
  {
    HaltedLeavesMutexFree(cfg, s);
    assert !Enabled(s, StopperStep);
  }

  lemma {:induction false} RunKeepsCaller(cfg: StopOrder, s: State, steps: seq<Step>)
    requires Runs(cfg, s, steps) && !s.stopper.NotCalled?
    ensures After(cfg, s, steps).caller == s.caller && !After(cfg, s, steps).stopper.NotCalled?
    decreases |steps|
  {
    if steps == [] {
    } else {
      RunKeepsCaller(cfg, Next(cfg, s, steps[0]), steps[1..]);
    }
  }

  lemma LoneStopReturns(cfg: StopOrder, s: State, steps: seq<Step>, c: Caller)
    requires Inv(cfg, s) && Runs(cfg, s, steps)
    requires After(cfg, s, steps).stopper.NotCalled? && Enabled(After(cfg, s, steps), CallStop(c))
    requires |s.workers| == 0 || (|s.workers| == 1 && c == OfWorker(0))
    ensures CanReturn(cfg, s)
  {
    var t := After(cfg, s, steps);
    RunKeepsInv(cfg, s, steps);
    StepKeepsInv(cfg, t, CallStop(c));
    var u := Next(cfg, t, CallStop(c));
    var rest := SomeRunRests(cfg, u);
    OneMore(cfg, t, CallStop(c), rest, After(cfg, u, rest));
    RunsAppend(cfg, s, steps, [CallStop(c)] + rest);
    RunKeepsInv(cfg, u, rest);
    RunKeepsCaller(cfg, u, rest);
    NothingToJoin(cfg, After(cfg, u, rest));
  }

  /** The first post, from beginning to end. */
  lemma PostWhole(cfg: StopOrder, s: State) returns (t: State)
    requires Init(s, 1) && |s.posters| > 0
    ensures var p := PosterStep(0);
            Runs(cfg, s, [p, p, p, p]) && After(cfg, s, [p, p, p, p]) == t
    ensures t.workers == [LoopTest] && t.tasks != [] && t.owner.Nobody? && !t.stop && t.stopper.NotCalled?
  {
    var p := PosterStep(0);
    var s1 := PosterNext(s, 0);
    var s2 := PosterNext(s1, 0);
    var s3 := PosterNext(s2, 0);
    t := PosterNext(s3, 0);
    assert [p] + [] == [p];
    OneMore(cfg, s3, p, [], t);
    OneMore(cfg, s2, p, [p], t);
    OneMore(cfg, s1, p, [p, p], t);
    OneMore(cfg, s, p, [p, p, p], t);
    assert [p] + [p, p, p] == [p, p, p, p];
  }

  /** The only worker, from its loop test to the task. */
  lemma TakeWhole(cfg: StopOrder, s: State)
    requires s.workers == [LoopTest] && s.tasks != [] && s.owner.Nobody? && !s.stop && s.stopper.NotCalled?
    ensures var w := WorkerStep(0);
            && Runs(cfg, s, [w, w, w, w, w])
            && var t := After(cfg, s, [w, w, w, w, w]);
               t.stopper.NotCalled? && |t.workers| == 1 && t.workers[0].Busy?
  {
    var w := WorkerStep(0);
    var t1 := WorkerNext(s, 0);
    var t2 := WorkerNext(t1, 0);
    var t3 := WorkerNext(t2, 0);
    var t4 := WorkerNext(t3, 0);
    var t5 := WorkerNext(t4, 0);
    assert [w] + [] == [w];
    OneMore(cfg, t4, w, [], t5);
    OneMore(cfg, t3, w, [w], t5);
    OneMore(cfg, t2, w, [w, w], t5);
    OneMore(cfg, t1, w, [w, w, w], t5);
    OneMore(cfg, s, w, [w, w, w, w], t5);
    assert [w] + [w, w, w, w] == [w, w, w, w, w];
  }

  /** A post followed by the only worker taking it. */
  lemma ReachTask(cfg: StopOrder, s: State) returns (steps: seq<Step>)
    requires Init(s, 1) && |s.posters| > 0
    ensures Runs(cfg, s, steps)
    ensures After(cfg, s, steps).stopper.NotCalled?
    ensures |After(cfg, s, steps).workers| == 1 && After(cfg, s, steps).workers[0].Busy?
  {
    var p, w := PosterStep(0), WorkerStep(0);
    var t := PostWhole(cfg, s);
    TakeWhole(cfg, t);
    RunsAppend(cfg, s, [p, p, p, p], [w, w, w, w, w]);
    steps := [p, p, p, p] + [w, w, w, w, w];
  }

  /** Stop as written, storing false, can return exactly when there is no thread to join: the pool has none,
      or its only worker calls Stop from a posted task. */
  lemma StoringFalseReturnsExactly(cfg: StopOrder, s: State, n: nat)
    requires !cfg.stored && Init(s, n)
    ensures CanReturn(cfg, s) <==> n == 0 || (n == 1 && |s.posters| > 0)
  {
    if steps :| Runs(cfg, s, steps) && After(cfg, s, steps).stopper.Returned? {
      StoringFalseFreesNobody(cfg, s, n, steps);
    }
    if n == 0 {
      LoneStopReturns(cfg, s, [], Outsider);
    }
    if n == 1 && |s.posters| > 0 {
      var steps := ReachTask(cfg, s);
      LoneStopReturns(cfg, s, steps, OfWorker(0));
    }
  }

  /** The code as it stands, which stores false, and before it takes the mutex. */
  lemma AsWrittenReturnsExactly(s: State, n: nat)
    requires Init(s, n)
    ensures CanReturn(AS_WRITTEN, s) <==> n == 0 || (n == 1 && |s.posters| > 0)
    ensures !AS_WRITTEN.stored && !AS_WRITTEN.underLock
  {
    StoringFalseReturnsExactly(AS_WRITTEN, s, n);
  }
}
