/** What becomes of the functions given to Post: each is run once, unless Stop throws it away; and what the flag
    does to the workers. */
module TaskPollOutcome {
  import opened TaskPollModel
  import opened TaskPollSafety
  import opened TaskPollLiveness
  import opened Totals

  // ---- what is posted is what was given ----

  function ToPush(p: PostPhase): multiset<Task> {
    if p.PostWant? || p.PostPush? then multiset{p.task} else multiset{}
  }

  /** The tasks that calls of Post still have to push. Before the first step: the tasks given to Post. */
  function Unpushed(posters: seq<PostPhase>): multiset<Task> {
    if posters == [] then multiset{} else ToPush(posters[0]) + Unpushed(posters[1..])
  }

  lemma AddInFront(a: multiset<Task>, b: multiset<Task>, c: multiset<Task>, x: multiset<Task>, y: multiset<Task>)
    requires b + x == c + y
    ensures (a + b) + x == (a + c) + y
  {
    assert (a + b) + x == a + (b + x);
    assert (a + c) + y == a + (c + y);
  }

  lemma {:induction false} UnpushedUpdate(posters: seq<PostPhase>, p: nat, q: PostPhase)
    requires p < |posters|
    ensures Unpushed(posters[p := q]) + ToPush(posters[p]) == Unpushed(posters) + ToPush(q)
  {
    var rest := posters[1..];
    if p == 0 {
      assert posters[p := q][1..] == rest;
    } else {
      assert posters[p := q][0] == posters[0] && posters[p := q][1..] == rest[p - 1 := q];
      UnpushedUpdate(rest, p - 1, q);
      AddInFront(ToPush(posters[0]), Unpushed(rest[p - 1 := q]), Unpushed(rest), ToPush(posters[p]), ToPush(q));
    }
  }

  lemma {:induction false} NothingUnpushed(posters: seq<PostPhase>)
    requires forall p :: 0 <= p < |posters| ==> posters[p].PostDone?
    ensures Unpushed(posters) == multiset{}
  {
    if posters == [] {
    } else {
      NothingUnpushed(posters[1..]);
    }
  }

  function Given(s: State): multiset<Task> { multiset(s.posted) + Unpushed(s.posters) }

  /** A push records the task the call of Post was given; no other action of Post records or forgets any. */
  lemma PushRecordsItsTask(s: State, p: nat)
    requires PosterEnabled(s, p)
    ensures var t := PosterNext(s, p);
            multiset(t.posted) + ToPush(t.posters[p]) == multiset(s.posted) + ToPush(s.posters[p])
  {
    var phase, t := s.posters[p], PosterNext(s, p);
    if phase.PostPush? {
      assert t.posted == s.posted + [phase.task] && ToPush(t.posters[p]) == multiset{};
      assert multiset(t.posted) == multiset(s.posted) + multiset{phase.task};
    } else {
      assert t.posted == s.posted && ToPush(t.posters[p]) == ToPush(phase);
    }
  }

  lemma Exchange(a: multiset<Task>, b: multiset<Task>, c: multiset<Task>, d: multiset<Task>,
                 x: multiset<Task>, y: multiset<Task>)
    requires a + x == b + y && c + y == d + x
    ensures a + c == b + d
  {
    assert a + c + (x + y) == (a + x) + (c + y) == b + d + (x + y);
    assert a + c == a + c + (x + y) - (x + y);
    assert b + d == b + d + (x + y) - (x + y);
  }

  lemma PosterKeepsGiven(s: State, p: nat)
    requires PosterEnabled(s, p)
    ensures Given(PosterNext(s, p)) == Given(s)
  {
    var t := PosterNext(s, p);
    var before, after := s.posters[p], t.posters[p];
    PushRecordsItsTask(s, p);
    assert t.posters == s.posters[p := after];
    UnpushedUpdate(s.posters, p, after);
    Exchange(multiset(t.posted), multiset(s.posted), Unpushed(t.posters), Unpushed(s.posters),
             ToPush(after), ToPush(before));
  }

  lemma {:induction false} RunKeepsGiven(cfg: StopOrder, s: State, steps: seq<Step>)
    requires Runs(cfg, s, steps)
    ensures Given(After(cfg, s, steps)) == Given(s)
    decreases |steps|
  {
    if steps == [] {
    } else {
      if steps[0].PosterStep? {
        PosterKeepsGiven(s, steps[0].p);
      }
      RunKeepsGiven(cfg, Next(cfg, s, steps[0]), steps[1..]);
    }
  }

  /** Over all runs: what has been posted and what calls of Post have yet to push is what Post was given. */
  lemma PostedIsGiven(cfg: StopOrder, s: State, n: nat, steps: seq<Step>)
    requires Init(s, n) && Runs(cfg, s, steps)
    ensures var t := After(cfg, s, steps);
            multiset(t.posted) + Unpushed(t.posters) == Unpushed(s.posters)
  {
    RunKeepsGiven(cfg, s, steps);
  }

  // ---- what is run is what was posted ----

  /** A worker runs the task posted under its ticket. */
  predicate HandlerInv(s: State) {
    && |s.ran| == |s.finished|
    && (forall j :: 0 <= j < |s.ran| ==> s.finished[j] < |s.posted| && s.ran[j] == s.posted[s.finished[j]])
    && (forall w :: 0 <= w < |s.workers| && s.workers[w].Busy? ==>
          s.workers[w].ticket < |s.posted| && s.workers[w].task == s.posted[s.workers[w].ticket])
  }

  lemma TakeKeepsHandlers(s: State, w: nat)
    requires HandlerInv(s) && WorkerEnabled(s, w) && s.workers[w].Take?
    requires s.tasks != [] && |s.fates| <= |s.posted| && s.tasks == s.posted[|s.fates|..]
    ensures HandlerInv(WorkerNext(s, w))
  {
    assert s.tasks[0] == s.posted[|s.fates|];
  }

  lemma WorkerKeepsHandlers(s: State, w: nat)
    requires HandlerInv(s) && WorkerEnabled(s, w) && !s.workers[w].Take?
    ensures HandlerInv(WorkerNext(s, w))
  {
  }

  lemma OthersKeepHandlers(cfg: StopOrder, s: State, a: Step)
    requires HandlerInv(s) && Enabled(s, a) && !a.WorkerStep?
    ensures HandlerInv(Next(cfg, s, a))
  {
  }

  lemma StepKeepsHandlers(cfg: StopOrder, s: State, a: Step)
    requires Inv(cfg, s) && HandlerInv(s) && Enabled(s, a)
    ensures HandlerInv(Next(cfg, s, a))
  {
    if !a.WorkerStep? {
      OthersKeepHandlers(cfg, s, a);
    } else if s.workers[a.w].Take? {
      TakeKeepsHandlers(s, a.w);
    } else {
      WorkerKeepsHandlers(s, a.w);
    }
  }

  lemma {:induction false} RunKeepsHandlers(cfg: StopOrder, s: State, steps: seq<Step>)
    requires Inv(cfg, s) && HandlerInv(s) && Runs(cfg, s, steps)
    ensures HandlerInv(After(cfg, s, steps))
    decreases |steps|
  {
    if steps == [] {
    } else {
      StepKeepsInv(cfg, s, steps[0]);
      StepKeepsHandlers(cfg, s, steps[0]);
      RunKeepsHandlers(cfg, Next(cfg, s, steps[0]), steps[1..]);
    }
  }

  predicate Picks(all: seq<Task>, ks: seq<nat>, picked: seq<Task>) {
    && |picked| == |ks| && Distinct(ks)
    && forall j :: 0 <= j < |ks| ==> ks[j] < |all| && picked[j] == all[ks[j]]
  }

  function Without<T>(xs: seq<T>, j: nat): seq<T>
    requires j < |xs|
  {
    xs[..j] + xs[j + 1..]
  }

  lemma WithoutElement<T>(xs: seq<T>, j: nat)
    requires j < |xs|
    ensures multiset(xs) == multiset(Without(xs, j)) + multiset{xs[j]}
    ensures forall x :: x in xs && x != xs[j] ==> x in Without(xs, j)
  {
    assert xs == xs[..j] + [xs[j]] + xs[j + 1..];
  }

  /** Leaving out the pick of the last element. */
  lemma LastPick(all: seq<Task>, ks: seq<nat>, picked: seq<Task>, j: nat)
    requires Picks(all, ks, picked) && all != [] && j < |ks| && ks[j] == |all| - 1
    ensures Picks(all[..|all| - 1], Without(ks, j), Without(picked, j))
  {
    var rest, left := Without(ks, j), Without(picked, j);
    assert forall i :: 0 <= i < |rest| ==> rest[i] == ks[if i < j then i else i + 1];
    assert forall i :: 0 <= i < |rest| ==> left[i] == picked[if i < j then i else i + 1];
  }

  /** Picking distinct places of a sequence takes no element more often than it stands there, and picking every
      place takes them all. */
  lemma {:induction false} PickedOnce(all: seq<Task>, ks: seq<nat>, picked: seq<Task>)
    requires Picks(all, ks, picked)
    ensures multiset(picked) <= multiset(all)
    ensures (forall k: nat :: k < |all| ==> k in ks) ==> multiset(picked) == multiset(all)
    decreases |all|
  {
    if all == [] {
      assert picked == [];
    } else {
      var n := |all| - 1;
      assert multiset(all) == multiset(all[..n]) + multiset{all[n]} by {
        assert all == all[..n] + [all[n]];
      }
      if n in ks {
        var j :| 0 <= j < |ks| && ks[j] == n;
        LastPick(all, ks, picked, j);
        WithoutElement(ks, j);
        WithoutElement(picked, j);
        PickedOnce(all[..n], Without(ks, j), Without(picked, j));
      } else {
        assert Picks(all[..n], ks, picked);
        PickedOnce(all[..n], ks, picked);
      }
    }
  }

  /** Over all runs, Stop or not: no function is run that Post was not given, and none more often than it was. */
  lemma RunsOnlyWhatWasGiven(cfg: StopOrder, s: State, n: nat, steps: seq<Step>)
    requires Init(s, n) && Runs(cfg, s, steps)
    ensures multiset(After(cfg, s, steps).ran) <= Unpushed(s.posters)
  {
    var t := After(cfg, s, steps);
    ReachableInv(cfg, s, n, steps);
    InitHasInv(cfg, s, n);
    RunKeepsHandlers(cfg, s, steps);
    PostedIsGiven(cfg, s, n, steps);
    PickedOnce(t.posted, t.finished, t.ran);
  }

  /** If Stop is never called, a pool at rest has run every function given to Post exactly once. */
  lemma EveryPostIsRunOnce(cfg: StopOrder, s: State, n: nat, steps: seq<Step>)
    requires Init(s, n) && n > 0 && Runs(cfg, s, steps)
    requires After(cfg, s, steps).stopper.NotCalled? && Halted(After(cfg, s, steps))
    ensures multiset(After(cfg, s, steps).ran) == Unpushed(s.posters)
  {
    var t := After(cfg, s, steps);
    ReachableInv(cfg, s, n, steps);
    InitHasInv(cfg, s, n);
    RunKeepsHandlers(cfg, s, steps);
    PostedIsGiven(cfg, s, n, steps);
    RestMeansDrained(cfg, t);
    NothingUnpushed(t.posters);
    PickedOnce(t.posted, t.finished, t.ran);
  }

  // ---- what Stop throws away ----

  /** While Stop holds the mutex after clearing, nothing is queued. */
  predicate ClearedInv(s: State) { s.stopper.ReleaseLock? ==> s.tasks == [] }

  lemma StepKeepsCleared(cfg: StopOrder, s: State, a: Step)
    requires MutexInv(cfg, s) && ClearedInv(s) && Enabled(s, a)
    ensures ClearedInv(Next(cfg, s, a))
  {
  }

  lemma {:induction false} RunKeepsCleared(cfg: StopOrder, s: State, steps: seq<Step>)
    requires Inv(cfg, s) && ClearedInv(s) && Runs(cfg, s, steps)
    ensures ClearedInv(After(cfg, s, steps))
    decreases |steps|
  {
    if steps == [] {
    } else {
      StepKeepsInv(cfg, s, steps[0]);
      StepKeepsCleared(cfg, s, steps[0]);
      RunKeepsCleared(cfg, Next(cfg, s, steps[0]), steps[1..]);
    }
  }

  /** When Stop is about to release the mutex, nothing is queued and the fate of everything posted is settled. */
  lemma StopSettlesEveryTicket(cfg: StopOrder, s: State, n: nat, steps: seq<Step>)
    requires Init(s, n) && Runs(cfg, s, steps) && After(cfg, s, steps).stopper.ReleaseLock?
    ensures var t := After(cfg, s, steps);
            t.tasks == [] && |t.fates| == |t.posted|
  {
    InitHasInv(cfg, s, n);
    ReachableInv(cfg, s, n, steps);
    RunKeepsCleared(cfg, s, steps);
  }

  /** The fate of a ticket is settled once. */
  lemma {:induction false} FatesStay(cfg: StopOrder, s: State, steps: seq<Step>)
    requires Runs(cfg, s, steps)
    ensures s.fates <= After(cfg, s, steps).fates
    decreases |steps|
  {
    if steps == [] {
    } else {
      FatesStay(cfg, Next(cfg, s, steps[0]), steps[1..]);
    }
  }

  /** What Stop found queued is gone: a ticket posted before Stop releases the mutex and not handed to a worker by
      then is begun in no continuation. */
  lemma DiscardedForGood(cfg: StopOrder, s: State, n: nat, steps: seq<Step>, t: State, more: seq<Step>, k: nat)
    requires Init(s, n) && Runs(cfg, s, steps) && t == After(cfg, s, steps)
    requires t.stopper.ReleaseLock? && Runs(cfg, t, more)
    requires k < |t.posted| && (k < |t.fates| ==> !t.fates[k].RunBy?)
    ensures var u := After(cfg, t, more);
            k !in u.finished && forall w :: 0 <= w < |u.workers| ==> !BusyWith(u.workers[w], k)
  {
    StopSettlesEveryTicket(cfg, s, n, steps);
    ReachableInv(cfg, s, n, steps);
    RunKeepsInv(cfg, t, more);
    FatesStay(cfg, t, more);
    var u := After(cfg, t, more);
    assert u.fates[k] == t.fates[k];
  }

  // ---- what the flag does ----

  lemma FlagStaysUp(cfg: StopOrder, s: State, a: Step)
    requires FlagInv(cfg, s) && s.stop && Enabled(s, a)
    ensures Next(cfg, s, a).stop
  {
  }

  function AtTake(p: Phase): nat { if p.Take? then 1 else 0 }

  /** How many tickets have been handed to workers. */
  function HandedOver(fates: seq<Fate>): nat {
    if fates == [] then 0 else (if fates[|fates| - 1].RunBy? then 1 else 0) + HandedOver(fates[..|fates| - 1])
  }

  lemma {:induction false} DiscardsHandNothing(fates: seq<Fate>, n: nat)
    ensures HandedOver(fates + seq(n, _ => Discarded)) == HandedOver(fates)
  {
    if n == 0 {
      assert fates + seq(n, _ => Discarded) == fates;
    } else {
      var more := fates + seq(n, _ => Discarded);
      assert more[..|more| - 1] == fates + seq(n - 1, _ => Discarded);
      DiscardsHandNothing(fates, n - 1);
    }
  }

  lemma {:induction false} OneAtTake(workers: seq<Phase>)
    requires forall v, w :: 0 <= v < w < |workers| && workers[v].Take? ==> !workers[w].Take?
    ensures Total(workers, AtTake) <= 1
    ensures (forall w :: 0 <= w < |workers| ==> !workers[w].Take?) ==> Total(workers, AtTake) == 0
  {
    if workers == [] {
    } else {
      OneAtTake(workers[1..]);
    }
  }

  lemma {:induction false} WakingTakesNothing(workers: seq<Phase>, woken: seq<Phase>)
    requires |woken| == |workers|
    requires forall w :: 0 <= w < |workers| ==> (woken[w].Take? <==> workers[w].Take?)
    ensures Total(woken, AtTake) == Total(workers, AtTake)
  {
    if workers == [] {
    } else {
      WakingTakesNothing(workers[1..], woken[1..]);
    }
  }

  function Beginnings(s: State): nat { HandedOver(s.fates) + Total(s.workers, AtTake) }

  lemma WorkerBeginsNothingNew(s: State, w: nat)
    requires WorkerEnabled(s, w) && s.stop
    ensures Beginnings(WorkerNext(s, w)) <= Beginnings(s)
  {
    var t := WorkerNext(s, w);
    TotalUpdate(s.workers, w, t.workers[w], AtTake);
    if s.workers[w].Take? && s.tasks != [] {
      assert t.fates[..|t.fates| - 1] == s.fates;
    }
  }

  lemma StepBeginsNothingNew(cfg: StopOrder, s: State, a: Step)
    requires Enabled(s, a) && s.stop
    ensures Beginnings(Next(cfg, s, a)) <= Beginnings(s)
  {
    match a
    case WorkerStep(w) => WorkerBeginsNothingNew(s, w);
    case SpuriousWake(w) => WakingTakesNothing(s.workers, Next(cfg, s, a).workers);
    case PosterStep(p) => WakingTakesNothing(s.workers, Next(cfg, s, a).workers);
    case CallStop(_) =>
    case StopperStep =>
      WakingTakesNothing(s.workers, Next(cfg, s, a).workers);
      DiscardsHandNothing(s.fates, |s.tasks|);
  }

  lemma {:induction false} RunBeginsNothingNew(cfg: StopOrder, s: State, steps: seq<Step>)
    requires Inv(cfg, s) && s.stop && Runs(cfg, s, steps)
    ensures Beginnings(After(cfg, s, steps)) <= Beginnings(s) && After(cfg, s, steps).stop
    decreases |steps|
  {
    if steps == [] {
    } else {
      StepKeepsInv(cfg, s, steps[0]);
      FlagStaysUp(cfg, s, steps[0]);
      StepBeginsNothingNew(cfg, s, steps[0]);
      RunBeginsNothingNew(cfg, Next(cfg, s, steps[0]), steps[1..]);
    }
  }

  /** Once the flag is up at most one more task is begun, whatever is queued: by the worker that had passed its
      last test, if there is one. */
  lemma FlagAllowsOneMore(cfg: StopOrder, s: State, steps: seq<Step>)
    requires Inv(cfg, s) && s.stop && Runs(cfg, s, steps)
    ensures HandedOver(After(cfg, s, steps).fates) <= HandedOver(s.fates) + 1
    ensures (forall w :: 0 <= w < |s.workers| ==> !s.workers[w].Take?)
            ==> HandedOver(After(cfg, s, steps).fates) <= HandedOver(s.fates)
  {
    OneAtTake(s.workers);
    RunBeginsNothingNew(cfg, s, steps);
  }

  predicate OffTheMutex(p: Phase) { p.Busy? || p.LoopTest? || p.Exited? }

  /** With the flag up, a worker that runs a task or stands at its loop test does not ask for the mutex again. */
  lemma {:induction false} NoLockAfterFlag(cfg: StopOrder, s: State, steps: seq<Step>, w: nat)
    requires Inv(cfg, s) && s.stop && Runs(cfg, s, steps) && w < |s.workers| && OffTheMutex(s.workers[w])
    ensures var t := After(cfg, s, steps);
            |t.workers| == |s.workers| && OffTheMutex(t.workers[w])
    decreases |steps|
  {
    if steps == [] {
    } else {
      StepKeepsInv(cfg, s, steps[0]);
      FlagStaysUp(cfg, s, steps[0]);
      NoLockAfterFlag(cfg, Next(cfg, s, steps[0]), steps[1..], w);
    }
  }

  lemma {:induction false} AwakeStaysAwake(cfg: StopOrder, s: State, steps: seq<Step>, w: nat)
    requires Inv(cfg, s) && s.stop && PastNotify(cfg, s.stopper) && Runs(cfg, s, steps)
    requires w < |s.workers| && !Sleeper(s.workers[w])
    ensures |After(cfg, s, steps).workers| == |s.workers| && !Sleeper(After(cfg, s, steps).workers[w])
    decreases |steps|
  {
    if steps == [] {
    } else {
      StepKeepsInv(cfg, s, steps[0]);
      NoNewSleeper(cfg, s, steps[0]);
      AwakeStaysAwake(cfg, Next(cfg, s, steps[0]), steps[1..], w);
    }
  }

  /** A spurious wake-up rescues a forgotten sleeper: it does not sleep again in any continuation. */
  lemma SpuriousWakeRescues(cfg: StopOrder, s: State, steps: seq<Step>, w: nat)
    requires Inv(cfg, s) && Forgotten(cfg, s, w) && s.workers[w].Parked?
    requires Runs(cfg, Next(cfg, s, SpuriousWake(w)), steps)
    ensures var t := After(cfg, Next(cfg, s, SpuriousWake(w)), steps);
            |t.workers| == |s.workers| && !Sleeper(t.workers[w])
  {
    StepKeepsInv(cfg, s, SpuriousWake(w));
    AwakeStaysAwake(cfg, Next(cfg, s, SpuriousWake(w)), steps, w);
  }
}
