/** The thread pool of ControlPPt/source/PPTServer/task_poll.cpp as an interleaving step system.
    Every thread is a program counter; one step is one atomic action of one thread. */
module TaskPollModel {

  /** A posted std::function is opaque to the pool; a number stands for it. */
  type Task = nat

  /** Where a worker stands in Run. EmptyTest, AboutToWait, StopTest and Take hold the mutex. */
  datatype Phase =
    | LoopTest                      // line 53, about to read is_stop_
    | WantLock                      // line 54, about to lock
    | EmptyTest                     // line 55, about to test tasks_ and is_stop_
    | AboutToWait                   // line 56, the test said wait, cond_.wait not entered yet
    | Parked                        // line 56, inside cond_.wait
    | Woken                         // line 56, woken and about to lock again
    | StopTest                      // line 58, about to read is_stop_
    | Take                          // lines 61-63, front, pop_front, unlock
    | Busy(ticket: nat, task: Task) // line 64, running `task`, taken as number `ticket`
    | Exited                        // Run has returned
    | Undefined                     // front() was called on an empty list

  datatype PostPhase =
    | PostWant(task: Task)   // line 48
    | PostPush(task: Task)   // line 49, holds the mutex
    | PostNotify             // line 50, holds the mutex
    | PostUnlock             // line 51, holds the mutex
    | PostDone

  datatype StopPhase =
    | NotCalled
    | StoreFlag       // line 28
    | NotifyAll       // line 29
    | WantStopLock    // line 30
    | ClearAndSwap    // lines 31-33, holds the mutex
    | ReleaseLock     // line 34, holds the mutex
    | Join(next: nat) // lines 35-45
    | Returned

  datatype Owner = Nobody | Worker(id: nat) | Poster(id: nat) | Stopper
  datatype Caller = Outsider | OfWorker(id: nat)

  /** What became of a ticket once it left tasks_. */
  datatype Fate = RunBy(worker: nat) | Discarded

  /** The value Stop stores, and whether it stores and notifies after taking the mutex. */
  datatype StopOrder = StopOrder(stored: bool, underLock: bool)

  const AS_WRITTEN := StopOrder(false, false)

  /** The first five fields and `threads` are the pool's own; the last four record the history: pushes in order,
      what happened to each ticket taken, tickets whose task has returned, and the tasks that were run for them. */
  datatype State = State(
    stop: bool, tasks: seq<Task>, owner: Owner, threads: seq<nat>, joining: seq<nat>,
    workers: seq<Phase>, posters: seq<PostPhase>, stopper: StopPhase, caller: Caller,
    posted: seq<Task>, fates: seq<Fate>, finished: seq<nat>, ran: seq<Task>)

  datatype Step =
    | WorkerStep(w: nat)
    | SpuriousWake(w: nat)
    | PosterStep(p: nat)
    | CallStop(from: Caller)
    | StopperStep

  function Range(n: nat): (r: seq<nat>)
    ensures |r| == n && forall i :: 0 <= i < n ==> r[i] == i
  {
    seq(n, i => i)
  }

  /** Start has returned with all `n` threads created; the posters have not begun. */
  predicate Init(s: State, n: nat) {
    && !s.stop && s.tasks == [] && s.owner == Nobody && s.threads == Range(n) && s.joining == []
    && s.workers == seq(n, _ => LoopTest)
    && (forall p :: 0 <= p < |s.posters| ==> s.posters[p].PostWant?)
    && s.stopper == NotCalled && s.caller == Outsider
    && s.posted == [] && s.fates == [] && s.finished == [] && s.ran == []
  }

  predicate InsideStop(s: State) { !s.stopper.NotCalled? && !s.stopper.Returned? }

  /** cond_.notify_all */
  function WakeAll(workers: seq<Phase>): (r: seq<Phase>)
    ensures |r| == |workers|
    ensures forall i :: 0 <= i < |r| ==> r[i] == if workers[i].Parked? then Woken else workers[i]
  {
    seq(|workers|, i requires 0 <= i < |workers| => if workers[i].Parked? then Woken else workers[i])
  }

  predicate WorkerEnabled(s: State, w: nat) {
    w < |s.workers| &&
    match s.workers[w]
    case WantLock | Woken => s.owner == Nobody
    case Parked | Exited | Undefined => false
    // a task that has called Stop returns only after Stop has
    case Busy(_, _) => !(s.caller == OfWorker(w) && InsideStop(s))
    case _ => true
  }

  function WorkerNext(s: State, w: nat): State
    requires WorkerEnabled(s, w)
  {
    match s.workers[w]
    case LoopTest => s.(workers := s.workers[w := if s.stop then Exited else WantLock])
    case WantLock | Woken => s.(owner := Worker(w), workers := s.workers[w := EmptyTest])
    case EmptyTest =>
      s.(workers := s.workers[w := if s.tasks == [] && !s.stop then AboutToWait else StopTest])
    case AboutToWait => s.(owner := Nobody, workers := s.workers[w := Parked])
    case StopTest =>
      if s.stop then s.(owner := Nobody, workers := s.workers[w := Exited])
      else s.(workers := s.workers[w := Take])
    case Take =>
      if s.tasks == [] then s.(workers := s.workers[w := Undefined])
      else s.(tasks := s.tasks[1..], owner := Nobody, fates := s.fates + [RunBy(w)],
              workers := s.workers[w := Busy(|s.fates|, s.tasks[0])])
    case Busy(k, task) =>
      s.(finished := s.finished + [k], ran := s.ran + [task], workers := s.workers[w := LoopTest])
  }

  predicate PosterEnabled(s: State, p: nat) {
    p < |s.posters| && !s.posters[p].PostDone? && (s.posters[p].PostWant? ==> s.owner == Nobody)
  }

  function PosterNext(s: State, p: nat): State
    requires PosterEnabled(s, p)
  {
    match s.posters[p]
    case PostWant(t) => s.(owner := Poster(p), posters := s.posters[p := PostPush(t)])
    case PostPush(t) => s.(tasks := s.tasks + [t], posted := s.posted + [t], posters := s.posters[p := PostNotify])
    case PostNotify => s.(workers := WakeAll(s.workers), posters := s.posters[p := PostUnlock])
    case PostUnlock => s.(owner := Nobody, posters := s.posters[p := PostDone])
  }

  function FirstPhase(cfg: StopOrder): StopPhase { if cfg.underLock then WantStopLock else StoreFlag }

  predicate StopperEnabled(s: State) {
    match s.stopper
    case NotCalled | Returned => false
    case WantStopLock => s.owner == Nobody
    case Join(i) =>
      i < |s.joining| ==>
        || s.caller == OfWorker(s.joining[i])
        || (s.joining[i] < |s.workers| && s.workers[s.joining[i]].Exited?)
    case _ => true
  }

  function StopperNext(cfg: StopOrder, s: State): State
    requires StopperEnabled(s)
  {
    match s.stopper
    case StoreFlag => s.(stop := cfg.stored, stopper := NotifyAll)
    case NotifyAll =>
      s.(workers := WakeAll(s.workers), stopper := if cfg.underLock then ClearAndSwap else WantStopLock)
    case WantStopLock => s.(owner := Stopper, stopper := if cfg.underLock then StoreFlag else ClearAndSwap)
    case ClearAndSwap =>
      s.(tasks := [], fates := s.fates + seq(|s.tasks|, _ => Discarded),
         threads := [], joining := s.threads, stopper := ReleaseLock)
    case ReleaseLock => s.(owner := Nobody, stopper := Join(0))
    case Join(i) => s.(stopper := if i < |s.joining| then Join(i + 1) else Returned)
  }

  predicate Enabled(s: State, a: Step) {
    match a
    case WorkerStep(w) => WorkerEnabled(s, w)
    case SpuriousWake(w) => w < |s.workers| && s.workers[w].Parked?
    case PosterStep(p) => PosterEnabled(s, p)
    case CallStop(c) =>
      s.stopper.NotCalled? && (c.OfWorker? ==> c.id < |s.workers| && s.workers[c.id].Busy?)
    case StopperStep => StopperEnabled(s)
  }

  function Next(cfg: StopOrder, s: State, a: Step): State
    requires Enabled(s, a)
  {
    match a
    case WorkerStep(w) => WorkerNext(s, w)
    case SpuriousWake(w) => s.(workers := s.workers[w := Woken])
    case PosterStep(p) => PosterNext(s, p)
    case CallStop(c) => s.(stopper := FirstPhase(cfg), caller := c)
    case StopperStep => StopperNext(cfg, s)
  }

  /** `steps` is a schedule the pool can follow from `s`. */
  predicate Runs(cfg: StopOrder, s: State, steps: seq<Step>)
    decreases |steps|
  {
    steps == [] || (Enabled(s, steps[0]) && Runs(cfg, Next(cfg, s, steps[0]), steps[1..]))
  }

  /** The state the schedule leads to. */
  function After(cfg: StopOrder, s: State, steps: seq<Step>): State
    requires Runs(cfg, s, steps)
    decreases |steps|
  {
    if steps == [] then s else After(cfg, Next(cfg, s, steps[0]), steps[1..])
  }
}
