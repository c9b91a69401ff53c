/** The pool object. Each method is one atomic action of one thread on the shared fields, proved against
    the step function the safety and liveness results are about. */
module TaskPollObject {
  import opened TaskPollModel
  import opened TaskPollSafety

  /** How many threads could be created. */
  function Successes(created: seq<bool>): nat {
    if created == [] then 0
    else
      var n := |created| - 1;
      Successes(created[..n]) + if created[n] then 1 else 0
  }

  lemma {:induction false} AllSucceed(created: seq<bool>)
    ensures Successes(created) <= |created|
    ensures Successes(created) == |created| <==> forall i :: 0 <= i < |created| ==> created[i]
  {
    if created == [] {
    } else {
      AllSucceed(created[..|created| - 1]);
    }
  }

  class TaskPoll {
    const order: StopOrder
    const threadSize: nat

    // the pool's own fields
    var isStop: bool
    var tasks: seq<Task>
    var mutexOwner: Owner
    var threads: seq<nat>

    // the local vector of Stop and the program counters of the threads
    var joining: seq<nat>
    var workers: seq<Phase>
    var posters: seq<PostPhase>
    var stopper: StopPhase
    var caller: Caller

    // history
    var posted: seq<Task>
    var fates: seq<Fate>
    var finished: seq<nat>
    var ran: seq<Task>

    function Abs(): State
      reads this
    {
      State(isStop, tasks, mutexOwner, threads, joining, workers, posters, stopper, caller,
            posted, fates, finished, ran)
    }

    ghost predicate Valid()
      reads this
    {
      Inv(order, Abs())
    }

    constructor (threadSize: nat, order: StopOrder, calls: seq<Task>)
      ensures this.threadSize == threadSize && this.order == order
      ensures Init(Abs(), 0) && |posters| == |calls|
      ensures forall p :: 0 <= p < |calls| ==> posters[p] == PostWant(calls[p])
      ensures Valid()
    {
      this.threadSize, this.order := threadSize, order;
      isStop, tasks, mutexOwner, threads := false, [], Nobody, [];
      joining, workers, stopper, caller := [], [], NotCalled, Outsider;
      posters := seq(|calls|, i requires 0 <= i < |calls| => PostWant(calls[i]));
      posted, fates, finished, ran := [], [], [], [];
    }

    /** `created[i]` says whether the i-th std::thread could be created. Start reports success exactly when
        all of them could, and leaves the pool with the threads that were. */
    method Start(created: seq<bool>) returns (ok: bool)
      requires Init(Abs(), 0) && |created| == threadSize
      modifies this
      ensures Init(Abs(), |workers|) && Valid() && posters == old(posters)
      ensures |workers| == Successes(created)
      ensures ok <==> forall i :: 0 <= i < threadSize ==> created[i]
    {
      for i := 0 to threadSize
        invariant Init(Abs(), |workers|) && posters == old(posters)
        invariant |workers| == Successes(created[..i])
      {
        assert created[..i + 1][..i] == created[..i];
        if created[i] {
          threads := threads + [|workers|];
          workers := workers + [LoopTest];
        }
      }
      assert created[..threadSize] == created;
      AllSucceed(created);
      ok := threadSize == |threads|;
    }

    /** front, pop_front and unlock; the invariant says there is something to take. */
    method TakeTask(w: nat)
      requires Valid() && w < |workers| && workers[w].Take?
      modifies this`workers, this`tasks, this`fates, this`mutexOwner
      ensures WorkerEnabled(old(Abs()), w) && Abs() == WorkerNext(old(Abs()), w)
    {
      workers := workers[w := Busy(|fates|, tasks[0])];
      tasks, fates := tasks[1..], fates + [RunBy(w)];
      mutexOwner := Nobody;
    }

    /** Run, one action at a time. */
    method StepWorker(w: nat)
      requires Valid() && WorkerEnabled(Abs(), w)
      modifies this
      ensures Abs() == WorkerNext(old(Abs()), w) && Valid()
    {
      StepKeepsInv(order, Abs(), WorkerStep(w));
      match workers[w] {
        case LoopTest =>
          workers := workers[w := if isStop then Exited else WantLock];
        case WantLock | Woken =>
          mutexOwner := Worker(w);
          workers := workers[w := EmptyTest];
        case EmptyTest =>
          workers := workers[w := if tasks == [] && !isStop then AboutToWait else StopTest];
        case AboutToWait =>
          mutexOwner := Nobody;
          workers := workers[w := Parked];
        case StopTest =>
          if isStop {
            mutexOwner := Nobody;
            workers := workers[w := Exited];
          } else {
            workers := workers[w := Take];
          }
        case Take =>
          TakeTask(w);
        case Busy(k, task) =>
          finished, ran := finished + [k], ran + [task];
          workers := workers[w := LoopTest];
      }
    }

    /** cond_.notify_all */
    method NotifyAllWaiters()
      modifies this`workers
      ensures workers == WakeAll(old(workers))
    {
      workers := WakeAll(workers);
    }

    /** Post, one action at a time. */
    method StepPoster(p: nat)
      requires Valid() && PosterEnabled(Abs(), p)
      modifies this
      ensures Abs() == PosterNext(old(Abs()), p) && Valid()
    {
      StepKeepsInv(order, Abs(), PosterStep(p));
      match posters[p] {
        case PostWant(task) =>
          mutexOwner := Poster(p);
          posters := posters[p := PostPush(task)];
        case PostPush(task) =>
          tasks, posted := tasks + [task], posted + [task];
          posters := posters[p := PostNotify];
        case PostNotify =>
          NotifyAllWaiters();
          posters := posters[p := PostUnlock];
        case PostUnlock =>
          mutexOwner := Nobody;
          posters := posters[p := PostDone];
      }
    }

    /** tasks_.clear() and _threads.swap(threads_) */
    method TakeThreads()
      modifies this`tasks, this`fates, this`joining, this`threads
      ensures tasks == [] && fates == old(fates) + seq(|old(tasks)|, _ => Discarded)
      ensures joining == old(threads) && threads == []
    {
      fates := fates + seq(|tasks|, _ => Discarded);
      tasks := [];
      joining, threads := threads, [];
    }

    /** One round of the join loop, lines 35-45: the next thread has ended, or is the caller itself. */
    method JoinNext()
      requires Valid() && stopper.Join? && StopperEnabled(Abs())
      modifies this`stopper
      ensures Abs() == StopperNext(order, old(Abs())) && Valid()
    {
      StepKeepsInv(order, Abs(), StopperStep);
      stopper := if stopper.next < |joining| then Join(stopper.next + 1) else Returned;
    }

    /** Stop, one action at a time. */
    method StepStopper()
      requires Valid() && StopperEnabled(Abs())
      modifies this
      ensures Abs() == StopperNext(order, old(Abs())) && Valid()
    {
      ghost var s := Abs();
      StepKeepsInv(order, s, StopperStep);
      match stopper {
        case StoreFlag =>
          isStop := order.stored;
          stopper := NotifyAll;
        case NotifyAll =>
          NotifyAllWaiters();
          stopper := if order.underLock then ClearAndSwap else WantStopLock;
        case WantStopLock =>
          mutexOwner := Stopper;
          stopper := if order.underLock then StoreFlag else ClearAndSwap;
        case ClearAndSwap =>
          TakeThreads();
          stopper := ReleaseLock;
        case ReleaseLock =>
          mutexOwner := Nobody;
          stopper := Join(0);
        case Join(_) =>
          JoinNext();
      }
      assert Abs() == StopperNext(order, s);
    }

    /** A thread, or the function a worker is running, calls Stop. */
    method CallStopFrom(from: Caller)
      requires Valid() && Enabled(Abs(), CallStop(from))
      modifies this
      ensures Abs() == Next(order, old(Abs()), CallStop(from)) && Valid()
    {
      StepKeepsInv(order, Abs(), CallStop(from));
      caller := from;
      stopper := if order.underLock then WantStopLock else StoreFlag;
    }

    /** cond_.wait returns although nobody notified. */
    method WakeSpuriously(w: nat)
      requires Valid() && w < |workers| && workers[w].Parked?
      modifies this
      ensures Abs() == Next(order, old(Abs()), SpuriousWake(w)) && Valid()
    {
      StepKeepsInv(order, Abs(), SpuriousWake(w));
      workers := workers[w := Woken];
    }
  }
}
