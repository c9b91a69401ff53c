/** Singleton::Instance of ControlPPt/source/PPTServer/singleton.h: double-checked locking by any number of
    calls. Allocation, construction and publication are separate steps, and a constructor may throw. */
module SingletonModel {
  import opened Totals

  datatype Pointer = Null | To(obj: nat)

  /** Where a call of Instance stands. SecondLoad to Unlock hold the mutex. */
  datatype Call =
    | FirstLoad                 // line 12
    | WantLock                  // line 14
    | SecondLoad                // line 15
    | Allocate                  // line 17, operator new
    | Construct(obj: nat)   // line 17, the constructor
    | Publish(obj: nat)     // line 18
    | Unlock(result: Pointer)   // line 20
    | Returned(result: Pointer) // line 21
    | Threw                     // the constructor threw; the guard has unlocked

  datatype Object = Raw | Built | Destroyed

  datatype Owner = Nobody | Caller(id: nat)

  datatype State = State(instance: Pointer, owner: Owner, calls: seq<Call>, objects: seq<Object>)

  /** One action of call `c`; `throws` says what the constructor does if this is where it runs. */
  datatype Step = Step(c: nat, throws: bool)

  predicate Holds(p: Call) {
    p.SecondLoad? || p.Allocate? || p.Construct? || p.Publish? || p.Unlock?
  }

  predicate Done(p: Call) { p.Returned? || p.Threw? }

  predicate Enabled(s: State, a: Step) {
    && a.c < |s.calls| && !Done(s.calls[a.c])
    && (s.calls[a.c].WantLock? ==> s.owner == Nobody)
    && (s.calls[a.c].Construct? ==> s.calls[a.c].obj < |s.objects|)
  }

  function Next(s: State, a: Step): State
    requires Enabled(s, a)
  {
    var c := a.c;
    match s.calls[c]
    case FirstLoad => s.(calls := s.calls[c := if s.instance.Null? then WantLock else Returned(s.instance)])
    case WantLock => s.(owner := Caller(c), calls := s.calls[c := SecondLoad])
    case SecondLoad => s.(calls := s.calls[c := if s.instance.Null? then Allocate else Unlock(s.instance)])
    case Allocate => s.(objects := s.objects + [Raw], calls := s.calls[c := Construct(|s.objects|)])
    case Construct(o) =>
      if a.throws then s.(objects := s.objects[o := Destroyed], owner := Nobody, calls := s.calls[c := Threw])
      else s.(objects := s.objects[o := Built], calls := s.calls[c := Publish(o)])
    case Publish(o) => s.(instance := To(o), calls := s.calls[c := Unlock(To(o))])
    case Unlock(p) => s.(owner := Nobody, calls := s.calls[c := Returned(p)])
  }

  predicate Runs(s: State, steps: seq<Step>)
    decreases |steps|
  {
    steps == [] || (Enabled(s, steps[0]) && Runs(Next(s, steps[0]), steps[1..]))
  }

  function After(s: State, steps: seq<Step>): State
    requires Runs(s, steps)
    decreases |steps|
  {
    if steps == [] then s else After(Next(s, steps[0]), steps[1..])
  }

  predicate Init(s: State) {
    && s.instance == Null && s.owner == Nobody && s.objects == []
    && forall c :: 0 <= c < |s.calls| ==> s.calls[c].FirstLoad?
  }

  predicate MutexInv(s: State) {
    && (forall c :: 0 <= c < |s.calls| ==> (Holds(s.calls[c]) <==> s.owner == Caller(c)))
    && (s.owner.Caller? ==> s.owner.id < |s.calls|)
  }

  /** What a call knows about the objects and the pointer. */
  predicate CallInv(s: State, p: Call) {
    match p
    case Allocate => s.instance.Null?
    case Construct(o) => s.instance.Null? && o < |s.objects| && s.objects[o].Raw?
    case Publish(o) => s.instance.Null? && o < |s.objects| && s.objects[o].Built?
    case Unlock(r) => r == s.instance && r.To?
    case Returned(r) => r == s.instance && r.To?
    case _ => true
  }

  /** The object that is not a leftover of a throwing constructor belongs to the published pointer or to the
      call inside the critical section. */
  predicate Live(s: State, o: nat) {
    || s.instance == To(o)
    || (s.owner.Caller? && s.owner.id < |s.calls| && s.calls[s.owner.id] in {Construct(o), Publish(o)})
  }

  predicate Inv(s: State) {
    && MutexInv(s)
    && (forall c :: 0 <= c < |s.calls| ==> CallInv(s, s.calls[c]))
    && (s.instance.To? ==> s.instance.obj < |s.objects| && s.objects[s.instance.obj].Built?)
    && (forall o :: 0 <= o < |s.objects| && !s.objects[o].Destroyed? ==> Live(s, o))
  }

  lemma StepKeepsInv(s: State, a: Step)
    requires Inv(s) && Enabled(s, a)
    ensures Inv(Next(s, a))
    ensures s.instance.To? ==> Next(s, a).instance == s.instance
  {
  }

  /** Over a whole run the pointer, once it is not null, never changes. */
  lemma {:induction false} RunKeepsInv(s: State, steps: seq<Step>)
    requires Inv(s) && Runs(s, steps)
    ensures Inv(After(s, steps)) && |After(s, steps).calls| == |s.calls|
    ensures s.instance.To? ==> After(s, steps).instance == s.instance
    decreases |steps|
  {
    if steps == [] {
    } else {
      StepKeepsInv(s, steps[0]);
      RunKeepsInv(Next(s, steps[0]), steps[1..]);
    }
  }

  /** Double-checked locking is safe for any number of calls and any interleaving: at most one object is ever
      built, the published one is built, and all completed calls return the same non-null pointer to it. */
  lemma OneInstance(s: State, steps: seq<Step>)
    requires Init(s) && Runs(s, steps)
    ensures var t := After(s, steps);
            && (forall i, j ::
                  0 <= i < |t.objects| && 0 <= j < |t.objects| && t.objects[i].Built? && t.objects[j].Built?
                  ==> i == j)
            && (t.instance.To? ==> t.instance.obj < |t.objects| && t.objects[t.instance.obj].Built?)
            && (forall c :: 0 <= c < |t.calls| && t.calls[c].Returned? ==>
                  t.calls[c].result == t.instance && t.instance.To?)
  {
    RunKeepsInv(s, steps);
    var t := After(s, steps);
    forall c | 0 <= c < |t.calls| && t.calls[c].Returned?
      ensures t.calls[c].result == t.instance && t.instance.To?
    {
      assert CallInv(t, t.calls[c]);
    }
    forall i, j | 0 <= i < |t.objects| && 0 <= j < |t.objects| && t.objects[i].Built? && t.objects[j].Built?
      ensures i == j
    {
      assert Live(t, i) && Live(t, j);
      if t.owner.Caller? {
        assert CallInv(t, t.calls[t.owner.id]);
      }
    }
  }

  /** The point of the first check: once the object is published, a call that has not looked yet never asks for the
      mutex; it is at its first load until it has returned the object. */
  lemma {:induction false} PublishedNeedsNoLock(s: State, steps: seq<Step>, c: nat)
    requires s.instance.To? && Inv(s) && Runs(s, steps) && c < |s.calls|
    requires s.calls[c].FirstLoad? || s.calls[c] == Returned(s.instance)
    ensures var t := After(s, steps);
            |t.calls| == |s.calls| && (t.calls[c].FirstLoad? || t.calls[c] == Returned(s.instance))
    decreases |steps|
  {
    if steps == [] {
    } else {
      StepKeepsInv(s, steps[0]);
      PublishedNeedsNoLock(Next(s, steps[0]), steps[1..], c);
    }
  }

  function Rank(p: Call): nat {
    match p
    case FirstLoad => 7
    case WantLock => 6
    case SecondLoad => 5
    case Allocate => 4
    case Construct(_) => 3
    case Publish(_) => 2
    case Unlock(_) => 1
    case Returned(_) | Threw => 0
  }

  predicate Throws(s: State, a: Step)
    requires Enabled(s, a)
  {
    s.calls[a.c].Construct? && a.throws
  }

  predicate NoThrow(s: State, steps: seq<Step>)
    requires Runs(s, steps)
    decreases |steps|
  {
    steps == [] || (!Throws(s, steps[0]) && NoThrow(Next(s, steps[0]), steps[1..]))
  }

  lemma StepLowersRank(s: State, a: Step)
    requires Enabled(s, a)
    ensures Total(Next(s, a).calls, Rank) < Total(s.calls, Rank)
  {
    TotalUpdate(s.calls, a.c, Next(s, a).calls[a.c], Rank);
  }

  lemma {:induction false} RunIsBounded(s: State, steps: seq<Step>)
    requires Runs(s, steps)
    ensures |steps| + Total(After(s, steps).calls, Rank) <= Total(s.calls, Rank)
    decreases |steps|
  {
    if steps == [] {
    } else {
      StepLowersRank(s, steps[0]);
      RunIsBounded(Next(s, steps[0]), steps[1..]);
    }
  }

  /** Some step of the run is a throwing constructor of call c. */
  predicate SomeThrow(s: State, steps: seq<Step>, c: nat)
    requires Runs(s, steps)
    decreases |steps|
  {
    steps != [] && ((Throws(s, steps[0]) && steps[0].c == c) || SomeThrow(Next(s, steps[0]), steps[1..], c))
  }

  lemma {:induction false} DoneStays(s: State, steps: seq<Step>, c: nat)
    requires c < |s.calls| && Done(s.calls[c]) && Runs(s, steps)
    ensures |After(s, steps).calls| == |s.calls| && After(s, steps).calls[c] == s.calls[c]
    ensures !SomeThrow(s, steps, c)
    decreases |steps|
  {
    if steps == [] {
    } else {
      DoneStays(Next(s, steps[0]), steps[1..], c);
    }
  }

  /** A call ends in an exception exactly if its own constructor threw. */
  lemma {:induction false} ThrewExactly(s: State, steps: seq<Step>, c: nat)
    requires c < |s.calls| && !s.calls[c].Threw? && Runs(s, steps)
    ensures |After(s, steps).calls| == |s.calls|
    ensures After(s, steps).calls[c].Threw? <==> SomeThrow(s, steps, c)
    decreases |steps|
  {
    if steps == [] {
    } else if Throws(s, steps[0]) && steps[0].c == c {
      DoneStays(Next(s, steps[0]), steps[1..], c);
    } else {
      ThrewExactly(Next(s, steps[0]), steps[1..], c);
    }
  }

  predicate NobodyThrew(s: State) { forall c :: 0 <= c < |s.calls| ==> !s.calls[c].Threw? }

  lemma {:induction false} NobodyThrows(s: State, steps: seq<Step>)
    requires Runs(s, steps) && NoThrow(s, steps) && NobodyThrew(s)
    ensures NobodyThrew(After(s, steps))
    decreases |steps|
  {
    if steps == [] {
    } else {
      NobodyThrows(Next(s, steps[0]), steps[1..]);
    }
  }

  lemma {:induction false} AllFirst(calls: seq<Call>)
    requires forall c :: 0 <= c < |calls| ==> calls[c].FirstLoad?
    ensures Total(calls, Rank) == 7 * |calls|
  {
    if calls == [] {
    } else {
      AllFirst(calls[1..]);
    }
  }

  /** When no call can move, all are done: the owner of the mutex, if there is one, can. */
  lemma StuckMeansDone(s: State)
    requires Inv(s) && forall a :: !Enabled(s, a)
    ensures forall c :: 0 <= c < |s.calls| ==> Done(s.calls[c])
  {
    if s.owner.Caller? {
      assert CallInv(s, s.calls[s.owner.id]);
      assert Enabled(s, Step(s.owner.id, false));
    }
    forall c | 0 <= c < |s.calls|
      ensures Done(s.calls[c])
    {
      assert !Enabled(s, Step(c, false));
    }
  }

  /** Every call completes: a run has at most seven steps a call, it stops only when every call is done, and
      without a throwing constructor every call has then returned the object. */
  lemma EveryCallCompletes(s: State, steps: seq<Step>)
    requires Init(s) && Runs(s, steps)
    ensures |steps| <= 7 * |s.calls|
    ensures var t := After(s, steps);
            |t.calls| == |s.calls| &&
            ((forall a :: !Enabled(t, a)) ==>
              && (forall c :: 0 <= c < |t.calls| ==> Done(t.calls[c]))
              && (NoThrow(s, steps) ==>
                    forall c :: 0 <= c < |t.calls| ==> t.instance.To? && t.calls[c] == Returned(t.instance)))
  {
    RunKeepsInv(s, steps);
    RunIsBounded(s, steps);
    AllFirst(s.calls);
    var t := After(s, steps);
    if forall a :: !Enabled(t, a) {
      StuckMeansDone(t);
      if NoThrow(s, steps) {
        NobodyThrows(s, steps);
        assert forall c :: 0 <= c < |t.calls| ==> CallInv(t, t.calls[c]);
      }
    }
  }

  /** The static members of Singleton<T> and the calls in progress; a step is one action of one call. */
  class Singleton {
    var instance: Pointer
    var mutexOwner: Owner
    var calls: seq<Call>
    var objects: seq<Object>

    function Abs(): State
      reads this
    {
      State(instance, mutexOwner, calls, objects)
    }

    constructor (n: nat)
      ensures Init(Abs()) && |calls| == n && Inv(Abs())
    {
      instance, mutexOwner, calls, objects := Null, Nobody, seq(n, _ => FirstLoad), [];
    }

    method InstanceStep(c: nat, throws: bool)
      requires Inv(Abs()) && Enabled(Abs(), Step(c, throws))
      modifies this
      ensures Abs() == Next(old(Abs()), Step(c, throws)) && Inv(Abs())
    {
      StepKeepsInv(Abs(), Step(c, throws));
      match calls[c] {
        case FirstLoad =>
          calls := calls[c := if instance == Null then WantLock else Returned(instance)];
        case WantLock =>
          mutexOwner := Caller(c);
          calls := calls[c := SecondLoad];
        case SecondLoad =>
          calls := calls[c := if instance == Null then Allocate else Unlock(instance)];
        case Allocate =>
          calls := calls[c := Construct(|objects|)];
          objects := objects + [Raw];
        case Construct(o) =>
          if throws {
            objects := objects[o := Destroyed];
            mutexOwner := Nobody;
            calls := calls[c := Threw];
          } else {
            objects := objects[o := Built];
            calls := calls[c := Publish(o)];
          }
        case Publish(o) =>
          instance := To(o);
          calls := calls[c := Unlock(instance)];
        case Unlock(p) =>
          mutexOwner := Nobody;
          calls := calls[c := Returned(p)];
      }
    }
  }
}
