/** session.cc on top of its channel: each handle_read arms the next read before it writes its echo. The
    index of a message stands for its payload; handlers run on dispatcher workers, and a read whose data is
    already there runs its handler at once, inside the handler that armed it. An error completion ends the
    reading. */
module EchoModel {

  /** One activation of handle_read, for the message with this index. */
  datatype Activation =
    | ToArm(index: nat)    // session.cc:69, about to call async_read
    | ToWrite(index: nat)  // session.cc:70, about to call async_write

  /** `armed`: a read is pending and will complete through the port. `stacks`: for each worker the
      activations it has entered and not left, innermost last. */
  datatype State = State(received: nat, armed: bool, stacks: seq<seq<Activation>>, echoed: seq<nat>)

  datatype Step =
    | Dispatch(w: nat)     // an idle worker takes the completion of the pending read
    | ArmPending(w: nat)   // async_read leaves the read pending
    | ArmInline(w: nat)    // WSARecv has the next message at once and its handler runs here
    | FailPending(w: nat)  // an idle worker takes an error completion of the pending read, lines 58-62
    | FailInArm(w: nat)    // the read reports an error from inside async_read
    | Write(w: nat)        // async_write, and the activation ends

  function Top(stack: seq<Activation>): Activation
    requires |stack| > 0
  {
    stack[|stack| - 1]
  }

  function Pop(stack: seq<Activation>): seq<Activation>
    requires |stack| > 0
  {
    stack[..|stack| - 1]
  }

  predicate AtArm(s: State, w: nat) { w < |s.stacks| && |s.stacks[w]| > 0 && Top(s.stacks[w]).ToArm? }

  predicate Enabled(s: State, a: Step) {
    match a
    case Dispatch(w) => w < |s.stacks| && s.stacks[w] == [] && s.armed
    case ArmPending(w) => AtArm(s, w)
    case ArmInline(w) => AtArm(s, w)
    case FailPending(w) => w < |s.stacks| && s.stacks[w] == [] && s.armed
    case FailInArm(w) => AtArm(s, w)
    case Write(w) => w < |s.stacks| && |s.stacks[w]| > 0 && Top(s.stacks[w]).ToWrite?
  }

  function Next(s: State, a: Step): State
    requires Enabled(s, a)
  {
    var w := a.w;
    var st := s.stacks[w];
    match a
    case Dispatch(_) => s.(armed := false, received := s.received + 1, stacks := s.stacks[w := [ToArm(s.received)]])
    case ArmPending(_) => s.(armed := true, stacks := s.stacks[w := Pop(st) + [ToWrite(Top(st).index)]])
    case ArmInline(_) =>
      s.(received := s.received + 1,
         stacks := s.stacks[w := Pop(st) + [ToWrite(Top(st).index), ToArm(s.received)]])
    case FailPending(_) => s.(armed := false)
    case FailInArm(_) => s.(stacks := s.stacks[w := Pop(st) + [ToWrite(Top(st).index)]])
    case Write(_) => s.(echoed := s.echoed + [Top(st).index], stacks := s.stacks[w := Pop(st)])
  }

  predicate Runs(s: State, steps: seq<Step>)
    decreases |steps|
  {
    steps == [] || (Enabled(s, steps[0]) && Runs(Next(s, steps[0]), steps[1..]))
  }

  function After(s: State, steps: seq<Step>): State
    requires Runs(s, steps)
    decreases |steps|
  {
    if steps == [] then s else After(Next(s, steps[0]), steps[1..])
  }

  /** start() has armed the first read; `workers` dispatcher threads are idle. If the first message was there at
      once, start() runs its handler on the worker that accepted the connection and has nothing left to do after
      it: that is Dispatch on this worker. */
  function Initial(workers: nat): State { State(0, true, seq(workers, _ => []), []) }

  // ---- one read chain ----

  function Arming(stack: seq<Activation>): nat {
    if stack == [] then 0 else (if stack[0].ToArm? then 1 else 0) + Arming(stack[1..])
  }

  lemma {:induction false} ArmingAppend(st: seq<Activation>, top: seq<Activation>)
    ensures Arming(st + top) == Arming(st) + Arming(top)
  {
    if st == [] {
      assert st + top == top;
    } else {
      assert (st + top)[1..] == st[1..] + top;
      ArmingAppend(st[1..], top);
    }
  }

  function ArmingAll(stacks: seq<seq<Activation>>): nat {
    if stacks == [] then 0 else Arming(stacks[0]) + ArmingAll(stacks[1..])
  }

  lemma {:induction false} ArmingUpdate(stacks: seq<seq<Activation>>, w: nat, st: seq<Activation>)
    requires w < |stacks|
    ensures ArmingAll(stacks[w := st]) + Arming(stacks[w]) == ArmingAll(stacks) + Arming(st)
  {
    if w == 0 {
      assert stacks[w := st][1..] == stacks[1..];
    } else {
      assert stacks[w := st][1..] == stacks[1..][w - 1 := st];
      ArmingUpdate(stacks[1..], w - 1, st);
    }
  }

  /** Reads pending plus handlers that are about to arm one. */
  function Chains(s: State): nat { (if s.armed then 1 else 0) + ArmingAll(s.stacks) }

  lemma ArmingFew(a: Activation, b: Activation)
    ensures Arming([a]) == if a.ToArm? then 1 else 0
    ensures Arming([a, b]) == Arming([a]) + Arming([b])
  {
    assert [a][1..] == [] && [b][1..] == [] && [a, b][1..] == [b];
  }

  predicate Fails(a: Step) { a.FailPending? || a.FailInArm? }

  lemma {:induction false} ArmingBound(stacks: seq<seq<Activation>>, w: nat)
    requires w < |stacks|
    ensures Arming(stacks[w]) <= ArmingAll(stacks)
  {
    if w == 0 {
    } else {
      ArmingBound(stacks[1..], w - 1);
    }
  }

  /** A failed read ends a chain, any other step keeps their number: nothing starts a second one. */
  lemma StepKeepsChains(s: State, a: Step)
    requires Chains(s) <= 1 && Enabled(s, a)
    ensures Chains(Next(s, a)) + (if Fails(a) then 1 else 0) == Chains(s)
  {
    var st, tt := s.stacks[a.w], Next(s, a).stacks[a.w];
    ArmingUpdate(s.stacks, a.w, tt);
    ArmingFew(ToArm(s.received), ToArm(0));
    if st != [] {
      var k := Top(st).index;
      assert st == Pop(st) + [Top(st)];
      ArmingFew(ToWrite(k), ToArm(s.received));
      ArmingFew(ToArm(k), ToArm(s.received));
      ArmingAppend(Pop(st), [Top(st)]);
      ArmingAppend(Pop(st), [ToWrite(k)]);
      ArmingAppend(Pop(st), [ToWrite(k), ToArm(s.received)]);
    }
    ArmingBound(s.stacks, a.w);
    assert a.FailPending? ==> Next(s, a).stacks == s.stacks;
  }

  predicate NoFailure(steps: seq<Step>) { forall i :: 0 <= i < |steps| ==> !Fails(steps[i]) }

  lemma {:induction false} RunKeepsChains(s: State, steps: seq<Step>)
    requires Chains(s) <= 1 && Runs(s, steps)
    ensures Chains(After(s, steps)) <= Chains(s)
    ensures Chains(After(s, steps)) == Chains(s) <==> NoFailure(steps)
    decreases |steps|
  {
    if steps == [] {
    } else {
      StepKeepsChains(s, steps[0]);
      RunKeepsChains(Next(s, steps[0]), steps[1..]);
      assert NoFailure(steps) <==> !Fails(steps[0]) && NoFailure(steps[1..]);
    }
  }

  lemma {:induction false} OneChainAtStart(workers: nat)
    ensures Chains(Initial(workers)) == 1
  {
    if workers == 0 {
    } else {
      OneChainAtStart(workers - 1);
      assert Initial(workers).stacks[1..] == Initial(workers - 1).stacks;
    }
  }

  /** The session never has two reads in flight on its channel, whatever the number of workers; and it has one,
      pending or about to be armed, exactly until a read fails. */
  lemma OneReadChain(workers: nat, steps: seq<Step>)
    requires Runs(Initial(workers), steps)
    ensures Chains(After(Initial(workers), steps)) <= 1
    ensures Chains(After(Initial(workers), steps)) == 1 <==> NoFailure(steps)
  {
    OneChainAtStart(workers);
    RunKeepsChains(Initial(workers), steps);
  }

  lemma ArmingIsAChain(s: State, w: nat)
    requires AtArm(s, w)
    ensures Chains(s) >= 1
  {
    var st := s.stacks[w];
    assert st == Pop(st) + [Top(st)];
    ArmingAppend(Pop(st), [Top(st)]);
    ArmingFew(Top(st), Top(st));
    ArmingBound(s.stacks, w);
  }

  lemma NoChainOnlyWrites(s: State, a: Step)
    requires Chains(s) == 0 && Enabled(s, a)
    ensures a.Write? && Chains(Next(s, a)) == 0
  {
    if AtArm(s, a.w) {
      ArmingIsAChain(s, a.w);
    } else {
      StepKeepsChains(s, a);
    }
  }

  /** Once a read has failed the session takes no message any more: what is under way is echoed, and that is all. */
  lemma {:induction false} FailureEndsReading(s: State, steps: seq<Step>)
    requires Chains(s) == 0 && Runs(s, steps)
    ensures After(s, steps).received == s.received && !After(s, steps).armed
    ensures forall i :: 0 <= i < |steps| ==> steps[i].Write?
    decreases |steps|
  {
    if steps == [] {
    } else {
      NoChainOnlyWrites(s, steps[0]);
      FailureEndsReading(Next(s, steps[0]), steps[1..]);
    }
  }

  /** A pending read can fail, and so can one that a handler is arming. */
  lemma ReadsCanFail(workers: nat)
    requires workers > 0
    ensures Runs(Initial(workers), [FailPending(0)]) && Chains(After(Initial(workers), [FailPending(0)])) == 0
    ensures Runs(Initial(workers), [Dispatch(0), FailInArm(0)])
    ensures Chains(After(Initial(workers), [Dispatch(0), FailInArm(0)])) == 0
  {
    var s := Initial(workers);
    OneChainAtStart(workers);
    StepKeepsChains(s, FailPending(0));
    StepKeepsChains(s, Dispatch(0));
    StepKeepsChains(Next(s, Dispatch(0)), FailInArm(0));
    assert [FailPending(0)][1..] == [] && [FailInArm(0)][1..] == [];
    assert [Dispatch(0), FailInArm(0)][1..] == [FailInArm(0)];
  }

  // ---- echo order with one worker ----

  /** The indices a stack will echo, in the order it will: innermost first. */
  function ToCome(stack: seq<Activation>): seq<nat> {
    if stack == [] then [] else [Top(stack).index] + ToCome(Pop(stack))
  }

  /** The order of all echoes of the messages received so far. */
  function EchoOrder(s: State): seq<nat>
    requires |s.stacks| == 1
  {
    s.echoed + ToCome(s.stacks[0])
  }

  predicate Ascending(ks: seq<nat>) { forall i, j :: 0 <= i < j < |ks| ==> ks[i] < ks[j] }

  predicate Below(ks: seq<nat>, n: nat) { forall i :: 0 <= i < |ks| ==> ks[i] < n }

  function UpTo(n: nat): (r: seq<nat>) { seq(n, i => i) }

  predicate NoInline(steps: seq<Step>) { forall i :: 0 <= i < |steps| ==> !steps[i].ArmInline? }

  /** All steps but an inline arm keep the order and append to it; an inline arm puts the newest message in
      front of an older one. */
  lemma StepAndOrder(s: State, a: Step)
    requires |s.stacks| == 1 && Enabled(s, a)
    ensures var before, after := EchoOrder(s), EchoOrder(Next(s, a));
            match a
            case Dispatch(_) => after == before + [s.received]
            case ArmInline(_) =>
              && |s.stacks[0]| > 0 && ToCome(s.stacks[0]) != []
              && after == s.echoed + [s.received] + ToCome(s.stacks[0]) && before == s.echoed + ToCome(s.stacks[0])
            case _ => after == before
  {
    var st, tt := s.stacks[0], Next(s, a).stacks[0];
    match a
    case Dispatch(_) =>
      assert ToCome(tt) == [s.received] + ToCome(Pop(tt)) && Pop(tt) == [];
      assert ToCome(st) == [];
    case ArmPending(_) =>
      assert Pop(tt) == Pop(st) && ToCome(tt) == ToCome(st);
    case FailInArm(_) =>
      assert Pop(tt) == Pop(st) && ToCome(tt) == ToCome(st);
    case FailPending(_) =>
    case ArmInline(_) =>
      var mid := Pop(st) + [ToWrite(Top(st).index)];
      assert Pop(tt) == mid && Pop(mid) == Pop(st);
      assert ToCome(mid) == ToCome(st) && ToCome(tt) == [s.received] + ToCome(st);
    case Write(_) =>
      assert ToCome(st) == [Top(st).index] + ToCome(tt);
  }

  /** All messages received are in the echo order once, none beyond them. */
  predicate OrderInv(s: State) {
    |s.stacks| == 1 && |EchoOrder(s)| == s.received && Below(EchoOrder(s), s.received)
  }

  lemma StepKeepsOrderInv(s: State, a: Step)
    requires OrderInv(s) && Enabled(s, a)
    ensures OrderInv(Next(s, a))
    ensures Ascending(EchoOrder(Next(s, a))) <==> Ascending(EchoOrder(s)) && !a.ArmInline?
  {
    StepAndOrder(s, a);
    var before, after := EchoOrder(s), EchoOrder(Next(s, a));
    match a
    case Dispatch(_) =>
      assert Ascending(after) ==> Ascending(before) by {
        assert before == after[..|before|];
      }
    case ArmInline(_) =>
      var n := |s.echoed|;
      assert forall i :: 0 <= i < n ==> after[i] == before[i];
      assert forall i :: n < i < |after| ==> after[i] == before[i - 1];
      assert after[n] == s.received && after[n + 1] == ToCome(s.stacks[0])[0] == before[n] < s.received;
    case _ =>
  }

  lemma {:induction false} RunKeepsOrder(s: State, steps: seq<Step>)
    requires OrderInv(s) && Runs(s, steps)
    ensures OrderInv(After(s, steps))
    ensures Ascending(EchoOrder(After(s, steps))) <==> Ascending(EchoOrder(s)) && NoInline(steps)
    decreases |steps|
  {
    if steps == [] {
    } else {
      StepKeepsOrderInv(s, steps[0]);
      RunKeepsOrder(Next(s, steps[0]), steps[1..]);
      assert NoInline(steps) <==> !steps[0].ArmInline? && NoInline(steps[1..]);
    }
  }

  /** `n` ascending numbers below `n` are 0, 1, 2 and so on. */
  lemma {:induction false} AscendingIsUpTo(ks: seq<nat>, n: nat)
    requires Ascending(ks) && |ks| == n && Below(ks, n)
    ensures ks == UpTo(n)
  {
    if n == 0 {
    } else {
      var front := ks[..n - 1];
      assert forall i :: 0 <= i < n - 1 ==> ks[i] < ks[n - 1];
      AscendingIsUpTo(front, n - 1);
      assert n > 1 ==> ks[n - 2] == n - 2;
      assert ks == front + [ks[n - 1]];
    }
  }

  /** With one worker the session echoes what the client sent, in the order it was sent, exactly in the runs
      in which no read finds its whole message already there when it is armed. */
  lemma EchoOrderExactly(steps: seq<Step>)
    requires Runs(Initial(1), steps)
    ensures var t := After(Initial(1), steps);
            |t.stacks| == 1 && (EchoOrder(t) == UpTo(t.received) <==> NoInline(steps))
  {
    RunKeepsOrder(Initial(1), steps);
    var t := After(Initial(1), steps);
    if Ascending(EchoOrder(t)) {
      AscendingIsUpTo(EchoOrder(t), t.received);
    }
  }

  /** So without inline completions the payloads echoed are at every moment a prefix of those received. */
  lemma EchoesArePrefix<Payload>(steps: seq<Step>, payloads: seq<Payload>)
    requires Runs(Initial(1), steps) && NoInline(steps)
    requires After(Initial(1), steps).received == |payloads|
    ensures var e := After(Initial(1), steps).echoed;
            && (forall i :: 0 <= i < |e| ==> e[i] < |payloads|)
            && seq(|e|, i requires 0 <= i < |e| => payloads[e[i]]) <= payloads
  {
    EchoOrderExactly(steps);
    var t := After(Initial(1), steps);
    assert forall i :: 0 <= i < |t.echoed| ==> t.echoed[i] == EchoOrder(t)[i] == i;
  }

  lemma Prepend(s: State, a: Step, rest: seq<Step>, last: State)
    requires Enabled(s, a) && Runs(Next(s, a), rest) && After(Next(s, a), rest) == last
    ensures Runs(s, [a] + rest) && After(s, [a] + rest) == last
  {
    assert ([a] + rest)[1..] == rest;
  }

  /** An idle worker takes a message, copies it and arms the next read. */
  lemma TakeAndArm(s: State, w: nat, rest: seq<Step>, last: State)
    requires w < |s.stacks| && s.stacks[w] == [] && s.armed
    requires var t := s.(received := s.received + 1, stacks := s.stacks[w := [ToWrite(s.received)]]);
             Runs(t, rest) && After(t, rest) == last
    ensures Runs(s, [Dispatch(w)] + ([ArmPending(w)] + rest))
    ensures After(s, [Dispatch(w)] + ([ArmPending(w)] + rest)) == last
  {
    var s1 := Next(s, Dispatch(w));
    assert Pop([ToArm(s.received)]) + [ToWrite(s.received)] == [ToWrite(s.received)];
    assert s1.stacks[w := [ToWrite(s.received)]] == s.stacks[w := [ToWrite(s.received)]];
    Prepend(s1, ArmPending(w), rest, last);
    Prepend(s, Dispatch(w), [ArmPending(w)] + rest, last);
  }

  lemma WriteBoth(s: State)
    requires |s.stacks| >= 2 && s.stacks[0] == [ToWrite(0)] && s.stacks[1] == [ToWrite(1)] && s.echoed == []
    ensures Runs(s, [Write(1), Write(0)]) && After(s, [Write(1), Write(0)]).echoed == [1, 0]
  {
    var t := Next(s, Write(1));
    assert [Write(1), Write(0)][1..] == [Write(0)] && [Write(0)][1..] == [];
    assert t.stacks[0] == [ToWrite(0)] && t.echoed == [1];
  }

  /** While worker 0 is about to write message 0, worker 1 takes message 1, and writes it first. */
  lemma SecondOvertakes(s: State) returns (steps: seq<Step>)
    requires |s.stacks| >= 2 && s.stacks[0] == [ToWrite(0)] && s.stacks[1] == []
    requires s.armed && s.received == 1 && s.echoed == []
    ensures Runs(s, steps) && NoInline(steps) && NoFailure(steps) && After(s, steps).echoed == [1, 0]
  {
    var t := s.(received := 2, stacks := s.stacks[1 := [ToWrite(1)]]);
    WriteBoth(t);
    TakeAndArm(s, 1, [Write(1), Write(0)], After(t, [Write(1), Write(0)]));
    steps := [Dispatch(1)] + ([ArmPending(1)] + [Write(1), Write(0)]);
  }

  /** Any two workers reorder echoes without inline completions. */
  lemma WorkersReorder(workers: nat) returns (steps: seq<Step>)
    requires workers >= 2
    ensures Runs(Initial(workers), steps) && NoInline(steps) && NoFailure(steps)
    ensures After(Initial(workers), steps).echoed == [1, 0]
  {
    var s := Initial(workers);
    var t := s.(received := 1, stacks := s.stacks[0 := [ToWrite(0)]]);
    var rest := SecondOvertakes(t);
    TakeAndArm(s, 0, rest, After(t, rest));
    steps := [Dispatch(0)] + ([ArmPending(0)] + rest);
  }

  /** The thread count decides: in every run without inline deliveries the echoes come in the order of the
      messages. */
  ghost predicate KeepsOrder(workers: nat) {
    forall steps ::
      Runs(Initial(workers), steps) && NoInline(steps) ==> Ascending(After(Initial(workers), steps).echoed)
  }

  lemma OrderByThreadCount(workers: nat)
    ensures KeepsOrder(workers) <==> workers <= 1
  {
    if workers >= 2 {
      var steps := WorkersReorder(workers);
      assert !Ascending([1, 0]) by {
        assert [1, 0][0] > [1, 0][1];
      }
    } else {
      forall steps | Runs(Initial(workers), steps) && NoInline(steps)
        ensures Ascending(After(Initial(workers), steps).echoed)
      {
        if workers == 0 {
          assert steps == [];
        } else {
          RunKeepsOrder(Initial(1), steps);
          var t := After(Initial(1), steps);
          assert t.echoed == EchoOrder(t)[..|t.echoed|];
        }
      }
    }
  }

  /** One worker reorders them too when the second message is there at once: it is echoed from inside the
      handler of the first. */
  lemma InlineReadReorders() returns (steps: seq<Step>)
    ensures Runs(Initial(1), steps) && After(Initial(1), steps).echoed == [1, 0]
  {
    var s0, s1 := Initial(1), State(1, false, [[ToArm(0)]], []);
    assert Next(s0, Dispatch(0)) == s1;
    var s2 := State(2, false, [[ToWrite(0), ToArm(1)]], []);
    assert Pop([ToArm(0)]) + [ToWrite(0), ToArm(1)] == [ToWrite(0), ToArm(1)];
    assert Next(s1, ArmInline(0)) == s2;
    var s3 := State(2, true, [[ToWrite(0), ToWrite(1)]], []);
    assert Pop([ToWrite(0), ToArm(1)]) + [ToWrite(1)] == [ToWrite(0), ToWrite(1)];
    assert Next(s2, ArmPending(0)) == s3;
    var s4 := State(2, true, [[ToWrite(0)]], [1]);
    assert Pop([ToWrite(0), ToWrite(1)]) == [ToWrite(0)] && Next(s3, Write(0)) == s4;
    var s5 := State(2, true, [[]], [1, 0]);
    assert Next(s4, Write(0)) == s5;
    Prepend(s4, Write(0), [], s5);
    Prepend(s3, Write(0), [Write(0)] + [], s5);
    Prepend(s2, ArmPending(0), [Write(0)] + ([Write(0)] + []), s5);
    steps := [ArmPending(0)] + ([Write(0)] + ([Write(0)] + []));
    Prepend(s1, ArmInline(0), steps, s5);
    Prepend(s0, Dispatch(0), [ArmInline(0)] + steps, s5);
    steps := [Dispatch(0)] + ([ArmInline(0)] + steps);
  }
}
