/** What the client gets back: a prefix of what it sent, all of it in the end, and when it makes the session
    leave its buffer. */
module EchoRoundTrip {
  import opened ByteCodec
  import opened EchoSystem
  import opened SessionBuffer
  import S = SocketWire
  import E = EchoModel

  // ---- both streams stay synchronised ----

  /** A header completion that a channel does not notice, on either stream. */
  predicate Hazard(s: System, a: Step)
    requires Enabled(s, a)
  {
    || (a.Completes? && S.Hazard(s.up, S.Complete(a.k)))
    || (a.ClientReads? && S.Hazard(s.down, S.Complete(a.k)))
  }

  predicate HazardFree(s: System, steps: seq<Step>)
    requires Runs(s, steps)
    decreases |steps|
  {
    steps == [] || (!Hazard(s, steps[0]) && HazardFree(Next(s, steps[0]), steps[1..]))
  }

  predicate Synced(s: System) { Tied(s) && S.InSync(s.up) && S.InSync(s.down) }

  lemma StepKeepsSynced(s: System, a: Step)
    requires Synced(s) && Enabled(s, a) && !Hazard(s, a)
    ensures Synced(Next(s, a))
  {
    StepKeepsTied(s, a);
    match a
    case ClientSends(f) => S.StepKeepsSyncExactly(s.up, S.Send(f));
    case CarryUp(n) => S.StepKeepsSyncExactly(s.up, S.Transfer(n));
    case Completes(w, k) => S.StepKeepsSyncExactly(s.up, S.Complete(k));
    case ReadFails(w) => S.StepKeepsSyncExactly(s.up, S.Fail);
    case ReadPends(w) =>
    case Writes(w) => S.StepKeepsSyncExactly(s.down, S.Send(Written(s, w)));
    case CarryDown(n) => S.StepKeepsSyncExactly(s.down, S.Transfer(n));
    case ClientReads(k) => S.StepKeepsSyncExactly(s.down, S.Complete(k));
    case ClientFails => S.StepKeepsSyncExactly(s.down, S.Fail);
  }

  lemma {:induction false} RunKeepsSynced(s: System, steps: seq<Step>)
    requires Synced(s) && Runs(s, steps) && HazardFree(s, steps)
    ensures Synced(After(s, steps))
    decreases |steps|
  {
    if steps == [] {
    } else {
      StepKeepsSynced(s, steps[0]);
      RunKeepsSynced(Next(s, steps[0]), steps[1..]);
    }
  }

  lemma InitiallySynced(workers: nat)
    ensures Synced(Initial(workers))
  {
    assert S.Rest(S.INITIAL) == [] && S.INITIAL.inbox + S.INITIAL.outbox == [];
  }

  // ---- order ----

  /** A message delivered inside the handler that armed its read. */
  predicate Overtakes(s: System, a: Step)
    requires Enabled(s, a)
  {
    a.Completes? && E.AtArm(s.echo, a.w) && Delivers(s.up, a.k)
  }

  predicate InlineFree(s: System, steps: seq<Step>)
    requires Runs(s, steps)
    decreases |steps|
  {
    steps == [] || (!Overtakes(s, steps[0]) && InlineFree(Next(s, steps[0]), steps[1..]))
  }

  predicate Ordered(e: E.State) { E.OrderInv(e) && E.Ascending(E.EchoOrder(e)) }

  lemma StepKeepsOrdered(s: System, a: Step)
    requires Ordered(s.echo) && Enabled(s, a) && !Overtakes(s, a)
    ensures Ordered(Next(s, a).echo)
  {
    match a
    case Completes(w, k) =>
      if Delivers(s.up, k) {
        E.StepKeepsOrderInv(s.echo, HandlerStep(s.echo, w));
      }
    case ReadFails(w) => E.StepKeepsOrderInv(s.echo, FailStep(s.echo, w));
    case ReadPends(w) => E.StepKeepsOrderInv(s.echo, E.ArmPending(w));
    case Writes(w) => E.StepKeepsOrderInv(s.echo, E.Write(w));
    case _ =>
  }

  lemma {:induction false} RunKeepsOrdered(s: System, steps: seq<Step>)
    requires Ordered(s.echo) && Runs(s, steps) && InlineFree(s, steps)
    ensures Ordered(After(s, steps).echo)
    decreases |steps|
  {
    if steps == [] {
    } else {
      StepKeepsOrdered(s, steps[0]);
      RunKeepsOrdered(Next(s, steps[0]), steps[1..]);
    }
  }

  /** The same bodies, each with id 0. */
  function Anonymous(fs: seq<Frame>): (r: seq<Frame>)
    ensures |r| == |fs|
  {
    seq(|fs|, i requires 0 <= i < |fs| => Frame(0, fs[i].body))
  }

  /** Echoes in order are those of the first messages. */
  lemma OrderedRepliesArePrefix(s: System)
    requires Synced(s) && Ordered(s.echo)
    ensures s.down.sent <= Anonymous(s.up.reader.delivered) <= Anonymous(s.up.sent)
  {
    var e, d := s.echo.echoed, s.up.reader.delivered;
    var order := E.EchoOrder(s.echo);
    E.AscendingIsUpTo(order, s.echo.received);
    assert e == order[..|e|];
    assert forall j :: 0 <= j < |e| ==> e[j] == order[j] == j;
    assert Anonymous(d)[..|e|] == s.down.sent;
    assert Anonymous(s.up.sent)[..|d|] == Anonymous(d);
  }

  /** End to end: with one dispatcher worker, in every run without an unnoticed completion on either stream and
      without a delivery inside a handler, what the client has received is at every moment a prefix of what it
      sent, body for body; and as long as every body it sent stays inside the session's buffer, so does the
      session. */
  lemma ClientReceivesItsOwnPrefix(steps: seq<Step>)
    requires Runs(Initial(1), steps) && HazardFree(Initial(1), steps) && InlineFree(Initial(1), steps)
    ensures var t := After(Initial(1), steps);
            && t.down.reader.delivered <= Anonymous(t.up.sent)
            && (AllInside(t.up.sent) ==> !t.overrun)
  {
    InitiallySynced(1);
    RunKeepsSynced(Initial(1), steps);
    RunKeepsOrdered(Initial(1), steps);
    OrderedRepliesArePrefix(After(Initial(1), steps));
  }

  // ---- errors ----

  lemma {:induction false} StoppedReadersStay(s: System, steps: seq<Step>)
    requires Runs(s, steps)
    ensures !S.Active(s.up.reader) ==> After(s, steps).up.reader == s.up.reader
    ensures !S.Active(s.down.reader) ==> After(s, steps).down.reader == s.down.reader
    decreases |steps|
  {
    if steps == [] {
    } else {
      StoppedReadersStay(Next(s, steps[0]), steps[1..]);
    }
  }

  lemma StepKeepsChains(s: System, a: Step)
    requires E.Chains(s.echo) <= 1 && Enabled(s, a)
    ensures E.Chains(Next(s, a).echo) + (if a.ReadFails? then 1 else 0) == E.Chains(s.echo)
  {
    match a
    case Completes(w, k) => E.StepKeepsChains(s.echo, HandlerStep(s.echo, w));
    case ReadFails(w) => E.StepKeepsChains(s.echo, FailStep(s.echo, w));
    case ReadPends(w) => E.StepKeepsChains(s.echo, E.ArmPending(w));
    case Writes(w) => E.StepKeepsChains(s.echo, E.Write(w));
    case _ =>
  }

  lemma {:induction false} RunKeepsChains(s: System, steps: seq<Step>)
    requires E.Chains(s.echo) <= 1 && Runs(s, steps)
    ensures E.Chains(After(s, steps).echo) <= E.Chains(s.echo)
    decreases |steps|
  {
    if steps == [] {
    } else {
      StepKeepsChains(s, steps[0]);
      RunKeepsChains(Next(s, steps[0]), steps[1..]);
    }
  }

  /** After an error on the way up the session takes no message any more and has no read left, and after one on the
      way down the client takes no echo, in any continuation. */
  lemma ErrorsEndReading(workers: nat, steps: seq<Step>, s: System, a: Step, more: seq<Step>)
    requires Runs(Initial(workers), steps) && s == After(Initial(workers), steps)
    requires Enabled(s, a) && (a.ReadFails? || a.ClientFails?) && Runs(Next(s, a), more)
    ensures var t := After(Next(s, a), more);
            && (a.ReadFails? ==> t.up.reader == S.Reader(S.Failed, s.up.reader.delivered) && E.Chains(t.echo) == 0)
            && (a.ClientFails? ==> t.down.reader == S.Reader(S.Failed, s.down.reader.delivered))
  {
    E.OneChainAtStart(workers);
    RunKeepsChains(Initial(workers), steps);
    StepKeepsChains(s, a);
    RunKeepsChains(Next(s, a), more);
    StoppedReadersStay(Next(s, a), more);
  }

  // ---- leaving the buffer ----

  lemma Prepend(s: System, a: Step, rest: seq<Step>, last: System)
    requires Enabled(s, a) && !Hazard(s, a)
    requires Runs(Next(s, a), rest) && HazardFree(Next(s, a), rest) && After(Next(s, a), rest) == last
    ensures Runs(s, [a] + rest) && HazardFree(s, [a] + rest) && After(s, [a] + rest) == last
  {
    assert ([a] + rest)[1..] == rest;
  }

  /** The client has sent one frame and nothing else has happened. */
  function OnTheWay(workers: nat, f: Frame, outbox: seq<byte>, inbox: seq<byte>, phase: S.Phase): System {
    System(S.Wire([f], outbox, inbox, S.Reader(phase, [])), E.Initial(workers), S.INITIAL, false)
  }

  lemma FrameArrives(workers: nat, f: Frame)
    requires Fits(f)
    ensures Next(Initial(workers), ClientSends(f)) == OnTheWay(workers, f, Encode(f), [], S.AwaitHeader)
    ensures var s := OnTheWay(workers, f, Encode(f), [], S.AwaitHeader);
            && Enabled(s, CarryUp(|Encode(f)|))
            && Next(s, CarryUp(|Encode(f)|)) == OnTheWay(workers, f, [], Encode(f), S.AwaitHeader)
  {
    assert [] + [f] == [f] && [] + Encode(f) == Encode(f);
  }

  lemma HeaderIsTaken(workers: nat, f: Frame)
    requires workers > 0 && Fits(f) && f.body != []
    ensures var s, a := OnTheWay(workers, f, [], Encode(f), S.AwaitHeader), Completes(0, 8);
            && Enabled(s, a) && !Hazard(s, a)
            && Next(s, a) == OnTheWay(workers, f, [], f.body, S.AwaitBody(Encode(f)[..8]))
  {
    var h := Encode(f)[..8];
    assert Encode(f)[8..] == f.body && h == Header(|f.body|, f.id) && h + [] == h;
    HeaderFields(|f.body|, f.id, []);
    assert S.HeaderBuffer(h) == h;
  }

  lemma BodyIsTaken(workers: nat, f: Frame)
    requires workers > 0 && Fits(f) && f.body != []
    ensures var s, a := OnTheWay(workers, f, [], f.body, S.AwaitBody(Encode(f)[..8])), Completes(0, |f.body|);
            && Enabled(s, a) && !Hazard(s, a)
            && Next(s, a).up.sent == [f] && (Next(s, a).overrun <==> !StaysInside(f.body))
  {
    var h := Encode(f)[..8];
    assert h == Header(|f.body|, f.id) && h + [] == h;
    HeaderFields(|f.body|, f.id, []);
    assert f.body[..|f.body|] == f.body;
  }

  /** A frame with a body too long for the buffer, once sent, is read like any other and overruns it. */
  lemma UnsafeFrameOverruns(workers: nat, f: Frame) returns (steps: seq<Step>)
    requires workers > 0 && Fits(f) && !StaysInside(f.body)
    ensures Runs(Initial(workers), steps) && HazardFree(Initial(workers), steps)
    ensures After(Initial(workers), steps).up.sent == [f] && After(Initial(workers), steps).overrun
  {
    StaysInsideExactly(f.body);
    FrameArrives(workers, f);
    HeaderIsTaken(workers, f);
    BodyIsTaken(workers, f);
    var s1 := OnTheWay(workers, f, Encode(f), [], S.AwaitHeader);
    var s2 := OnTheWay(workers, f, [], Encode(f), S.AwaitHeader);
    var s3 := OnTheWay(workers, f, [], f.body, S.AwaitBody(Encode(f)[..8]));
    var last := Next(s3, Completes(0, |f.body|));
    Prepend(s3, Completes(0, |f.body|), [], last);
    steps := [Completes(0, |f.body|)] + [];
    Prepend(s2, Completes(0, 8), steps, last);
    steps := [Completes(0, 8)] + steps;
    Prepend(s1, CarryUp(|Encode(f)|), steps, last);
    steps := [CarryUp(|Encode(f)|)] + steps;
    Prepend(Initial(workers), ClientSends(f), steps, last);
    steps := [ClientSends(f)] + steps;
  }

  /** Some run in which the client sends just this frame makes the session leave its buffer. */
  ghost predicate CanOverrun(workers: nat, f: Frame) {
    exists steps :: Runs(Initial(workers), steps) && HazardFree(Initial(workers), steps)
                    && After(Initial(workers), steps).up.sent == [f] && After(Initial(workers), steps).overrun
  }

  /** Exactly the bodies of more than 101 bytes can, and those of 101 without a zero. */
  lemma OverrunExactly(workers: nat, f: Frame)
    requires workers > 0 && Fits(f)
    ensures CanOverrun(workers, f) <==> |f.body| > BUFFER_SIZE || (|f.body| == BUFFER_SIZE && 0 !in f.body)
  {
    StaysInsideExactly(f.body);
    if !StaysInside(f.body) {
      var steps := UnsafeFrameOverruns(workers, f);
    } else if CanOverrun(workers, f) {
      var steps :| Runs(Initial(workers), steps) && HazardFree(Initial(workers), steps)
                   && After(Initial(workers), steps).up.sent == [f] && After(Initial(workers), steps).overrun;
      InitiallySynced(workers);
      RunKeepsSynced(Initial(workers), steps);
    }
  }
}
