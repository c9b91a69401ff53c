/** A client, the echo session and both directions of the connection as one step system: a message that a read
    delivers on the way up starts an activation of handle_read, which copies it into sz_buf, and what that
    activation writes goes out on the way down. */
module EchoSystem {
  import opened ByteCodec
  import opened SessionBuffer
  import S = SocketWire
  import E = EchoModel

  /** `up`: client to session, with the session's reader; `down`: session to client, with the client's.
      `overrun`: a handler has left sz_buf; nothing is said about what happens after. */
  datatype System = System(up: S.Wire, echo: E.State, down: S.Wire, overrun: bool)

  datatype Step =
    | ClientSends(f: Frame)
    | CarryUp(n: nat)
    | Completes(w: nat, k: nat)  // the session's read completes without error on worker w, with k bytes
    | ReadFails(w: nat)          // it completes with an error code
    | ReadPends(w: nat)          // async_read leaves the read pending
    | Writes(w: nat)             // async_write
    | CarryDown(n: nat)
    | ClientReads(k: nat)
    | ClientFails

  /** A completion runs on an idle worker, or inside the handler that is arming the read. */
  function HandlerStep(e: E.State, w: nat): E.Step {
    if E.AtArm(e, w) then E.ArmInline(w) else E.Dispatch(w)
  }

  function FailStep(e: E.State, w: nat): E.Step {
    if E.AtArm(e, w) then E.FailInArm(w) else E.FailPending(w)
  }

  /** The completion ends a message; any other is the header of a body to come. */
  predicate Delivers(up: S.Wire, k: nat)
    requires S.Enabled(up, S.Complete(k))
  {
    S.Next(up, S.Complete(k)).reader.delivered != up.reader.delivered
  }

  predicate CanWrite(s: System, w: nat) {
    E.Enabled(s.echo, E.Write(w)) &&
    var k := E.Top(s.echo.stacks[w]).index;
    k < |s.up.reader.delivered| && |s.up.reader.delivered[k].body| <= BUFFER_SIZE
  }

  /** The message async_write makes from sz_buf and the length of the message the activation is for. */
  function Written(s: System, w: nat): Frame
    requires CanWrite(s, w)
  {
    EchoOf(s.up.reader.delivered[E.Top(s.echo.stacks[w]).index].body)
  }

  predicate Enabled(s: System, a: Step) {
    !s.overrun &&
    match a
    case ClientSends(f) => Fits(f)
    case CarryUp(n) => S.Enabled(s.up, S.Transfer(n))
    case Completes(w, k) => S.Enabled(s.up, S.Complete(k)) && E.Enabled(s.echo, HandlerStep(s.echo, w))
    case ReadFails(w) => S.Enabled(s.up, S.Fail) && E.Enabled(s.echo, FailStep(s.echo, w))
    case ReadPends(w) => E.Enabled(s.echo, E.ArmPending(w))
    case Writes(w) => CanWrite(s, w)
    case CarryDown(n) => S.Enabled(s.down, S.Transfer(n))
    case ClientReads(k) => S.Enabled(s.down, S.Complete(k))
    case ClientFails => S.Enabled(s.down, S.Fail)
  }

  function Last(fs: seq<Frame>): Frame
    requires |fs| > 0
  {
    fs[|fs| - 1]
  }

  lemma DeliveredGrows(up: S.Wire, k: nat)
    requires S.Enabled(up, S.Complete(k))
    ensures var d, t := up.reader.delivered, S.Next(up, S.Complete(k)).reader.delivered;
            if Delivers(up, k) then |t| == |d| + 1 && t == d + [Last(t)] else t == d
  {
  }

  function Next(s: System, a: Step): System
    requires Enabled(s, a)
  {
    match a
    case ClientSends(f) => s.(up := S.Next(s.up, S.Send(f)))
    case CarryUp(n) => s.(up := S.Next(s.up, S.Transfer(n)))
    case Completes(w, k) =>
      DeliveredGrows(s.up, k);
      var t := s.(up := S.Next(s.up, S.Complete(k)));
      if Delivers(s.up, k)
      then t.(echo := E.Next(s.echo, HandlerStep(s.echo, w)), overrun := !StaysInside(Last(t.up.reader.delivered).body))
      else t
    case ReadFails(w) => s.(up := S.Next(s.up, S.Fail), echo := E.Next(s.echo, FailStep(s.echo, w)))
    case ReadPends(w) => s.(echo := E.Next(s.echo, E.ArmPending(w)))
    case Writes(w) => s.(echo := E.Next(s.echo, E.Write(w)), down := S.Next(s.down, S.Send(Written(s, w))))
    case CarryDown(n) => s.(down := S.Next(s.down, S.Transfer(n)))
    case ClientReads(k) => s.(down := S.Next(s.down, S.Complete(k)))
    case ClientFails => s.(down := S.Next(s.down, S.Fail))
  }

  predicate Runs(s: System, steps: seq<Step>)
    decreases |steps|
  {
    steps == [] || (Enabled(s, steps[0]) && Runs(Next(s, steps[0]), steps[1..]))
  }

  function After(s: System, steps: seq<Step>): System
    requires Runs(s, steps)
    decreases |steps|
  {
    if steps == [] then s else After(Next(s, steps[0]), steps[1..])
  }

  function Initial(workers: nat): System { System(S.INITIAL, E.Initial(workers), S.INITIAL, false) }

  // ---- what the session writes and when it leaves its buffer ----

  predicate IndicesBelow(stacks: seq<seq<E.Activation>>, n: nat) {
    forall w, i :: 0 <= w < |stacks| && 0 <= i < |stacks[w]| ==> stacks[w][i].index < n
  }

  /** Each frame written is the message its activation is for, with id 0. */
  predicate RepliesMatch(delivered: seq<Frame>, echoed: seq<nat>, replies: seq<Frame>) {
    && |replies| == |echoed| && E.Below(echoed, |delivered|)
    && forall j :: 0 <= j < |echoed| ==> replies[j] == Frame(0, delivered[echoed[j]].body)
  }

  predicate AllInside(fs: seq<Frame>) { forall i :: 0 <= i < |fs| ==> StaysInside(fs[i].body) }

  lemma OneMoreInside(fs: seq<Frame>, f: Frame)
    ensures AllInside(fs + [f]) <==> AllInside(fs) && StaysInside(f.body)
  {
    if AllInside(fs + [f]) {
      assert (fs + [f])[|fs|] == f;
      assert forall i :: 0 <= i < |fs| ==> (fs + [f])[i] == fs[i];
    }
  }

  /** The three parts belong together. */
  predicate Tied(s: System) {
    && s.echo.received == |s.up.reader.delivered|
    && IndicesBelow(s.echo.stacks, s.echo.received)
    && RepliesMatch(s.up.reader.delivered, s.echo.echoed, s.down.sent)
    && (s.overrun <==> !AllInside(s.up.reader.delivered))
  }

  lemma EchoKeepsIndices(e: E.State, a: E.Step)
    requires E.Enabled(e, a) && IndicesBelow(e.stacks, e.received)
    ensures IndicesBelow(E.Next(e, a).stacks, E.Next(e, a).received)
  {
    assert forall i :: 0 <= i < |e.stacks[a.w]| ==> e.stacks[a.w][i].index < e.received;
    var st := E.Next(e, a).stacks[a.w];
    assert forall i :: 0 <= i < |st| ==> st[i].index < E.Next(e, a).received;
  }

  lemma CompletionKeepsTied(s: System, w: nat, k: nat)
    requires Tied(s) && Enabled(s, Completes(w, k))
    ensures Tied(Next(s, Completes(w, k)))
  {
    DeliveredGrows(s.up, k);
    if Delivers(s.up, k) {
      EchoKeepsIndices(s.echo, HandlerStep(s.echo, w));
    }
  }

  lemma WriteKeepsTied(s: System, w: nat)
    requires Tied(s) && Enabled(s, Writes(w))
    ensures Tied(Next(s, Writes(w)))
  {
    EchoKeepsIndices(s.echo, E.Write(w));
    EchoIsBody(s.up.reader.delivered[E.Top(s.echo.stacks[w]).index].body);
  }

  lemma StepKeepsTied(s: System, a: Step)
    requires Tied(s) && Enabled(s, a)
    ensures Tied(Next(s, a))
  {
    match a
    case Completes(w, k) => CompletionKeepsTied(s, w, k);
    case ReadFails(w) => EchoKeepsIndices(s.echo, FailStep(s.echo, w));
    case ReadPends(w) => EchoKeepsIndices(s.echo, E.ArmPending(w));
    case Writes(w) => WriteKeepsTied(s, w);
    case _ =>
  }

  lemma {:induction false} RunKeepsTied(s: System, steps: seq<Step>)
    requires Tied(s) && Runs(s, steps)
    ensures Tied(After(s, steps))
    decreases |steps|
  {
    if steps == [] {
    } else {
      StepKeepsTied(s, steps[0]);
      RunKeepsTied(Next(s, steps[0]), steps[1..]);
    }
  }

  lemma DueCanBeWritten(s: System, w: nat)
    requires Tied(s) && !s.overrun && E.Enabled(s.echo, E.Write(w))
    ensures Enabled(s, Writes(w))
  {
    var k := E.Top(s.echo.stacks[w]).index;
    assert StaysInside(s.up.reader.delivered[k].body);
  }

  /** Over every run with any number of workers: the frames written are the bodies of the messages echoed, the
      session has left its buffer exactly when some message did not stay inside it, and while it has not, no
      echo that is due is held up. */
  lemma SessionEchoesWhatItGets(workers: nat, steps: seq<Step>)
    requires Runs(Initial(workers), steps)
    ensures var t := After(Initial(workers), steps);
            && RepliesMatch(t.up.reader.delivered, t.echo.echoed, t.down.sent)
            && (t.overrun <==> !AllInside(t.up.reader.delivered))
            && forall w: nat :: !t.overrun && E.Enabled(t.echo, E.Write(w)) ==> Enabled(t, Writes(w))
  {
    RunKeepsTied(Initial(workers), steps);
    var t := After(Initial(workers), steps);
    forall w: nat | !t.overrun && E.Enabled(t.echo, E.Write(w))
      ensures Enabled(t, Writes(w))
    {
      DueCanBeWritten(t, w);
    }
  }
}
