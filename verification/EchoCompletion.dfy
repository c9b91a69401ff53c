/** That every echo gets home: when nothing fails, the connection moves for a bounded number of steps and rests
    only with every body back at the client. */
module EchoCompletion {
  import opened ByteCodec
  import opened EchoSystem
  import opened EchoRoundTrip
  import opened SessionBuffer
  import S = SocketWire
  import E = EchoModel

  /** One worker, both readers at work, and nothing sent that an empty id or the buffer would spoil. */
  predicate Working(s: System) {
    && Synced(s) && Ordered(s.echo) && S.Active(s.up.reader) && S.Active(s.down.reader)
    && S.Plain(s.up.sent) && AllInside(s.up.sent)
    && E.Chains(s.echo) == 1 && |s.echo.stacks[0]| <= 1
  }

  /** Bytes cross a stream, a read takes all it asked for, or the handler goes on. */
  predicate Moves(s: System, a: Step)
    requires Enabled(s, a)
  {
    match a
    case CarryUp(n) => n > 0
    case Completes(_, k) => k == S.Requested(s.up.reader) && !Overtakes(s, a)
    case ReadPends(_) => true
    case Writes(_) => true
    case CarryDown(n) => n > 0
    case ClientReads(k) => k == S.Requested(s.down.reader)
    case _ => false
  }

  /** What an echo still costs: its header and body on the way down, and the steps before it is written. */
  function EchoWork(s: System): nat
    requires Tied(s) && |s.echo.stacks| == 1
  {
    var st := s.echo.stacks[0];
    if st == [] then 0
    else (if E.Top(st).ToArm? then 18 else 17) + 2 * |s.up.reader.delivered[E.Top(st).index].body|
  }

  /** Each byte on the way up may have to come down again; an announced body still needs a frame of its own. */
  function Work(s: System): nat
    requires Tied(s) && |s.echo.stacks| == 1
  {
    4 * S.BytesLeft(s.up) + (if s.up.reader.phase.AwaitBody? then 21 else 0) + EchoWork(s) + S.BytesLeft(s.down)
  }

  lemma RepliesArePlain(s: System)
    requires Tied(s)
    ensures S.Plain(s.down.sent)
  {
  }

  lemma NothingOverrun(s: System)
    requires Synced(s) && AllInside(s.up.sent)
    ensures AllInside(s.up.reader.delivered) && !s.overrun
  {
    assert forall i :: 0 <= i < |s.up.reader.delivered| ==> s.up.reader.delivered[i] == s.up.sent[i];
  }

  /** A full completion takes a header, 8 bytes, or the body it announced. */
  lemma CompletionWork(up: S.Wire, k: nat)
    requires S.InSync(up) && S.Active(up.reader) && S.Plain(up.sent)
    requires S.Enabled(up, S.Complete(k)) && k == S.Requested(up.reader)
    ensures var t := S.Next(up, S.Complete(k));
            && S.InSync(t) && S.Active(t.reader) && t.sent == up.sent && S.BytesLeft(t) + k == S.BytesLeft(up)
            && !S.Hazard(up, S.Complete(k))
            && (up.reader.phase.AwaitHeader? ==> k == 8)
            && (up.reader.phase.AwaitBody? ==> Delivers(up, k) && |Last(t.reader.delivered).body| == k)
            && (up.reader.phase.AwaitHeader? && Delivers(up, k) ==> Last(t.reader.delivered).body == [])
            && (t.reader.phase.AwaitHeader? <==> Delivers(up, k))
  {
    S.MoveKeepsDelivering(up, S.Complete(k));
    S.StepKeepsSyncExactly(up, S.Complete(k));
    DeliveredGrows(up, k);
  }

  /** A read completes: the bytes it takes pay for the echo it may start. */
  lemma CompletionKeepsWorking(s: System, w: nat, k: nat)
    requires Working(s) && Enabled(s, Completes(w, k)) && Moves(s, Completes(w, k))
    ensures var t := Next(s, Completes(w, k));
            Working(t) && t.up.sent == s.up.sent && Work(t) < Work(s)
  {
    var a, t := Completes(w, k), Next(s, Completes(w, k));
    CompletionWork(s.up, k);
    StepKeepsSynced(s, a);
    StepKeepsOrdered(s, a);
    if Delivers(s.up, k) {
      E.StepKeepsChains(s.echo, E.Dispatch(w));
      assert t.echo.stacks[0] == [E.ToArm(s.echo.received)];
      assert t.up.reader.delivered[s.echo.received] == Last(t.up.reader.delivered);
    }
  }

  /** The handler arms its read and then writes its echo. */
  lemma HandlerKeepsWorking(s: System, w: nat, a: Step)
    requires Working(s) && Enabled(s, a) && (a == ReadPends(w) || a == Writes(w))
    ensures var t := Next(s, a);
            Working(t) && t.up.sent == s.up.sent && Work(t) < Work(s)
  {
    StepKeepsSynced(s, a);
    StepKeepsOrdered(s, a);
    E.StepKeepsChains(s.echo, if a.ReadPends? then E.ArmPending(w) else E.Write(w));
    assert E.Pop(s.echo.stacks[0]) == [];
  }

  lemma ClientReadKeepsWorking(s: System, k: nat)
    requires Working(s) && Enabled(s, ClientReads(k)) && Moves(s, ClientReads(k))
    ensures var t := Next(s, ClientReads(k));
            Working(t) && t.up.sent == s.up.sent && Work(t) < Work(s)
  {
    RepliesArePlain(s);
    CompletionWork(s.down, k);
    StepKeepsSynced(s, ClientReads(k));
  }

  lemma CarryKeepsWorking(s: System, a: Step)
    requires Working(s) && Enabled(s, a) && Moves(s, a) && (a.CarryUp? || a.CarryDown?)
    ensures var t := Next(s, a);
            Working(t) && t.up.sent == s.up.sent && Work(t) < Work(s)
  {
    StepKeepsSynced(s, a);
  }

  lemma MoveKeepsWorking(s: System, a: Step)
    requires Working(s) && Enabled(s, a) && Moves(s, a)
    ensures Working(Next(s, a)) && Next(s, a).up.sent == s.up.sent && Work(Next(s, a)) < Work(s)
  {
    match a
    case Completes(w, k) => CompletionKeepsWorking(s, w, k);
    case ReadPends(w) => HandlerKeepsWorking(s, w, a);
    case Writes(w) => HandlerKeepsWorking(s, w, a);
    case ClientReads(k) => ClientReadKeepsWorking(s, k);
    case _ => CarryKeepsWorking(s, a);
  }

  // ---- at rest ----

  ghost predicate CanMove(s: System) { exists a :: Enabled(s, a) && Moves(s, a) }

  /** A handler under way can go on. */
  lemma HandlerCanMove(s: System)
    requires Working(s) && s.echo.stacks[0] != []
    ensures CanMove(s)
  {
    NothingOverrun(s);
    if E.Top(s.echo.stacks[0]).ToArm? {
      assert Enabled(s, ReadPends(0)) && Moves(s, ReadPends(0));
    } else {
      DueCanBeWritten(s, 0);
      assert Enabled(s, Writes(0)) && Moves(s, Writes(0));
    }
  }

  /** An idle worker has a read pending. */
  lemma IdleMeansArmed(s: System)
    requires Working(s) && s.echo.stacks[0] == []
    ensures s.echo.armed
  {
    assert E.ArmingAll(s.echo.stacks) == E.Arming([]) + E.ArmingAll(s.echo.stacks[1..]) == 0;
  }

  lemma UpCanMove(s: System)
    requires Working(s) && s.echo.stacks[0] == [] && s.up.reader.delivered != s.up.sent
    ensures CanMove(s)
  {
    NothingOverrun(s);
    IdleMeansArmed(s);
    S.BytesCanMove(s.up);
    var b :| S.Enabled(s.up, b) && S.Moves(s.up, b);
    var a := if b.Transfer? then CarryUp(b.n) else Completes(0, b.k);
    assert Enabled(s, a) && Moves(s, a);
  }

  lemma DownCanMove(s: System)
    requires Working(s) && s.down.reader.delivered != s.down.sent
    ensures CanMove(s)
  {
    NothingOverrun(s);
    S.BytesCanMove(s.down);
    var b :| S.Enabled(s.down, b) && S.Moves(s.down, b);
    var a := if b.Transfer? then CarryDown(b.n) else ClientReads(b.k);
    assert Enabled(s, a) && Moves(s, a);
  }

  /** A connection that cannot move has returned everything. */
  lemma RestMeansReturned(s: System)
    requires Working(s)
    ensures CanMove(s) || s.down.reader.delivered == Anonymous(s.up.sent)
  {
    if s.echo.stacks[0] != [] {
      HandlerCanMove(s);
    } else if s.up.reader.delivered != s.up.sent {
      UpCanMove(s);
    } else if s.down.reader.delivered != s.down.sent {
      DownCanMove(s);
    } else {
      OrderedRepliesArePrefix(s);
      assert |s.echo.echoed| == |E.EchoOrder(s.echo)| == s.echo.received;
    }
  }

  predicate AllMove(s: System, steps: seq<Step>)
    requires Runs(s, steps)
    decreases |steps|
  {
    steps == [] || (Moves(s, steps[0]) && AllMove(Next(s, steps[0]), steps[1..]))
  }

  /** Complete echo: whatever the client has sent, if nothing fails and no message is delivered inside a handler,
      the connection makes a bounded number of moves, and it rests only when the client has received the body of
      every frame it sent, in order. */
  lemma {:induction false} EveryEchoGetsHome(s: System, steps: seq<Step>)
    requires Working(s) && Runs(s, steps) && AllMove(s, steps)
    ensures |steps| <= Work(s)
    ensures CanMove(After(s, steps)) || After(s, steps).down.reader.delivered == Anonymous(s.up.sent)
    decreases |steps|
  {
    if steps == [] {
      RestMeansReturned(s);
    } else {
      MoveKeepsWorking(s, steps[0]);
      EveryEchoGetsHome(Next(s, steps[0]), steps[1..]);
    }
  }

  /** A new connection is working, and sending keeps it so. */
  lemma SendingKeepsWorking(s: System, f: Frame)
    requires Working(s) && Fits(f) && StaysInside(f.body) && (f.body == [] ==> f.id == 0)
    ensures Enabled(s, ClientSends(f)) && Working(Next(s, ClientSends(f)))
  {
    NothingOverrun(s);
    StepKeepsSynced(s, ClientSends(f));
    StepKeepsOrdered(s, ClientSends(f));
  }

  lemma InitiallyWorking()
    ensures Working(Initial(1))
  {
    InitiallySynced(1);
    E.OneChainAtStart(1);
  }
}
