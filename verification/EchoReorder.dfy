/** The order of the round trip is lost when a message is delivered inside a handler: two frames of one client come
    back the other way round, although there is one worker and nothing fails. */
module EchoReorder {
  import opened ByteCodec
  import opened EchoSystem
  import opened EchoRoundTrip
  import opened SessionBuffer
  import S = SocketWire
  import E = EchoModel

  lemma {:induction false} RunsAppend(s: System, first: seq<Step>, second: seq<Step>)
    requires Runs(s, first) && Runs(After(s, first), second)
    ensures Runs(s, first + second) && After(s, first + second) == After(After(s, first), second)
    decreases |first|
  {
    if first == [] {
      assert first + second == second;
    } else {
      assert (first + second)[1..] == first[1..] + second;
      RunsAppend(Next(s, first[0]), first[1..], second);
    }
  }

  lemma OneStep(s: System, a: Step)
    requires Enabled(s, a)
    ensures Runs(s, [a]) && After(s, [a]) == Next(s, a)
  {
    assert [a][1..] == [];
  }

  /** A frame at the front of the stream, about to be read where worker 0 can run its handler. */
  predicate FrameReady(s: System, f: Frame, rest: seq<byte>) {
    && !s.overrun && s.up.reader.phase == S.AwaitHeader && Fits(f) && f.body != [] && StaysInside(f.body)
    && s.up.inbox == Encode(f) + rest && E.Enabled(s.echo, HandlerStep(s.echo, 0))
  }

  lemma HeaderTaken(s: System, f: Frame, rest: seq<byte>)
    requires FrameReady(s, f, rest)
    ensures Enabled(s, Completes(0, 8))
    ensures var r := S.Reader(S.AwaitBody(Encode(f)[..8]), s.up.reader.delivered);
            Next(s, Completes(0, 8)) == s.(up := s.up.(inbox := f.body + rest, reader := r))
  {
    var h := Encode(f)[..8];
    assert s.up.inbox[..8] == h == Header(|f.body|, f.id) && s.up.inbox[8..] == f.body + rest;
    HeaderFields(|f.body|, f.id, []);
    assert h + [] == h && S.HeaderBuffer(h) == h;
  }

  lemma BodyTaken(s: System, f: Frame, rest: seq<byte>)
    requires FrameReady(s, f, rest)
    ensures var r := S.Reader(S.AwaitBody(Encode(f)[..8]), s.up.reader.delivered);
            var t := s.(up := s.up.(inbox := f.body + rest, reader := r));
            && Enabled(t, Completes(0, |f.body|))
            && Next(t, Completes(0, |f.body|))
               == s.(up := s.up.(inbox := rest, reader := S.Reader(S.AwaitHeader, s.up.reader.delivered + [f])),
                     echo := E.Next(s.echo, HandlerStep(s.echo, 0)))
  {
    var h := Encode(f)[..8];
    assert h == Header(|f.body|, f.id) && h + [] == h;
    HeaderFields(|f.body|, f.id, []);
    assert (f.body + rest)[..|f.body|] == f.body && (f.body + rest)[|f.body|..] == rest;
    assert Last(s.up.reader.delivered + [f]) == f;
  }

  /** Both reads of a frame, and the handler it starts. */
  lemma FrameTaken(s: System, f: Frame, rest: seq<byte>) returns (steps: seq<Step>)
    requires FrameReady(s, f, rest)
    ensures Runs(s, steps)
    ensures After(s, steps)
         == s.(up := s.up.(inbox := rest, reader := S.Reader(S.AwaitHeader, s.up.reader.delivered + [f])),
               echo := E.Next(s.echo, HandlerStep(s.echo, 0)))
  {
    HeaderTaken(s, f, rest);
    BodyTaken(s, f, rest);
    OneStep(s, Completes(0, 8));
    OneStep(Next(s, Completes(0, 8)), Completes(0, |f.body|));
    RunsAppend(s, [Completes(0, 8)], [Completes(0, |f.body|)]);
    steps := [Completes(0, 8)] + [Completes(0, |f.body|)];
  }

  /** Both frames have been sent and carried, and none has been read. */
  function BothCarried(f: Frame, g: Frame): System
    requires Fits(f) && Fits(g)
  {
    System(S.Wire([f, g], [], Encode(f) + Encode(g), S.INITIAL.reader), E.Initial(1), S.INITIAL, false)
  }

  lemma SendBoth(f: Frame, g: Frame) returns (steps: seq<Step>)
    requires Fits(f) && Fits(g)
    ensures Runs(Initial(1), steps) && After(Initial(1), steps) == BothCarried(f, g)
  {
    var s, a, b, n := Initial(1), ClientSends(f), ClientSends(g), |Encode(f) + Encode(g)|;
    var s1 := Next(s, a);
    assert s1.up.sent == [f] && s1.up.outbox == Encode(f);
    var s2 := Next(s1, b);
    assert s2.up.sent == [f, g] && s2.up.outbox == Encode(f) + Encode(g);
    assert Next(s2, CarryUp(n)) == BothCarried(f, g);
    OneStep(s, a);
    OneStep(s1, b);
    OneStep(s2, CarryUp(n));
    RunsAppend(s1, [b], [CarryUp(n)]);
    RunsAppend(s, [a], [b] + [CarryUp(n)]);
    steps := [a] + ([b] + [CarryUp(n)]);
  }

  /** Worker 0 is about to echo message k. */
  predicate Due(s: System, below: seq<E.Activation>, k: nat) {
    && !s.overrun && s.echo.stacks == [below + [E.ToWrite(k)]]
    && k < |s.up.reader.delivered| && StaysInside(s.up.reader.delivered[k].body)
  }

  lemma DueIsEnabled(s: System, below: seq<E.Activation>, k: nat)
    requires Due(s, below, k)
    ensures CanWrite(s, 0) && Written(s, 0) == Frame(0, s.up.reader.delivered[k].body)
  {
    StaysInsideExactly(s.up.reader.delivered[k].body);
    EchoIsBody(s.up.reader.delivered[k].body);
    assert |s.echo.stacks[0]| == |below| + 1;
    assert E.Top(below + [E.ToWrite(k)]) == E.ToWrite(k);
  }

  lemma WriteTop(s: System, below: seq<E.Activation>, k: nat)
    requires Due(s, below, k)
    ensures Enabled(s, Writes(0))
    ensures var t, f := Next(s, Writes(0)), Frame(0, s.up.reader.delivered[k].body);
            t.up == s.up && !t.overrun && t.echo.stacks == [below] && t.down.sent == s.down.sent + [f]
  {
    DueIsEnabled(s, below, k);
    var st := below + [E.ToWrite(k)];
    assert E.Pop(st) == below && [st][0 := below] == [below];
  }

  lemma ReadPendsBetween(s: System)
    requires !s.overrun && s.echo.stacks == [[E.ToWrite(0), E.ToArm(1)]]
    ensures Enabled(s, ReadPends(0)) && Runs(s, [ReadPends(0)]) && After(s, [ReadPends(0)]) == Next(s, ReadPends(0))
    ensures var t := Next(s, ReadPends(0));
            t.up == s.up && !t.overrun && t.down == s.down && t.echo.stacks == [[E.ToWrite(0)] + [E.ToWrite(1)]]
  {
    assert E.Pop([E.ToWrite(0), E.ToArm(1)]) == [E.ToWrite(0)];
    OneStep(s, ReadPends(0));
  }

  /** Message 1 has been delivered inside the handler of message 0: it is written first. */
  lemma WriteBoth(s: System) returns (steps: seq<Step>)
    requires !s.overrun && s.echo.stacks == [[E.ToWrite(0), E.ToArm(1)]]
    requires |s.up.reader.delivered| == 2 && AllInside(s.up.reader.delivered) && s.down.sent == []
    ensures Runs(s, steps) && After(s, steps).up == s.up
    ensures var d := s.up.reader.delivered;
            After(s, steps).down.sent == [Frame(0, d[1].body), Frame(0, d[0].body)]
  {
    ReadPendsBetween(s);
    var s1 := Next(s, ReadPends(0));
    WriteTop(s1, [E.ToWrite(0)], 1);
    var s2 := Next(s1, Writes(0));
    assert [] + [E.ToWrite(0)] == [E.ToWrite(0)];
    WriteTop(s2, [], 0);
    OneStep(s1, Writes(0));
    OneStep(s2, Writes(0));
    RunsAppend(s1, [Writes(0)], [Writes(0)]);
    RunsAppend(s, [ReadPends(0)], [Writes(0)] + [Writes(0)]);
    steps := [ReadPends(0)] + ([Writes(0)] + [Writes(0)]);
  }

  /** For any two frames with bodies the session can take, a run with one worker and no error in which the client's
      second frame is echoed before its first. */
  lemma InlineDeliverySwapsEchoes(f: Frame, g: Frame) returns (steps: seq<Step>)
    requires Fits(f) && f.body != [] && StaysInside(f.body) && Fits(g) && g.body != [] && StaysInside(g.body)
    ensures Runs(Initial(1), steps) && After(Initial(1), steps).up.sent == [f, g]
    ensures After(Initial(1), steps).down.sent == [Frame(0, g.body), Frame(0, f.body)]
  {
    var s := BothCarried(f, g);
    steps := SendBoth(f, g);
    var first := FrameTaken(s, f, Encode(g));
    var s1 := After(s, first);
    assert s1.echo == E.State(1, false, [[E.ToArm(0)]], []);
    assert s1.up.inbox == Encode(g) + [] && FrameReady(s1, g, []);
    var second := FrameTaken(s1, g, []);
    var s2 := After(s1, second);
    assert E.Pop([E.ToArm(0)]) + [E.ToWrite(0), E.ToArm(1)] == [E.ToWrite(0), E.ToArm(1)];
    assert s2.echo == E.State(2, false, [[E.ToWrite(0), E.ToArm(1)]], []);
    assert s2.up.reader.delivered == [f, g];
    var third := WriteBoth(s2);
    RunsAppend(s1, second, third);
    RunsAppend(s, first, second + third);
    RunsAppend(Initial(1), steps, first + (second + third));
    steps := steps + (first + (second + third));
  }
}
