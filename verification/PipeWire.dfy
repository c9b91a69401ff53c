/** A writer, a pipe and the reading half of pipe_channel.cc. Every read chain of a channel receives its
    header into one shared field; the session keeps a chain going by re-arming it in the handler. */
module PipeWire {
  import opened ByteCodec
  import opened Messages

  /** Where a read chain stands. */
  datatype Chain =
    | HeaderPending                   // ReadFile submitted into header_
    | HeaderFilled(size: nat)         // completed with `size` bytes, handle_read_header not run yet
    | BodyPending(header: seq<byte>)  // ReadFile submitted into the message made for `header`
    | Failed                          // a completion carried an error code; the session stops reading
    | Asserted                        // an assert of the channel has stopped the program
    | Undefined                       // malloc_when_recvd_header was given a length it cannot allocate

  datatype Wire = Wire(sent: seq<Frame>, outbox: seq<byte>, inbox: seq<byte>, header: seq<byte>,
                       chains: seq<Chain>, delivered: seq<Frame>)

  datatype Step =
    | Send(f: Frame)
    | Transfer(n: nat)
    | FillHeader(c: nat, k: nat)     // the kernel completes the header read of chain c with k bytes
    | HandleHeader(c: nat)           // a worker runs handle_read_header for chain c
    | CompleteBody(c: nat, k: nat)   // the body read completes with k bytes and handle_read_body runs
    | Fail(c: nat)                   // the pending read completes with an error code

  predicate PipeFits(f: Frame) { |f.body| <= MAX_PIPE_BODY }

  predicate AllPipeFit(fs: seq<Frame>) { forall i :: 0 <= i < |fs| ==> PipeFits(fs[i]) }

  /** handle_read_header with no error. */
  function HeaderHandled(header: seq<byte>, size: nat): Chain
    requires |header| == HEADER_LENGTH
  {
    if size != HEADER_LENGTH then Asserted
    else if 0 <= Signed(LengthOf(header)) <= MAX_PIPE_BODY then BodyPending(header)
    else Undefined
  }

  /** handle_read_body with no error: the chain, re-armed unless asserted, and what the session gets. A body
      read that completes with no bytes hands over the message as it was allocated. */
  function BodyHandled(header: seq<byte>, bytes: seq<byte>): (Chain, seq<Frame>)
    requires |header| == HEADER_LENGTH
  {
    if bytes == [] then (HeaderPending, [Frame(IdOf(header), Zeros(LengthOf(header)))])
    else if |bytes| != LengthOf(header) then (Asserted, [])
    else (HeaderPending, [Frame(IdOf(header), bytes)])
  }

  predicate Enabled(s: Wire, a: Step) {
    match a
    case Send(f) => PipeFits(f)
    case Transfer(n) => n <= |s.outbox|
    case FillHeader(c, k) =>
      c < |s.chains| && s.chains[c].HeaderPending? && k <= HEADER_LENGTH == |s.header| && k <= |s.inbox|
    case HandleHeader(c) => c < |s.chains| && s.chains[c].HeaderFilled? && |s.header| == HEADER_LENGTH
    case CompleteBody(c, k) =>
      c < |s.chains| && s.chains[c].BodyPending? && |s.chains[c].header| == HEADER_LENGTH
      && k <= LengthOf(s.chains[c].header) && k <= |s.inbox|
    case Fail(c) => c < |s.chains| && (s.chains[c].HeaderPending? || s.chains[c].BodyPending?)
  }

  function Next(s: Wire, a: Step): Wire
    requires Enabled(s, a)
  {
    match a
    case Send(f) => s.(sent := s.sent + [f], outbox := s.outbox + Encode(f))
    case Transfer(n) => s.(outbox := s.outbox[n..], inbox := s.inbox + s.outbox[..n])
    case FillHeader(c, k) =>
      s.(inbox := s.inbox[k..], header := Overwritten(s.header, 0, s.inbox[..k]),
         chains := s.chains[c := HeaderFilled(k)])
    case HandleHeader(c) => s.(chains := s.chains[c := HeaderHandled(s.header, s.chains[c].size)])
    case CompleteBody(c, k) =>
      var (chain, frames) := BodyHandled(s.chains[c].header, s.inbox[..k]);
      s.(inbox := s.inbox[k..], chains := s.chains[c := chain], delivered := s.delivered + frames)
    case Fail(c) => s.(chains := s.chains[c := Failed])
  }

  predicate Runs(s: Wire, steps: seq<Step>)
    decreases |steps|
  {
    steps == [] || (Enabled(s, steps[0]) && Runs(Next(s, steps[0]), steps[1..]))
  }

  function After(s: Wire, steps: seq<Step>): Wire
    requires Runs(s, steps)
    decreases |steps|
  {
    if steps == [] then s else After(Next(s, steps[0]), steps[1..])
  }

  /** `n` calls of async_read on a fresh channel; header_ starts with arbitrary bytes. */
  predicate Initial(s: Wire, n: nat) {
    && s.sent == [] && s.outbox == [] && s.inbox == [] && s.delivered == []
    && |s.header| == HEADER_LENGTH && s.chains == seq(n, _ => HeaderPending)
  }

  function Rest(s: Wire): seq<Frame>
    requires s.delivered <= s.sent
  {
    s.sent[|s.delivered|..]
  }

  /** One chain, synchronised: the bytes still to be read, behind the header that the chain has taken or that
      still lies in header_, are exactly the frames not yet delivered. */
  predicate InSync(s: Wire) {
    && AllPipeFit(s.sent) && s.delivered <= s.sent && |s.header| == HEADER_LENGTH && |s.chains| == 1
    && var ahead := s.inbox + s.outbox;
       match s.chains[0]
       case HeaderPending => ahead == EncodeAll(Rest(s))
       case HeaderFilled(k) => k <= HEADER_LENGTH && (k == HEADER_LENGTH ==> s.header + ahead == EncodeAll(Rest(s)))
       case BodyPending(h) => |h| == HEADER_LENGTH && h + ahead == EncodeAll(Rest(s))
       case Failed | Asserted => true
       case Undefined => false
  }

  /** A body read that completes with an empty code and no bytes although the frame has a body, as a failed
      submission does at pipe_channel.cc:159-163. */
  predicate Hazard(s: Wire, a: Step)
    requires Enabled(s, a)
  {
    a.CompleteBody? && a.k == 0 && LengthOf(s.chains[a.c].header) > 0
  }

  lemma FillKeepsSync(s: Wire, k: nat)
    requires InSync(s) && Enabled(s, FillHeader(0, k))
    ensures InSync(Next(s, FillHeader(0, k)))
  {
  }

  lemma HandleHeaderKeepsSync(s: Wire)
    requires InSync(s) && Enabled(s, HandleHeader(0))
    ensures InSync(Next(s, HandleHeader(0)))
  {
    if s.chains[0].size == HEADER_LENGTH {
      FirstHeader(Rest(s), s.header, s.inbox + s.outbox);
    }
  }

  lemma BodyStepExact(s: Wire, k: nat)
    requires InSync(s) && Enabled(s, CompleteBody(0, k))
    ensures InSync(Next(s, CompleteBody(0, k))) <==> !Hazard(s, CompleteBody(0, k))
  {
    var h, ahead := s.chains[0].header, s.inbox + s.outbox;
    var t := Next(s, CompleteBody(0, k));
    FirstHeader(Rest(s), h, ahead);
    var f := Rest(s)[0];
    assert s.sent[|s.delivered| + 1..] == Rest(s)[1..];
    assert s.delivered + [f] <= s.sent;
    assert s.inbox[..k] == ahead[..k] && s.inbox[k..] + s.outbox == ahead[k..];
    if k == LengthOf(h) {
      assert ahead[..k] == f.body && ahead[k..] == EncodeAll(Rest(s)[1..]);
    } else if k == 0 {
      assert |ahead| > |EncodeAll(Rest(s)[1..])|;
    }
  }

  lemma SendKeepsSync(s: Wire, f: Frame)
    requires InSync(s) && PipeFits(f)
    ensures InSync(Next(s, Send(f)))
  {
    var t := Next(s, Send(f));
    assert Rest(t) == Rest(s) + [f];
    EncodeAllAppend(Rest(s), [f]);
    assert EncodeAll([f]) == Encode(f) + EncodeAll([f][1..]) == Encode(f);
    var ahead := s.inbox + s.outbox;
    assert t.inbox + t.outbox == ahead + Encode(f);
    assert s.header + (ahead + Encode(f)) == s.header + ahead + Encode(f);
    if s.chains[0].BodyPending? {
      var h := s.chains[0].header;
      assert h + (ahead + Encode(f)) == h + ahead + Encode(f);
    }
  }

  /** With the session's single chain every step keeps the channel synchronised, short header reads included,
      except a body read that completes empty without an error. */
  lemma StepKeepsSyncExactly(s: Wire, a: Step)
    requires InSync(s) && Enabled(s, a)
    ensures InSync(Next(s, a)) <==> !Hazard(s, a)
  {
    match a
    case Send(f) => SendKeepsSync(s, f);
    case Transfer(n) => assert s.inbox + s.outbox == s.inbox + s.outbox[..n] + s.outbox[n..];
    case FillHeader(c, k) => FillKeepsSync(s, k);
    case HandleHeader(c) => HandleHeaderKeepsSync(s);
    case CompleteBody(c, k) => BodyStepExact(s, k);
    case Fail(c) =>
  }

  predicate HazardFree(s: Wire, steps: seq<Step>)
    requires Runs(s, steps)
    decreases |steps|
  {
    steps == [] || (!Hazard(s, steps[0]) && HazardFree(Next(s, steps[0]), steps[1..]))
  }

  lemma {:induction false} RunKeepsSync(s: Wire, steps: seq<Step>)
    requires InSync(s) && Runs(s, steps) && HazardFree(s, steps)
    ensures InSync(After(s, steps))
    decreases |steps|
  {
    if steps == [] {
    } else {
      StepKeepsSyncExactly(s, steps[0]);
      RunKeepsSync(Next(s, steps[0]), steps[1..]);
    }
  }

  predicate SyncedThroughout(s: Wire, steps: seq<Step>)
    requires Runs(s, steps)
    decreases |steps|
  {
    InSync(s) && (steps == [] || SyncedThroughout(Next(s, steps[0]), steps[1..]))
  }

  /** Over whole runs of one chain: every state is synchronised exactly when no such completion happens. */
  lemma {:induction false} SyncedExactly(s: Wire, steps: seq<Step>)
    requires InSync(s) && Runs(s, steps)
    ensures SyncedThroughout(s, steps) <==> HazardFree(s, steps)
    decreases |steps|
  {
    if steps == [] {
    } else {
      StepKeepsSyncExactly(s, steps[0]);
      if InSync(Next(s, steps[0])) {
        SyncedExactly(Next(s, steps[0]), steps[1..]);
      }
    }
  }

  /** Frame synchronisation with the shared header_: with one chain, the header read always starts on a frame
      boundary, and the header that malloc_when_recvd_header gets is the next undelivered frame's own; so what
      was delivered, ids included, is what was sent first. */
  lemma PipeFramingSafety(s: Wire, steps: seq<Step>)
    requires Initial(s, 1) && Runs(s, steps) && HazardFree(s, steps)
    ensures var t := After(s, steps);
            && |t.chains| == 1 && |t.header| == HEADER_LENGTH && t.delivered <= t.sent && AllPipeFit(t.sent)
            && (t.chains[0].HeaderPending? ==> t.inbox + t.outbox == EncodeAll(Rest(t)))
            && (t.chains[0] == HeaderFilled(HEADER_LENGTH)
                ==> Rest(t) != [] && t.header == Header(|Rest(t)[0].body|, Rest(t)[0].id))
  {
    assert Rest(s) == [] && s.inbox + s.outbox == [];
    RunKeepsSync(s, steps);
    var t := After(s, steps);
    if t.chains[0] == HeaderFilled(HEADER_LENGTH) {
      FirstHeader(Rest(t), t.header, t.inbox + t.outbox);
      HeaderOfFields(t.header);
    }
  }

  lemma Prepend(s: Wire, a: Step, rest: seq<Step>, last: Wire)
    requires Enabled(s, a) && Runs(Next(s, a), rest) && After(Next(s, a), rest) == last
    ensures Runs(s, [a] + rest) && After(s, [a] + rest) == last
    ensures HazardFree(s, [a] + rest) <==> !Hazard(s, a) && HazardFree(Next(s, a), rest)
  {
    assert ([a] + rest)[1..] == rest;
  }

  /** One chain up to the submission of the body read for the first frame sent. */
  lemma FirstHeaderHandled(s: Wire, f: Frame, rest: seq<Step>, last: Wire)
    requires |s.header| == HEADER_LENGTH && PipeFits(f)
    requires var t := Wire([f], [], f.body, Encode(f)[..8], [BodyPending(Encode(f)[..8])], []);
             Runs(t, rest) && After(t, rest) == last
    ensures var t := Wire([f], Encode(f), [], s.header, [HeaderPending], []);
            var steps := [Transfer(8 + |f.body|)] + ([FillHeader(0, 8)] + ([HandleHeader(0)] + rest));
            Runs(t, steps) && After(t, steps) == last
  {
    var h := Encode(f)[..8];
    var t1 := Wire([f], Encode(f), [], s.header, [HeaderPending], []);
    var t2 := Wire([f], [], Encode(f), s.header, [HeaderPending], []);
    var t3 := Wire([f], [], f.body, h, [HeaderFilled(8)], []);
    var t4 := Wire([f], [], f.body, h, [BodyPending(h)], []);
    assert Next(t1, Transfer(8 + |f.body|)) == t2;
    assert Encode(f)[8..] == f.body && Overwritten(s.header, 0, h) == h && Next(t2, FillHeader(0, 8)) == t3;
    HeaderFields(|f.body|, f.id, []);
    assert h + [] == h == Header(|f.body|, f.id) && Next(t3, HandleHeader(0)) == t4;
    Prepend(t3, HandleHeader(0), rest, last);
    Prepend(t2, FillHeader(0, 8), [HandleHeader(0)] + rest, last);
    Prepend(t1, Transfer(8 + |f.body|), [FillHeader(0, 8)] + ([HandleHeader(0)] + rest), last);
  }

  /** The condition is needed: for every frame with a body, a run in which the body read completes empty hands
      the session a message of as many zeros in its place. */
  lemma EmptyReadForgesZeros(s: Wire, f: Frame) returns (steps: seq<Step>)
    requires Initial(s, 1) && PipeFits(f) && f.body != []
    ensures Runs(s, steps)
    ensures After(s, steps).sent == [f] && After(s, steps).delivered == [Frame(f.id, Zeros(|f.body|))]
  {
    var h := Encode(f)[..8];
    HeaderFields(|f.body|, f.id, []);
    assert h + [] == h == Header(|f.body|, f.id);
    var t4 := Wire([f], [], f.body, h, [BodyPending(h)], []);
    var t5 := Wire([f], [], f.body, h, [HeaderPending], [Frame(f.id, Zeros(|f.body|))]);
    assert f.body[..0] == [] && f.body[0..] == f.body && Next(t4, CompleteBody(0, 0)) == t5;
    Prepend(t4, CompleteBody(0, 0), [], t5);
    var rest := [CompleteBody(0, 0)] + [];
    FirstHeaderHandled(s, f, rest, t5);
    steps := [Transfer(8 + |f.body|)] + ([FillHeader(0, 8)] + ([HandleHeader(0)] + rest));
    assert Next(s, Send(f)) == Wire([f], Encode(f), [], s.header, [HeaderPending], []);
    Prepend(s, Send(f), steps, t5);
    steps := [Send(f)] + steps;
  }

  /** Two empty frames have been sent and both headers are ready to be read by two chains. */
  function TwoHeadersReady(s: Wire, f: Frame, g: Frame): Wire
    requires PipeFits(f) && PipeFits(g)
  {
    Wire([f, g], [], Encode(f) + Encode(g), s.header, [HeaderPending, HeaderPending], [])
  }

  lemma SendTwo(s: Wire, f: Frame, g: Frame) returns (t: Wire)
    requires Initial(s, 2) && f.body == [] && g.body == []
    ensures t == TwoHeadersReady(s, f, g)
    ensures Enabled(s, Send(f)) && Enabled(Next(s, Send(f)), Send(g))
    ensures Enabled(Next(Next(s, Send(f)), Send(g)), Transfer(16))
    ensures t == Next(Next(Next(s, Send(f)), Send(g)), Transfer(16))
  {
    var s2 := Next(Next(s, Send(f)), Send(g));
    assert s2.outbox == Encode(f) + Encode(g) && s2.inbox == [];
    t := Next(s2, Transfer(16));
    assert t.inbox == Encode(f) + Encode(g) && t.outbox == [] && t.chains == [HeaderPending, HeaderPending];
  }

  /** Both headers arrive before either is handled: the second stands in header_ for both chains. */
  lemma FillTwo(sent: seq<Frame>, hf: seq<byte>, hg: seq<byte>, before: seq<byte>, rest: seq<Step>, last: Wire)
    requires |hf| == |hg| == |before| == HEADER_LENGTH
    requires Runs(Wire(sent, [], [], hg, [HeaderFilled(8), HeaderFilled(8)], []), rest)
    requires HazardFree(Wire(sent, [], [], hg, [HeaderFilled(8), HeaderFilled(8)], []), rest)
    requires After(Wire(sent, [], [], hg, [HeaderFilled(8), HeaderFilled(8)], []), rest) == last
    ensures var s := Wire(sent, [], hf + hg, before, [HeaderPending, HeaderPending], []);
            var steps := [FillHeader(0, 8)] + ([FillHeader(1, 8)] + rest);
            Runs(s, steps) && HazardFree(s, steps) && After(s, steps) == last
  {
    var s := Wire(sent, [], hf + hg, before, [HeaderPending, HeaderPending], []);
    assert s.inbox[..8] == hf && s.inbox[8..] == hg;
    assert Overwritten(before, 0, hf) == hf && Overwritten(hf, 0, hg) == hg && hg[..8] == hg && hg[8..] == [];
    var s4 := Wire(sent, [], hg, hf, [HeaderFilled(8), HeaderPending], []);
    assert Next(s, FillHeader(0, 8)) == s4;
    assert Next(s4, FillHeader(1, 8)) == Wire(sent, [], [], hg, [HeaderFilled(8), HeaderFilled(8)], []);
    Prepend(s4, FillHeader(1, 8), rest, last);
    Prepend(s, FillHeader(0, 8), [FillHeader(1, 8)] + rest, last);
  }

  lemma HandleTwo(sent: seq<Frame>, hg: seq<byte>, g: Frame) returns (steps: seq<Step>)
    requires |hg| == HEADER_LENGTH && LengthOf(hg) == 0 && g == Frame(IdOf(hg), [])
    ensures var s := Wire(sent, [], [], hg, [HeaderFilled(8), HeaderFilled(8)], []);
            && Runs(s, steps) && HazardFree(s, steps) && After(s, steps).sent == sent
            && After(s, steps).delivered == [g, g]
  {
    var s5 := Wire(sent, [], [], hg, [HeaderFilled(8), HeaderFilled(8)], []);
    var s7 := Wire(sent, [], [], hg, [BodyPending(hg), BodyPending(hg)], []);
    assert Next(Next(s5, HandleHeader(0)), HandleHeader(1)) == s7;
    assert Zeros(0) == [];
    var s9 := Wire(sent, [], [], hg, [HeaderPending, HeaderPending], [g, g]);
    assert Next(Next(s7, CompleteBody(0, 0)), CompleteBody(1, 0)) == s9;
    Prepend(Next(s7, CompleteBody(0, 0)), CompleteBody(1, 0), [], s9);
    steps := [CompleteBody(1, 0)] + [];
    Prepend(s7, CompleteBody(0, 0), steps, s9);
    steps := [CompleteBody(0, 0)] + steps;
    Prepend(Next(s5, HandleHeader(0)), HandleHeader(1), steps, s9);
    steps := [HandleHeader(1)] + steps;
    Prepend(s5, HandleHeader(0), steps, s9);
    steps := [HandleHeader(0)] + steps;
  }

  /** One chain is needed: two reads in flight on one channel share header_, and the second header overwrites
      the first before it is used. Of two empty frames the second is delivered twice, the first never. */
  lemma TwoChainsLoseAFrame(s: Wire, f: Frame, g: Frame) returns (steps: seq<Step>)
    requires Initial(s, 2) && f.body == [] && g.body == [] && f.id != g.id
    ensures Runs(s, steps) && HazardFree(s, steps)
    ensures After(s, steps).sent == [f, g] && After(s, steps).delivered == [g, g]
  {
    var t := SendTwo(s, f, g);
    HeaderFields(0, g.id, []);
    var rest := HandleTwo([f, g], Encode(g), g);
    var last := After(Wire([f, g], [], [], Encode(g), [HeaderFilled(8), HeaderFilled(8)], []), rest);
    FillTwo([f, g], Encode(f), Encode(g), s.header, rest, last);
    rest := [FillHeader(0, 8)] + ([FillHeader(1, 8)] + rest);
    Prepend(Next(Next(s, Send(f)), Send(g)), Transfer(16), rest, last);
    Prepend(Next(s, Send(f)), Send(g), [Transfer(16)] + rest, last);
    steps := [Send(f)] + ([Send(g)] + ([Transfer(16)] + rest));
    Prepend(s, Send(f), [Send(g)] + ([Transfer(16)] + rest), last);
  }

  // ---- when reading ends ----

  predicate Ended(chain: Chain) { chain.Failed? || chain.Asserted? || chain.Undefined? }

  /** A chain that has ended stays as it is, whatever arrives; and it was the only one to deliver anything. */
  lemma {:induction false} EndedForGood(s: Wire, steps: seq<Step>, c: nat)
    requires c < |s.chains| && Ended(s.chains[c]) && Runs(s, steps)
    ensures var t := After(s, steps);
            && |t.chains| == |s.chains| && t.chains[c] == s.chains[c]
            && (|s.chains| == 1 ==> t.delivered == s.delivered)
    decreases |steps|
  {
    if steps == [] {
    } else {
      EndedForGood(Next(s, steps[0]), steps[1..], c);
    }
  }

  /** After an error completion the chain takes no header and no body again, in any continuation, and with one
      chain nothing more is delivered. */
  lemma FailEndsChain(s: Wire, c: nat, steps: seq<Step>)
    requires Enabled(s, Fail(c)) && Runs(Next(s, Fail(c)), steps)
    ensures var t := After(Next(s, Fail(c)), steps);
            && c < |t.chains| && t.chains[c] == Failed
            && (|s.chains| == 1 ==> t.delivered == s.delivered)
            && !Enabled(t, HandleHeader(c))
            && forall k :: !Enabled(t, FillHeader(c, k)) && !Enabled(t, CompleteBody(c, k))
  {
    EndedForGood(Next(s, Fail(c)), steps, c);
  }

  /** A peer that announces a length the message cannot allocate ends the chain: whatever it sends then, the chain
      takes no header and no body again. */
  lemma BadLengthEndsChain(s: Wire, c: nat, steps: seq<Step>)
    requires Enabled(s, HandleHeader(c)) && s.chains[c] == HeaderFilled(HEADER_LENGTH)
    requires Resizing(Signed(LengthOf(s.header))) != Allocated
    requires Runs(Next(s, HandleHeader(c)), steps)
    ensures var t := After(Next(s, HandleHeader(c)), steps);
            && c < |t.chains| && t.chains[c] == Undefined && (|s.chains| == 1 ==> t.delivered == s.delivered)
            && !Enabled(t, HandleHeader(c))
            && forall k :: !Enabled(t, FillHeader(c, k)) && !Enabled(t, CompleteBody(c, k))
  {
    PipeSizeExact(Signed(LengthOf(s.header)));
    EndedForGood(Next(s, HandleHeader(c)), steps, c);
  }

  predicate NoFail(steps: seq<Step>) { forall i :: 0 <= i < |steps| ==> !steps[i].Fail? }

  /** The session is told of an error exactly when a read has completed with one. */
  lemma {:induction false} FailedExactly(s: Wire, steps: seq<Step>)
    requires |s.chains| == 1 && !s.chains[0].Failed? && Runs(s, steps)
    ensures |After(s, steps).chains| == 1
    ensures After(s, steps).chains[0].Failed? <==> !NoFail(steps)
    decreases |steps|
  {
    if steps == [] {
    } else {
      assert NoFail(steps) <==> !steps[0].Fail? && NoFail(steps[1..]);
      if steps[0].Fail? {
        EndedForGood(Next(s, steps[0]), steps[1..], 0);
      } else {
        FailedExactly(Next(s, steps[0]), steps[1..]);
      }
    }
  }

  /** What a handler looks at was served in full. */
  predicate Full(s: Wire, a: Step)
    requires Enabled(s, a)
  {
    match a
    case HandleHeader(c) => s.chains[c].size == HEADER_LENGTH
    case CompleteBody(c, k) => k == LengthOf(s.chains[c].header)
    case Fail(_) => false
    case _ => true
  }

  predicate AllFull(s: Wire, steps: seq<Step>)
    requires Runs(s, steps)
    decreases |steps|
  {
    steps == [] || (Full(s, steps[0]) && AllFull(Next(s, steps[0]), steps[1..]))
  }

  lemma StepGoesOnExactly(s: Wire, a: Step)
    requires InSync(s) && !Ended(s.chains[0]) && Enabled(s, a) && !Hazard(s, a)
    ensures |Next(s, a).chains| == 1 && (!Ended(Next(s, a).chains[0]) <==> Full(s, a))
  {
    StepKeepsSyncExactly(s, a);
  }

  /** With one chain and no empty completion of a body, the chain goes on exactly as long as every read it handles
      was served in full. */
  lemma {:induction false} ReadingGoesOnExactly(s: Wire, steps: seq<Step>)
    requires InSync(s) && !Ended(s.chains[0]) && Runs(s, steps) && HazardFree(s, steps)
    ensures |After(s, steps).chains| == 1
    ensures !Ended(After(s, steps).chains[0]) <==> AllFull(s, steps)
    decreases |steps|
  {
    if steps == [] {
    } else {
      StepKeepsSyncExactly(s, steps[0]);
      StepGoesOnExactly(s, steps[0]);
      if Full(s, steps[0]) {
        ReadingGoesOnExactly(Next(s, steps[0]), steps[1..]);
      } else {
        EndedForGood(Next(s, steps[0]), steps[1..], 0);
      }
    }
  }

  // ---- complete delivery ----

  /** Bytes cross the pipe, a read takes all it asked for, or a handler runs. */
  predicate Moves(s: Wire, a: Step)
    requires Enabled(s, a)
  {
    || (a.Transfer? && a.n > 0)
    || (a.FillHeader? && a.k == HEADER_LENGTH)
    || a.HandleHeader?
    || (a.CompleteBody? && a.k == LengthOf(s.chains[a.c].header))
  }

  predicate Delivering(s: Wire) {
    && InSync(s)
    && (s.chains[0].HeaderPending? || s.chains[0].BodyPending? || s.chains[0] == HeaderFilled(HEADER_LENGTH))
  }

  /** Bytes to move, then the phases a header still has to pass: an empty body moves no bytes. */
  function WorkLeft(s: Wire): nat
    requires |s.chains| == 1
  {
    2 * |s.outbox| + |s.inbox| +
    match s.chains[0]
    case HeaderFilled(_) => 2
    case BodyPending(_) => 1
    case _ => 0
  }

  lemma MoveKeepsDelivering(s: Wire, a: Step)
    requires Delivering(s) && Enabled(s, a) && Moves(s, a)
    ensures Delivering(Next(s, a)) && Next(s, a).sent == s.sent && WorkLeft(Next(s, a)) < WorkLeft(s)
  {
    StepKeepsSyncExactly(s, a);
    if a.HandleHeader? {
      FirstHeader(Rest(s), s.header, s.inbox + s.outbox);
    }
  }

  lemma SomethingMoves(s: Wire)
    requires Delivering(s) && s.delivered != s.sent
    ensures exists a :: Enabled(s, a) && Moves(s, a)
  {
    if s.outbox != [] {
      assert Enabled(s, Transfer(1)) && Moves(s, Transfer(1));
      return;
    }
    assert Rest(s) != [] && s.inbox + s.outbox == s.inbox && |EncodeAll(Rest(s))| >= HEADER_LENGTH;
    match s.chains[0]
    case HeaderPending => assert Enabled(s, FillHeader(0, 8)) && Moves(s, FillHeader(0, 8));
    case HeaderFilled(_) => assert Enabled(s, HandleHeader(0)) && Moves(s, HandleHeader(0));
    case BodyPending(h) =>
      FirstHeader(Rest(s), h, s.inbox);
      assert Enabled(s, CompleteBody(0, LengthOf(h))) && Moves(s, CompleteBody(0, LengthOf(h)));
  }

  predicate AllMove(s: Wire, steps: seq<Step>)
    requires Runs(s, steps)
    decreases |steps|
  {
    steps == [] || (Moves(s, steps[0]) && AllMove(Next(s, steps[0]), steps[1..]))
  }

  /** If nothing fails, moving comes to an end, and only when every frame has been delivered with its id, for
      every body length from 0 to 2^31 - 9. */
  lemma {:induction false} PipeCompleteDelivery(s: Wire, steps: seq<Step>)
    requires Delivering(s) && Runs(s, steps) && AllMove(s, steps)
    ensures |steps| <= WorkLeft(s)
    ensures var t := After(s, steps);
            (forall a :: Enabled(t, a) ==> !Moves(t, a))
            ==> t.delivered == s.sent && t.chains == [HeaderPending] && t.inbox == [] && t.outbox == []
    decreases |steps|
  {
    if steps == [] {
      if forall a :: Enabled(s, a) ==> !Moves(s, a) {
        if s.delivered != s.sent {
          SomethingMoves(s);
        }
        assert Rest(s) == [];
        assert |s.inbox + s.outbox| == |s.inbox| + |s.outbox|;
        assert s.chains == [s.chains[0]];
      }
    } else {
      MoveKeepsDelivering(s, steps[0]);
      PipeCompleteDelivery(Next(s, steps[0]), steps[1..]);
    }
  }
}
