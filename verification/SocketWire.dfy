/** A writer, a byte stream and the two-phase reader of socket_channel.cc, re-armed by its session after
    each delivery. Transfers move any number of bytes, and a read may complete with any part of what it asked
    for: nothing is assumed about full reads. */
module SocketWire {
  import opened ByteCodec
  import opened Messages

  datatype Phase =
    | AwaitHeader                     // async_read submitted for 8 bytes
    | AwaitBody(header: seq<byte>)    // async_read submitted for the length in `header`
    | Failed                          // a completion carried an error code; the session stops reading
    | Asserted                        // an assert of the channel has stopped the program
    | Undefined                       // the frame size wrapped: alloc_with_header writes out of bounds

  datatype Reader = Reader(phase: Phase, delivered: seq<Frame>)

  datatype Wire = Wire(sent: seq<Frame>, outbox: seq<byte>, inbox: seq<byte>, reader: Reader)

  datatype Step =
    | Send(f: Frame)     // async_write captures the bytes of one frame
    | Transfer(n: nat)   // the network carries n bytes
    | Complete(k: nat)   // the pending read completes without error, with k bytes
    | Fail               // the pending read completes with an error code

  /** The 8-byte message the header is read into, after `bytes` have arrived. */
  function HeaderBuffer(bytes: seq<byte>): (h: seq<byte>)
    requires |bytes| <= HEADER_LENGTH
    ensures |h| == HEADER_LENGTH
    ensures forall i :: 0 <= i < HEADER_LENGTH ==> h[i] == if i < |bytes| then bytes[i] else 0
  {
    bytes + Zeros(HEADER_LENGTH - |bytes|)
  }

  predicate Active(r: Reader) { r.phase.AwaitHeader? || (r.phase.AwaitBody? && |r.phase.header| == HEADER_LENGTH) }

  /** How many bytes the pending read asked for. */
  function Requested(r: Reader): nat
    requires Active(r)
  {
    if r.phase.AwaitHeader? then HEADER_LENGTH else LengthOf(r.phase.header)
  }

  /** handle_read_header with no error. The received count is looked at only when a body is announced. */
  function HeaderDone(r: Reader, bytes: seq<byte>): Reader
    requires |bytes| <= HEADER_LENGTH
  {
    var h := HeaderBuffer(bytes);
    if LengthOf(h) > 0 then
      if |bytes| != HEADER_LENGTH then r.(phase := Asserted)
      else if FrameSize(LengthOf(h)) < HEADER_LENGTH then r.(phase := Undefined)
      else r.(phase := AwaitBody(h))
    else
      Reader(AwaitHeader, r.delivered + [Frame(0, [])])
  }

  /** handle_read_body with no error. */
  function BodyDone(r: Reader, bytes: seq<byte>): Reader
    requires Active(r) && r.phase.AwaitBody?
  {
    if |bytes| != LengthOf(r.phase.header) then r.(phase := Asserted)
    else Reader(AwaitHeader, r.delivered + [Frame(IdOf(r.phase.header), bytes)])
  }

  predicate Enabled(s: Wire, a: Step) {
    match a
    case Send(f) => Fits(f)
    case Transfer(n) => n <= |s.outbox|
    case Complete(k) => Active(s.reader) && k <= Requested(s.reader) && k <= |s.inbox|
    case Fail => Active(s.reader)
  }

  function Next(s: Wire, a: Step): Wire
    requires Enabled(s, a)
  {
    match a
    case Send(f) => s.(sent := s.sent + [f], outbox := s.outbox + Encode(f))
    case Transfer(n) => s.(outbox := s.outbox[n..], inbox := s.inbox + s.outbox[..n])
    case Complete(k) =>
      s.(inbox := s.inbox[k..],
         reader := if s.reader.phase.AwaitHeader? then HeaderDone(s.reader, s.inbox[..k])
                   else BodyDone(s.reader, s.inbox[..k]))
    case Fail => s.(reader := s.reader.(phase := Failed))
  }

  predicate Runs(s: Wire, steps: seq<Step>)
    decreases |steps|
  {
    steps == [] || (Enabled(s, steps[0]) && Runs(Next(s, steps[0]), steps[1..]))
  }

  function After(s: Wire, steps: seq<Step>): Wire
    requires Runs(s, steps)
    decreases |steps|
  {
    if steps == [] then s else After(Next(s, steps[0]), steps[1..])
  }

  const INITIAL := Wire([], [], [], Reader(AwaitHeader, []))

  /** The frames not yet delivered. */
  function Rest(s: Wire): seq<Frame>
    requires s.reader.delivered <= s.sent
  {
    s.sent[|s.reader.delivered|..]
  }

  /** Synchronised: what was delivered is what was sent first, and the bytes that are still to be read,
      together with a header already taken, are exactly the frames not yet delivered. */
  predicate InSync(s: Wire) {
    && AllFit(s.sent) && s.reader.delivered <= s.sent
    && match s.reader.phase
       case AwaitHeader => s.inbox + s.outbox == EncodeAll(Rest(s))
       case AwaitBody(h) =>
         |h| == HEADER_LENGTH && LengthOf(h) > 0 && h + (s.inbox + s.outbox) == EncodeAll(Rest(s))
       case Failed | Asserted => true
       case Undefined => false
  }

  lemma DeliverNext(s: Wire)
    requires s.reader.delivered <= s.sent && Rest(s) != []
    ensures s.reader.delivered + [Rest(s)[0]] <= s.sent
    ensures s.sent[|s.reader.delivered| + 1..] == Rest(s)[1..]
  {
  }

  /** The two header completions the code does not notice: fewer than 8 bytes that spell length zero (such as
      no bytes at all: end of stream, or a submission failure reported with an empty code), and an empty
      frame whose id is not 0, which is delivered as a fresh message(). */
  predicate Hazard(s: Wire, a: Step)
    requires Enabled(s, a)
  {
    a.Complete? && s.reader.phase.AwaitHeader? &&
    var h := HeaderBuffer(s.inbox[..a.k]);
    LengthOf(h) == 0 && (a.k < HEADER_LENGTH || IdOf(h) != 0)
  }

  lemma FullHeaderExact(s: Wire)
    requires InSync(s) && Enabled(s, Complete(8)) && s.reader.phase.AwaitHeader?
    ensures InSync(Next(s, Complete(8))) <==> !Hazard(s, Complete(8))
  {
    var t, h := Next(s, Complete(8)), s.inbox[..8];
    var tail := s.inbox[8..] + s.outbox;
    assert s.inbox + s.outbox == h + tail && HeaderBuffer(h) == h;
    FirstHeader(Rest(s), h, tail);
    FrameSizeExact(LengthOf(h));
    DeliverNext(s);
    if LengthOf(h) == 0 {
      assert Rest(s)[0].body == [];
      assert tail == EncodeAll(Rest(s)[1..]);
      if t.reader.delivered <= t.sent {
        assert t.reader.delivered[|s.reader.delivered|] == Frame(0, []);
        assert t.sent[|s.reader.delivered|] == Rest(s)[0];
      }
    }
  }

  lemma ShortHeaderExact(s: Wire, k: nat)
    requires InSync(s) && Enabled(s, Complete(k)) && s.reader.phase.AwaitHeader? && k < HEADER_LENGTH
    ensures InSync(Next(s, Complete(k))) <==> !Hazard(s, Complete(k))
  {
    var t := Next(s, Complete(k));
    var tail := s.inbox[k..] + s.outbox;
    assert s.inbox + s.outbox == s.inbox[..k] + tail;
    if Hazard(s, Complete(k)) && t.reader.delivered <= t.sent {
      assert Rest(s) != [];
      DeliverNext(s);
      assert Rest(s)[0] == Frame(0, []);
      assert |EncodeAll(Rest(s))| == HEADER_LENGTH + |EncodeAll(Rest(s)[1..])|;
      assert |tail| == |EncodeAll(Rest(s))| - k;
    }
  }

  lemma BodyStepKeepsSync(s: Wire, k: nat)
    requires InSync(s) && Enabled(s, Complete(k)) && s.reader.phase.AwaitBody?
    ensures InSync(Next(s, Complete(k)))
  {
    var h := s.reader.phase.header;
    FirstHeader(Rest(s), h, s.inbox + s.outbox);
    DeliverNext(s);
    if k == LengthOf(h) {
      assert s.inbox[..k] == (s.inbox + s.outbox)[..k] == Rest(s)[0].body;
      assert s.inbox[k..] + s.outbox == (s.inbox + s.outbox)[k..] == EncodeAll(Rest(s)[1..]);
    }
  }

  lemma SendKeepsSync(s: Wire, f: Frame)
    requires InSync(s) && Fits(f)
    ensures InSync(Next(s, Send(f)))
  {
    var t := Next(s, Send(f));
    assert Rest(t) == Rest(s) + [f];
    EncodeAllAppend(Rest(s), [f]);
    assert EncodeAll([f]) == Encode(f) + EncodeAll([f][1..]) == Encode(f);
    assert s.inbox + (s.outbox + Encode(f)) == s.inbox + s.outbox + Encode(f);
    if s.reader.phase.AwaitBody? {
      var h := s.reader.phase.header;
      assert h + (s.inbox + (s.outbox + Encode(f))) == h + (s.inbox + s.outbox) + Encode(f);
    }
  }

  /** Whatever the network and the kernel do, a step keeps the channel synchronised exactly when it is not one
      of the two unnoticed header completions. */
  lemma StepKeepsSyncExactly(s: Wire, a: Step)
    requires InSync(s) && Enabled(s, a)
    ensures InSync(Next(s, a)) <==> !Hazard(s, a)
  {
    match a
    case Send(f) => SendKeepsSync(s, f);
    case Transfer(n) => assert s.inbox + s.outbox == s.inbox + s.outbox[..n] + s.outbox[n..];
    case Complete(k) =>
      if s.reader.phase.AwaitBody? {
        BodyStepKeepsSync(s, k);
      } else if k == HEADER_LENGTH {
        FullHeaderExact(s);
      } else {
        ShortHeaderExact(s, k);
      }
    case Fail =>
  }

  predicate HazardFree(s: Wire, steps: seq<Step>)
    requires Runs(s, steps)
    decreases |steps|
  {
    steps == [] || (!Hazard(s, steps[0]) && HazardFree(Next(s, steps[0]), steps[1..]))
  }

  predicate SyncedThroughout(s: Wire, steps: seq<Step>)
    requires Runs(s, steps)
    decreases |steps|
  {
    InSync(s) && (steps == [] || SyncedThroughout(Next(s, steps[0]), steps[1..]))
  }

  /** Over whole runs: every state is synchronised exactly when no such completion happens. */
  lemma {:induction false} SyncedExactly(s: Wire, steps: seq<Step>)
    requires InSync(s) && Runs(s, steps)
    ensures SyncedThroughout(s, steps) <==> HazardFree(s, steps)
    decreases |steps|
  {
    if steps == [] {
    } else {
      StepKeepsSyncExactly(s, steps[0]);
      if InSync(Next(s, steps[0])) {
        SyncedExactly(Next(s, steps[0]), steps[1..]);
      }
    }
  }

  /** Framing safety over whole runs: in every state of every run without such a completion the frames
      delivered are the first frames sent, and the bytes consumed for them and still under way are together
      the encoding of everything sent. */
  lemma {:induction false} FramingSafety(s: Wire, steps: seq<Step>)
    requires InSync(s) && Runs(s, steps) && HazardFree(s, steps)
    ensures var t := After(s, steps);
            && InSync(t) && t.reader.delivered <= t.sent && AllFit(t.reader.delivered)
            && (t.reader.phase.AwaitHeader?
                ==> EncodeAll(t.reader.delivered) + (t.inbox + t.outbox) == EncodeAll(t.sent))
            && (t.reader.phase.AwaitBody?
                ==> EncodeAll(t.reader.delivered) + t.reader.phase.header + (t.inbox + t.outbox) == EncodeAll(t.sent))
    decreases |steps|
  {
    if steps == [] {
      assert s.sent == s.reader.delivered + Rest(s);
      EncodeAllAppend(s.reader.delivered, Rest(s));
    } else {
      StepKeepsSyncExactly(s, steps[0]);
      FramingSafety(Next(s, steps[0]), steps[1..]);
    }
  }

  /** From a fresh connection, what the session has seen is always what the peer sent first. */
  lemma DeliveredIsPrefix(steps: seq<Step>)
    requires Runs(INITIAL, steps) && HazardFree(INITIAL, steps)
    ensures After(INITIAL, steps).reader.delivered <= After(INITIAL, steps).sent
  {
    assert Rest(INITIAL) == [] && INITIAL.inbox + INITIAL.outbox == [];
    FramingSafety(INITIAL, steps);
  }

  /** The condition is needed: a stream that ends before a header delivers an empty message nobody sent. */
  lemma EndOfStreamForgesMessage()
    ensures Enabled(INITIAL, Complete(0)) && Hazard(INITIAL, Complete(0))
    ensures Next(INITIAL, Complete(0)).reader == Reader(AwaitHeader, [Frame(0, [])])
    ensures Next(INITIAL, Complete(0)).sent == []
  {
  }

  lemma Prepend(s: Wire, a: Step, rest: seq<Step>, last: Wire)
    requires Enabled(s, a) && Runs(Next(s, a), rest) && After(Next(s, a), rest) == last
    ensures Runs(s, [a] + rest) && After(s, [a] + rest) == last
  {
    assert ([a] + rest)[1..] == rest;
  }

  /** So is the other: an empty body that was sent with an id arrives without it. */
  lemma EmptyBodyLosesItsId(id: uint32) returns (steps: seq<Step>)
    ensures Runs(INITIAL, steps)
    ensures After(INITIAL, steps).sent == [Frame(id, [])] && After(INITIAL, steps).reader.delivered == [Frame(0, [])]
  {
    var f := Frame(id, []);
    HeaderFields(0, id, []);
    var s1 := Wire([f], Encode(f), [], INITIAL.reader);
    assert INITIAL.sent + [f] == [f] && INITIAL.outbox + Encode(f) == Encode(f) && Next(INITIAL, Send(f)) == s1;
    var s2 := Wire([f], [], Encode(f), INITIAL.reader);
    assert Encode(f)[..8] == Encode(f) && Encode(f)[8..] == [] && Next(s1, Transfer(8)) == s2;
    var s3 := Wire([f], [], [], Reader(AwaitHeader, [Frame(0, [])]));
    assert HeaderBuffer(Encode(f)) == Encode(f) && Encode(f) + [] == Encode(f);
    assert Next(s2, Complete(8)) == s3;
    Prepend(s2, Complete(8), [], s3);
    Prepend(s1, Transfer(8), [Complete(8)] + [], s3);
    steps := [Transfer(8)] + ([Complete(8)] + []);
    Prepend(INITIAL, Send(f), steps, s3);
    steps := [Send(f)] + steps;
  }

  // ---- when reading ends ----

  /** A reader that has stopped stays as it is, whatever arrives. */
  lemma {:induction false} StoppedForGood(s: Wire, steps: seq<Step>)
    requires !Active(s.reader) && Runs(s, steps)
    ensures After(s, steps).reader == s.reader
    decreases |steps|
  {
    if steps == [] {
    } else {
      StoppedForGood(Next(s, steps[0]), steps[1..]);
    }
  }

  /** After an error completion nothing is read or delivered again, in any continuation. */
  lemma FailEndsReading(s: Wire, steps: seq<Step>)
    requires Enabled(s, Fail) && Runs(Next(s, Fail), steps)
    ensures var t := After(Next(s, Fail), steps);
            && t.reader == Reader(Failed, s.reader.delivered)
            && !Enabled(t, Fail) && forall k :: !Enabled(t, Complete(k))
  {
    StoppedForGood(Next(s, Fail), steps);
  }

  /** A peer that announces a body whose frame length does not fit in 32 bits ends the reading: whatever the peer
      has sent before and sends then, nothing more is delivered. */
  lemma OverlongHeaderEndsReading(s: Wire, steps: seq<Step>)
    requires s.reader.phase.AwaitHeader? && |s.inbox| >= HEADER_LENGTH && LengthOf(s.inbox[..8]) > MAX_BODY
    requires Runs(Next(s, Complete(8)), steps)
    ensures After(Next(s, Complete(8)), steps).reader == Reader(Undefined, s.reader.delivered)
  {
    var h := s.inbox[..8];
    assert HeaderBuffer(h) == h;
    FrameSizeExact(LengthOf(h));
    StoppedForGood(Next(s, Complete(8)), steps);
  }

  lemma ZeroField(b: seq<byte>)
    requires |b| == 4
    ensures DecodeU32(b) == 0 <==> forall i :: 0 <= i < 4 ==> b[i] == 0
  {
  }

  /** A header read that comes back short goes unnoticed exactly if the bytes of the length that did arrive are all
      zero, as when none arrived. */
  lemma ShortHeaderUnnoticedExactly(s: Wire, k: nat)
    requires s.reader.phase.AwaitHeader? && Enabled(s, Complete(k)) && k < HEADER_LENGTH
    ensures Hazard(s, Complete(k)) <==> forall i :: 0 <= i < k && i < 4 ==> s.inbox[i] == 0
    ensures Active(Next(s, Complete(k)).reader) <==> Hazard(s, Complete(k))
  {
    var h := HeaderBuffer(s.inbox[..k]);
    ZeroField(h[..4]);
    assert forall i :: 0 <= i < 4 ==> h[..4][i] == if i < k then s.inbox[i] else 0;
  }

  predicate NoFail(steps: seq<Step>) { forall i :: 0 <= i < |steps| ==> !steps[i].Fail? }

  /** The session is told of an error exactly when a read has completed with one. */
  lemma {:induction false} FailedExactly(s: Wire, steps: seq<Step>)
    requires !s.reader.phase.Failed? && Runs(s, steps)
    ensures After(s, steps).reader.phase.Failed? <==> !NoFail(steps)
    decreases |steps|
  {
    if steps == [] {
    } else {
      assert NoFail(steps) <==> !steps[0].Fail? && NoFail(steps[1..]);
      if steps[0].Fail? {
        StoppedForGood(Next(s, Fail), steps[1..]);
      } else {
        FailedExactly(Next(s, steps[0]), steps[1..]);
      }
    }
  }

  /** No read fails or comes back short. */
  predicate AllFull(s: Wire, steps: seq<Step>)
    requires Runs(s, steps)
    decreases |steps|
  {
    steps == [] ||
    (&& !steps[0].Fail? && (steps[0].Complete? ==> steps[0].k == Requested(s.reader))
     && AllFull(Next(s, steps[0]), steps[1..]))
  }

  lemma StepGoesOnExactly(s: Wire, a: Step)
    requires InSync(s) && Active(s.reader) && Enabled(s, a) && !Hazard(s, a)
    ensures Active(Next(s, a).reader) <==> !a.Fail? && (a.Complete? ==> a.k == Requested(s.reader))
  {
    StepKeepsSyncExactly(s, a);
  }

  /** Without the two unnoticed completions the reader goes on exactly as long as every read is served in full:
      a short read always ends it. */
  lemma {:induction false} ReadingGoesOnExactly(s: Wire, steps: seq<Step>)
    requires InSync(s) && Active(s.reader) && Runs(s, steps) && HazardFree(s, steps)
    ensures Active(After(s, steps).reader) <==> AllFull(s, steps)
    decreases |steps|
  {
    if steps == [] {
    } else {
      StepKeepsSyncExactly(s, steps[0]);
      StepGoesOnExactly(s, steps[0]);
      if Active(Next(s, steps[0]).reader) {
        ReadingGoesOnExactly(Next(s, steps[0]), steps[1..]);
      } else {
        StoppedForGood(Next(s, steps[0]), steps[1..]);
      }
    }
  }

  // ---- complete delivery ----

  /** What network::message can send: an empty body always goes with id 0. */
  predicate Plain(fs: seq<Frame>) { forall i :: 0 <= i < |fs| && fs[i].body == [] ==> fs[i].id == 0 }

  /** A step that moves bytes as the asserts of the channel expect: some bytes across the network, or all the
      bytes a read asked for. */
  predicate Moves(s: Wire, a: Step)
    requires Enabled(s, a)
  {
    (a.Transfer? && a.n > 0) || (a.Complete? && a.k == Requested(s.reader))
  }

  function BytesLeft(s: Wire): nat { 2 * |s.outbox| + |s.inbox| }

  lemma MoveKeepsDelivering(s: Wire, a: Step)
    requires InSync(s) && Active(s.reader) && Plain(s.sent) && Enabled(s, a) && Moves(s, a)
    ensures InSync(Next(s, a)) && Active(Next(s, a).reader) && Next(s, a).sent == s.sent
    ensures BytesLeft(Next(s, a)) < BytesLeft(s)
  {
    if a.Complete? && s.reader.phase.AwaitHeader? {
      var h := s.inbox[..8];
      assert s.inbox + s.outbox == h + (s.inbox[8..] + s.outbox);
      FirstHeader(Rest(s), h, s.inbox[8..] + s.outbox);
      assert s.sent[|s.reader.delivered|] == Rest(s)[0];
      FrameSizeExact(LengthOf(h));
      assert HeaderBuffer(h) == h;
    }
    StepKeepsSyncExactly(s, a);
  }

  /** While anything is undelivered, bytes can move. */
  lemma BytesCanMove(s: Wire)
    requires InSync(s) && Active(s.reader) && s.reader.delivered != s.sent
    ensures exists a :: Enabled(s, a) && Moves(s, a)
  {
    if s.outbox != [] {
      assert Enabled(s, Transfer(1)) && Moves(s, Transfer(1));
    } else {
      assert Rest(s) != [] && s.inbox + s.outbox == s.inbox;
      assert |EncodeAll(Rest(s))| >= HEADER_LENGTH;
      if s.reader.phase.AwaitBody? {
        FirstHeader(Rest(s), s.reader.phase.header, s.inbox);
      }
      assert Enabled(s, Complete(Requested(s.reader))) && Moves(s, Complete(Requested(s.reader)));
    }
  }

  predicate AllMove(s: Wire, steps: seq<Step>)
    requires Runs(s, steps)
    decreases |steps|
  {
    steps == [] || (Moves(s, steps[0]) && AllMove(Next(s, steps[0]), steps[1..]))
  }

  /** Complete delivery: if no transfer fails, moving bytes comes to an end, and it ends only when every frame
      that was sent has been delivered and the reader waits for the next header. */
  lemma {:induction false} CompleteDelivery(s: Wire, steps: seq<Step>)
    requires InSync(s) && Active(s.reader) && Plain(s.sent) && Runs(s, steps) && AllMove(s, steps)
    ensures |steps| <= BytesLeft(s)
    ensures var t := After(s, steps);
            (forall a :: Enabled(t, a) ==> !Moves(t, a))
            ==> t.reader == Reader(AwaitHeader, s.sent) && t.inbox == [] && t.outbox == []
    decreases |steps|
  {
    if steps == [] {
      if forall a :: Enabled(s, a) ==> !Moves(s, a) {
        if s.reader.delivered != s.sent {
          BytesCanMove(s);
        }
        assert Rest(s) == [];
        assert |s.inbox + s.outbox| == |s.inbox| + |s.outbox|;
      }
    } else {
      MoveKeepsDelivering(s, steps[0]);
      CompleteDelivery(Next(s, steps[0]), steps[1..]);
    }
  }
}
