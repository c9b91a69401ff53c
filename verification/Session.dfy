/** The echo session of session.cc as an object: the actions of its handlers, with the messages they were given,
    the buffers they copied them to and the replies they wrote. */
module Session {
  import opened ByteCodec
  import opened Messages
  import opened SessionBuffer
  import opened EchoModel
  import EchoSystem

  class EchoSession {
    var armed: bool
    var stacks: seq<seq<Activation>>
    var echoed: seq<nat>
    var delivered: seq<Frame>     // the messages handle_read was given
    var buffers: seq<seq<byte>>   // sz_buf of each activation
    var replies: seq<Frame>       // the frames written
    var overran: bool             // an activation has left its buffer

    function Abs(): State
      reads this
    {
      State(|delivered|, armed, stacks, echoed)
    }

    /** One read chain at most, each buffer holds its message, and each reply is the message it is for. */
    ghost predicate Valid()
      reads this
    {
      && Chains(Abs()) <= 1 && EchoSystem.IndicesBelow(stacks, |delivered|)
      && |buffers| == |delivered|
      && (forall k :: 0 <= k < |buffers| && CopyIn(delivered[k].body).Copied? ==>
            buffers[k] == CopyIn(delivered[k].body).buffer)
      && EchoSystem.RepliesMatch(delivered, echoed, replies)
      && (overran <==> !EchoSystem.AllInside(delivered))
    }

    /** start() */
    constructor (workers: nat)
      ensures Abs() == Initial(workers) && Valid() && !overran
    {
      armed, stacks, echoed := true, seq(workers, _ => []), [];
      delivered, buffers, replies, overran := [], [], [], false;
      OneChainAtStart(workers);
    }

    /** The head of handle_read: the message goes through the buffer of its activation. */
    method TakeIn(msg: Message)
      requires WellSized(msg.data)
      modifies this`delivered, this`buffers, this`overran
      ensures delivered == old(delivered) + [FrameOf(msg.data)]
      ensures |buffers| == |old(buffers)| + 1 && old(buffers) <= buffers
      ensures CopyIn(FrameOf(msg.data).body).Copied? ==>
                buffers[|old(buffers)|] == CopyIn(FrameOf(msg.data).body).buffer
      ensures overran <==> old(overran) || !StaysInside(FrameOf(msg.data).body)
    {
      var id := msg.MsgId();
      var f := Frame(id, msg.data[HEADER_LENGTH..]);
      var szBuf, inside := TakeMessage(f.body);
      delivered, buffers, overran := delivered + [f], buffers + [szBuf], overran || !inside;
    }

    /** An idle worker enters handle_read for the next message. */
    method EnterHandleRead(w: nat, msg: Message)
      requires Valid() && Enabled(Abs(), Dispatch(w)) && WellSized(msg.data)
      modifies this
      ensures Valid() && Abs() == Next(old(Abs()), Dispatch(w))
      ensures delivered == old(delivered) + [FrameOf(msg.data)] && replies == old(replies)
      ensures overran <==> old(overran) || !StaysInside(FrameOf(msg.data).body)
    {
      StepKeepsChains(Abs(), Dispatch(w));
      EchoSystem.EchoKeepsIndices(Abs(), Dispatch(w));
      armed := false;
      stacks := stacks[w := [ToArm(|delivered|)]];
      EchoSystem.OneMoreInside(delivered, FrameOf(msg.data));
      TakeIn(msg);
    }

    /** handle_read with an error code: nothing is armed again. */
    method EnterWithError(w: nat)
      requires Valid() && Enabled(Abs(), FailPending(w))
      modifies this`armed
      ensures Valid() && Abs() == Next(old(Abs()), FailPending(w)) && Chains(Abs()) == 0
    {
      StepKeepsChains(Abs(), FailPending(w));
      armed := false;
    }

    /** async_read from handle_read. `ready` is a message that was there at once: its handler begins here. */
    method AsyncRead(w: nat, ready: Message?)
      requires Valid() && AtArm(Abs(), w) && (ready != null ==> WellSized(ready.data))
      modifies this
      ensures Valid() && Abs() == Next(old(Abs()), if ready != null then ArmInline(w) else ArmPending(w))
      ensures delivered == old(delivered) + (if ready != null then [FrameOf(ready.data)] else [])
      ensures replies == old(replies)
      ensures overran <==> old(overran) || (ready != null && !StaysInside(FrameOf(ready.data).body))
    {
      ghost var a := if ready != null then ArmInline(w) else ArmPending(w);
      StepKeepsChains(Abs(), a);
      EchoSystem.EchoKeepsIndices(Abs(), a);
      var st := stacks[w];
      var current := Top(st).index;
      if ready != null {
        stacks := stacks[w := Pop(st) + [ToWrite(current), ToArm(|delivered|)]];
        EchoSystem.OneMoreInside(delivered, FrameOf(ready.data));
        TakeIn(ready);
      } else {
        stacks := stacks[w := Pop(st) + [ToWrite(current)]];
        armed := true;
      }
    }

    /** The message made of sz_buf and the length of message k. */
    method Reply(k: nat) returns (bytes: seq<byte>)
      requires Valid() && !overran && k < |delivered|
      ensures Fits(Frame(0, delivered[k].body)) && bytes == Encode(Frame(0, delivered[k].body))
    {
      assert StaysInside(delivered[k].body);
      EchoIsBody(delivered[k].body);
      var reply := new Message.FromBuffer(buffers[k], |delivered[k].body|);
      EncodingIsBuffer(Frame(0, delivered[k].body));
      bytes := reply.Wire();
    }

    /** async_write from handle_read, which then returns: the bytes written are the message the activation is
        for, with id 0. */
    method AsyncWrite(w: nat) returns (bytes: seq<byte>)
      requires Valid() && Enabled(Abs(), Write(w)) && !overran
      modifies this
      ensures Valid() && Abs() == Next(old(Abs()), Write(w)) && delivered == old(delivered)
      ensures var f := Frame(0, delivered[Top(old(stacks)[w]).index].body);
              Fits(f) && bytes == Encode(f) && replies == old(replies) + [f]
    {
      StepKeepsChains(Abs(), Write(w));
      EchoSystem.EchoKeepsIndices(Abs(), Write(w));
      var st := stacks[w];
      var current := Top(st).index;
      bytes := Reply(current);
      replies := replies + [Frame(0, delivered[current].body)];
      echoed := echoed + [current];
      stacks := stacks[w := Pop(st)];
    }
  }
}
