/** The reading half of pipe_channel.cc for the one read chain its session keeps, with the session's handler.
    The header arrives in the channel's own field, the body in a message made for it. Ghost fields hold what the
    peer has sent and where its bytes are, so that each method is a step of PipeWire. */
module PipeChannel {
  import opened ByteCodec
  import opened Messages
  import opened PipeWire
  import opened SessionBuffer

  /** A message made for header `h` after part of its body has been received. */
  lemma ReceivedBody(h: seq<byte>, bytes: seq<byte>)
    requires |h| == HEADER_LENGTH && |bytes| <= LengthOf(h)
    ensures var data := Overwritten(h + Zeros(LengthOf(h)), HEADER_LENGTH, bytes);
            && LengthOf(data) == LengthOf(h) && IdOf(data) == IdOf(h)
            && (bytes == [] ==> data[HEADER_LENGTH..] == Zeros(LengthOf(h)))
            && (|bytes| == LengthOf(h) ==> data[HEADER_LENGTH..] == bytes)
  {
    var data := Overwritten(h + Zeros(LengthOf(h)), HEADER_LENGTH, bytes);
    assert data[..4] == h[..4] && data[4..8] == h[4..8];
  }

  class Channel {
    var header: seq<byte>
    var msg: PipeMessage
    var chain: Chain
    var delivered: seq<Frame>
    var overran: bool  // a message has left the session's buffer; from then on nothing is certain

    // the peer and the pipe
    ghost var sent: seq<Frame>
    ghost var outbox: seq<byte>
    ghost var inbox: seq<byte>

    ghost function Abs(): Wire
      reads this
    {
      Wire(sent, outbox, inbox, header, [chain], delivered)
    }

    ghost predicate Valid()
      reads this, msg
    {
      && |header| == HEADER_LENGTH
      && (chain.HeaderFilled? ==> chain.size <= HEADER_LENGTH)
      && (chain.BodyPending? ==>
            && |chain.header| == HEADER_LENGTH && LengthOf(chain.header) <= MAX_PIPE_BODY
            && msg.data == chain.header + Zeros(LengthOf(chain.header)))
    }

    /** The header_ field of a new channel is not initialised. */
    constructor (garbage: seq<byte>)
      requires |garbage| == HEADER_LENGTH
      ensures Valid() && fresh(msg) && header == garbage && Initial(Abs(), 1) && InSync(Abs()) && !overran
    {
      header, chain, delivered, overran := garbage, HeaderPending, [], false;
      sent, outbox, inbox := [], [], [];
      msg := new PipeMessage.Unallocated();
    }

    /** The kernel completes the header read with the next bytes of the pipe, up to the 8 it was asked for. They
        go to the front of the channel's one header field, and the channel stays synchronised. */
    method FillHeaderField(bytes: seq<byte>)
      requires Valid() && chain.HeaderPending? && |bytes| <= HEADER_LENGTH && bytes <= inbox
      modifies this`header, this`chain, this`inbox
      ensures Valid() && Abs() == Next(old(Abs()), FillHeader(0, |bytes|))
      ensures InSync(old(Abs())) ==> InSync(Abs())
    {
      if InSync(Abs()) {
        FillKeepsSync(Abs(), |bytes|);
      }
      header := Overwritten(header, 0, bytes);
      chain := HeaderFilled(|bytes|);
      inbox := inbox[|bytes|..];
    }

    /** pipe_session::handle_read: an error ends the loop; a message goes through sz_buf, which it leaves exactly
        when StaysInside says so, and the next read is armed. */
    method HandleRead(f: Frame, ec: bool)
      modifies this`chain, this`delivered, this`overran
      ensures chain == if ec then Failed else HeaderPending
      ensures delivered == if ec then old(delivered) else old(delivered) + [f]
      ensures overran <==> old(overran) || (!ec && !StaysInside(f.body))
    {
      if ec {
        chain := Failed;
        return;
      }
      var _, inside := TakeMessage(f.body);
      overran := overran || !inside;
      delivered := delivered + [f];
      chain := HeaderPending;
    }

    /** The read of a header or a body completes with an error code: the session is told and stops reading. */
    method FailRead()
      requires Valid() && (chain.HeaderPending? || chain.BodyPending?)
      modifies this`chain, this`delivered, this`overran
      ensures Valid() && Abs() == Next(old(Abs()), Fail(0)) && overran == old(overran)
      ensures Ended(chain) && delivered == old(delivered)
      ensures InSync(old(Abs())) ==> InSync(Abs())
    {
      HandleRead(Frame(0, []), true);
    }

    method HandleReadHeader()
      requires Valid() && chain.HeaderFilled?
      modifies this`msg, this`chain
      ensures Valid() && (msg == old(msg) || fresh(msg))
      ensures Abs() == Next(old(Abs()), HandleHeader(0))
      ensures InSync(old(Abs())) ==> InSync(Abs())
    {
      if InSync(Abs()) {
        HandleHeaderKeepsSync(Abs());
      }
      if chain.size != HEADER_LENGTH {
        chain := Asserted;
        return;
      }
      PipeSizeExact(Signed(LengthOf(header)));
      msg := new PipeMessage.Unallocated();
      var outcome := msg.MallocWhenRecvdHeader(header);
      chain := if outcome == Allocated then BodyPending(header) else Undefined;
    }

    /** The message after the kernel has put `bytes` into its body part, and its size(). */
    method ReceiveBody(bytes: seq<byte>) returns (f: Frame, size: uint32)
      requires Valid() && chain.BodyPending? && |bytes| <= LengthOf(chain.header)
      modifies msg`data
      ensures size == LengthOf(chain.header) && f.id == IdOf(chain.header)
      ensures bytes == [] ==> f.body == Zeros(size)
      ensures |bytes| == size ==> f.body == bytes
    {
      ReceivedBody(chain.header, bytes);
      msg.Receive(HEADER_LENGTH, bytes);
      var id := msg.Id();
      size := msg.Size();
      SignedBits(id, IdOf(msg.data));
      f := Frame(Bits(id), msg.data[HEADER_LENGTH..]);
    }

    /** The body read completes with the next bytes of the pipe, which the kernel has put into the message. The
        channel stays synchronised unless there are none and the message has a body. */
    method HandleReadBody(bytes: seq<byte>)
      requires Valid() && chain.BodyPending? && |bytes| <= LengthOf(chain.header) && bytes <= inbox
      modifies this`chain, this`delivered, this`inbox, this`overran, msg
      ensures Valid() && Abs() == Next(old(Abs()), CompleteBody(0, |bytes|))
      ensures InSync(old(Abs())) ==> (InSync(Abs()) <==> bytes != [] || LengthOf(old(chain).header) == 0)
      ensures overran <==>
              old(overran) || (|delivered| > |old(delivered)| && !StaysInside(delivered[|old(delivered)|].body))
    {
      if InSync(Abs()) {
        BodyStepExact(Abs(), |bytes|);
      }
      assert inbox[..|bytes|] == bytes;
      inbox := inbox[|bytes|..];
      var f, size := ReceiveBody(bytes);
      if bytes != [] && |bytes| != size {
        chain := Asserted;
        assert delivered + [] == delivered;
        return;
      }
      HandleRead(f, false);
    }
  }
}
