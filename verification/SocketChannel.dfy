/** The reading half of socket_channel.cc, with the head and the re-arm of the session's handler: the kernel
    fills the message buffer in place, and each handler is proved to be the reader step of SocketWire. */
module SocketChannel {
  import opened ByteCodec
  import opened Messages
  import opened SessionBuffer
  import opened SocketWire

  class Channel {
    var msg: Message
    var phase: Phase
    var delivered: seq<Frame>
    var overran: bool  // a message has left the session's buffer; from then on nothing is certain

    function Abs(): Reader
      reads this
    {
      Reader(phase, delivered)
    }

    /** The buffer that belongs to the pending read: an empty message, or a header with room for its body. */
    ghost predicate Valid()
      reads this, msg
    {
      match phase
      case AwaitHeader => msg.data == Zeros(HEADER_LENGTH) && !msg.overrun
      case AwaitBody(h) =>
        |h| == HEADER_LENGTH && LengthOf(h) <= MAX_BODY && msg.data == h + Zeros(LengthOf(h))
      case _ => true
    }

    constructor ()
      ensures Valid() && fresh(msg) && Abs() == INITIAL.reader && !overran
    {
      msg := new Message.Empty();
      phase, delivered, overran := AwaitHeader, [], false;
    }

    /** A new message; its 8 bytes are what the next read fills. */
    method AsyncRead()
      modifies this`msg, this`phase
      ensures Valid() && fresh(msg) && Abs() == old(Abs()).(phase := AwaitHeader)
    {
      msg := new Message.Empty();
      phase := AwaitHeader;
    }

    /** session::handle_read up to the re-arm: an error ends the loop; a message goes through sz_buf, which it
        leaves exactly when StaysInside says so, and the next read is armed on a new message. */
    method HandleRead(f: Frame, ec: bool)
      modifies this
      ensures Valid()
      ensures !ec ==> fresh(msg) && Abs() == Reader(AwaitHeader, old(delivered) + [f])
      ensures ec ==> msg == old(msg) && Abs() == old(Abs()).(phase := Failed)
      ensures overran <==> old(overran) || (!ec && !StaysInside(f.body))
    {
      if ec {
        phase := Failed;
        return;
      }
      var _, inside := TakeMessage(f.body);
      overran := overran || !inside;
      delivered := delivered + [f];
      AsyncRead();
    }

    /** The kernel has put `bytes` into the header buffer and the completion carries `ec`. */
    method HandleReadHeader(ec: bool, bytes: seq<byte>)
      requires Valid() && phase.AwaitHeader? && |bytes| <= HEADER_LENGTH
      modifies this, msg
      ensures Valid()
      ensures Abs() == if ec then old(Abs()).(phase := Failed) else HeaderDone(old(Abs()), bytes)
      ensures ec ==> forall w: Wire | w.reader == old(Abs()) :: Enabled(w, Fail) && Next(w, Fail).reader == Abs()
      ensures overran == old(overran)
    {
      StaysInsideExactly([]);
      msg.Receive(0, bytes);
      assert msg.data == HeaderBuffer(bytes);
      if ec {
        HandleRead(Frame(0, []), true);
        return;
      }
      var dataSize := msg.DataSize();
      FrameSizeExact(dataSize);
      if dataSize > 0 {
        if |bytes| != HEADER_LENGTH {
          phase := Asserted;
        } else {
          var header := msg.data;
          msg.AllocWithHeader();
          phase := if msg.overrun then Undefined else AwaitBody(header);
        }
      } else {
        HandleRead(Frame(0, []), false);
      }
    }

    /** The kernel has put `bytes` into the body part of the message. */
    method HandleReadBody(ec: bool, bytes: seq<byte>)
      requires Valid() && phase.AwaitBody? && |bytes| <= LengthOf(phase.header)
      modifies this, msg
      ensures Valid()
      ensures Abs() == if ec then old(Abs()).(phase := Failed) else BodyDone(old(Abs()), bytes)
      ensures ec ==> forall w: Wire | w.reader == old(Abs()) :: Enabled(w, Fail) && Next(w, Fail).reader == Abs()
      ensures overran <==> old(overran) || (delivered != old(delivered) && !StaysInside(bytes))
    {
      ghost var h := phase.header;
      msg.Receive(HEADER_LENGTH, bytes);
      assert msg.data[..4] == h[..4] && msg.data[4..8] == h[4..8];
      if ec {
        HandleRead(Frame(0, []), true);
        return;
      }
      var dataSize := msg.DataSize();
      if |bytes| != dataSize {
        phase := Asserted;
        return;
      }
      var id := msg.MsgId();
      assert msg.data[HEADER_LENGTH..] == bytes;
      HandleRead(Frame(id, msg.data[HEADER_LENGTH..]), false);
    }
  }
}
