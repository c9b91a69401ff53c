/** The 101-byte buffer of the session handlers (session.cc, pipe_session.cc): a message is copied into it and
    printed from it as a C string, and nothing checks that it fits. */
module SessionBuffer {
  import opened ByteCodec
  import opened Messages

  /** sz_buf of handle_read */
  const BUFFER_SIZE := 101

  /** What memcpy leaves in the zeroed buffer; an overrun writes past its end. */
  datatype Copy = Overrun | Copied(buffer: seq<byte>)

  function CopyIn(body: seq<byte>): Copy {
    if |body| > BUFFER_SIZE then Overrun else Copied(Overwritten(Zeros(BUFFER_SIZE), 0, body))
  }

  /** Copying and printing touch only the buffer: printing runs up to the first zero. */
  predicate StaysInside(body: seq<byte>) { CopyIn(body).Copied? && 0 in CopyIn(body).buffer }

  /** Exactly the bodies shorter than the buffer do, and those that fill it and bring their own zero. */
  lemma StaysInsideExactly(body: seq<byte>)
    ensures StaysInside(body) <==> |body| < BUFFER_SIZE || (|body| == BUFFER_SIZE && 0 in body)
  {
    if |body| < BUFFER_SIZE {
      assert CopyIn(body).buffer[|body|] == 0;
    } else if |body| == BUFFER_SIZE {
      assert CopyIn(body).buffer == body;
    }
  }

  /** The first body the copy alone runs past the buffer with, and one only the print does. */
  lemma FirstOverruns()
    ensures !StaysInside(Zeros(102)) && CopyIn(Zeros(102)) == Overrun
    ensures !StaysInside(seq(101, _ => 1)) && CopyIn(seq(101, _ => 1)).Copied?
  {
    StaysInsideExactly(Zeros(102));
    StaysInsideExactly(seq(101, _ => 1));
  }

  /** The frame async_write makes of the buffer and the length of the message in it. */
  function EchoOf(body: seq<byte>): (f: Frame)
    requires |body| <= BUFFER_SIZE
    ensures |f.body| == |body| && Fits(f)
  {
    Frame(0, CopyIn(body).buffer[..|body|])
  }

  /** The detour through the buffer returns the body. */
  lemma EchoIsBody(body: seq<byte>)
    requires |body| <= BUFFER_SIZE
    ensures EchoOf(body) == Frame(0, body)
  {
  }

  /** Printing a char array: up to the first zero, or off its end. */
  method Print(buffer: seq<byte>) returns (text: seq<byte>, inside: bool)
    ensures inside <==> 0 in buffer
    ensures text <= buffer && 0 !in text
    ensures inside ==> |text| < |buffer| && buffer[|text|] == 0
  {
    var n := 0;
    while n < |buffer| && buffer[n] != 0
      invariant n <= |buffer| && 0 !in buffer[..n]
    {
      n := n + 1;
    }
    text, inside := buffer[..n], n < |buffer|;
    assert buffer == buffer[..n] + buffer[n..];
  }

  /** The head of handle_read: copy the message and print it. */
  method TakeMessage(body: seq<byte>) returns (szBuf: seq<byte>, inside: bool)
    ensures inside <==> StaysInside(body)
    ensures CopyIn(body).Copied? ==> szBuf == CopyIn(body).buffer
  {
    szBuf := Zeros(BUFFER_SIZE);
    if |body| > |szBuf| {
      return szBuf, false;
    }
    szBuf := Overwritten(szBuf, 0, body);
    var _, printed := Print(szBuf);
    inside := printed;
  }
}
