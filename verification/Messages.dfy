/** The three message classes. Each keeps header and body in one vector of bytes. */
module Messages {
  import opened ByteCodec

  /** `vector::resize`: keeps the common prefix and fills with zero. */
  function Resized(data: seq<byte>, n: nat): (r: seq<byte>)
    ensures |r| == n && forall i :: 0 <= i < n ==> r[i] == if i < |data| then data[i] else 0
  {
    if n <= |data| then data[..n] else data + Zeros(n - |data|)
  }

  /** Writing `bytes` over `data` from position `at`. */
  function Overwritten(data: seq<byte>, at: nat, bytes: seq<byte>): (r: seq<byte>)
    requires at + |bytes| <= |data|
    ensures |r| == |data|
    ensures forall i :: 0 <= i < |data| ==> r[i] == if at <= i < at + |bytes| then bytes[i - at] else data[i]
  {
    data[..at] + bytes + data[at + |bytes|..]
  }

  /** KMSGHEADER_LENGTH + len, as the 32-bit sum the code computes. */
  function FrameSize(length: uint32): (n: uint32)
    ensures (n - length - HEADER_LENGTH) % 0x1_0000_0000 == 0
  {
    (HEADER_LENGTH + length) % 0x1_0000_0000
  }

  /** The sum is the frame's length exactly up to MAX_BODY; beyond that it does not even cover the header. */
  lemma FrameSizeExact(length: uint32)
    ensures FrameSize(length) == HEADER_LENGTH + length <==> length <= MAX_BODY
    ensures FrameSize(length) >= HEADER_LENGTH <==> length <= MAX_BODY
  {
  }

  /** The buffer is a frame: as long as its own header says, in 32 bits. */
  predicate WellSized(data: seq<byte>) {
    |data| >= HEADER_LENGTH && |data| == FrameSize(LengthOf(data))
  }

  function FrameOf(data: seq<byte>): (f: Frame)
    requires WellSized(data)
    ensures Fits(f)
  {
    Frame(IdOf(data), data[HEADER_LENGTH..])
  }

  /** A well-sized buffer is the encoding of the frame it holds. */
  lemma BufferIsEncoding(data: seq<byte>)
    requires WellSized(data)
    ensures Encode(FrameOf(data)) == data
  {
    var h, body := data[..HEADER_LENGTH], data[HEADER_LENGTH..];
    assert h[..4] == data[..4] && h[4..8] == data[4..8];
    FrameSizeExact(LengthOf(data));
    assert |body| == LengthOf(h);
    HeaderOfFields(h);
    assert data == h + body;
  }

  lemma EncodingIsBuffer(f: Frame)
    requires Fits(f)
    ensures WellSized(Encode(f)) && FrameOf(Encode(f)) == f
  {
    HeaderFields(|f.body|, f.id, f.body);
  }

  /** network::message */
  class Message {
    var data: seq<byte>
    var overrun: bool  // something was written past the end of the vector

    constructor Empty()
      ensures data == Zeros(HEADER_LENGTH) && WellSized(data) && FrameOf(data) == Frame(0, []) && !overrun
    {
      data, overrun := Zeros(HEADER_LENGTH), false;
      new;
      assert data[..4] == Zeros(4) && data[4..8] == Zeros(4);
    }

    /** message(buf, len): the vector gets the wrapped size, then the header and `len` bytes are written. They
        stay inside exactly up to MAX_BODY. */
    constructor FromBuffer(buf: seq<byte>, len: uint32)
      requires len <= |buf|
      ensures |data| == FrameSize(len)
      ensures overrun <==> len > MAX_BODY
      ensures !overrun ==> WellSized(data) && data == Encode(Frame(0, buf[..len]))
      ensures !overrun ==> LittleEndian(data, 0, len) && LittleEndian(data, 4, 0) && data[HEADER_LENGTH..] == buf[..len]
    {
      FrameSizeExact(len);
      var d := Zeros(FrameSize(len));
      if HEADER_LENGTH + len <= |d| {
        d := Overwritten(d, 0, EncodeU32(len));
        d := Overwritten(d, 4, EncodeU32(0));
        d := Overwritten(d, HEADER_LENGTH, buf[..len]);
        assert d == Encode(Frame(0, buf[..len]));
        EncodingIsBuffer(Frame(0, buf[..len]));
        EncodeLayout(Frame(0, buf[..len]));
      }
      data, overrun := d, HEADER_LENGTH + len > |d|;
    }

    method DataSize() returns (n: uint32)
      requires |data| >= HEADER_LENGTH
      ensures n == LengthOf(data)
    {
      n := DecodeU32(data[..4]);
    }

    method Size() returns (n: uint32)
      requires |data| >= HEADER_LENGTH
      ensures n == FrameSize(LengthOf(data))
      ensures WellSized(data) ==> n == |data|
    {
      var len := DataSize();
      n := (HEADER_LENGTH + len) % 0x1_0000_0000;
    }

    method MsgId() returns (n: uint32)
      requires |data| >= HEADER_LENGTH
      ensures n == IdOf(data)
    {
      n := DecodeU32(data[4..8]);
    }

    /** The kernel stores received bytes in the buffer. */
    method Receive(at: nat, bytes: seq<byte>)
      requires at + |bytes| <= |data|
      modifies this`data
      ensures data == Overwritten(old(data), at, bytes)
    {
      data := Overwritten(data, at, bytes);
    }

    /** After a header has been received into an 8-byte message: resizes to the announced size, wrapped, and
        writes the header back. The header stays inside exactly when the size did not wrap, and there is then
        room for the body. */
    method AllocWithHeader()
      requires |data| == HEADER_LENGTH
      modifies this
      ensures |data| == FrameSize(LengthOf(old(data)))
      ensures overrun <==> old(overrun) || LengthOf(old(data)) > MAX_BODY
      ensures LengthOf(old(data)) <= MAX_BODY ==> WellSized(data) && data == old(data) + Zeros(LengthOf(old(data)))
    {
      FrameSizeExact(LengthOf(data));
      var header := data[..HEADER_LENGTH];
      var n := Size();
      data := Resized(data, n);
      if HEADER_LENGTH <= n {
        data := Overwritten(data, 0, header);
        assert data[..4] == header[..4];
      } else {
        overrun := true;
      }
    }

    /** The bytes async_write hands to the socket: size() bytes from buffer(). */
    method Wire() returns (bytes: seq<byte>)
      requires WellSized(data)
      ensures bytes == Encode(FrameOf(data))
      ensures LittleEndian(bytes, 0, |FrameOf(data).body|) && LittleEndian(bytes, 4, FrameOf(data).id)
    {
      BufferIsEncoding(data);
      EncodeLayout(FrameOf(data));
      var n := Size();
      bytes := data[..n];
    }
  }

  /** The longest body whose length plus 8 is an int. */
  const MAX_PIPE_BODY := 0x7FFF_FFFF - HEADER_LENGTH

  /** kHEADER_LENGTH + h.m_len, as the 32-bit sum of two ints. */
  function IntSum(length: int32): (n: int32)
    ensures (n - length - HEADER_LENGTH) % 0x1_0000_0000 == 0
  {
    Signed((HEADER_LENGTH + Bits(length)) % 0x1_0000_0000)
  }

  /** How a resize to header plus a signed length ends. */
  datatype Outcome =
    | Allocated    // room for the header and the body
    | OutOfBounds  // the vector does not cover the header, which is then written past its end
    | Refused      // a negative size is 2^31 bytes or more to the vector, and it throws

  function Resizing(length: int32): Outcome {
    if IntSum(length) < 0 then Refused else if IntSum(length) < HEADER_LENGTH then OutOfBounds else Allocated
  }

  /** Which lengths end how. */
  lemma PipeSizeExact(length: int32)
    ensures Resizing(length) == Allocated <==> 0 <= length <= MAX_PIPE_BODY
    ensures Resizing(length) == OutOfBounds <==> -HEADER_LENGTH <= length < 0
    ensures Resizing(length) != Refused ==> IntSum(length) == HEADER_LENGTH + length
  {
  }

  /** Signed fields survive the trip through their bits. */
  lemma SignedBits(v: int32, n: uint32)
    ensures Signed(Bits(v)) == v && Bits(Signed(n)) == n
  {
  }

  /** named_pipe::pipe_message */
  class PipeMessage {
    var data: seq<byte>
    var overrun: bool  // something was written past the end of the vector

    /** `given`: _data is not null. The length is a size_t, which the size wraps and the header truncates. */
    constructor (id: int32, body: seq<byte>, given: bool, len: uint32)
      requires given ==> len <= |body|
      ensures |data| == FrameSize(len)
      ensures overrun <==> len > MAX_BODY
      ensures !overrun ==>
                WellSized(data) && data == Encode(Frame(Bits(id), if given then body[..len] else Zeros(len)))
      ensures !overrun ==> LittleEndian(data, 0, len) && LittleEndian(data, 4, Bits(id))
    {
      FrameSizeExact(len);
      var d := Zeros(FrameSize(len));
      if HEADER_LENGTH + len <= |d| {
        d := Overwritten(d, 0, EncodeU32(Bits(Signed(len))));
        d := Overwritten(d, 4, EncodeU32(Bits(id)));
        SignedBits(id, len);
        assert d == Encode(Frame(Bits(id), Zeros(len)));
        if given && len > 0 {
          d := Overwritten(d, HEADER_LENGTH, body[..len]);
        }
        assert d == Encode(Frame(Bits(id), if given then body[..len] else Zeros(len)));
        EncodingIsBuffer(Frame(Bits(id), if given then body[..len] else Zeros(len)));
        EncodeLayout(Frame(Bits(id), if given then body[..len] else Zeros(len)));
      }
      data, overrun := d, HEADER_LENGTH + len > |d|;
    }

    constructor Unallocated()
      ensures data == [] && !overrun
    {
      data, overrun := [], false;
    }

    /** size(): the header's length as a size_t, or 0 when nothing is allocated yet. */
    method Size() returns (n: uint32)
      requires data == [] || |data| >= HEADER_LENGTH
      ensures n == if data == [] then 0 else LengthOf(data)
    {
      if data == [] {
        return 0;
      }
      n := DecodeU32(data[..4]);
    }

    method Id() returns (n: int32)
      requires data == [] || |data| >= HEADER_LENGTH
      ensures n == if data == [] then 0 else Signed(IdOf(data))
    {
      if data == [] {
        return 0;
      }
      n := Signed(DecodeU32(data[4..8]));
    }

    method Receive(at: nat, bytes: seq<byte>)
      requires at + |bytes| <= |data|
      modifies this`data
      ensures data == Overwritten(old(data), at, bytes)
    {
      data := Overwritten(data, at, bytes);
    }

    /** buffer() and buffer_size(): what async_write hands to the pipe. */
    method Wire() returns (bytes: seq<byte>)
      requires WellSized(data)
      ensures bytes == Encode(FrameOf(data))
      ensures LittleEndian(bytes, 0, |FrameOf(data).body|) && LittleEndian(bytes, 4, FrameOf(data).id)
    {
      BufferIsEncoding(data);
      EncodeLayout(FrameOf(data));
      var n := Size();
      bytes := data[..(n + HEADER_LENGTH) % 0x1_0000_0000];
    }

    /** Resizes to the announced length plus 8, as an int, and writes the header. */
    method MallocWhenRecvdHeader(h: seq<byte>) returns (o: Outcome)
      requires |h| == HEADER_LENGTH && data == []
      modifies this
      ensures o == Resizing(Signed(LengthOf(h)))
      ensures o == Allocated ==> WellSized(data) && data == h + Zeros(LengthOf(h))
      ensures overrun <==> old(overrun) || -HEADER_LENGTH <= Signed(LengthOf(h)) < 0
      ensures o == Refused ==> data == old(data)
    {
      var length := Signed(DecodeU32(h[..4]));
      PipeSizeExact(length);
      var size := IntSum(length);
      if size < 0 {
        return Refused;
      }
      data := Resized(data, size);
      if size < HEADER_LENGTH {
        overrun := true;
        return OutOfBounds;
      }
      data := Overwritten(data, 0, h);
      assert data[..4] == h[..4];
      return Allocated;
    }
  }

  /** The PC-side message (PCControl/message.hpp): id first, then length, both signed. */
  class PcMessage {
    var buf: seq<byte>
    var outcome: Outcome  // of the last allocation

    ghost predicate Valid()
      reads this
    {
      |buf| >= HEADER_LENGTH
    }

    function MsgId(): int32
      reads this
      requires Valid()
    {
      Signed(DecodeU32(buf[..4]))
    }

    function DataLen(): int32
      reads this
      requires Valid()
    {
      Signed(DecodeU32(buf[4..8]))
    }

    constructor ()
      ensures Valid() && MsgId() == -1 && DataLen() == 0 && |buf| == HEADER_LENGTH
      ensures LittleEndian(buf, 0, 0xFFFF_FFFF) && LittleEndian(buf, 4, 0)
    {
      buf, outcome := Zeros(HEADER_LENGTH), Allocated;
      new;
      SetMsgId(-1);
      SetDataLen(0);
    }

    /** message(msg_id, buf, len): `outcome` says whether the vector took header and body. */
    constructor FromBuffer(id: int32, body: seq<byte>, len: int32)
      requires len <= |body|
      ensures outcome == Resizing(len)
      ensures outcome == Allocated ==>
                Valid() && MsgId() == id && DataLen() == len && buf[HEADER_LENGTH..] == body[..len]
      ensures outcome == Allocated ==> LittleEndian(buf, 0, Bits(id)) && LittleEndian(buf, 4, Bits(len))
      ensures outcome == OutOfBounds ==> |buf| == HEADER_LENGTH + len
    {
      PipeSizeExact(len);
      var size := IntSum(len);
      outcome := if size < 0 then Refused else if size < HEADER_LENGTH then OutOfBounds else Allocated;
      buf := if size < 0 then [] else Zeros(size);
      new;
      if outcome == Allocated {
        SetMsgId(id);
        SetDataLen(len);
        ghost var before := buf;
        buf := Overwritten(buf, HEADER_LENGTH, body[..len]);
        assert buf[..4] == before[..4] && buf[4..8] == before[4..8];
      }
    }

    /** Writing one header field leaves the other and the body alone. */
    method SetDataLen(len: int32)
      requires Valid()
      modifies this`buf
      ensures Valid() && DataLen() == len && MsgId() == old(MsgId())
      ensures LittleEndian(buf, 4, Bits(len)) && buf[..4] == old(buf)[..4]
      ensures |buf| == |old(buf)| && buf[HEADER_LENGTH..] == old(buf)[HEADER_LENGTH..]
    {
      DecodeEncodeU32(Bits(len));
      ghost var was := buf;
      buf := Overwritten(buf, 4, EncodeU32(Bits(len)));
      assert buf[4..8] == EncodeU32(Bits(len)) && buf[..4] == was[..4];
      FieldAt(buf, 4, Bits(len));
      assert buf[HEADER_LENGTH..] == was[HEADER_LENGTH..];
    }

    method SetMsgId(id: int32)
      requires Valid()
      modifies this`buf
      ensures Valid() && MsgId() == id && DataLen() == old(DataLen())
      ensures LittleEndian(buf, 0, Bits(id)) && buf[4..8] == old(buf)[4..8]
      ensures |buf| == |old(buf)| && buf[HEADER_LENGTH..] == old(buf)[HEADER_LENGTH..]
    {
      DecodeEncodeU32(Bits(id));
      ghost var was := buf;
      buf := Overwritten(buf, 0, EncodeU32(Bits(id)));
      assert buf[0..4] == EncodeU32(Bits(id)) && buf[4..8] == was[4..8];
      FieldAt(buf, 0, Bits(id));
      assert buf[HEADER_LENGTH..] == was[HEADER_LENGTH..];
    }

    /** Resizing keeps the id, sets the length, and keeps as much of the body as fits, for the lengths the
        vector takes. */
    method Alloc(len: int32)
      requires Valid()
      modifies this
      ensures outcome == Resizing(len)
      ensures outcome == Allocated ==> Valid() && MsgId() == old(MsgId()) && DataLen() == len
      ensures outcome == Allocated ==>
                && |buf| == HEADER_LENGTH + len
                && LittleEndian(buf, 0, Bits(old(MsgId()))) && LittleEndian(buf, 4, Bits(len))
      ensures outcome == Allocated ==>
                forall i :: HEADER_LENGTH <= i < |buf| ==> buf[i] == if i < |old(buf)| then old(buf)[i] else 0
      ensures outcome == OutOfBounds ==> |buf| == HEADER_LENGTH + len
      ensures outcome == Refused ==> buf == old(buf)
    {
      PipeSizeExact(len);
      var id, size := MsgId(), IntSum(len);
      if size < 0 {
        outcome := Refused;
        return;
      }
      buf := Resized(buf, size);
      if size < HEADER_LENGTH {
        outcome := OutOfBounds;
        return;
      }
      outcome := Allocated;
      ghost var resized := buf;
      SetDataLen(len);
      SetMsgId(id);
      assert forall i :: HEADER_LENGTH <= i < |buf| ==> buf[i] == buf[HEADER_LENGTH..][i - HEADER_LENGTH] == resized[i];
    }
  }
}
