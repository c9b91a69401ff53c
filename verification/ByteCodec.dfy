/** Little-endian 32-bit fields, and frames of an 8-byte header followed by a body. */
module ByteCodec {
  type byte = x: int | 0 <= x < 256
  type uint32 = x: int | 0 <= x < 0x1_0000_0000
  type int32 = x: int | -0x8000_0000 <= x < 0x8000_0000

  const HEADER_LENGTH := 8

  /** The longest body whose frame length still fits in 32 bits. */
  const MAX_BODY := 0xFFFF_FFFF - HEADER_LENGTH

  function EncodeU32(n: uint32): (b: seq<byte>)
    ensures |b| == 4
  {
    var m1: int := n / 256;
    var m2: int := m1 / 256;
    [n % 256, m1 % 256, m2 % 256, m2 / 256]
  }

  function DecodeU32(b: seq<byte>): uint32
    requires |b| == 4
  {
    b[0] as int + 256 * b[1] as int + 65536 * b[2] as int + 16777216 * b[3] as int
  }

  /** The i-th digit of n to the base 256, from the lowest. */
  function Digit(n: nat, i: nat): byte {
    if i == 0 then n % 256 else Digit(n / 256, i - 1)
  }

  /** The four bytes from `at` are the digits of n, lowest first: a 32-bit field as the Win32 build stores it. */
  predicate LittleEndian(b: seq<byte>, at: nat, n: uint32) {
    at + 4 <= |b| && forall i :: 0 <= i < 4 ==> b[at + i] == Digit(n, i)
  }

  lemma EncodeIsLittleEndian(n: uint32)
    ensures LittleEndian(EncodeU32(n), 0, n)
  {
    var m1: int := n / 256;
    var m2: int := m1 / 256;
    assert Digit(n, 1) == Digit(m1, 0) == m1 % 256;
    assert Digit(n, 2) == Digit(m1, 1) == Digit(m2, 0) == m2 % 256;
    assert Digit(n, 3) == Digit(m1, 2) == Digit(m2, 1) == Digit(m2 / 256, 0) == m2 / 256;
  }

  lemma DecodeEncodeU32(n: uint32)
    ensures DecodeU32(EncodeU32(n)) == n
  {
  }

  lemma LowByte(b: byte, m: nat)
    ensures (b + 256 * m) / 256 == m && (b + 256 * m) % 256 == b
  {
  }

  lemma EncodeDecodeU32(b: seq<byte>)
    requires |b| == 4
    ensures EncodeU32(DecodeU32(b)) == b
  {
    var m2: int := b[2] as int + 256 * b[3] as int;
    var m1: int := b[1] as int + 256 * m2;
    LowByte(b[0], m1);
    LowByte(b[1], m2);
    LowByte(b[2], b[3]);
    assert DecodeU32(b) == b[0] as int + 256 * m1;
  }

  /** Two's complement: a signed field and its 32 bits are equal modulo 2^32. */
  function Bits(v: int32): (n: uint32)
    ensures (n - v) % 0x1_0000_0000 == 0
  {
    if v < 0 then v + 0x1_0000_0000 else v
  }

  function Signed(n: uint32): (v: int32)
    ensures (n - v) % 0x1_0000_0000 == 0
  {
    if n < 0x8000_0000 then n else n - 0x1_0000_0000
  }

  function Zeros(n: nat): (z: seq<byte>)
    ensures |z| == n && forall i :: 0 <= i < n ==> z[i] == 0
  {
    seq(n, _ => 0)
  }

  function Header(length: uint32, id: uint32): (h: seq<byte>)
    ensures |h| == HEADER_LENGTH
  {
    EncodeU32(length) + EncodeU32(id)
  }

  function LengthOf(h: seq<byte>): uint32
    requires |h| >= HEADER_LENGTH
  {
    DecodeU32(h[..4])
  }

  function IdOf(h: seq<byte>): uint32
    requires |h| >= HEADER_LENGTH
  {
    DecodeU32(h[4..8])
  }

  lemma HeaderFields(length: uint32, id: uint32, tail: seq<byte>)
    ensures LengthOf(Header(length, id) + tail) == length && IdOf(Header(length, id) + tail) == id
  {
    var h := Header(length, id) + tail;
    assert h[..4] == EncodeU32(length) && h[4..8] == EncodeU32(id);
    DecodeEncodeU32(length);
    DecodeEncodeU32(id);
  }

  lemma HeaderOfFields(h: seq<byte>)
    requires |h| == HEADER_LENGTH
    ensures h == Header(LengthOf(h), IdOf(h))
  {
    EncodeDecodeU32(h[..4]);
    EncodeDecodeU32(h[4..8]);
    assert h == h[..4] + h[4..8];
  }

  datatype Frame = Frame(id: uint32, body: seq<byte>)

  predicate Fits(f: Frame) { |f.body| <= MAX_BODY }

  predicate AllFit(fs: seq<Frame>) { forall i :: 0 <= i < |fs| ==> Fits(fs[i]) }

  function Encode(f: Frame): seq<byte>
    requires Fits(f)
  {
    Header(|f.body|, f.id) + f.body
  }

  lemma FieldAt(b: seq<byte>, at: nat, n: uint32)
    requires at + 4 <= |b| && b[at..at + 4] == EncodeU32(n)
    ensures LittleEndian(b, at, n)
  {
    EncodeIsLittleEndian(n);
    forall i | 0 <= i < 4
      ensures b[at + i] == Digit(n, i)
    {
      assert b[at + i] == b[at..at + 4][i] == EncodeU32(n)[0 + i];
    }
  }

  /** A frame on the wire: four bytes of length, four of id, each lowest first, then the body. */
  lemma EncodeLayout(f: Frame)
    requires Fits(f)
    ensures LittleEndian(Encode(f), 0, |f.body|) && LittleEndian(Encode(f), 4, f.id)
    ensures |Encode(f)| == HEADER_LENGTH + |f.body| && Encode(f)[HEADER_LENGTH..] == f.body
  {
    FieldAt(Encode(f), 0, |f.body|);
    FieldAt(Encode(f), 4, f.id);
  }

  function EncodeAll(fs: seq<Frame>): seq<byte>
    requires AllFit(fs)
  {
    if fs == [] then [] else Encode(fs[0]) + EncodeAll(fs[1..])
  }

  lemma {:induction false} EncodeAllAppend(fs: seq<Frame>, gs: seq<Frame>)
    requires AllFit(fs) && AllFit(gs)
    ensures AllFit(fs + gs) && EncodeAll(fs + gs) == EncodeAll(fs) + EncodeAll(gs)
  {
    if fs == [] {
      assert fs + gs == gs;
    } else {
      assert (fs + gs)[1..] == fs[1..] + gs && (fs + gs)[0] == fs[0];
      EncodeAllAppend(fs[1..], gs);
      var a, b, c := Encode(fs[0]), EncodeAll(fs[1..]), EncodeAll(gs);
      assert a + b + c == a + (b + c);
    }
  }

  /** No frame is a proper prefix of another: a byte string starts with at most one frame. */
  lemma EncodePrefixFree(f: Frame, g: Frame, x: seq<byte>, y: seq<byte>)
    requires Fits(f) && Fits(g) && Encode(f) + x == Encode(g) + y
    ensures f == g && x == y
  {
    HeaderFields(|f.body|, f.id, f.body + x);
    HeaderFields(|g.body|, g.id, g.body + y);
    var s := Encode(f) + x;
    assert s == Header(|f.body|, f.id) + (f.body + x);
    assert s == Header(|g.body|, g.id) + (g.body + y);
    assert f.body == s[8..8 + |f.body|] && g.body == s[8..8 + |g.body|];
    assert x == s[8 + |f.body|..] && y == s[8 + |g.body|..];
  }

  /** Bytes determine frames: a byte stream that begins with the encoding of `fs` and is the encoding of
      `gs` carries `fs` as the first frames of `gs`. */
  lemma {:induction false} EncodeAllPrefix(fs: seq<Frame>, gs: seq<Frame>, rest: seq<byte>)
    requires AllFit(fs) && AllFit(gs) && EncodeAll(fs) + rest == EncodeAll(gs)
    ensures fs <= gs && rest == EncodeAll(gs[|fs|..])
  {
    if fs == [] {
      assert gs[0..] == gs && EncodeAll(fs) + rest == rest;
    } else {
      assert |Encode(fs[0])| >= HEADER_LENGTH && gs != [];
      var x := EncodeAll(fs[1..]) + rest;
      assert EncodeAll(fs) + rest == Encode(fs[0]) + x;
      EncodePrefixFree(fs[0], gs[0], x, EncodeAll(gs[1..]));
      EncodeAllPrefix(fs[1..], gs[1..], rest);
      assert gs[|fs|..] == gs[1..][|fs[1..]|..];
      assert fs == [fs[0]] + fs[1..] && gs == [gs[0]] + gs[1..];
    }
  }

  lemma EncodeAllInjective(fs: seq<Frame>, gs: seq<Frame>)
    requires AllFit(fs) && AllFit(gs)
    ensures EncodeAll(fs) == EncodeAll(gs) <==> fs == gs
  {
    if EncodeAll(fs) == EncodeAll(gs) {
      assert EncodeAll(fs) + [] == EncodeAll(gs);
      EncodeAllPrefix(fs, gs, []);
      assert EncodeAll(gs[|fs|..]) == [];
      assert |fs| == |gs|;
    }
  }

  /** The first frame, from the bytes of its header and what follows. */
  lemma FirstHeader(fs: seq<Frame>, h: seq<byte>, tail: seq<byte>)
    requires AllFit(fs) && |h| == HEADER_LENGTH && h + tail == EncodeAll(fs)
    ensures fs != [] && LengthOf(h) == |fs[0].body| && IdOf(h) == fs[0].id
    ensures tail == fs[0].body + EncodeAll(fs[1..])
  {
    var f := fs[0];
    var g, rest := Header(|f.body|, f.id), f.body + EncodeAll(fs[1..]);
    assert h + tail == g + rest by {
      assert EncodeAll(fs) == g + f.body + EncodeAll(fs[1..]);
    }
    assert h == (h + tail)[..8] == (g + rest)[..8] == g;
    assert tail == (h + tail)[8..] == (g + rest)[8..] == rest;
    HeaderFields(|f.body|, f.id, []);
    assert g + [] == g;
  }
}
