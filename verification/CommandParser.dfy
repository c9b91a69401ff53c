/** utils::Split and CommandParser, in the form the code has them. */
module CommandParser {
  import opened CommandText

  /** std::string::npos for the 32-bit size_t of the Win32 build; no string is that long. */
  const NPOS: nat := 0xFFFF_FFFF

  /** An unsigned difference. */
  function Minus(a: nat, b: nat): nat { (a - b) % 0x1_0000_0000 }

  method FindFirstOf(s: string, from: nat) returns (index: nat)
    requires from <= |s| < NPOS
    ensures index == if Cut(s[from..]) then from + |Head(s[from..])| else NPOS
  {
    index := from;
    while index < |s| && s[index] != DELIM
      invariant from <= index <= |s|
      invariant forall i :: from <= i < index ==> s[i] != DELIM
    {
      index := index + 1;
    }
    var h := Head(s[from..]);
    assert h == s[from..][..|h|];
    assert s[from..index] == s[from..][..index - from];
    assert |h| == index - from;
    if index == |s| {
      index := NPOS;
    }
  }

  lemma NextPiece(s: string, last: nat, index: nat, pieces: seq<string>)
    requires last <= |s| && Cut(s[last..]) && index == last + |Head(s[last..])|
    ensures index < |s|
    ensures pieces + Pieces(s[last..]) == pieces + [s[last..index]] + Pieces(s[index + 1..])
  {
    var rest := s[last..];
    assert s[last..index] == Head(rest) && rest[|Head(rest)| + 1..] == s[index + 1..];
    Regroup(pieces, [s[last..index]], Pieces(s[index + 1..]));
  }

  /** Without a delimiter the rest is the last piece, and the unsigned test lets it through. */
  lemma LastPiece(s: string, last: nat, pieces: seq<string>)
    requires last <= |s| < NPOS && !Cut(s[last..])
    ensures pieces + Pieces(s[last..]) == pieces + [s[last..]] && Minus(NPOS, last) > 0
  {
  }

  /** The loop pushes a piece for each delimiter; what is left over is pushed too, even when it is empty,
      because npos - last is never 0. */
  method Split(s: string) returns (pieces: seq<string>)
    requires |s| < NPOS
    ensures pieces == Pieces(s)
  {
    pieces := [];
    var last := 0;
    var index := FindFirstOf(s, last);
    assert s[0..] == s;
    while index != NPOS
      invariant last <= |s|
      invariant index == if Cut(s[last..]) then last + |Head(s[last..])| else NPOS
      invariant pieces + Pieces(s[last..]) == Pieces(s)
      decreases |s| - last
    {
      NextPiece(s, last, index, pieces);
      pieces := pieces + [s[last..index]];
      last := index + 1;
      index := FindFirstOf(s, last);
    }
    LastPiece(s, last, pieces);
    if Minus(index, last) > 0 {
      pieces := pieces + [s[last..]];
    }
  }

  lemma HandOver(handedOver: seq<string>, heard: seq<string>, recv: string)
    requires NonEmpty(handedOver) == ActedByChunk(heard)
    ensures NonEmpty(handedOver + Pieces(recv)) == ActedByChunk(heard + [recv])
    ensures handedOver + [] == handedOver && heard + [] == heard
  {
    NonEmptyAppend(handedOver, Pieces(recv));
    ActedByChunkAppend(heard, recv);
  }

  class Parser {
    var buf: string
    var attached: bool            // control_center_ still points to somebody
    var handedOver: seq<string>   // everything OnHandleCommand was called with, in order
    ghost var heard: seq<string>  // the texts received while attached

    /** What the control center has been told to do is what the texts it was there for say, each on its own. */
    ghost predicate Valid()
      reads this
    {
      NonEmpty(handedOver) == ActedByChunk(heard)
    }

    constructor ()
      ensures Valid() && buf == "" && !attached && heard == []
    {
      buf, attached, handedOver, heard := "", false, [], [];
    }

    method RegisterCallBack()
      modifies this`attached
      ensures attached
    {
      attached := true;
    }

    method UnregisterCallBack()
      modifies this`attached
      ensures !attached
    {
      attached := false;
    }

    method DoCallBack(commands: seq<string>)
      modifies this`handedOver
      ensures handedOver == old(handedOver) + if attached then commands else []
    {
      if attached {
        handedOver := handedOver + commands;
      } else {
        assert handedOver + [] == handedOver;
      }
    }

    /** Lines 4 and 7-11: the last piece of the received text replaces a buffer that does not end in a delimiter. */
    method Carry(recv: string, commands: seq<string>)
      requires commands == Pieces(recv)
      modifies this`buf
      ensures buf == NextBuffer(old(buf), recv)
    {
      buf := buf + recv;
      assert buf == "" <==> |buf| == 0;
      assert commands[|commands| - 1] == Last(Pieces(recv));
      if |commands| > 0 && |buf| > 0 && buf[|buf| - 1] != DELIM {
        buf := commands[|commands| - 1];
      }
    }

    /** The received text is split, not the buffer, and the tail is handed over as well as kept. Over all calls
        the commands acted on are those of the texts received while the control center was there; they are the
        commands of these texts put together exactly when no cut runs through a command. */
    method Parse(recv: string)
      requires Valid() && |recv| < NPOS
      modifies this`buf, this`handedOver, this`heard
      ensures Valid() && heard == old(heard) + (if attached then [recv] else [])
      ensures buf == NextBuffer(old(buf), recv)
      ensures handedOver == old(handedOver) + if attached then Pieces(recv) else []
      ensures NonEmpty(handedOver) == Acted(Whole(heard)) <==> CleanCuts(heard)
    {
      var commands := Split(recv);
      Carry(recv, commands);
      HandOver(handedOver, heard, recv);
      DoCallBack(commands);
      if attached {
        heard := heard + [recv];
      }
      ChunkingExactly(heard);
    }
  }
}
