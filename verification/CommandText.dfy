/** Splitting a command stream at ';' (utils::Split) and what that means for a stream that arrives in chunks. */
module CommandText {
  const DELIM := ';'

  /** The text up to the first delimiter; the whole text if there is none. */
  function Head(s: string): (h: string)
    ensures h <= s && DELIM !in h && (|h| == |s| || s[|h|] == DELIM)
  {
    if s == "" || s[0] == DELIM then ""
    else [s[0]] + Head(s[1..])
  }

  predicate Cut(s: string) { |Head(s)| < |s| }

  /** The pieces between delimiters, first to last; a text with n delimiters has n + 1 pieces. */
  function Pieces(s: string): (ps: seq<string>)
    ensures |ps| > 0
    decreases |s|
  {
    if Cut(s) then [Head(s)] + Pieces(s[|Head(s)| + 1..]) else [s]
  }

  /** The reference: pieces put back together with one delimiter between neighbours. */
  function Joined(ps: seq<string>): string
    requires |ps| > 0
  {
    if |ps| == 1 then ps[0] else ps[0] + [DELIM] + Joined(ps[1..])
  }

  predicate Plain(ps: seq<string>) { forall i :: 0 <= i < |ps| ==> DELIM !in ps[i] }

  lemma HeadOfPlain(h: string, tail: string)
    requires DELIM !in h
    ensures Head(h + [DELIM] + tail) == h
  {
    var s := h + [DELIM] + tail;
    assert s[|h|] == DELIM && h == s[..|h|];
    assert forall i :: 0 <= i < |h| ==> s[i] == h[i];
    assert |Head(s)| == |h|;
  }

  lemma PiecesOfJoin(h: string, tail: string)
    requires DELIM !in h
    ensures Pieces(h + [DELIM] + tail) == [h] + Pieces(tail)
  {
    var s := h + [DELIM] + tail;
    HeadOfPlain(h, tail);
    assert s[|h| + 1..] == tail;
  }

  lemma PiecesOfPlain(h: string)
    requires DELIM !in h
    ensures !Cut(h) && Pieces(h) == [h]
  {
    assert |Head(h)| == |h|;
  }

  /** Commands are separated by semicolons, and one more piece follows the last. */
  lemma SemicolonSeparates(a: string, b: string)
    requires ';' !in a && ';' !in b
    ensures Pieces(a + ";" + b) == [a, b]
  {
    PiecesOfJoin(a, b);
    PiecesOfPlain(b);
    assert a + ";" + b == a + [DELIM] + b;
  }

  /** Split and join are inverse: Pieces is the one way to write a text as delimiter-free pieces. */
  lemma {:induction false} SplitJoinInverse(s: string)
    ensures Plain(Pieces(s)) && Joined(Pieces(s)) == s
    decreases |s|
  {
    if Cut(s) {
      var tail := s[|Head(s)| + 1..];
      SplitJoinInverse(tail);
      assert Pieces(s)[1..] == Pieces(tail);
      assert s == Head(s) + [DELIM] + tail;
      forall i | 0 <= i < |Pieces(s)|
        ensures DELIM !in Pieces(s)[i]
      {
        if i > 0 {
          assert Pieces(s)[i] == Pieces(tail)[i - 1];
        }
      }
    } else {
      assert Head(s) == s;
    }
  }

  lemma {:induction false} JoinSplitInverse(ps: seq<string>)
    requires |ps| > 0 && Plain(ps)
    ensures Pieces(Joined(ps)) == ps
  {
    if |ps| == 1 {
      PiecesOfPlain(ps[0]);
      assert ps == [ps[0]];
    } else {
      PiecesOfJoin(ps[0], Joined(ps[1..]));
      JoinSplitInverse(ps[1..]);
      assert ps == [ps[0]] + ps[1..];
    }
  }

  function Last(ps: seq<string>): string
    requires |ps| > 0
  {
    ps[|ps| - 1]
  }

  function Front(ps: seq<string>): seq<string>
    requires |ps| > 0
  {
    ps[..|ps| - 1]
  }

  /** The last piece of one list runs on into the first of the other. */
  function Glued(ps: seq<string>, qs: seq<string>): seq<string>
    requires |ps| > 0 && |qs| > 0
  {
    Front(ps) + [Last(ps) + qs[0]] + qs[1..]
  }

  lemma GluedCons(h: string, ps: seq<string>, qs: seq<string>)
    requires |ps| > 0 && |qs| > 0
    ensures Glued([h] + ps, qs) == [h] + Glued(ps, qs)
  {
  }

  lemma PlainPrefix(s: string, t: string)
    requires !Cut(s)
    ensures Pieces(s + t) == [s + Pieces(t)[0]] + Pieces(t)[1..]
  {
    assert Head(s) == s;
    if Cut(t) {
      var h, tail := Head(t), t[|Head(t)| + 1..];
      assert s + t == (s + h) + [DELIM] + tail;
      PiecesOfJoin(s + h, tail);
    } else {
      assert Head(t) == t;
      PiecesOfPlain(s + t);
    }
  }

  /** Two texts end to end. */
  lemma {:induction false} PiecesAppend(s: string, t: string)
    ensures Pieces(s + t) == Glued(Pieces(s), Pieces(t))
    decreases |s|
  {
    if Cut(s) {
      var h, tail := Head(s), s[|Head(s)| + 1..];
      PiecesAppend(tail, t);
      assert s + t == h + [DELIM] + (tail + t);
      PiecesOfJoin(h, tail + t);
      GluedCons(h, Pieces(tail), Pieces(t));
    } else {
      PlainPrefix(s, t);
      assert Front([s]) == [];
    }
  }

  /** The last piece is empty exactly for the empty text and a text that ends with the delimiter. */
  lemma {:induction false} LastPieceEmpty(s: string)
    ensures Last(Pieces(s)) == "" <==> s == "" || s[|s| - 1] == DELIM
    decreases |s|
  {
    if Cut(s) {
      var tail := s[|Head(s)| + 1..];
      LastPieceEmpty(tail);
      assert Last(Pieces(s)) == Last(Pieces(tail));
    } else if s != "" {
      assert s[|s| - 1] == Head(s)[|s| - 1];
    }
  }

  lemma FirstPieceEmpty(s: string)
    ensures Pieces(s)[0] == Head(s)
    ensures Pieces(s)[0] == "" <==> s == "" || s[0] == DELIM
  {
  }

  // ---- what the control center acts on ----

  /** DoTask ignores an empty command (control_center.cpp:77). */
  function NonEmpty(ps: seq<string>): seq<string> {
    if ps == [] then [] else (if ps[0] == "" then [] else [ps[0]]) + NonEmpty(ps[1..])
  }

  lemma {:induction false} NonEmptyAppend(ps: seq<string>, qs: seq<string>)
    ensures NonEmpty(ps + qs) == NonEmpty(ps) + NonEmpty(qs)
  {
    if ps == [] {
      assert ps + qs == qs;
    } else {
      assert (ps + qs)[1..] == ps[1..] + qs;
      NonEmptyAppend(ps[1..], qs);
    }
  }

  /** The commands acted on for a text. */
  function Acted(s: string): seq<string> { NonEmpty(Pieces(s)) }

  predicate CleanCut(s: string, t: string) { s == "" || t == "" || s[|s| - 1] == DELIM || t[0] == DELIM }

  lemma NonEmptyOne(x: string)
    ensures NonEmpty([x]) == if x == "" then [] else [x]
  {
    assert [x][1..] == [];
  }

  /** A piece `l` running on into `h`: nothing changes if either is empty, else two become one. */
  lemma RunOnOne(l: string, h: string)
    ensures l == "" || h == "" ==> NonEmpty([l]) + NonEmpty([h]) == NonEmpty([l + h])
    ensures l != "" && h != "" ==> |NonEmpty([l]) + NonEmpty([h])| == 2 && |NonEmpty([l + h])| == 1
  {
    NonEmptyOne(l);
    NonEmptyOne(h);
    NonEmptyOne(l + h);
    assert l == "" ==> l + h == h;
    assert h == "" ==> l + h == l;
  }

  lemma {:induction false} RunOn(a: seq<string>, l: string, h: string, b: seq<string>)
    ensures NonEmpty(a + [l]) + NonEmpty([h] + b) == NonEmpty(a) + (NonEmpty([l]) + NonEmpty([h])) + NonEmpty(b)
    ensures NonEmpty(a + [l + h] + b) == NonEmpty(a) + NonEmpty([l + h]) + NonEmpty(b)
  {
    NonEmptyAppend(a, [l]);
    NonEmptyAppend([h], b);
    NonEmptyAppend(a + [l + h], b);
    NonEmptyAppend(a, [l + h]);
  }

  lemma GluedActed(ps: seq<string>, qs: seq<string>)
    requires |ps| > 0 && |qs| > 0
    ensures Last(ps) == "" || qs[0] == "" ==> NonEmpty(ps) + NonEmpty(qs) == NonEmpty(Glued(ps, qs))
    ensures Last(ps) != "" && qs[0] != "" ==> |NonEmpty(ps) + NonEmpty(qs)| == |NonEmpty(Glued(ps, qs))| + 1
  {
    var a, l, h, b := Front(ps), Last(ps), qs[0], qs[1..];
    RunOn(a, l, h, b);
    RunOnOne(l, h);
    assert ps == a + [l];
    assert qs == [h] + b;
    assert Glued(ps, qs) == a + [l + h] + b;
  }

  /** Cutting a text in two changes the commands acted on exactly when the cut goes through a command: then
      there is one command more. */
  lemma CutInTwo(s: string, t: string)
    ensures |Acted(s) + Acted(t)| == |Acted(s + t)| + if CleanCut(s, t) then 0 else 1
    ensures CleanCut(s, t) ==> Acted(s) + Acted(t) == Acted(s + t)
  {
    PiecesAppend(s, t);
    LastPieceEmpty(s);
    FirstPieceEmpty(t);
    GluedActed(Pieces(s), Pieces(t));
  }

  function Whole(chunks: seq<string>): string {
    if chunks == [] then "" else chunks[0] + Whole(chunks[1..])
  }

  /** Each chunk split on its own, as Parse does. */
  function ActedByChunk(chunks: seq<string>): seq<string> {
    if chunks == [] then [] else Acted(chunks[0]) + ActedByChunk(chunks[1..])
  }

  /** No chunk boundary inside the stream lies between two characters of one command. */
  predicate CleanCuts(chunks: seq<string>) {
    chunks == [] || (CleanCut(chunks[0], Whole(chunks[1..])) && CleanCuts(chunks[1..]))
  }

  lemma {:induction false} NeverFewerByChunk(chunks: seq<string>)
    ensures |ActedByChunk(chunks)| >= |Acted(Whole(chunks))|
  {
    if chunks == [] {
      assert NonEmpty([""]) == NonEmpty([""][1..]);
    } else {
      NeverFewerByChunk(chunks[1..]);
      CutInTwo(chunks[0], Whole(chunks[1..]));
    }
  }

  /** Parse as written acts on the commands of the whole stream, however it was received, exactly when every
      cut is clean: next to a delimiter or at an end of the stream. */
  lemma {:induction false} ChunkingExactly(chunks: seq<string>)
    ensures ActedByChunk(chunks) == Acted(Whole(chunks)) <==> CleanCuts(chunks)
  {
    if chunks == [] {
      assert NonEmpty([""]) == NonEmpty([""][1..]);
    } else {
      var rest := chunks[1..];
      ChunkingExactly(rest);
      NeverFewerByChunk(rest);
      CutInTwo(chunks[0], Whole(rest));
      var a, x, y := Acted(chunks[0]), ActedByChunk(rest), Acted(Whole(rest));
      assert a + x == a + y <==> x == y by {
        assert (a + x)[|a|..] == x && (a + y)[|a|..] == y;
      }
    }
  }

  lemma Regroup(a: seq<string>, b: seq<string>, c: seq<string>)
    ensures a + b + c == a + (b + c)
  {
  }

  lemma {:induction false} ActedByChunkAppend(chunks: seq<string>, chunk: string)
    ensures ActedByChunk(chunks + [chunk]) == ActedByChunk(chunks) + Acted(chunk)
  {
    if chunks == [] {
      assert [chunk][1..] == [] && Acted(chunk) + [] == Acted(chunk);
    } else {
      assert (chunks + [chunk])[1..] == chunks[1..] + [chunk];
      ActedByChunkAppend(chunks[1..], chunk);
      Regroup(Acted(chunks[0]), ActedByChunk(chunks[1..]), Acted(chunk));
    }
  }

  // ---- the carry-over buffer ----

  /** The text after the last delimiter of the stream. */
  function Tail(stream: string): string { Last(Pieces(stream)) }

  /** buf_ after Parse(recv), as written. */
  function NextBuffer(buf: string, recv: string): string {
    var joined := buf + recv;
    if joined != "" && joined[|joined| - 1] != DELIM then Last(Pieces(recv)) else joined
  }

  /** buf_ after a series of texts. */
  function BufferAfter(buf: string, chunks: seq<string>): string
    decreases |chunks|
  {
    if chunks == [] then buf else BufferAfter(NextBuffer(buf, chunks[0]), chunks[1..])
  }

  /** The buffer is not drained: texts that each end with the delimiter pile up in it whole, although all their
      commands have been acted on. */
  lemma {:induction false} TerminatedTextsPileUp(buf: string, chunks: seq<string>)
    requires forall i :: 0 <= i < |chunks| ==> chunks[i] != "" && chunks[i][|chunks[i]| - 1] == DELIM
    ensures BufferAfter(buf, chunks) == buf + Whole(chunks)
    decreases |chunks|
  {
    if chunks == [] {
      assert buf + "" == buf;
    } else {
      var joined := buf + chunks[0];
      assert joined[|joined| - 1] == DELIM;
      TerminatedTextsPileUp(joined, chunks[1..]);
      assert joined + Whole(chunks[1..]) == buf + (chunks[0] + Whole(chunks[1..]));
    }
  }

  lemma CutBuffer(buf: string, recv: string)
    requires Cut(recv)
    ensures NextBuffer(buf, recv) == Last(Pieces(recv)) <==> recv[|recv| - 1] != DELIM
  {
    LastPieceEmpty(recv);
    assert (buf + recv)[|buf + recv| - 1] == recv[|recv| - 1];
  }

  /** If buf_ is the unterminated tail of the stream so far, it is again after Parse exactly when the received
      text does not end with the delimiter and contains one, or there was nothing to carry over. */
  lemma BufferIsTailExactly(stream: string, recv: string)
    ensures NextBuffer(Tail(stream), recv) == Tail(stream + recv)
            <==> (recv == "" || recv[|recv| - 1] != DELIM) && (Tail(stream) == "" || Cut(recv))
  {
    var buf := Tail(stream);
    PiecesAppend(stream, recv);
    SplitJoinInverse(stream);
    assert DELIM !in buf;
    if Cut(recv) {
      assert Tail(stream + recv) == Last(Pieces(recv));
      CutBuffer(buf, recv);
    } else {
      assert Head(recv) == recv;
      PiecesOfPlain(recv);
      assert Tail(stream + recv) == buf + recv;
      if buf + recv == "" {
        assert buf == "" && recv == "";
      } else if recv == "" {
        assert buf + recv == buf && NextBuffer(buf, recv) == "";
      } else {
        assert recv[|recv| - 1] in recv;
        assert (buf + recv)[|buf + recv| - 1] == recv[|recv| - 1];
        assert NextBuffer(buf, recv) == recv && |buf + recv| == |buf| + |recv|;
      }
    }
  }

  /** Splitting may set a text's complete pieces aside and go on from its last. */
  lemma SplitRest(s: string, rest: string)
    ensures Pieces(s + rest) == Front(Pieces(s)) + Pieces(Last(Pieces(s)) + rest)
  {
    var l := Last(Pieces(s));
    SplitJoinInverse(s);
    PiecesAppend(s, rest);
    assert !Cut(l);
    PlainPrefix(l, rest);
  }

  /** The split that withholds the tail: the received text joins what is carried, all pieces but the last are
      commands, the last is carried on. These are the commands and what is carried at the end. */
  function WithheldCommands(buf: string, chunks: seq<string>): seq<string>
    decreases |chunks|
  {
    if chunks == [] then []
    else
      var ps := Pieces(buf + chunks[0]);
      Front(ps) + WithheldCommands(Last(ps), chunks[1..])
  }

  function WithheldTail(buf: string, chunks: seq<string>): string
    decreases |chunks|
  {
    if chunks == [] then buf else WithheldTail(Last(Pieces(buf + chunks[0])), chunks[1..])
  }

  /** Withholding the tail is right for every way of cutting the stream, in the middle of a command too. */
  lemma {:induction false} WithheldIgnoresCuts(buf: string, chunks: seq<string>)
    requires DELIM !in buf
    ensures WithheldCommands(buf, chunks) + [WithheldTail(buf, chunks)] == Pieces(buf + Whole(chunks))
    decreases |chunks|
  {
    if chunks == [] {
      assert buf + "" == buf;
      PiecesOfPlain(buf);
    } else {
      var s, rest := buf + chunks[0], Whole(chunks[1..]);
      var front, last := Front(Pieces(s)), Last(Pieces(s));
      SplitJoinInverse(s);
      WithheldIgnoresCuts(last, chunks[1..]);
      SplitRest(s, rest);
      assert buf + Whole(chunks) == s + rest;
      Regroup(front, WithheldCommands(last, chunks[1..]), [WithheldTail(last, chunks[1..])]);
    }
  }
}
