/** What reading a written stream gives back. */
module YamlLaws {
  import opened Text
  import opened YamlStream

  // ---------------------------------------------------------------------------------------
  // Pieces of manifests put together, for any way of cleaning a chunk
  // ---------------------------------------------------------------------------------------

  /** Cleaning ignores blank text around a chunk and drops the empty chunk. */
  ghost predicate Cleans(piece: string -> seq<string>) {
    && piece("") == []
    && forall pre, chunk, post | Blank(pre) && Blank(post) ::
         piece(pre + chunk + post) == piece(chunk)
  }

  lemma {:induction false} FlattenPrefix<T>(a: seq<seq<T>>, b: seq<seq<T>>, n: nat)
    requires n <= |a|
    ensures Flatten(a + b, n) == Flatten(a, n)
  {
    if n > 0 { FlattenPrefix(a, b, n - 1); }
  }

  lemma {:induction false} FlattenAppend<T>(a: seq<seq<T>>, b: seq<seq<T>>, n: nat)
    requires n <= |b|
    ensures Flatten(a + b, |a| + n) == Flatten(a, |a|) + Flatten(b, n)
  {
    if n == 0 {
      FlattenPrefix(a, b, |a|);
    } else {
      FlattenAppend(a, b, n - 1);
    }
  }

  lemma PiecesConcat(piece: string -> seq<string>, a: seq<string>, b: seq<string>)
    ensures PiecesOf(piece, a + b) == PiecesOf(piece, a) + PiecesOf(piece, b)
  {
    assert Parts(piece, a + b) == Parts(piece, a) + Parts(piece, b);
    FlattenAppend(Parts(piece, a), Parts(piece, b), |b|);
  }

  lemma PiecesOne(piece: string -> seq<string>, chunk: string)
    ensures PiecesOf(piece, [chunk]) == piece(chunk)
  {
    assert Flatten(Parts(piece, [chunk]), 1) == Flatten(Parts(piece, [chunk]), 0) + piece(chunk);
  }

  /** The pieces of a text that is not trimmed first. */
  function RawPieces(piece: string -> seq<string>, s: string): seq<string> {
    PiecesOf(piece, Chunks(s))
  }

  lemma PiecesLastGrows(piece: string -> seq<string>, r: seq<string>, post: string)
    requires Cleans(piece) && r != [] && Blank(post)
    ensures PiecesOf(piece, r[..|r| - 1] + [r[|r| - 1] + post]) == PiecesOf(piece, r)
  {
    var init, last := r[..|r| - 1], r[|r| - 1];
    PiecesConcat(piece, init, [last + post]);
    PiecesConcat(piece, init, [last]);
    PiecesOne(piece, last + post);
    PiecesOne(piece, last);
    assert "" + last + post == last + post && r == init + [last];
    assert piece("" + last + post) == piece(last);
  }

  lemma PiecesFirstGrows(piece: string -> seq<string>, pre: string, q: seq<string>)
    requires Cleans(piece) && q != [] && Blank(pre)
    ensures PiecesOf(piece, [pre + q[0]] + q[1..]) == PiecesOf(piece, q)
  {
    PiecesConcat(piece, [pre + q[0]], q[1..]);
    PiecesConcat(piece, [q[0]], q[1..]);
    PiecesOne(piece, pre + q[0]);
    PiecesOne(piece, q[0]);
    assert pre + q[0] + "" == pre + q[0] && q == [q[0]] + q[1..];
    assert piece(pre + q[0] + "") == piece(q[0]);
  }

  /** Blank text around a text does not change its pieces. */
  lemma RawPiecesAround(piece: string -> seq<string>, pre: string, s: string, post: string)
    requires Cleans(piece) && Blank(pre) && Blank(post)
    ensures RawPieces(piece, pre + s + post) == RawPieces(piece, s)
  {
    ChunksBeforeBlank(pre + s, post);
    PiecesLastGrows(piece, Chunks(pre + s), post);
    ChunksBehindBlank(pre, s);
    PiecesFirstGrows(piece, pre, Chunks(s));
  }

  lemma ChunksOfMarked(y: string)
    ensures Chunks("---\n" + y) == [""] + Chunks("\n" + y)
  {
    var t := "---\n" + y;
    assert t[3..] == "\n" + y && MARK <= t;
  }

  lemma ChunksOfMarkedLine(y: string)
    ensures Chunks("\n---\n" + y) == ["\n"] + Chunks("\n" + y)
  {
    var u, tail := "\n---\n" + y, Chunks("\n" + y);
    ChunksOfMarked(y);
    assert u[1..] == "---\n" + y && u[0] == '\n';
    assert Chunks(u) == Prepend('\n', [""] + tail);
    PrependToEmpty('\n', tail);
  }

  lemma PrependToEmpty(c: char, tail: seq<string>)
    ensures Prepend(c, [""] + tail) == [[c]] + tail
  {
    assert ([""] + tail)[1..] == tail && [c] + "" == [c];
  }

  /** The first marker adds nothing. */
  lemma PiecesOfFirst(piece: string -> seq<string>, y: string)
    requires Cleans(piece)
    ensures RawPieces(piece, "---\n" + y) == RawPieces(piece, y)
  {
    ChunksOfMarked(y);
    PiecesConcat(piece, [""], Chunks("\n" + y));
    PiecesOne(piece, "");
    RawPiecesAround(piece, "\n", y, "");
    assert "\n" + y + "" == "\n" + y;
  }

  /** A marker line splits the stream, whatever stands on both sides of it. */
  lemma PiecesOfMarked(piece: string -> seq<string>, x: string, y: string)
    requires Cleans(piece)
    ensures RawPieces(piece, x + "\n---\n" + y) == RawPieces(piece, x) + RawPieces(piece, y)
  {
    var r, tail := Chunks(x), Chunks("\n" + y);
    RawPiecesAround(piece, "\n", y, "");
    assert "\n" + y + "" == "\n" + y;
    ChunksOfMarkedLine(y);
    assert x + "\n---\n" + y == x + ("\n---\n" + y);
    ChunksBreak(x, "\n---\n" + y);
    WeldAt(r, ["\n"] + tail);
    assert (["\n"] + tail)[1..] == tail;
    PiecesConcat(piece, r[..|r| - 1] + [r[|r| - 1] + "\n"], tail);
    PiecesLastGrows(piece, r, "\n");
  }

  function AllRaw(piece: string -> seq<string>, docs: seq<string>): (r: seq<seq<string>>)
    ensures |r| == |docs|
  {
    seq(|docs|, i requires 0 <= i < |docs| => RawPieces(piece, docs[i]))
  }

  lemma {:induction false} RawPiecesOfStream(piece: string -> seq<string>, docs: seq<string>, n: nat)
    requires Cleans(piece) && n <= |docs|
    ensures RawPieces(piece, Stream(docs, n)) == Flatten(AllRaw(piece, docs), n)
  {
    if n == 0 {
      PiecesOne(piece, "");
    } else {
      RawPiecesOfStream(piece, docs, n - 1);
      var before, d := Stream(docs, n - 1), docs[n - 1];
      PiecesOfAppended(piece, before, d);
    }
  }

  lemma PiecesOfAppended(piece: string -> seq<string>, buf: string, d: string)
    requires Cleans(piece)
    ensures RawPieces(piece, AppendDoc(buf, d)) == RawPieces(piece, buf) + RawPieces(piece, d)
  {
    if buf == "" {
      PiecesOfFirst(piece, d);
      PiecesOne(piece, "");
      assert "" + "---\n" + d == "---\n" + d;
    } else {
      PiecesOfMarked(piece, buf, d);
    }
  }

  // ---------------------------------------------------------------------------------------
  // The stream
  // ---------------------------------------------------------------------------------------

  lemma PieceOfCleans()
    ensures Cleans(PieceOf)
  {
    assert CleanLines("") == [""];
    assert KeptOf([""], 1) == KeptOf([""], 0) + [];
    forall pre, chunk, post | Blank(pre) && Blank(post)
      ensures PieceOf(pre + chunk + post) == PieceOf(chunk)
    {
      TrimAround(pre, chunk, post);
    }
  }

  /** Trimming the whole manifest first makes no difference. */
  lemma TrimmingIsHarmless(s: string)
    ensures Pieces(s) == RawPieces(PieceOf, s)
  {
    PieceOfCleans();
    var pre, post := TrimSpaceParts(s);
    RawPiecesAround(PieceOf, pre, TrimSpace(s), post);
  }

  function AllPieces(docs: seq<string>): (r: seq<seq<string>>)
    ensures |r| == |docs|
  {
    seq(|docs|, i requires 0 <= i < |docs| => Pieces(docs[i]))
  }

  /** For any documents at all: reading the written stream hands over, one document after the
      other, exactly the pieces that each document would give on its own. */
  lemma ReadingAStream(docs: seq<string>)
    ensures Pieces(Stream(docs, |docs|)) == Flatten(AllPieces(docs), |docs|)
  {
    PieceOfCleans();
    TrimmingIsHarmless(Stream(docs, |docs|));
    RawPiecesOfStream(PieceOf, docs, |docs|);
    forall i | 0 <= i < |docs| ensures Pieces(docs[i]) == RawPieces(PieceOf, docs[i]) {
      TrimmingIsHarmless(docs[i]);
    }
    assert AllPieces(docs) == AllRaw(PieceOf, docs);
  }
}
