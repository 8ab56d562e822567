/** Which streams come back unchanged as a whole: pieces are weighed against the documents. */
module YamlExactly {
  import opened Text
  import opened YamlStream
  import opened YamlLaws
  import opened YamlRoundTrip

  /** The number of characters in all texts together. */
  function Weight(texts: seq<string>): nat {
    if texts == [] then 0 else |texts[0]| + Weight(texts[1..])
  }

  lemma {:induction false} WeightConcat(a: seq<string>, b: seq<string>)
    ensures Weight(a + b) == Weight(a) + Weight(b)
  {
    if a == [] {
      assert a + b == b;
    } else {
      assert (a + b)[1..] == a[1..] + b;
      WeightConcat(a[1..], b);
    }
  }

  lemma WeightNext(texts: seq<string>, n: nat)
    requires 0 < n <= |texts|
    ensures Weight(texts[..n]) == Weight(texts[..n - 1]) + |texts[n - 1]|
  {
    assert texts[..n] == texts[..n - 1] + [texts[n - 1]];
    assert [texts[n - 1]][1..] == [];
    WeightConcat(texts[..n - 1], [texts[n - 1]]);
  }

  /** Parts that are no heavier than their texts are as heavy together only if each one is. */
  lemma {:induction false} FlattenWeight(parts: seq<seq<string>>, texts: seq<string>, n: nat)
    requires n <= |parts| == |texts|
    requires forall i | 0 <= i < |parts| :: Weight(parts[i]) <= |texts[i]|
    ensures Weight(Flatten(parts, n)) <= Weight(texts[..n])
    ensures Weight(Flatten(parts, n)) == Weight(texts[..n]) ==>
      forall i | 0 <= i < n :: Weight(parts[i]) == |texts[i]|
  {
    if n > 0 {
      FlattenWeight(parts, texts, n - 1);
      WeightConcat(Flatten(parts, n - 1), parts[n - 1]);
      WeightNext(texts, n);
    }
  }

  lemma {:induction false} FlattenKeeps(parts: seq<seq<string>>, n: nat)
    requires n <= |parts|
    requires forall i | 0 <= i < |parts| :: "" !in parts[i]
    ensures "" !in Flatten(parts, n)
  {
    if n > 0 { FlattenKeeps(parts, n - 1); }
  }

  // ---------------------------------------------------------------------------------------
  // One document
  // ---------------------------------------------------------------------------------------

  /** A mark weighs three. */
  lemma {:induction false} ChunksWeight(s: string)
    ensures Weight(Chunks(s)) + 3 * (|Chunks(s)| - 1) == |s|
    decreases |s|
  {
    if s == "" {
      assert Weight([""]) == Weight([""][1..]);
    } else if MARK <= s {
      ChunksWeight(s[3..]);
      assert ([""] + Chunks(s[3..]))[1..] == Chunks(s[3..]);
    } else {
      ChunksWeight(s[1..]);
      PrependWeight(s[0], Chunks(s[1..]));
    }
  }

  lemma PrependWeight(c: char, r: seq<string>)
    requires r != []
    ensures Weight(Prepend(c, r)) == 1 + Weight(r)
  {
    assert Prepend(c, r)[1..] == r[1..];
  }

  /** At most one piece a chunk, and no longer than it. */
  ghost predicate Shrinks(piece: string -> seq<string>) {
    forall chunk :: NoLonger(piece(chunk), chunk)
  }

  predicate NoLonger(texts: seq<string>, chunk: string) {
    |texts| <= 1 && (texts != [] ==> |texts[0]| <= |chunk|)
  }

  lemma PieceIsNoLonger(chunk: string)
    ensures NoLonger(PieceOf(chunk), chunk)
  {
    if PieceOf(chunk) != [] { PieceIsShorter(chunk); }
  }

  lemma PieceOfShrinks()
    ensures Shrinks(PieceOf)
  {
    forall chunk ensures NoLonger(PieceOf(chunk), chunk) { PieceIsNoLonger(chunk); }
  }

  lemma SingleWeight(texts: seq<string>)
    requires |texts| <= 1
    ensures Weight(texts) == if texts == [] then 0 else |texts[0]|
  {
    if texts != [] { assert texts[1..] == []; }
  }

  lemma PiecesOfWeight(piece: string -> seq<string>, chunks: seq<string>)
    requires Shrinks(piece)
    ensures Weight(PiecesOf(piece, chunks)) <= Weight(chunks)
  {
    var parts := Parts(piece, chunks);
    forall i | 0 <= i < |parts| ensures Weight(parts[i]) <= |chunks[i]| {
      assert NoLonger(piece(chunks[i]), chunks[i]);
      SingleWeight(parts[i]);
    }
    FlattenWeight(parts, chunks, |chunks|);
    assert chunks[..|chunks|] == chunks;
  }

  lemma RawPiecesWeight(piece: string -> seq<string>, s: string)
    requires Shrinks(piece)
    ensures Weight(RawPieces(piece, s)) <= |s|
    ensures Weight(RawPieces(piece, s)) == |s| ==> Chunks(s) == [s]
  {
    PiecesOfWeight(piece, Chunks(s));
    ChunksWeight(s);
    if |Chunks(s)| == 1 { OneChunk(s); }
  }

  lemma OneChunk(s: string)
    requires |Chunks(s)| == 1
    ensures Chunks(s) == [s]
  {
    ChunksWeight(s);
    assert Chunks(s)[1..] == [];
    ChunksAreShorter(s, 0);
    assert !HasMark(s);
    ChunksWithoutMark(s);
  }

  /** No piece is empty. */
  lemma PieceIsNotEmpty(chunk: string)
    ensures "" !in PieceOf(chunk)
  {
    var lines := KeptLines(chunk);
    if lines != [] {
      assert TrimSpace("") == "";
      assert lines[0] in lines && Kept(lines[0]);
      assert |Join(lines)| >= |lines[0]|;
    }
  }

  lemma PiecesAreNotEmpty(doc: string)
    ensures "" !in Pieces(doc)
  {
    var parts := Parts(PieceOf, Chunks(TrimSpace(doc)));
    forall i | 0 <= i < |parts| ensures "" !in parts[i] {
      PieceIsNotEmpty(Chunks(TrimSpace(doc))[i]);
    }
    FlattenKeeps(parts, |parts|);
  }

  /** The pieces of a document are no heavier than the document without its trailing space, and as
      heavy only if it is empty or framed. */
  lemma PiecesWeight(doc: string)
    ensures Weight(Pieces(doc)) <= |TrimRight(doc)|
    ensures Weight(Pieces(doc)) == |TrimRight(doc)| && TrimRight(doc) != "" ==> Framed(doc)
  {
    TrimmedWeight(doc);
    TrimRightOf(doc);
    if Weight(Pieces(doc)) == |TrimRight(doc)| && TrimRight(doc) != "" {
      WholePiece(doc);
      WholeIsFramed(doc);
    }
  }

  lemma TrimmedWeight(doc: string)
    ensures Weight(Pieces(doc)) <= |TrimSpace(doc)|
    ensures Weight(Pieces(doc)) == |TrimSpace(doc)| ==> Chunks(TrimSpace(doc)) == [TrimSpace(doc)]
  {
    PieceOfShrinks();
    PiecesAreRaw(doc);
    RawPiecesWeight(PieceOf, TrimSpace(doc));
  }

  lemma PiecesAreRaw(doc: string)
    ensures Pieces(doc) == RawPieces(PieceOf, TrimSpace(doc))
  {
  }

  lemma WholePiece(doc: string)
    requires Chunks(TrimSpace(doc)) == [TrimSpace(doc)]
    ensures Pieces(doc) == PieceOf(TrimSpace(doc))
  {
    PiecesOne(PieceOf, TrimSpace(doc));
  }

  lemma WholeIsFramed(doc: string)
    requires TrimSpace(doc) == TrimRight(doc) != "" && Chunks(TrimRight(doc)) == [TrimRight(doc)]
    requires Weight(PieceOf(TrimRight(doc))) == |TrimRight(doc)|
    ensures Framed(doc)
  {
    var t := TrimRight(doc);
    SingleWeight(PieceOf(t));
    PieceIsShorter(t);
    var pre, post := TrimSpaceParts(doc);
    ChunksAreShorter(t, 0);
  }

  // ---------------------------------------------------------------------------------------
  // The whole stream
  // ---------------------------------------------------------------------------------------

  function Trimmeds(docs: seq<string>): (r: seq<string>)
    ensures |r| == |docs|
  {
    seq(|docs|, i requires 0 <= i < |docs| => TrimRight(docs[i]))
  }

  lemma EachAsHeavy(parts: seq<seq<string>>, texts: seq<string>)
    requires |parts| == |texts| && Flatten(parts, |parts|) == texts
    requires forall i | 0 <= i < |parts| :: Weight(parts[i]) <= |texts[i]|
    ensures forall i | 0 <= i < |parts| :: Weight(parts[i]) == |texts[i]|
  {
    FlattenWeight(parts, texts, |texts|);
    assert texts[..|texts|] == texts;
  }

  lemma OnlyFramedComeBack(docs: seq<string>)
    requires Pieces(Stream(docs, |docs|)) == Trimmeds(docs)
    ensures forall i | 0 <= i < |docs| :: Framed(docs[i])
  {
    var parts, texts := AllPieces(docs), Trimmeds(docs);
    ReadingAStream(docs);
    forall i | 0 <= i < |docs| ensures Weight(parts[i]) <= |texts[i]| { PiecesWeight(docs[i]); }
    EachAsHeavy(parts, texts);
    PiecesAreNotEmpty(Stream(docs, |docs|));
    forall i | 0 <= i < |docs| ensures Framed(docs[i]) {
      assert texts[i] in texts && texts[i] != "";
      assert Weight(parts[i]) == |texts[i]|;
      PiecesWeight(docs[i]);
    }
  }

  /** Round trip of resources: whenever each one's encoding is framed and decodes, right-trimmed, to
      that resource, decoding the encoded list gives the list back. */
  lemma ResourcesComeBack<R>(list: seq<R>, encode: R -> Coded<string>,
                                   decode: string -> Coded<R>)
    requires forall r | r in list ::
      encode(r).Ok? && Framed(encode(r).value) && decode(TrimRight(encode(r).value)) == Coded.Ok(r)
    ensures var all := AllCoded(Codings(list, encode), |list|);
      && all.Ok?
      && var pieces := Pieces(Stream(all.value, |list|));
         AllCoded(Codings(pieces, decode), |pieces|) == Coded.Ok(list)
  {
    var docs := seq(|list|, i requires 0 <= i < |list| => encode(list[i]).value);
    forall i | 0 <= i < |list| ensures Codings(list, encode)[i] == Coded.Ok(docs[i]) {
      assert list[i] in list;
    }
    AllCodedOk(Codings(list, encode), docs, |list|);
    assert docs[..|list|] == docs;
    forall i | 0 <= i < |docs| ensures Framed(docs[i]) { assert list[i] in list; }
    RoundTripExactly(docs);
    var pieces := Trimmeds(docs);
    forall i | 0 <= i < |list| ensures Codings(pieces, decode)[i] == Coded.Ok(list[i]) {
      assert list[i] in list;
    }
    AllCodedOk(Codings(pieces, decode), list, |list|);
    assert list[..|list|] == list;
  }

  lemma {:induction false} AllCodedOk<T>(items: seq<Coded<T>>, values: seq<T>, n: nat)
    requires n <= |items| == |values|
    requires forall i | 0 <= i < |items| :: items[i] == Coded.Ok(values[i])
    ensures AllCoded(items, n) == Coded.Ok(values[..n])
  {
    if n > 0 {
      AllCodedOk(items, values, n - 1);
      assert values[..n] == values[..n - 1] + [values[n - 1]];
    }
  }

  /** Round trip, exactly: a stream gives its documents back, right-trimmed and in order, if and
      only if every one of them is framed. Losses in one are never made up by another. */
  lemma RoundTripExactly(docs: seq<string>)
    ensures Pieces(Stream(docs, |docs|)) == Trimmeds(docs)
      <==> forall i | 0 <= i < |docs| :: Framed(docs[i])
  {
    if Pieces(Stream(docs, |docs|)) == Trimmeds(docs) { OnlyFramedComeBack(docs); }
    if forall i | 0 <= i < |docs| :: Framed(docs[i]) { RoundTrip(docs); }
  }
}
