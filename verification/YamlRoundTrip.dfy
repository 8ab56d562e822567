/** Which documents come back from a YAML stream unchanged. */
module YamlRoundTrip {
  import opened Text
  import opened YamlStream
  import opened YamlLaws

  /** Up to its trailing white space the document starts with a character that is not a space,
      holds no mark and no carriage return, and has no comment line and no blank line. */
  predicate Framed(doc: string) {
    var core := TrimRight(doc);
    && core != "" && !IsSpace(core[0])
    && '\r' !in core && !HasMark(core)
    && AllKept(Lines(core))
  }

  predicate AllKept(lines: seq<string>) {
    forall l | l in lines :: Kept(l)
  }

  // ---------------------------------------------------------------------------------------
  // They survive
  // ---------------------------------------------------------------------------------------

  lemma {:induction false} KeptAll(lines: seq<string>, n: nat)
    requires n <= |lines| && AllKept(lines)
    ensures KeptOf(lines, n) == lines[..n]
  {
    if n > 0 {
      KeptAll(lines, n - 1);
      assert lines[n - 1] in lines;
    }
  }

  lemma PieceOfFramed(core: string)
    requires Trimmed(core) && '\r' !in core && AllKept(Lines(core))
    ensures PieceOf(core) == [core]
  {
    TrimSpaceIs("", core, "");
    assert "" + core + "" == core;
    var lines := Lines(core);
    KeptAll(lines, |lines|);
    assert lines[..|lines|] == lines;
    JoinLines(core);
  }

  lemma TrimOfFramed(doc: string)
    requires TrimRight(doc) != "" && !IsSpace(TrimRight(doc)[0])
    ensures TrimSpace(doc) == TrimRight(doc) && Trimmed(TrimRight(doc))
  {
    var post := TrimRightParts(doc);
    TrimSpaceIs("", TrimRight(doc), post);
    assert "" + TrimRight(doc) + post == doc;
  }

  lemma FramedSurvives(doc: string)
    requires Framed(doc)
    ensures Pieces(doc) == [TrimRight(doc)]
  {
    TrimOfFramed(doc);
    ChunksWithoutMark(TrimRight(doc));
    PieceOfFramed(TrimRight(doc));
    PiecesOne(PieceOf, TrimRight(doc));
  }

  // ---------------------------------------------------------------------------------------
  // No others do: cleaning can only make a text shorter
  // ---------------------------------------------------------------------------------------

  /** The length of the lines with one separator each. */
  function Size(lines: seq<string>): nat {
    if lines == [] then 0 else Size(lines[..|lines| - 1]) + |lines[|lines| - 1]| + 1
  }

  lemma {:induction false} SizeCons(line: string, lines: seq<string>)
    ensures Size([line] + lines) == |line| + 1 + Size(lines)
  {
    var all := [line] + lines;
    if lines == [] {
      assert all[..0] == [];
    } else {
      assert all[..|all| - 1] == [line] + lines[..|lines| - 1];
      SizeCons(line, lines[..|lines| - 1]);
    }
  }

  lemma {:induction false} JoinSize(lines: seq<string>)
    requires lines != []
    ensures |Join(lines)| + 1 == Size(lines)
  {
    assert lines == [lines[0]] + lines[1..];
    SizeCons(lines[0], lines[1..]);
    if |lines| > 1 { JoinSize(lines[1..]); }
  }

  lemma {:induction false} KeptSize(lines: seq<string>, n: nat)
    requires n <= |lines|
    ensures Size(KeptOf(lines, n)) <= Size(lines[..n])
    ensures Size(KeptOf(lines, n)) == Size(lines[..n]) ==> AllKept(lines[..n])
  {
    if n > 0 {
      var before, last := lines[..n - 1], lines[n - 1];
      KeptSize(lines, n - 1);
      assert lines[..n] == before + [last];
      SizeSnoc(before, last);
      if Kept(last) {
        SizeSnoc(KeptOf(lines, n - 1), last);
        assert KeptOf(lines, n) == KeptOf(lines, n - 1) + [last];
        if AllKept(before) { AllKeptSnoc(before, last); }
      } else {
        assert KeptOf(lines, n) == KeptOf(lines, n - 1);
      }
    }
  }

  lemma AllKeptSnoc(lines: seq<string>, line: string)
    requires AllKept(lines) && Kept(line)
    ensures AllKept(lines + [line])
  {}

  lemma SizeSnoc(lines: seq<string>, line: string)
    ensures Size(lines + [line]) == Size(lines) + |line| + 1
  {
    assert (lines + [line])[..|lines|] == lines;
  }

  lemma {:induction false} CRCosts(s: string)
    ensures '\r' in s ==> |WithoutCR(s)| < |s|
  {
    if s != "" { CRCosts(s[1..]); }
  }

  lemma KeptIsShorter(t: string)
    requires var lines := Lines(WithoutCR(t)); KeptOf(lines, |lines|) != []
    ensures var lines := Lines(WithoutCR(t));
      var r := Join(KeptOf(lines, |lines|));
      |r| <= |t| && (|r| == |t| ==> '\r' !in t && AllKept(Lines(t)))
  {
    var lines := Lines(WithoutCR(t));
    assert lines[..|lines|] == lines;
    KeptSize(lines, |lines|);
    JoinSize(KeptOf(lines, |lines|));
    JoinSize(lines);
    JoinLines(WithoutCR(t));
    CRCosts(t);
  }

  lemma TrimIsShorter(chunk: string)
    ensures |TrimSpace(chunk)| <= |chunk|
    ensures |TrimSpace(chunk)| == |chunk| ==> TrimSpace(chunk) == chunk
  {
    var pre, post := TrimSpaceParts(chunk);
    if |TrimSpace(chunk)| == |chunk| { assert pre + TrimSpace(chunk) + post == TrimSpace(chunk); }
  }

  /** A piece is no longer than its chunk; if it is as long, nothing was cut. */
  lemma PieceIsShorter(chunk: string)
    requires PieceOf(chunk) != []
    ensures |PieceOf(chunk)[0]| <= |chunk|
    ensures |PieceOf(chunk)[0]| == |chunk| ==>
      TrimSpace(chunk) == chunk && '\r' !in chunk && AllKept(Lines(chunk))
  {
    TrimIsShorter(chunk);
    KeptIsShorter(TrimSpace(chunk));
  }

  lemma {:induction false} SinglePart(parts: seq<seq<string>>, n: nat, t: string) returns (k: nat)
    requires n <= |parts| && Flatten(parts, n) == [t]
    requires forall i | 0 <= i < |parts| :: |parts[i]| <= 1
    ensures k < n && parts[k] == [t]
  {
    if parts[n - 1] == [] {
      k := SinglePart(parts, n - 1, t);
    } else {
      k := n - 1;
      assert Flatten(parts, n)[|Flatten(parts, n)| - 1] == parts[n - 1][0];
    }
  }

  lemma OnlyFramedSurvives(doc: string)
    requires Pieces(doc) == [TrimRight(doc)]
    ensures Framed(doc)
  {
    var s, t := TrimSpace(doc), TrimRight(doc);
    var chunks := Chunks(s);
    var k := SinglePart(Parts(PieceOf, chunks), |chunks|, t);
    var c := chunks[k];
    assert PieceOf(c) == [t];
    PieceIsShorter(c);
    ChunksAreShorter(s, k);
    TrimRightOf(doc);
    assert !HasMark(s) && t == s;
    ChunksWithoutMark(s);
    var pre, post := TrimSpaceParts(doc);
  }

  /** Trimming on the left as well can only make it shorter. */
  lemma TrimRightOf(doc: string)
    ensures TrimSpace(doc) == "" || |TrimSpace(doc)| <= |TrimRight(doc)|
    ensures TrimSpace(doc) != "" && |TrimSpace(doc)| == |TrimRight(doc)| ==>
      TrimSpace(doc) == TrimRight(doc)
  {
    var pre, post := TrimSpaceParts(doc);
    var s := TrimSpace(doc);
    if s != "" {
      assert (pre + s)[|pre + s| - 1] == s[|s| - 1];
      TrimRightIs(pre + s, post);
    }
  }

  /** A document comes back right-trimmed, as one piece, if and only if it is framed. */
  lemma SurvivesExactly(doc: string)
    ensures Pieces(doc) == [TrimRight(doc)] <==> Framed(doc)
  {
    if Framed(doc) { FramedSurvives(doc); }
    if Pieces(doc) == [TrimRight(doc)] { OnlyFramedSurvives(doc); }
  }

  /** Round trip: a stream of framed documents gives exactly those documents back, right-trimmed
      and in order. */
  lemma RoundTrip(docs: seq<string>)
    requires forall i | 0 <= i < |docs| :: Framed(docs[i])
    ensures |Pieces(Stream(docs, |docs|))| == |docs|
    ensures forall i | 0 <= i < |docs| :: Pieces(Stream(docs, |docs|))[i] == TrimRight(docs[i])
  {
    ReadingAStream(docs);
    forall i | 0 <= i < |docs| ensures AllPieces(docs)[i] == [TrimRight(docs[i])] {
      FramedSurvives(docs[i]);
    }
    FlattenSingles(AllPieces(docs), |docs|);
  }

  lemma {:induction false} FlattenSingles(parts: seq<seq<string>>, n: nat)
    requires n <= |parts| && forall i | 0 <= i < |parts| :: |parts[i]| == 1
    ensures |Flatten(parts, n)| == n
    ensures forall i | 0 <= i < n :: Flatten(parts, n)[i] == parts[i][0]
  {
    if n > 0 { FlattenSingles(parts, n - 1); }
  }
}
