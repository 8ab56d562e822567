/** Closed forms of what the YAML framing writes, cuts and filters, and when a line makes no
    difference to what is read. */
module YamlForms {
  import opened Text
  import opened YamlStream
  import opened YamlLaws

  /** `strings.Join(texts, sep)`. */
  function JoinWith(sep: string, texts: seq<string>): string {
    if texts == [] then ""
    else if |texts| == 1 then texts[0]
    else texts[0] + sep + JoinWith(sep, texts[1..])
  }

  lemma {:induction false} JoinWithSnoc(sep: string, texts: seq<string>, t: string)
    requires texts != []
    ensures JoinWith(sep, texts + [t]) == JoinWith(sep, texts) + sep + t
  {
    var all := texts + [t];
    assert all[1..] == texts[1..] + [t];
    if |texts| == 1 {
      assert all[1..] == [t];
    } else {
      JoinWithSnoc(sep, texts[1..], t);
      var rest := JoinWith(sep, texts[1..]);
      assert texts[0] + sep + (rest + sep + t) == (texts[0] + sep + rest) + sep + t;
    }
  }

  // ---------------------------------------------------------------------------------------
  // Writing
  // ---------------------------------------------------------------------------------------

  /** A stream is a marker line, then the documents with a marker line between each two. */
  lemma {:induction false} StreamForm(docs: seq<string>, n: nat)
    requires 0 < n <= |docs|
    ensures Stream(docs, n) == "---\n" + JoinWith("\n---\n", docs[..n])
  {
    var d := docs[n - 1];
    if n == 1 {
      assert docs[..1] == [d];
      assert "" + "---\n" + d == "---\n" + d;
    } else {
      StreamForm(docs, n - 1);
      assert docs[..n] == docs[..n - 1] + [d];
      JoinWithSnoc("\n---\n", docs[..n - 1], d);
      var before := JoinWith("\n---\n", docs[..n - 1]);
      assert ("---\n" + before) + "\n---\n" + d == "---\n" + (before + "\n---\n" + d);
    }
  }

  /** All results are there exactly if none failed. */
  lemma {:induction false} AllCodedExactly<T>(items: seq<Coded<T>>, n: nat)
    requires n <= |items|
    ensures AllCoded(items, n).Failed? <==> exists i | 0 <= i < n :: items[i].Failed?
  {
    if n > 0 { AllCodedExactly(items, n - 1); }
  }

  // ---------------------------------------------------------------------------------------
  // Cutting
  // ---------------------------------------------------------------------------------------

  /** The chunks with marks between them are the text. */
  lemma {:induction false} ChunksRejoin(s: string)
    ensures JoinWith(MARK, Chunks(s)) == s
    decreases |s|
  {
    if s != "" {
      if MARK <= s {
        ChunksRejoin(s[3..]);
        JoinBehindEmpty(MARK, Chunks(s[3..]));
        assert s == MARK + s[3..];
      } else {
        ChunksRejoin(s[1..]);
        JoinPrepend(MARK, s[0], Chunks(s[1..]));
        assert s == [s[0]] + s[1..];
      }
    }
  }

  lemma JoinBehindEmpty(sep: string, r: seq<string>)
    requires r != []
    ensures JoinWith(sep, [""] + r) == sep + JoinWith(sep, r)
  {
    assert ([""] + r)[1..] == r;
    assert "" + sep == sep;
  }

  lemma JoinPrepend(sep: string, c: char, r: seq<string>)
    requires r != []
    ensures JoinWith(sep, Prepend(c, r)) == [c] + JoinWith(sep, r)
  {
    assert Prepend(c, r)[1..] == r[1..];
    if |r| > 1 {
      Regroup([c], r[0], sep);
      Regroup([c], r[0] + sep, JoinWith(sep, r[1..]));
    }
  }

  /** No chunk contains a mark: every one is a place to cut. */
  lemma {:induction false} ChunksHaveNoMark(s: string, k: nat)
    requires k < |Chunks(s)|
    ensures !HasMark(Chunks(s)[k])
    decreases |s|
  {
    if s != "" {
      if MARK <= s {
        if k > 0 { ChunksHaveNoMark(s[3..], k - 1); }
      } else {
        ChunksHaveNoMark(s[1..], k);
        if k == 0 {
          FirstChunk(s[1..]);
          var c := Chunks(s[1..])[0];
          assert ([s[0]] + c)[1..] == c;
          assert [s[0]] + c <= s;
        }
      }
    }
  }

  lemma {:induction false} FirstChunk(s: string)
    ensures Chunks(s)[0] <= s
    decreases |s|
  {
    if s != "" && !(MARK <= s) { FirstChunk(s[1..]); }
  }

  // ---------------------------------------------------------------------------------------
  // Filtering
  // ---------------------------------------------------------------------------------------

  /** A comment line: a number sign with nothing but blanks, tabs, form feeds, carriage returns and
      newlines in front of it. */
  lemma {:induction false} CommentForm(line: string)
    ensures IsComment(line) <==> exists k | 0 <= k < |line| ::
      line[k] == '#' && SpacesBefore(line, k)
  {
    if line != "" && line[0] != '#' && IsRegexSpace(line[0]) {
      CommentForm(line[1..]);
      if IsComment(line[1..]) {
        var k :| 0 <= k < |line[1..]| && line[1..][k] == '#' && SpacesBefore(line[1..], k);
        forall i | 0 <= i < k + 1 ensures line[i] in "\t\n\U{0C}\r " {
          if i > 0 { assert line[i] == line[1..][i - 1]; }
        }
        assert line[k + 1] == '#' && SpacesBefore(line, k + 1);
      }
      forall k | 0 <= k < |line| && line[k] == '#' && SpacesBefore(line, k) ensures IsComment(line) {
        assert line[1..][k - 1] == '#' && SpacesBefore(line[1..], k - 1);
      }
    } else if line != "" && line[0] == '#' {
      assert SpacesBefore(line, 0);
    } else if line != "" {
      assert line[0] !in "\t\n\U{0C}\r ";
    }
  }

  predicate SpacesBefore(line: string, k: nat)
    requires k <= |line|
  {
    forall i | 0 <= i < k :: line[i] in "\t\n\U{0C}\r "
  }

  /** The first `n` items that `keep` accepts. */
  function FilterOf<T>(keep: T -> bool, items: seq<T>, n: nat): seq<T>
    requires n <= |items|
  {
    if n == 0 then []
    else if keep(items[n - 1]) then FilterOf(keep, items, n - 1) + [items[n - 1]]
    else FilterOf(keep, items, n - 1)
  }

  lemma {:induction false} FilterPrefix<T>(keep: T -> bool, a: seq<T>, b: seq<T>, n: nat)
    requires n <= |a|
    ensures FilterOf(keep, a + b, n) == FilterOf(keep, a, n)
  {
    if n > 0 { FilterPrefix(keep, a, b, n - 1); }
  }

  lemma {:induction false} FilterConcat<T>(keep: T -> bool, a: seq<T>, b: seq<T>, n: nat)
    requires n <= |b|
    ensures FilterOf(keep, a + b, |a| + n) == FilterOf(keep, a, |a|) + FilterOf(keep, b, n)
  {
    if n == 0 {
      FilterPrefix(keep, a, b, |a|);
    } else {
      FilterConcat(keep, a, b, n - 1);
      assert (a + b)[|a| + n - 1] == b[n - 1];
    }
  }

  lemma {:induction false} FilterDrops<T>(keep: T -> bool, a: seq<T>, item: T, b: seq<T>, n: nat)
    requires !keep(item) && n <= |b|
    ensures FilterOf(keep, a + ([item] + b), |a| + 1 + n) == FilterOf(keep, a + b, |a| + n)
  {
    var longer, shorter := a + ([item] + b), a + b;
    if n == 0 {
      FilterPrefix(keep, a, [item] + b, |a|);
      FilterPrefix(keep, a, b, |a|);
      assert longer[|a|] == item;
    } else {
      FilterDrops(keep, a, item, b, n - 1);
      assert longer[|a| + n] == shorter[|a| + n - 1];
    }
  }

  lemma {:induction false} FilterCount<T>(keep: T -> bool, items: seq<T>, n: nat, item: T)
    requires n <= |items|
    ensures multiset(FilterOf(keep, items, n))[item]
         == if keep(item) then multiset(items[..n])[item] else 0
  {
    if n > 0 {
      FilterCount(keep, items, n - 1, item);
      assert items[..n] == items[..n - 1] + [items[n - 1]];
    }
  }

  lemma {:induction false} KeptIsFilter(lines: seq<string>, n: nat)
    requires n <= |lines|
    ensures KeptOf(lines, n) == FilterOf(Kept, lines, n)
  {
    if n > 0 {
      KeptIsFilter(lines, n - 1);
      KeptNext(lines, n);
    }
  }

  /** Filtering works line by line: the kept lines of two pieces are kept in both. */
  lemma KeptConcat(a: seq<string>, b: seq<string>)
    ensures KeptOf(a + b, |a + b|) == KeptOf(a, |a|) + KeptOf(b, |b|)
  {
    KeptIsFilter(a + b, |a + b|);
    KeptIsFilter(a, |a|);
    KeptIsFilter(b, |b|);
    FilterConcat(Kept, a, b, |b|);
  }

  lemma KeptNext(lines: seq<string>, n: nat)
    requires 0 < n <= |lines|
    ensures KeptOf(lines, n)
         == if Kept(lines[n - 1]) then KeptOf(lines, n - 1) + [lines[n - 1]] else KeptOf(lines, n - 1)
  {
  }

  /** A kept line comes out as often as it goes in, any other line never. */
  lemma KeptCount(lines: seq<string>, n: nat, line: string)
    requires n <= |lines|
    ensures multiset(KeptOf(lines, n))[line] == if Kept(line) then multiset(lines[..n])[line] else 0
  {
    KeptIsFilter(lines, n);
    FilterCount(Kept, lines, n, line);
  }

  // ---------------------------------------------------------------------------------------
  // Lines that make no difference
  // ---------------------------------------------------------------------------------------

  predicate NotCR(c: char) {
    c != '\r'
  }

  lemma {:induction false} CRIsFilter(s: string)
    ensures WithoutCR(s) == FilterOf(NotCR, s, |s|)
  {
    if s != "" {
      CRIsFilter(s[1..]);
      assert s == [s[0]] + s[1..];
      FilterConcat(NotCR, [s[0]], s[1..], |s| - 1);
      FilterOne(NotCR, s[0]);
    }
  }

  lemma FilterOne<T>(keep: T -> bool, item: T)
    ensures FilterOf(keep, [item], 1) == if keep(item) then [item] else []
  {
    assert FilterOf(keep, [item], 0) == [];
  }

  lemma Regroup(a: string, b: string, c: string)
    ensures (a + b) + c == a + (b + c)
  {
  }

  lemma {:induction false} LinesConcat(a: string, b: string)
    ensures Lines(a + "\n" + b) == Lines(a) + Lines(b)
  {
    var all := a + "\n" + b;
    if a == "" {
      assert all[1..] == b && all[0] == '\n';
    } else {
      assert all[1..] == a[1..] + "\n" + b && all[0] == a[0];
      LinesConcat(a[1..], b);
      if a[0] != '\n' { FirstGrows(a[0], Lines(a[1..]), Lines(b)); }
    }
  }

  lemma FirstGrows(c: char, r: seq<string>, q: seq<string>)
    requires r != []
    ensures [[c] + (r + q)[0]] + (r + q)[1..] == ([[c] + r[0]] + r[1..]) + q
  {
    assert (r + q)[1..] == r[1..] + q;
  }

  lemma LinesOfThree(a: string, c: string, b: string)
    requires '\n' !in c
    ensures Lines(a + "\n" + c + "\n" + b) == Lines(a) + ([c] + Lines(b))
  {
    LinesAppend(c, b);
    LinesConcat(a, c + "\n" + b);
    assert a + "\n" + (c + "\n" + b) == a + "\n" + c + "\n" + b;
  }

  lemma LeftEnd(x: string) returns (pre: string)
    requires !Blank(x)
    ensures x == pre + TrimLeft(x) && Blank(pre) && TrimLeft(x) != "" && !IsSpace(TrimLeft(x)[0])
  {
    pre := TrimLeftParts(x);
    assert pre + "" == pre;
  }

  lemma RightEnd(y: string) returns (post: string)
    requires !Blank(y)
    ensures y == TrimRight(y) + post && Blank(post) && TrimRight(y) != ""
    ensures !IsSpace(TrimRight(y)[|TrimRight(y)| - 1])
  {
    post := TrimRightParts(y);
    assert "" + post == post;
  }

  lemma TrimEnds(pre: string, a: string, mid: string, b: string, post: string)
    requires Blank(pre) && Blank(post) && a != "" && b != ""
    requires !IsSpace(a[0]) && !IsSpace(b[|b| - 1])
    ensures TrimSpace((pre + a) + mid + (b + post)) == a + mid + b
  {
    var core := a + mid + b;
    assert core[0] == a[0] && core[|core| - 1] == b[|b| - 1];
    assert (pre + a) + mid + (b + post) == pre + core + post;
    TrimSpaceIs(pre, core, post);
  }

  /** Text that is not blank ends what `TrimSpace` cuts off. */
  lemma TrimBetween(x: string, mid: string, y: string)
    requires !Blank(x) && !Blank(y)
    ensures TrimSpace(x + mid + y) == TrimLeft(x) + mid + TrimRight(y)
  {
    var pre := LeftEnd(x);
    var post := RightEnd(y);
    TrimEnds(pre, TrimLeft(x), mid, TrimRight(y), post);
  }

  ghost predicate Homomorphic(f: string -> string) {
    f("\n") == "\n" && forall a, b :: f(a + b) == f(a) + f(b)
  }

  ghost predicate DropsCR(f: string -> string) {
    forall s :: f(s) == FilterOf(NotCR, s, |s|)
  }

  lemma WithoutCRDropsCR()
    ensures DropsCR(WithoutCR)
  {
    forall s ensures WithoutCR(s) == FilterOf(NotCR, s, |s|) { CRIsFilter(s); }
  }

  lemma DroppingIsHomomorphic(f: string -> string)
    requires DropsCR(f)
    ensures Homomorphic(f)
  {
    FilterOne(NotCR, '\n');
    forall a, b ensures f(a + b) == f(a) + f(b) { DroppingTwo(f, a, b); }
  }

  lemma DroppingTwo(f: string -> string, a: string, b: string)
    requires DropsCR(f)
    ensures f(a + b) == f(a) + f(b)
  {
    FilterAppend(NotCR, a, b);
  }

  lemma FilterAppend<T>(keep: T -> bool, a: seq<T>, b: seq<T>)
    ensures FilterOf(keep, a + b, |a + b|) == FilterOf(keep, a, |a|) + FilterOf(keep, b, |b|)
  {
    FilterConcat(keep, a, b, |b|);
  }

  /** Carriage returns are dropped piece by piece. */
  lemma CRIsHomomorphic()
    ensures Homomorphic(WithoutCR)
  {
    WithoutCRDropsCR();
    DroppingIsHomomorphic(WithoutCR);
  }

  lemma OfTwo(f: string -> string, a: string, b: string)
    requires Homomorphic(f)
    ensures f(a + "\n" + b) == f(a) + "\n" + f(b)
  {
    assert f(a + "\n" + b) == f(a + "\n") + f(b);
  }

  lemma OfThree(f: string -> string, a: string, c: string, b: string)
    requires Homomorphic(f)
    ensures f(a + ("\n" + c + "\n") + b) == f(a) + "\n" + f(c) + "\n" + f(b)
  {
    assert a + ("\n" + c + "\n") + b == (a + "\n" + c) + "\n" + b;
    OfTwo(f, a + "\n" + c, b);
    OfTwo(f, a, c);
  }

  lemma {:induction false} CRKeepsLines(s: string)
    ensures '\n' in WithoutCR(s) <==> '\n' in s
  {
    if s != "" {
      CRKeepsLines(s[1..]);
      assert s == [s[0]] + s[1..];
    }
  }

  /** A line that the filter drops. */
  predicate Noise(line: string) {
    '\n' !in line && !HasMark(line) && !Kept(WithoutCR(line))
  }

  lemma CleanBetween(x: string, y: string)
    requires !Blank(x) && !Blank(y)
    ensures CleanLines(x + "\n" + y)
         == Lines(WithoutCR(TrimLeft(x))) + Lines(WithoutCR(TrimRight(y)))
  {
    TrimBetween(x, "\n", y);
    CRIsHomomorphic();
    OfTwo(WithoutCR, TrimLeft(x), TrimRight(y));
    LinesConcat(WithoutCR(TrimLeft(x)), WithoutCR(TrimRight(y)));
  }

  lemma CleanAroundNoise(x: string, noise: string, y: string)
    requires !Blank(x) && !Blank(y) && '\n' !in noise
    ensures CleanLines(x + ("\n" + noise + "\n") + y)
         == Lines(WithoutCR(TrimLeft(x))) + ([WithoutCR(noise)] + Lines(WithoutCR(TrimRight(y))))
  {
    TrimBetween(x, "\n" + noise + "\n", y);
    CRIsHomomorphic();
    OfThree(WithoutCR, TrimLeft(x), noise, TrimRight(y));
    CRKeepsLines(noise);
    LinesOfThree(WithoutCR(TrimLeft(x)), WithoutCR(noise), WithoutCR(TrimRight(y)));
  }

  lemma DropOne(a: seq<string>, line: string, b: seq<string>)
    requires !Kept(line)
    ensures KeptOf(a + ([line] + b), |a + ([line] + b)|) == KeptOf(a + b, |a + b|)
  {
    KeptIsFilter(a + ([line] + b), |a + ([line] + b)|);
    KeptIsFilter(a + b, |a + b|);
    FilterDrops(Kept, a, line, b, |b|);
  }

  /** Inside a document, between text and text, a comment line changes nothing. */
  lemma NoiseInChunk(x: string, noise: string, y: string)
    requires !Blank(x) && !Blank(y) && Noise(noise)
    ensures KeptLines(x + ("\n" + noise + "\n") + y) == KeptLines(x + "\n" + y)
  {
    CleanBetween(x, y);
    CleanAroundNoise(x, noise, y);
    DropOne(Lines(WithoutCR(TrimLeft(x))), WithoutCR(noise), Lines(WithoutCR(TrimRight(y))));
  }

  /** A blank line changes nothing anywhere. */
  lemma BlankInChunk(x: string, noise: string, y: string)
    requires Blank(noise) && '\n' !in noise
    ensures PieceOf(x + ("\n" + noise + "\n") + y) == PieceOf(x + "\n" + y)
  {
    var gap := "\n" + noise + "\n";
    if Blank(x) {
      SkipBefore(x + gap, y);
      SkipBefore(x + "\n", y);
    } else if Blank(y) {
      SkipBehind(x, gap + y);
      SkipBehind(x, "\n" + y);
      assert x + gap + y == x + (gap + y) && x + "\n" + y == x + ("\n" + y);
    } else {
      BlankIsNoise(noise);
      NoiseInChunk(x, noise, y);
    }
  }

  lemma SkipBefore(pre: string, y: string)
    requires Blank(pre)
    ensures PieceOf(pre + y) == PieceOf(y)
  {
    PieceOfCleans();
    CleansBefore(PieceOf, pre, y);
  }

  lemma SkipBehind(x: string, post: string)
    requires Blank(post)
    ensures PieceOf(x + post) == PieceOf(x)
  {
    PieceOfCleans();
    CleansBehind(PieceOf, x, post);
  }

  lemma CleansBefore(piece: string -> seq<string>, pre: string, y: string)
    requires Cleans(piece) && Blank(pre)
    ensures piece(pre + y) == piece(y)
  {
    assert pre + y + "" == pre + y;
    assert piece(pre + y + "") == piece(y);
  }

  lemma CleansBehind(piece: string -> seq<string>, x: string, post: string)
    requires Cleans(piece) && Blank(post)
    ensures piece(x + post) == piece(x)
  {
    assert "" + x + post == x + post;
    assert piece("" + x + post) == piece(x);
  }

  lemma BlankIsNoise(noise: string)
    requires Blank(noise) && '\n' !in noise
    ensures Noise(noise)
  {
    BlankHasNoMark(noise);
    BlankWithoutCR(noise);
    TrimSpaceIs(WithoutCR(noise), "", "");
    assert WithoutCR(noise) + "" + "" == WithoutCR(noise);
  }

  lemma {:induction false} BlankWithoutCR(s: string)
    requires Blank(s)
    ensures Blank(WithoutCR(s))
  {
    if s != "" {
      assert s[0] in s && forall c | c in s[1..] :: c in s;
      BlankWithoutCR(s[1..]);
    }
  }

  // ---------------------------------------------------------------------------------------
  // In a manifest
  // ---------------------------------------------------------------------------------------

  /** The last chunk of a text. */
  function LastChunk(x: string): string {
    Chunks(x)[|Chunks(x)| - 1]
  }

  lemma WeldSplice(r: seq<string>, gap: string, q: seq<string>)
    requires r != [] && q != []
    ensures Weld(r, [gap + q[0]] + q[1..])
         == r[..|r| - 1] + [r[|r| - 1] + gap + q[0]] + q[1..]
  {
    WeldAt(r, [gap + q[0]] + q[1..]);
    Uncons(gap + q[0], q[1..]);
    Regroup(r[|r| - 1], gap, q[0]);
  }

  lemma Uncons(head: string, tail: seq<string>)
    ensures ([head] + tail)[0] == head && ([head] + tail)[1..] == tail
  {
  }

  /** Text with newlines at both ends and no mark joins the chunks on both sides of it. */
  lemma ChunksAcross(x: string, gap: string, y: string)
    requires gap != "" && gap[0] == '\n' && gap[|gap| - 1] == '\n' && !HasMark(gap)
    ensures var r, q := Chunks(x), Chunks(y);
      Chunks(x + gap + y) == r[..|r| - 1] + [r[|r| - 1] + gap + q[0]] + q[1..]
  {
    GapFirst(gap, y);
    ChunksBreak(x, gap + y);
    Regroup(x, gap, y);
    WeldSplice(Chunks(x), gap, Chunks(y));
  }

  lemma GapFirst(gap: string, y: string)
    requires gap != "" && gap[|gap| - 1] == '\n' && !HasMark(gap)
    ensures Chunks(gap + y) == [gap + Chunks(y)[0]] + Chunks(y)[1..]
  {
    var init := gap[..|gap| - 1];
    assert gap == init + "\n" && gap + y == init + ("\n" + y);
    NoMarkInPrefix(init, "\n");
    GapSplit(init, y);
  }

  lemma GapSplit(init: string, y: string)
    requires !HasMark(init)
    ensures Chunks(init + ("\n" + y)) == [init + "\n" + Chunks(y)[0]] + Chunks(y)[1..]
  {
    ChunksBehindBlank("\n", y);
    ChunksBreak(init, "\n" + y);
    ChunksWithoutMark(init);
    WeldSplice([init], "\n", Chunks(y));
  }

  lemma {:induction false} NoMarkInPrefix(a: string, b: string)
    requires !HasMark(a + b)
    ensures !HasMark(a)
  {
    if a != "" {
      assert (a + b)[1..] == a[1..] + b;
      NoMarkInPrefix(a[1..], b);
      assert MARK <= a ==> MARK <= a + b;
    }
  }

  lemma PiecesAcross(x: string, gap: string, y: string)
    requires gap != "" && gap[0] == '\n' && gap[|gap| - 1] == '\n' && !HasMark(gap)
    ensures Pieces(x + gap + y)
         == PiecesOf(PieceOf, Chunks(x)[..|Chunks(x)| - 1])
            + PieceOf(LastChunk(x) + gap + Chunks(y)[0]) + PiecesOf(PieceOf, Chunks(y)[1..])
  {
    var r, q := Chunks(x), Chunks(y);
    var mid := LastChunk(x) + gap + q[0];
    ChunksAcross(x, gap, y);
    TrimmingIsHarmless(x + gap + y);
    PiecesConcat(PieceOf, r[..|r| - 1] + [mid], q[1..]);
    PiecesConcat(PieceOf, r[..|r| - 1], [mid]);
    PiecesOne(PieceOf, mid);
  }

  /** Inserting a line that the filter drops between two lines of a manifest changes nothing, if the
      line is blank, or if its document has text both before and behind it. */
  lemma NoiseIsNeutral(x: string, noise: string, y: string)
    requires Noise(noise)
    requires Blank(noise) || (!Blank(LastChunk(x)) && !Blank(Chunks(y)[0]))
    ensures Pieces(x + ("\n" + noise + "\n") + y) == Pieces(x + "\n" + y)
  {
    GapHasNoMark(noise);
    PiecesAcross(x, "\n" + noise + "\n", y);
    assert !HasMark("\n");
    PiecesAcross(x, "\n", y);
    if Blank(noise) {
      BlankInChunk(LastChunk(x), noise, Chunks(y)[0]);
    } else {
      NoiseInChunk(LastChunk(x), noise, Chunks(y)[0]);
    }
  }

  lemma GapHasNoMark(noise: string)
    requires !HasMark(noise)
    ensures !HasMark("\n" + noise + "\n")
  {
    var gap := "\n" + noise + "\n";
    NoMarkBefore(noise);
    assert gap[1..] == noise + "\n" && gap[0] != '-';
    assert !(MARK <= gap);
  }

  lemma {:induction false} NoMarkBefore(s: string)
    requires !HasMark(s)
    ensures !HasMark(s + "\n")
  {
    if s == "" {
      assert s + "\n" == "\n" && "\n"[1..] == "";
    } else {
      assert (s + "\n")[1..] == s[1..] + "\n";
      NoMarkBefore(s[1..]);
      MarkStays(s, "\n");
    }
  }

  lemma IndentedIsKept()
    ensures Kept("  a") && Kept("a") && !Kept("#")
  {
    TrimSpaceIs("  ", "a", "");
    assert "  " + "a" + "" == "  a";
    TrimSpaceIs("", "a", "");
    assert "" + "a" + "" == "a";
    assert "  a"[1..] == " a" && " a"[1..] == "a" && !IsComment("a");
    assert !IsComment(" a");
  }

  /** A trimmed text without marks and carriage returns, one line of which is kept. */
  lemma OnePiece(pre: string, core: string, lines: seq<string>, line: string)
    requires Blank(pre) && core != "" && Trimmed(core) && '-' !in core && '\r' !in core
    requires Lines(core) == lines && KeptOf(lines, |lines|) == [line]
    ensures Pieces(pre + core) == [line]
  {
    TrimSpaceIs(pre, core, "");
    assert pre + core + "" == pre + core;
    TrimSpaceIs("", core, "");
    assert "" + core + "" == core;
    NoDash(core);
    ChunksWithoutMark(core);
    PiecesOne(PieceOf, core);
    assert Join([line]) == line;
  }

  lemma {:induction false} NoDash(s: string)
    requires '-' !in s
    ensures !HasMark(s)
  {
    if s != "" {
      assert s[0] in s;
      NoDash(s[1..]);
    }
  }

  lemma CommentedLines()
    ensures Lines("#\n  a") == ["#", "  a"] && KeptOf(["#", "  a"], 2) == ["  a"]
  {
    IndentedIsKept();
    LinesAppend("#", "  a");
    LineAlone("  a");
    assert "#" + "\n" + "  a" == "#\n  a";
    KeptNext(["#", "  a"], 2);
    KeptNext(["#", "  a"], 1);
  }

  lemma PlainLines()
    ensures Lines("a") == ["a"] && KeptOf(["a"], 1) == ["a"]
  {
    IndentedIsKept();
    LineAlone("a");
    KeptNext(["a"], 1);
  }

  /** At the top of a document a comment does make a difference: it keeps the indentation of the
      first line behind it, which is trimmed otherwise. */
  lemma LeadingCommentMatters()
    ensures Noise("#")
    ensures Pieces("\n#\n  a") == ["  a"]
    ensures Pieces("\n  a") == ["a"]
  {
    IndentedIsKept();
    assert WithoutCR("#") == "#";
    NoDash("#");
    WithComment();
    WithoutComment();
  }

  lemma WithComment()
    ensures Pieces("\n#\n  a") == ["  a"]
  {
    CommentedLines();
    OnePiece("\n", "#\n  a", ["#", "  a"], "  a");
    assert "\n" + "#\n  a" == "\n#\n  a";
  }

  lemma WithoutComment()
    ensures Pieces("\n  a") == ["a"]
  {
    PlainLines();
    OnePiece("\n  ", "a", ["a"], "a");
    assert "\n  " + "a" == "\n  a";
  }
}
