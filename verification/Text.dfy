/** The string routines that the YAML framing uses: trimming, lines, and splitting at "---". */
module Text {

  /** `unicode.IsSpace`. */
  predicate IsSpace(c: char) {
    var n := c as int;
    || 9 <= n <= 13 || n == 32 || n == 0x85 || n == 0xA0 || n == 0x1680
    || 0x2000 <= n <= 0x200A || n == 0x2028 || n == 0x2029 || n == 0x202F
    || n == 0x205F || n == 0x3000
  }

  predicate Blank(s: string) {
    forall c | c in s :: IsSpace(c)
  }

  function TrimLeft(s: string): string {
    if s != "" && IsSpace(s[0]) then TrimLeft(s[1..]) else s
  }

  function TrimRight(s: string): string {
    if s != "" && IsSpace(s[|s| - 1]) then TrimRight(s[..|s| - 1]) else s
  }

  /** `strings.TrimSpace`. */
  function TrimSpace(s: string): string {
    TrimRight(TrimLeft(s))
  }

  /** Blank text around a core that neither starts nor ends with a space trims to the core. */
  lemma {:induction false} TrimRightIs(core: string, post: string)
    requires Blank(post) && (core != "" ==> !IsSpace(core[|core| - 1]))
    ensures TrimRight(core + post) == core
    decreases |post|
  {
    if post == "" {
      assert core + post == core;
    } else {
      assert post[|post| - 1] in post;
      assert (core + post)[..|core + post| - 1] == core + post[..|post| - 1];
      TrimRightIs(core, post[..|post| - 1]);
    }
  }

  lemma {:induction false} TrimLeftIs(pre: string, core: string)
    requires Blank(pre) && (core != "" ==> !IsSpace(core[0]))
    ensures TrimLeft(pre + core) == core
    decreases |pre|
  {
    if pre == "" {
      assert pre + core == core;
    } else {
      assert pre[0] in pre;
      assert (pre + core)[1..] == pre[1..] + core;
      TrimLeftIs(pre[1..], core);
    }
  }

  predicate Trimmed(core: string) {
    core != "" ==> !IsSpace(core[0]) && !IsSpace(core[|core| - 1])
  }

  lemma BlankConcat(a: string, b: string)
    requires Blank(a) && Blank(b)
    ensures Blank(a + b)
  {
  }

  lemma TrimSpaceIs(pre: string, core: string, post: string)
    requires Blank(pre) && Blank(post) && Trimmed(core)
    ensures TrimSpace(pre + core + post) == core
  {
    if core == "" {
      BlankConcat(pre, post);
      assert pre + core + post == (pre + post) + "";
      TrimLeftIs(pre + post, "");
    } else {
      assert pre + core + post == pre + (core + post);
      assert (core + post)[0] == core[0];
      TrimLeftIs(pre, core + post);
      TrimRightIs(core, post);
    }
  }

  lemma {:induction false} TrimLeftParts(s: string) returns (pre: string)
    ensures s == pre + TrimLeft(s) && Blank(pre)
    ensures TrimLeft(s) != "" ==> !IsSpace(TrimLeft(s)[0])
  {
    pre := "";
    if s != "" && IsSpace(s[0]) {
      var rest := TrimLeftParts(s[1..]);
      pre := [s[0]] + rest;
      assert s == [s[0]] + s[1..];
    }
  }

  lemma {:induction false} TrimRightParts(s: string) returns (post: string)
    ensures s == TrimRight(s) + post && Blank(post)
    ensures TrimRight(s) != "" ==> !IsSpace(TrimRight(s)[|TrimRight(s)| - 1])
  {
    post := "";
    if s != "" && IsSpace(s[|s| - 1]) {
      var rest := TrimRightParts(s[..|s| - 1]);
      post := rest + [s[|s| - 1]];
      assert s == s[..|s| - 1] + [s[|s| - 1]];
    }
  }

  /** What `TrimSpace` cuts off on both sides. */
  lemma TrimSpaceParts(s: string) returns (pre: string, post: string)
    ensures s == pre + TrimSpace(s) + post && Blank(pre) && Blank(post) && Trimmed(TrimSpace(s))
  {
    pre := TrimLeftParts(s);
    post := TrimRightParts(TrimLeft(s));
    if TrimSpace(s) != "" { assert TrimSpace(s)[0] == TrimLeft(s)[0]; }
  }

  /** Blank text around a string does not change its trimmed form. */
  lemma TrimAround(pre: string, s: string, post: string)
    requires Blank(pre) && Blank(post)
    ensures TrimSpace(pre + s + post) == TrimSpace(s)
  {
    var a, b := TrimSpaceParts(s);
    TrimTwice(pre, a, TrimSpace(s), b, post);
  }

  lemma TrimTwice(pre: string, a: string, core: string, b: string, post: string)
    requires Blank(pre) && Blank(a) && Blank(b) && Blank(post) && Trimmed(core)
    ensures TrimSpace(pre + (a + core + b) + post) == core
  {
    BlankConcat(pre, a);
    BlankConcat(b, post);
    assert pre + (a + core + b) + post == (pre + a) + core + (b + post);
    TrimSpaceIs(pre + a, core, b + post);
  }

  // ---------------------------------------------------------------------------------------
  // Lines
  // ---------------------------------------------------------------------------------------

  /** `strings.ReplaceAll(s, "\r", "")`. */
  function WithoutCR(s: string): (r: string)
    ensures '\r' !in r && |r| <= |s|
    ensures '\r' !in s ==> r == s
  {
    if s == "" then "" else (if s[0] == '\r' then "" else [s[0]]) + WithoutCR(s[1..])
  }

  /** `strings.Split(s, "\n")`. */
  function Lines(s: string): (r: seq<string>)
    ensures r != []
    ensures forall l | l in r :: '\n' !in l
  {
    if s == "" then [""]
    else
      var rest := Lines(s[1..]);
      if s[0] == '\n' then [""] + rest else [[s[0]] + rest[0]] + rest[1..]
  }

  /** `strings.Join(lines, "\n")`. */
  function Join(lines: seq<string>): string {
    if lines == [] then ""
    else if |lines| == 1 then lines[0]
    else lines[0] + "\n" + Join(lines[1..])
  }

  lemma {:induction false} JoinLines(s: string)
    ensures Join(Lines(s)) == s
  {
    if s != "" {
      JoinLines(s[1..]);
      var rest := Lines(s[1..]);
      if s[0] == '\n' {
        assert ([""] + rest)[1..] == rest;
      } else if |rest| > 1 {
        assert Lines(s)[1..] == rest[1..];
      }
    }
  }

  lemma {:induction false} LinesAppend(line: string, s: string)
    requires '\n' !in line
    ensures Lines(line + "\n" + s) == [line] + Lines(s)
  {
    var all := line + "\n" + s;
    if line == "" {
      assert all[1..] == s;
    } else {
      assert all[1..] == line[1..] + "\n" + s && all[0] == line[0] && line[0] in line;
      LinesAppend(line[1..], s);
      assert ([line[1..]] + Lines(s))[1..] == Lines(s);
      assert [line[0]] + line[1..] == line;
    }
  }

  lemma {:induction false} LineAlone(line: string)
    requires '\n' !in line
    ensures Lines(line) == [line]
  {
    if line != "" {
      LineAlone(line[1..]);
      assert line[0] in line && [line[0]] + line[1..] == line;
    }
  }

  lemma {:induction false} LinesJoin(lines: seq<string>)
    requires lines != [] && forall l | l in lines :: '\n' !in l
    ensures Lines(Join(lines)) == lines
  {
    if |lines| == 1 {
      LineAlone(lines[0]);
    } else {
      LinesJoin(lines[1..]);
      LinesAppend(lines[0], Join(lines[1..]));
    }
  }

  // ---------------------------------------------------------------------------------------
  // Documents
  // ---------------------------------------------------------------------------------------

  const MARK: string := "---"

  /** `c` in front of the first chunk. */
  function Prepend(c: char, r: seq<string>): (q: seq<string>)
    requires r != []
    ensures |q| == |r|
  {
    [[c] + r[0]] + r[1..]
  }

  /** `strings.Split(s, "---")`: at the leftmost mark, then again in what follows it. */
  function Chunks(s: string): (r: seq<string>)
    ensures r != []
    decreases |s|
  {
    if s == "" then [""]
    else if MARK <= s then [""] + Chunks(s[3..])
    else Prepend(s[0], Chunks(s[1..]))
  }

  /** The last chunk of one part and the first of the next grow together. */
  function Weld(r: seq<string>, q: seq<string>): (w: seq<string>)
    requires r != [] && q != []
    ensures w != []
  {
    if |r| == 1 then [r[0] + q[0]] + q[1..] else [r[0]] + Weld(r[1..], q)
  }

  lemma WeldPrepend(c: char, r: seq<string>, q: seq<string>)
    requires r != [] && q != []
    ensures Weld(Prepend(c, r), q) == Prepend(c, Weld(r, q))
  {
    if |r| == 1 {
      assert ([c] + r[0]) + q[0] == [c] + (r[0] + q[0]);
    } else {
      assert Prepend(c, r)[1..] == r[1..];
    }
  }

  lemma MarkStays(x: string, y: string)
    requires y != "" && y[0] != '-' && x != ""
    ensures MARK <= x + y <==> MARK <= x
  {
    var xy := x + y;
    assert |x| == 1 ==> xy[1] != '-';
    assert |x| == 2 ==> xy[2] != '-';
    assert MARK <= xy <==> |xy| >= 3 && xy[0] == '-' && xy[1] == '-' && xy[2] == '-';
    assert MARK <= x <==> |x| >= 3 && x[0] == '-' && x[1] == '-' && x[2] == '-';
  }

  /** A mark never reaches across a character that is not a dash. */
  lemma {:induction false} ChunksBreak(x: string, y: string)
    requires y != "" && y[0] != '-'
    ensures Chunks(x + y) == Weld(Chunks(x), Chunks(y))
    decreases |x|
  {
    if x == "" {
      assert x + y == y && "" + Chunks(y)[0] == Chunks(y)[0];
    } else {
      MarkStays(x, y);
      if MARK <= x {
        assert (x + y)[3..] == x[3..] + y;
        ChunksBreak(x[3..], y);
        assert ([""] + Chunks(x[3..]))[1..] == Chunks(x[3..]);
      } else {
        assert (x + y)[1..] == x[1..] + y;
        ChunksBreak(x[1..], y);
        WeldPrepend(x[0], Chunks(x[1..]), Chunks(y));
      }
    }
  }

  /** `strings.Contains(s, "---")`. */
  predicate HasMark(s: string) {
    s != "" && (MARK <= s || HasMark(s[1..]))
  }

  lemma {:induction false} ChunksWithoutMark(s: string)
    requires !HasMark(s)
    ensures Chunks(s) == [s]
  {
    if s != "" {
      ChunksWithoutMark(s[1..]);
      assert [s[0]] + s[1..] == s;
    }
  }

  /** A chunk is no longer than the text, and shorter by a mark if there is one. */
  lemma {:induction false} ChunksAreShorter(s: string, k: nat)
    requires k < |Chunks(s)|
    ensures |Chunks(s)[k]| <= |s|
    ensures HasMark(s) ==> |Chunks(s)[k]| + 3 <= |s|
    decreases |s|
  {
    if s != "" {
      if MARK <= s {
        if k > 0 { ChunksAreShorter(s[3..], k - 1); }
      } else {
        ChunksAreShorter(s[1..], k);
      }
    }
  }

  lemma {:induction false} WeldAt(r: seq<string>, q: seq<string>)
    requires r != [] && q != []
    ensures var w := Weld(r, q);
      w == r[..|r| - 1] + [r[|r| - 1] + q[0]] + q[1..]
  {
    if |r| > 1 {
      WeldAt(r[1..], q);
      assert r[..|r| - 1] == [r[0]] + r[1..][..|r[1..]| - 1];
    }
  }

  lemma {:induction false} BlankHasNoMark(s: string)
    requires Blank(s)
    ensures !HasMark(s)
  {
    if s != "" {
      assert s[0] in s;
      BlankHasNoMark(s[1..]);
    }
  }

  /** Blank text in front of a text goes to its first chunk. */
  lemma {:induction false} ChunksBehindBlank(pre: string, s: string)
    requires Blank(pre)
    ensures Chunks(pre + s) == [pre + Chunks(s)[0]] + Chunks(s)[1..]
    decreases |pre|
  {
    if pre == "" {
      assert pre + s == s && pre + Chunks(s)[0] == Chunks(s)[0];
    } else {
      assert pre[0] in pre && (pre + s)[0] == pre[0] && (pre + s)[1..] == pre[1..] + s;
      ChunksBehindBlank(pre[1..], s);
      assert [pre[0]] + (pre[1..] + Chunks(s)[0]) == pre + Chunks(s)[0];
    }
  }

  /** Blank text behind a text goes to its last chunk. */
  lemma ChunksBeforeBlank(s: string, post: string)
    requires Blank(post)
    ensures var r := Chunks(s);
      Chunks(s + post) == r[..|r| - 1] + [r[|r| - 1] + post]
  {
    var r := Chunks(s);
    if post == "" {
      assert s + post == s && r[|r| - 1] + post == r[|r| - 1];
      assert r == r[..|r| - 1] + [r[|r| - 1]];
    } else {
      assert post[0] in post;
      ChunksBreak(s, post);
      BlankHasNoMark(post);
      ChunksWithoutMark(post);
      WeldAt(r, [post]);
    }
  }
}
