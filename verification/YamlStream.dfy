/** The framing of YAML streams in k8s/k8s.go: `EncodeYAMLAll` puts encoded documents behind
    markers, `DecodeAllYAML` cuts a manifest at every "---" and cleans each piece. The codec of
    one document is a parameter. */
module YamlStream {
  import opened Text

  datatype Coded<T> = Ok(value: T) | Failed

  // ---------------------------------------------------------------------------------------
  // Writing
  // ---------------------------------------------------------------------------------------

  function AppendDoc(buf: string, data: string): string {
    buf + (if buf != "" then "\n---\n" else "---\n") + data
  }

  /** The stream of the first `n` encoded documents. */
  function Stream(docs: seq<string>, n: nat): string
    requires n <= |docs|
  {
    if n == 0 then "" else AppendDoc(Stream(docs, n - 1), docs[n - 1])
  }

  /** The first `n` results, unless one of them failed. */
  function AllCoded<T>(items: seq<Coded<T>>, n: nat): (r: Coded<seq<T>>)
    requires n <= |items|
    ensures r.Ok? ==> |r.value| == n && forall i | 0 <= i < n :: items[i] == Ok(r.value[i])
  {
    if n == 0 then Ok([])
    else
      var rest := AllCoded(items, n - 1);
      if rest.Failed? || items[n - 1].Failed? then Failed
      else Ok(rest.value + [items[n - 1].value])
  }

  lemma {:induction false} FailedStays<T>(items: seq<Coded<T>>, n: nat)
    requires n <= |items| && AllCoded(items, n).Failed?
    ensures AllCoded(items, |items|).Failed?
    decreases |items| - n
  {
    if n < |items| { FailedStays(items, n + 1); }
  }

  lemma CodedStep<T>(items: seq<Coded<T>>, n: nat, values: seq<T>, v: T)
    requires n < |items| && AllCoded(items, n) == Ok(values) && items[n] == Ok(v)
    ensures AllCoded(items, n + 1) == Ok(values + [v])
  {
  }

  /** Every item encoded, or decoded. */
  function Codings<A, B>(list: seq<A>, code: A -> Coded<B>): (items: seq<Coded<B>>)
    ensures |items| == |list|
  {
    seq(|list|, i requires 0 <= i < |list| => code(list[i]))
  }

  lemma {:induction false} StreamPrefix(docs: seq<string>, more: seq<string>, n: nat)
    requires n <= |docs|
    ensures Stream(docs + more, n) == Stream(docs, n)
  {
    if n > 0 { StreamPrefix(docs, more, n - 1); }
  }

  method EncodeYAMLAll<R>(list: seq<R>, encode: R -> Coded<string>) returns (r: Coded<string>)
    ensures var all := AllCoded(Codings(list, encode), |list|);
            r == if all.Failed? then Failed else Ok(Stream(all.value, |list|))
  {
    ghost var items := Codings(list, encode);
    ghost var docs: seq<string> := [];
    var buf := "";
    for i := 0 to |list|
      invariant AllCoded(items, i) == Ok(docs) && |docs| == i && buf == Stream(docs, i)
    {
      var data := encode(list[i]);
      if data.Failed? {
        FailedStays(items, i + 1);
        return Failed;
      }
      if buf != "" {
        buf := buf + "\n---\n";
      } else {
        buf := buf + "---\n";
      }
      buf := buf + data.value;
      StreamPrefix(docs, [data.value], i);
      docs := docs + [data.value];
    }
    r := Ok(buf);
  }

  // ---------------------------------------------------------------------------------------
  // Reading
  // ---------------------------------------------------------------------------------------

  /** `^\s*#`, where `\s` is tab, newline, form feed, carriage return or blank. */
  predicate IsComment(line: string) {
    line != "" && (line[0] == '#' || (IsRegexSpace(line[0]) && IsComment(line[1..])))
  }

  predicate IsRegexSpace(c: char) {
    var n := c as int;
    n == 9 || n == 10 || n == 12 || n == 13 || n == 32
  }

  predicate Kept(line: string) {
    !IsComment(line) && TrimSpace(line) != ""
  }

  /** The lines among the first `n` that are neither comments nor blank. */
  function KeptOf(lines: seq<string>, n: nat): (r: seq<string>)
    requires n <= |lines|
    ensures forall l | l in r :: l in lines && Kept(l)
    ensures |r| <= n
  {
    if n == 0 then []
    else KeptOf(lines, n - 1) + (if Kept(lines[n - 1]) then [lines[n - 1]] else [])
  }

  function CleanLines(chunk: string): seq<string> {
    Lines(WithoutCR(TrimSpace(chunk)))
  }

  /** The lines of a chunk that reach `DecodeYAML`. */
  function KeptLines(chunk: string): seq<string> {
    KeptOf(CleanLines(chunk), |CleanLines(chunk)|)
  }

  /** The text handed to `DecodeYAML` for a chunk, if a line of it is left. */
  function PieceOf(chunk: string): seq<string> {
    if KeptLines(chunk) == [] then [] else [Join(KeptLines(chunk))]
  }

  /** The first `n` parts, one after the other. */
  function Flatten<T>(parts: seq<seq<T>>, n: nat): seq<T>
    requires n <= |parts|
  {
    if n == 0 then [] else Flatten(parts, n - 1) + parts[n - 1]
  }

  function Parts(piece: string -> seq<string>, chunks: seq<string>): (r: seq<seq<string>>)
    ensures |r| == |chunks|
  {
    seq(|chunks|, i requires 0 <= i < |chunks| => piece(chunks[i]))
  }

  function PiecesOf(piece: string -> seq<string>, chunks: seq<string>): seq<string> {
    Flatten(Parts(piece, chunks), |chunks|)
  }

  /** What `DecodeAllYAML` hands to `DecodeYAML` for a manifest, in order. */
  function Pieces(manifest: string): seq<string> {
    PiecesOf(PieceOf, Chunks(TrimSpace(manifest)))
  }

  method KeepLines(doc: string) returns (nonCommentLines: seq<string>)
    ensures nonCommentLines == KeptLines(doc)
  {
    var lines := CleanLines(doc);
    nonCommentLines := FilterLines(lines);
  }

  method FilterLines(lines: seq<string>) returns (nonCommentLines: seq<string>)
    ensures nonCommentLines == KeptOf(lines, |lines|)
  {
    nonCommentLines := [];
    for i := 0 to |lines|
      invariant nonCommentLines == KeptOf(lines, i)
    {
      if IsComment(lines[i]) { continue; }
      if TrimSpace(lines[i]) == "" { continue; }
      nonCommentLines := nonCommentLines + [lines[i]];
    }
  }

  lemma {:induction false} FlattenGrows<T>(parts: seq<seq<T>>, n: nat, m: nat)
    requires n <= m <= |parts|
    ensures Flatten(parts, n) <= Flatten(parts, m)
  {
    if n < m { FlattenGrows(parts, n, m - 1); }
  }

  /** Where the part at index `i` stands among all pieces. */
  lemma PartInPlace<R>(parts: seq<seq<string>>, decode: string -> Coded<R>, i: nat)
    requires i < |parts| && |parts[i]| <= 1
    ensures var pieces, k := Flatten(parts, |parts|), |Flatten(parts, i)|;
      && |Flatten(parts, i + 1)| == k + |parts[i]| <= |pieces|
      && (parts[i] != [] ==> Codings(pieces, decode)[k] == decode(parts[i][0]))
  {
    FlattenGrows(parts, i + 1, |parts|);
    assert parts[i] != [] ==> Flatten(parts, i + 1)[|Flatten(parts, i)|] == parts[i][0];
  }

  /** One turn of the loop of `DecodeAllYAML`, up to the call of `DecodeYAML`. */
  method CleanPiece(doc: string) returns (piece: seq<string>)
    ensures piece == PieceOf(doc) && |piece| <= 1
  {
    var nonCommentLines := KeepLines(doc);
    if |nonCommentLines| == 0 { return []; }
    piece := [Join(nonCommentLines)];
  }

  /** The loop of `DecodeAllYAML` over the chunks of the manifest. */
  method DecodeChunks<R>(docs: seq<string>, decode: string -> Coded<R>,
                         ghost parts: seq<seq<string>>) returns (r: Coded<seq<R>>)
    requires parts == Parts(PieceOf, docs)
    ensures var pieces := Flatten(parts, |parts|);
            r == AllCoded(Codings(pieces, decode), |pieces|)
  {
    ghost var pieces := Flatten(parts, |parts|);
    ghost var all := Codings(pieces, decode);
    var results: seq<R> := [];
    for i := 0 to |docs|
      invariant |Flatten(parts, i)| == |results| <= |pieces|
      invariant AllCoded(all, |results|) == Ok(results)
    {
      var piece := CleanPiece(docs[i]);
      PartInPlace(parts, decode, i);
      if piece == [] { continue; }
      var obj := decode(piece[0]);
      if obj.Failed? {
        FailedStays(all, |results| + 1);
        return Failed;
      }
      CodedStep(all, |results|, results, obj.value);
      results := results + [obj.value];
    }
    r := Ok(results);
  }

  method DecodeAllYAML<R>(yamlContent: string, decode: string -> Coded<R>)
      returns (r: Coded<seq<R>>)
    ensures r == AllCoded(Codings(Pieces(yamlContent), decode), |Pieces(yamlContent)|)
  {
    var docs := Chunks(TrimSpace(yamlContent));
    r := DecodeChunks(docs, decode, Parts(PieceOf, docs));
  }
}
