/** `diff` of raw/diff.go: what it computes, what it loses, and how to undo it. */
module RawDiff {
  import opened Values
  import Decimal

  // ---------------------------------------------------------------------------------------
  // What the diff is
  // ---------------------------------------------------------------------------------------

  /** A slice read with nil beyond its end. */
  function At(s: seq<Value>, i: nat): Value {
    if i < |s| then s[i] else Null
  }

  function Longer(s: seq<Value>, t: seq<Value>): nat {
    if |s| < |t| then |t| else |s|
  }

  /** The entries of the nested "array" map for the first `n` indices. */
  function ArrayDiff(s: seq<Value>, t: seq<Value>, n: nat): Doc {
    if n == 0 then map[]
    else
      var d := ArrayDiff(s, t, n - 1);
      if At(s, n - 1) != At(t, n - 1) then d[Decimal.Print(n - 1) := At(t, n - 1)] else d
  }

  /** A non-empty array diff is wrapped under the key "array". */
  function Boxed(d: Doc): Doc {
    if d == map[] then map[] else map["array" := Obj(d)]
  }

  function DiffOf(a: Value, b: Value): Doc
    decreases a
  {
    match a
    case Obj(m) =>
      if !b.Obj? then map["" := b]
      else
        var n := b.fields;
        map k | k in m.Keys + n.Keys &&
                (k in m && k in n ==> DiffOf(m[k], n[k]) != map[]) ::
          if k !in m then n[k] else if k !in n then Null else Obj(DiffOf(m[k], n[k]))
    case Arr(s) =>
      if !b.Arr? then map["" := b]
      else
        Boxed(ArrayDiff(s, b.items, Longer(s, b.items)))
    case _ =>
      if a != b then map["" := b] else map[]
  }

  /** Index `i` has an entry, with the right element, exactly when the slices differ there. */
  lemma {:induction false} ArrayDiffAt(s: seq<Value>, t: seq<Value>, n: nat, i: nat)
    ensures Decimal.Print(i) in ArrayDiff(s, t, n) <==> i < n && At(s, i) != At(t, i)
    ensures i < n && At(s, i) != At(t, i) ==> ArrayDiff(s, t, n)[Decimal.Print(i)] == At(t, i)
  {
    if n > 0 {
      ArrayDiffAt(s, t, n - 1, i);
      if Decimal.Print(i) == Decimal.Print(n - 1) { Decimal.PrintInjective(i, n - 1); }
    }
  }

  /** Every entry is the entry of some index. */
  lemma {:induction false} ArrayDiffKey(s: seq<Value>, t: seq<Value>, n: nat, k: string)
    requires k in ArrayDiff(s, t, n)
    ensures k == Decimal.Print(Decimal.Parse(k)) && Decimal.Parse(k) < n
  {
    Decimal.ParsePrint(n - 1);
    if k != Decimal.Print(n - 1) { ArrayDiffKey(s, t, n - 1, k); }
  }

  lemma ArrayDiffEmpty(s: seq<Value>, t: seq<Value>, n: nat)
    ensures ArrayDiff(s, t, n) == map[] <==> forall i: nat | i < n :: At(s, i) == At(t, i)
  {
    var d := ArrayDiff(s, t, n);
    if d != map[] {
      var k :| k in d;
      ArrayDiffKey(s, t, n, k);
      ArrayDiffAt(s, t, n, Decimal.Parse(k));
    }
    forall i: nat | i < n && d == map[] ensures At(s, i) == At(t, i) {
      ArrayDiffAt(s, t, n, i);
    }
  }

  // ---------------------------------------------------------------------------------------
  // The code
  // ---------------------------------------------------------------------------------------

  /** An entry that `diff` makes for a key of either map, if any. */
  predicate HasEntry(m: Doc, n: Doc, k: string) {
    k in m.Keys + n.Keys && (k in m && k in n ==> DiffOf(m[k], n[k]) != map[])
  }

  function EntryOf(m: Doc, n: Doc, k: string): Value
    requires HasEntry(m, n, k)
  {
    if k !in m then n[k] else if k !in n then Null else Obj(DiffOf(m[k], n[k]))
  }

  /** The first loop of `diff` has dealt with the keys of `m` outside `todo`. */
  ghost predicate FirstPass(m: Doc, n: Doc, todo: set<string>, result: Doc) {
    && (forall k :: k in result <==> k in m && k !in todo && HasEntry(m, n, k))
    && (forall k | k in result :: result[k] == EntryOf(m, n, k))
  }

  /** The second loop of `diff` has also dealt with the keys of `n` outside `todo`. */
  ghost predicate SecondPass(m: Doc, n: Doc, todo: set<string>, result: Doc) {
    && (forall k :: k in result <==> (k in m || k !in todo) && HasEntry(m, n, k))
    && (forall k | k in result :: result[k] == EntryOf(m, n, k))
  }

  lemma FirstStep(m: Doc, n: Doc, todo: set<string>, result: Doc, k: string, result': Doc)
    requires FirstPass(m, n, todo, result) && k in m
    requires result' == if HasEntry(m, n, k) then result[k := EntryOf(m, n, k)] else result
    ensures FirstPass(m, n, todo - {k}, result')
  {
  }

  lemma SecondStep(m: Doc, n: Doc, todo: set<string>, result: Doc, k: string, result': Doc)
    requires SecondPass(m, n, todo, result) && k in todo && k in n
    requires result' == if k in m then result else result[k := n[k]]
    ensures SecondPass(m, n, todo - {k}, result')
  {
  }

  lemma BetweenPasses(m: Doc, n: Doc, result: Doc)
    requires FirstPass(m, n, {}, result)
    ensures SecondPass(m, n, n.Keys, result)
  {
  }

  lemma DiffDone(m: Doc, n: Doc, result: Doc)
    requires SecondPass(m, n, {}, result)
    ensures result == DiffOf(Obj(m), Obj(n))
  {
    var d := DiffOf(Obj(m), Obj(n));
    assert forall k :: k in d <==> HasEntry(m, n, k);
    assert forall k | k in d :: d[k] == EntryOf(m, n, k);
  }

  lemma {:induction false} DiffSelf(a: Value)
    ensures DiffOf(a, a) == map[]
  {
    if a.Obj? {
      forall k | k in a.fields ensures DiffOf(a.fields[k], a.fields[k]) == map[] {
        DiffSelf(a.fields[k]);
      }
    } else if a.Arr? {
      ArrayDiffEmpty(a.items, a.items, |a.items|);
    }
  }

  method DiffMaps(m: Doc, n: Doc) returns (result: Doc)
    ensures result == DiffOf(Obj(m), Obj(n))
    decreases Obj(m), 0
  {
    result := map[];
    var todo := m.Keys;
    while todo != {}
      invariant todo <= m.Keys
      invariant FirstPass(m, n, todo, result)
      decreases |todo|
    {
      var key :| key in todo;
      ghost var before := result;
      assert m[key] == Obj(m).fields[key];
      if key in n {
        DiffSelf(m[key]);
        if m[key] != n[key] {
          var diffResult := Diff(m[key], n[key]);
          if diffResult != map[] {
            result := result[key := Obj(diffResult)];
          }
        }
      } else {
        result := result[key := Null];
      }
      FirstStep(m, n, todo, before, key, result);
      todo := todo - {key};
    }
    BetweenPasses(m, n, result);
    todo := n.Keys;
    while todo != {}
      invariant todo <= n.Keys
      invariant SecondPass(m, n, todo, result)
      decreases |todo|
    {
      var key :| key in todo;
      ghost var before := result;
      if key !in m {
        result := result[key := n[key]];
      }
      SecondStep(m, n, todo, before, key, result);
      todo := todo - {key};
    }
    DiffDone(m, n, result);
  }

  /** Adding an entry inside the wrapper, which is made when there is none yet. */
  lemma BoxedEntry(d: Doc, k: string, v: Value)
    ensures var r := Boxed(d);
      var made := if "array" in r then r else r["array" := Obj(map[])];
      && made["array"] == Obj(d)
      && made["array" := Obj(d[k := v])] == Boxed(d[k := v])
  {
    assert k in d[k := v];
    var r := Boxed(d);
    assert "array" in r <==> d != map[];
  }

  method DiffArrays(s: seq<Value>, t: seq<Value>) returns (result: Doc)
    ensures result == DiffOf(Arr(s), Arr(t))
  {
    result := map[];
    var maxLen := |s|;
    if |t| > maxLen { maxLen := |t|; }
    for i := 0 to maxLen
      invariant result == Boxed(ArrayDiff(s, t, i))
    {
      var valA, valB := Null, Null;
      if i < |s| { valA := s[i]; }
      if i < |t| { valB := t[i]; }
      if valA != valB {
        BoxedEntry(ArrayDiff(s, t, i), Decimal.Print(i), valB);
        if "array" !in result { result := result["array" := Obj(map[])]; }
        var nested := result["array"].fields[Decimal.Print(i) := valB];
        result := result["array" := Obj(nested)];
      }
    }
  }

  method Diff(a: Value, b: Value) returns (result: Doc)
    ensures result == DiffOf(a, b)
    decreases a, 1
  {
    match a
    case Obj(m) =>
      if !b.Obj? { return map["" := b]; }
      result := DiffMaps(m, b.fields);
    case Arr(s) =>
      if !b.Arr? { return map["" := b]; }
      result := DiffArrays(s, b.items);
    case _ =>
      if a != b { return map["" := b]; }
      result := map[];
  }
}
