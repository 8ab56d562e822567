/** Which entries a diff has, and no others: every value in it is a nested diff, the null of a
    removed key, or what the right document has in that place. */
module RawEntries {
  import opened Values
  import opened RawDiff
  import opened RawPatch
  import opened RawLookup
  import Decimal

  /** Anything but two maps or two arrays: one entry with the right value, or none if they are equal.
      The left value does not appear. */
  lemma ReplacementIsOneEntry(a: Value, b: Value)
    requires !(a.Obj? && b.Obj?) && !(a.Arr? && b.Arr?)
    ensures forall k :: k in DiffOf(a, b) <==> k == "" && a != b
    ensures a != b ==> DiffOf(a, b)[""] == b
  {
  }

  /** Two maps: a key has an entry exactly if only one side has it, or both have it with values that
      differ by more than a diff can show. */
  lemma MapEntries(m: Doc, n: Doc, k: string)
    ensures var d := DiffOf(Obj(m), Obj(n));
      && (k in d <==>
            || (k in m && k !in n) || (k !in m && k in n)
            || (k in m && k in n && !SameUpTo(m[k], m[k], n[k])))
      && (k in d && k !in m ==> d[k] == n[k])
      && (k in d && k !in n ==> d[k] == Null)
      && (k in d && k in m && k in n ==> d[k] == Obj(DiffOf(m[k], n[k])))
  {
    DiffEntries(m, n, k);
    if k in m && k in n { DiffIsEmpty(m[k], n[k]); }
  }

  /** Two arrays: nothing beside the key "array", which is there exactly if some index differs; below
      it an entry for exactly the indices whose elements differ, padded with nulls, with the right
      element. */
  lemma ArrayEntries(s: seq<Value>, t: seq<Value>, k: string)
    ensures var d := DiffOf(Arr(s), Arr(t));
      && (k in d ==> k == "array" && d[k].Obj?)
      && ("array" in d <==> exists i: nat :: At(s, i) != At(t, i))
  {
    ArrayDiffEmpty(s, t, Longer(s, t));
    if exists i: nat :: At(s, i) != At(t, i) {
      var i: nat :| At(s, i) != At(t, i);
      ArrayDiffAt(s, t, Longer(s, t), i);
    }
    if ArrayDiff(s, t, Longer(s, t)) != map[] {
      var key :| key in ArrayDiff(s, t, Longer(s, t));
      ArrayDiffKey(s, t, Longer(s, t), key);
      ArrayDiffAt(s, t, Longer(s, t), Decimal.Parse(key));
    }
  }

  lemma ArrayElements(s: seq<Value>, t: seq<Value>, k: string)
    requires "array" in DiffOf(Arr(s), Arr(t))
    ensures DiffOf(Arr(s), Arr(t))["array"].Obj?
    ensures var e := DiffOf(Arr(s), Arr(t))["array"].fields;
      && (k in e <==> exists i: nat :: k == Decimal.Print(i) && At(s, i) != At(t, i))
      && (forall i: nat | k == Decimal.Print(i) && k in e :: e[k] == At(t, i))
  {
    var e := ArrayDiff(s, t, Longer(s, t));
    if k in e {
      ArrayDiffKey(s, t, Longer(s, t), k);
      ArrayDiffAt(s, t, Longer(s, t), Decimal.Parse(k));
    }
    forall i: nat | k == Decimal.Print(i)
      ensures k in e <==> At(s, i) != At(t, i)
      ensures k in e ==> e[k] == At(t, i)
    {
      ArrayDiffAt(s, t, Longer(s, t), i);
    }
  }

  /** Along every key path that leads to a value on both sides, the diff has the diff of the two
      values there, and nothing if they are the same up to what a diff can show. */
  lemma {:induction false} DiffAlong(a: Value, b: Value, path: seq<string>)
    requires Walk(a, Fields(path)).Found? && Walk(b, Fields(path)).Found?
    ensures var x, y := Walk(a, Fields(path)).value, Walk(b, Fields(path)).value;
      var found := Walk(Obj(DiffOf(a, b)), Fields(path));
      if path != [] && SameUpTo(x, x, y) then !found.Found?
      else found == Found(Obj(DiffOf(x, y)))
    decreases |path|
  {
    if path != [] {
      var k, rest := path[0], path[1..];
      FieldsStep(path);
      var m, n := a.fields, b.fields;
      MapEntries(m, n, k);
      DiffAlong(m[k], n[k], rest);
      if SameUpTo(m[k], m[k], n[k]) { SameAlong(m[k], n[k], rest); }
    }
  }

  /** Values that are the same up to what a diff can show are so along every path. */
  lemma {:induction false} SameAlong(a: Value, b: Value, path: seq<string>)
    requires SameUpTo(a, a, b)
    requires Walk(a, Fields(path)).Found? && Walk(b, Fields(path)).Found?
    ensures var x, y := Walk(a, Fields(path)).value, Walk(b, Fields(path)).value; SameUpTo(x, x, y)
    decreases |path|
  {
    if path != [] {
      FieldsStep(path);
      SameAlong(a.fields[path[0]], b.fields[path[0]], path[1..]);
    }
  }

  lemma FieldsSnoc(path: seq<string>, k: string)
    ensures Fields(path + [k]) == Fields(path) + [Field(k)]
  {
  }

  /** Below a path to maps on both sides: an added key is found in the diff with the right value, a
      removed one with null, and one that neither side has is not found. */
  lemma KeyAlong(a: Value, b: Value, path: seq<string>, k: string)
    requires Walk(a, Fields(path)).Found? && Walk(a, Fields(path)).value.Obj?
    requires Walk(b, Fields(path)).Found? && Walk(b, Fields(path)).value.Obj?
    ensures var m, n := Walk(a, Fields(path)).value.fields, Walk(b, Fields(path)).value.fields;
      var found := Walk(Obj(DiffOf(a, b)), Fields(path + [k]));
      && (k !in m && k in n ==> found == Found(n[k]))
      && (k in m && k !in n ==> found == Found(Null))
      && (k !in m && k !in n ==> !found.Found?)
  {
    var x, y := Walk(a, Fields(path)).value, Walk(b, Fields(path)).value;
    var d := Obj(DiffOf(a, b));
    DiffAlong(a, b, path);
    FieldsSnoc(path, k);
    WalkAppend(d, Fields(path), [Field(k)]);
    MapEntries(x.fields, y.fields, k);
    if Walk(d, Fields(path)).Found? { WalkSnoc(d, Fields(path), Field(k)); }
    assert SameUpTo(x, x, y) ==> x.fields.Keys == y.fields.Keys;
  }

  /** Below a path to two values that are neither two maps nor two arrays: the right value under the
      key "", and nothing else. */
  lemma ReplacedAlong(a: Value, b: Value, path: seq<string>, k: string)
    requires Walk(a, Fields(path)).Found? && Walk(b, Fields(path)).Found?
    requires var x, y := Walk(a, Fields(path)).value, Walk(b, Fields(path)).value;
      x != y && !(x.Obj? && y.Obj?) && !(x.Arr? && y.Arr?)
    ensures Walk(Obj(DiffOf(a, b)), Fields(path + [k]))
         == if k == "" then Walk(b, Fields(path)) else Failed(NotFound)
  {
    var x, y := Walk(a, Fields(path)).value, Walk(b, Fields(path)).value;
    ReplacementIsOneEntry(x, y);
    DiffIsEmpty(x, y);
    DiffAlong(a, b, path);
    FieldsSnoc(path, k);
    WalkSnoc(Obj(DiffOf(a, b)), Fields(path), Field(k));
  }
}
