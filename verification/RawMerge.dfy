/** `Merge` and `mergeSlice` of raw/raw.go, and the algebra they obey. */
module RawMerge {
  import opened Values

  // ---------------------------------------------------------------------------------------
  // What merging means
  // ---------------------------------------------------------------------------------------

  /** The left slice, then what the right one adds to it. */
  function JoinSlices(s: seq<Value>, t: seq<Value>): seq<Value> {
    s + Without(t, s)
  }

  /** The value a key gets when the left document holds `x` and the right one holds `y`. */
  function Join(x: Value, y: Value): Value
    decreases x
  {
    match (x, y)
    case (Obj(m), Obj(n)) =>
      Obj(map k | k in m.Keys + n.Keys ::
            if k !in n then m[k] else if k !in m then n[k] else Join(m[k], n[k]))
    case (Arr(s), Arr(t)) => Arr(JoinSlices(s, t))
    case _ => y
  }

  /** Some key path leads through maps to a null on both sides. The source then asks a nil
      `reflect.Type` for its kind. */
  predicate Clash(x: Value, y: Value)
    decreases x
  {
    x.Obj? && y.Obj? &&
    exists k | k in x.fields && k in y.fields ::
      (x.fields[k].Null? && y.fields[k].Null?) || Clash(x.fields[k], y.fields[k])
  }

  /** What one key contributes to the merged map. */
  function JoinAt(m: Doc, n: Doc, k: string): Value
    requires k in m || k in n
  {
    if k !in n then m[k] else if k !in m then n[k] else Join(m[k], n[k])
  }

  predicate ClashAt(m: Doc, n: Doc, k: string)
    requires k in m && k in n
  {
    (m[k].Null? && n[k].Null?) || Clash(m[k], n[k])
  }

  /** The outcome of `Merge(a, b)`. */
  function Merged(a: Doc, b: Doc): Outcome<Doc> {
    if Clash(Obj(a), Obj(b)) then Panicked else Ok(Join(Obj(a), Obj(b)).fields)
  }

  // ---------------------------------------------------------------------------------------
  // The code
  // ---------------------------------------------------------------------------------------

  lemma WithoutNext(s: seq<Value>, i: nat, drop: seq<Value>)
    requires i < |s|
    ensures Without(s[..i + 1], drop)
         == Without(s[..i], drop) + (if s[i] in drop then [] else [s[i]])
  {
    assert s[..i + 1] == s[..i] + [s[i]];
    WithoutAppend(s[..i], [s[i]], drop);
  }

  /** The inner loop of `mergeSlice`. */
  method Occurs(v2: Value, s1: seq<Value>) returns (found: bool)
    ensures found <==> v2 in s1
  {
    found := false;
    for j := 0 to |s1|
      invariant !found && v2 !in s1[..j]
    {
      if s1[j] == v2 {
        found := true;
        break;
      }
    }
  }

  method MergeSlice(s1: seq<Value>, s2: seq<Value>) returns (mergedSlice: seq<Value>)
    ensures mergedSlice == JoinSlices(s1, s2)
  {
    mergedSlice := s1;
    for i := 0 to |s2|
      invariant mergedSlice == s1 + Without(s2[..i], s1)
    {
      var v2 := s2[i];
      var found := Occurs(v2, s1);
      WithoutNext(s2, i, s1);
      if found { continue; }
      mergedSlice := mergedSlice + [v2];
    }
    assert s2[..|s2|] == s2;
  }

  lemma KeyClashes(m: Doc, n: Doc, k: string)
    requires k in m && k in n && ClashAt(m, n, k)
    ensures Merged(m, n) == Panicked
  {
    assert k in Obj(m).fields && k in Obj(n).fields;
  }

  /** The keys of `map2` outside `todo` have been dealt with. */
  ghost predicate MergedSoFar(map1: Doc, map2: Doc, todo: set<string>, merged: Doc) {
    && todo <= map2.Keys
    && merged.Keys == map1.Keys + (map2.Keys - todo)
    && (forall k | k in merged && k in todo :: merged[k] == map1[k])
    && (forall k | k in merged && k !in todo :: merged[k] == JoinAt(map1, map2, k))
    && (forall k | k in map1 && k in map2 && k !in todo :: !ClashAt(map1, map2, k))
  }

  lemma AllMerged(map1: Doc, map2: Doc, merged: Doc)
    requires MergedSoFar(map1, map2, {}, merged)
    ensures Merged(map1, map2) == Ok(merged)
  {
    assert Join(Obj(map1), Obj(map2)).fields == merged;
  }

  lemma MergeStep(map1: Doc, map2: Doc, todo: set<string>, merged: Doc, key: string, v: Value)
    requires MergedSoFar(map1, map2, todo, merged)
    requires key in todo && v == JoinAt(map1, map2, key)
    requires key in map1 ==> !ClashAt(map1, map2, key)
    ensures MergedSoFar(map1, map2, todo - {key}, merged[key := v])
  {
  }

  /** The body of the second loop of `Merge`: what `key` is to hold next. */
  method MergeKey(map1: Doc, map2: Doc, merged: Doc, key: string) returns (r: Outcome<Value>)
    requires key in map2
    requires key in merged <==> key in map1
    requires key in merged ==> merged[key] == map1[key]
    ensures r == if key in map1 && ClashAt(map1, map2, key) then Panicked
                 else Ok(JoinAt(map1, map2, key))
    decreases Obj(map1), 0
  {
    var v2 := map2[key];
    if key in merged {
      var v1 := merged[key];
      assert v1 == Obj(map1).fields[key];
      if v1.Null? && v2.Null? {
        return Panicked;   // Kind() of a nil reflect.Type
      }
      if v1.Obj? && v2.Obj? {
        var inner := Merge(v1.fields, v2.fields);
        return if inner.Panicked? then Panicked else Ok(Obj(inner.value));
      }
      if v1.Arr? && v2.Arr? {
        var joined := MergeSlice(v1.items, v2.items);
        return Ok(Arr(joined));
      }
    }
    return Ok(v2);
  }

  /** The first loop of `Merge`. Go takes the keys of a map in an arbitrary order. */
  method Copy(map1: Doc) returns (merged: Doc)
    ensures merged == map1
  {
    merged := map[];
    var todo := map1.Keys;
    while todo != {}
      invariant todo <= map1.Keys
      invariant merged.Keys == map1.Keys - todo
      invariant forall k | k in merged :: merged[k] == map1[k]
      decreases |todo|
    {
      var key :| key in todo;
      merged := merged[key := map1[key]];
      todo := todo - {key};
    }
  }

  method Merge(map1: Doc, map2: Doc) returns (r: Outcome<Doc>)
    ensures r == Merged(map1, map2)
    decreases Obj(map1), 1
  {
    var merged := Copy(map1);
    var todo := map2.Keys;
    while todo != {}
      invariant MergedSoFar(map1, map2, todo, merged)
      decreases |todo|
    {
      var key :| key in todo;
      var v := MergeKey(map1, map2, merged, key);
      if v.Panicked? {
        KeyClashes(map1, map2, key);
        return Panicked;
      }
      MergeStep(map1, map2, todo, merged, key, v.value);
      merged, todo := merged[key := v.value], todo - {key};
    }
    AllMerged(map1, map2, merged);
    return Ok(merged);
  }

  // ---------------------------------------------------------------------------------------
  // Idempotence, identity, absorption
  // ---------------------------------------------------------------------------------------

  lemma {:induction false} JoinSelf(x: Value)
    ensures Join(x, x) == x
    ensures x.Obj? ==> (Clash(x, x) <==> !NullFree(x))
  {
    if x.Obj? {
      forall k | k in x.fields
        ensures Join(x.fields[k], x.fields[k]) == x.fields[k]
        ensures x.fields[k].Obj? ==> (Clash(x.fields[k], x.fields[k]) <==> !NullFree(x.fields[k]))
      {
        JoinSelf(x.fields[k]);
      }
      assert Join(x, x).fields == x.fields;
    } else if x.Arr? {
      WithoutAll(x.items, x.items);
    }
  }

  lemma JoinSlicesAbsorb(s: seq<Value>, t: seq<Value>)
    ensures JoinSlices(JoinSlices(s, t), t) == JoinSlices(s, t)
  {
    WithoutAll(t, JoinSlices(s, t));
  }

  lemma {:induction false} JoinAbsorbs(x: Value, y: Value)
    ensures Join(Join(x, y), y) == Join(x, y)
    ensures y.Obj? ==> (Clash(Join(x, y), y) <==> !NullFree(y))
    decreases x
  {
    JoinSelf(y);
    if x.Arr? && y.Arr? {
      JoinSlicesAbsorb(x.items, y.items);
    } else if x.Obj? && y.Obj? {
      var m, n := x.fields, y.fields;
      var j := Join(x, y).fields;
      forall k | k in n
        ensures Join(j[k], n[k]) == j[k]
        ensures n[k].Obj? ==> (Clash(j[k], n[k]) <==> !NullFree(n[k]))
        ensures n[k].Null? ==> j[k].Null?
      {
        if k in m { JoinAbsorbs(m[k], n[k]); } else { JoinSelf(n[k]); }
      }
      assert Join(Join(x, y), y).fields == j;
      if !NullFree(y) {
        var k :| k in n && (n[k].Null? || !NullFree(n[k]));
        assert k in j;
      }
    }
  }

  /** Merging a document into itself returns it, exactly when no map value in it is null;
      otherwise the call panics. */
  lemma MergeSelf(a: Doc)
    ensures Merged(a, a) == if NullFree(Obj(a)) then Ok(a) else Panicked
  {
    JoinSelf(Obj(a));
  }

  /** Merging the same right document a second time changes nothing, exactly when no map value
      in it is null; otherwise the second call panics. Kind mismatches do not matter. */
  lemma MergeAbsorbs(a: Doc, b: Doc)
    requires Merged(a, b).Ok?
    ensures Merged(Merged(a, b).value, b)
         == if NullFree(Obj(b)) then Merged(a, b) else Panicked
  {
    JoinAbsorbs(Obj(a), Obj(b));
  }

  /** The empty document is a two-sided identity, for every document. */
  lemma MergeIdentity(a: Doc)
    ensures Merged(a, map[]) == Ok(a)
    ensures Merged(map[], a) == Ok(a)
  {
    assert Join(Obj(a), Obj(map[])).fields == a;
    assert Join(Obj(map[]), Obj(a)).fields == a;
  }

  // ---------------------------------------------------------------------------------------
  // Associativity
  // ---------------------------------------------------------------------------------------

  lemma JoinSlicesAssociative(s: seq<Value>, t: seq<Value>, u: seq<Value>)
    ensures JoinSlices(JoinSlices(s, t), u) == JoinSlices(s, JoinSlices(t, u))
  {
    calc {
      JoinSlices(s, JoinSlices(t, u));
      { WithoutAppend(t, Without(u, t), s); }
      s + (Without(t, s) + Without(Without(u, t), s));
      { WithoutTwice(u, t, s); }
      s + (Without(t, s) + Without(u, t + s));
      { WithoutSameDrop(u, t + s, JoinSlices(s, t)); }
      s + (Without(t, s) + Without(u, JoinSlices(s, t)));
      JoinSlices(s, t) + Without(u, JoinSlices(s, t));
    }
  }

  /** `z` already holds everything `x` would contribute: maps key by key, slices as a prefix
      that the rest of the slice does not repeat. */
  predicate Within(x: Value, z: Value)
    decreases x
  {
    match (x, z)
    case (Obj(m), Obj(n)) => forall k | k in m :: k in n && Within(m[k], n[k])
    case (Arr(s), Arr(t)) => s <= t && NoneIn(t[|s|..], s)
    case _ => true
  }

  predicate NoneIn(s: seq<Value>, drop: seq<Value>) {
    forall v | v in s :: v !in drop
  }

  lemma WithinSlice(s: seq<Value>, t: seq<Value>)
    ensures Within(Arr(s), Arr(t)) <==> JoinSlices(s, t) == t
  {
    if s <= t && NoneIn(t[|s|..], s) {
      PrefixIsJoined(s, t[|s|..]);
      assert t == s + t[|s|..];
    }
    if JoinSlices(s, t) == t { JoinedIsPrefix(s, t); }
  }

  lemma PrefixIsJoined(s: seq<Value>, rest: seq<Value>)
    requires NoneIn(rest, s)
    ensures Without(s + rest, s) == rest
  {
    WithoutAppend(s, rest, s);
    WithoutAll(s, s);
    WithoutNothing(rest, s);
  }

  lemma JoinedIsPrefix(s: seq<Value>, t: seq<Value>)
    requires s + Without(t, s) == t
    ensures s <= t && NoneIn(t[|s|..], s)
  {
    assert t[|s|..] == Without(t, s);
  }

  lemma {:induction false} WithinMeansNoChange(x: Value, z: Value)
    ensures Within(x, z) <==> Join(x, z) == z
    decreases x
  {
    if x.Obj? && z.Obj? {
      var m, n, j := x.fields, z.fields, Join(x, z).fields;
      forall k | k in m && k in n
        ensures Within(m[k], n[k]) <==> Join(m[k], n[k]) == n[k]
      {
        WithinMeansNoChange(m[k], n[k]);
      }
      if Within(x, z) {
        assert j == n;
      }
      if j == n {
        forall k | k in m ensures k in n && Within(m[k], n[k]) { assert k in j; }
      }
    } else if x.Arr? && z.Arr? {
      WithinSlice(x.items, z.items);
    }
  }

  /** Where the outer two documents hold the same kind of container and the middle one holds
      something else, the outer right value already covers the outer left one. */
  predicate Associates(x: Value, y: Value, z: Value)
    decreases x
  {
    if x.Obj? && y.Obj? && z.Obj? then
      forall k | k in x.fields && k in y.fields && k in z.fields ::
        Associates(x.fields[k], y.fields[k], z.fields[k])
    else
      SameContainer(x, z) && !SameContainer(x, y) ==> Within(x, z)
  }

  /** Three maps join associatively exactly if their shared keys do. */
  lemma JoinMaps(m: Doc, n: Doc, o: Doc)
    ensures Join(Join(Obj(m), Obj(n)), Obj(o)) == Join(Obj(m), Join(Obj(n), Obj(o)))
      <==> forall k | k in m && k in n && k in o ::
             Join(Join(m[k], n[k]), o[k]) == Join(m[k], Join(n[k], o[k]))
  {
    var l := Join(Join(Obj(m), Obj(n)), Obj(o)).fields;
    var r := Join(Obj(m), Join(Obj(n), Obj(o))).fields;
    assert l.Keys == r.Keys == m.Keys + n.Keys + o.Keys;
    forall k | k in l
      ensures k in m && k in n && k in o ==>
        l[k] == Join(Join(m[k], n[k]), o[k]) && r[k] == Join(m[k], Join(n[k], o[k]))
      ensures !(k in m && k in n && k in o) ==> l[k] == r[k]
    {
      JoinMapsAt(m, n, o, k);
    }
    assert l == r <==> forall k | k in l :: l[k] == r[k];
  }

  lemma JoinMapsAt(m: Doc, n: Doc, o: Doc, k: string)
    requires k in m || k in n || k in o
    ensures var l := Join(Join(Obj(m), Obj(n)), Obj(o)).fields;
      var r := Join(Obj(m), Join(Obj(n), Obj(o))).fields;
      && k in l && k in r
      && (if k in m && k in n && k in o then
            && l[k] == Join(Join(m[k], n[k]), o[k])
            && r[k] == Join(m[k], Join(n[k], o[k]))
          else l[k] == r[k])
  {
  }

  lemma {:induction false} JoinAssociative(x: Value, y: Value, z: Value)
    ensures Associates(x, y, z) <==> Join(Join(x, y), z) == Join(x, Join(y, z))
    decreases x
  {
    WithinMeansNoChange(x, z);
    if x.Obj? && y.Obj? && z.Obj? {
      var m, n, o := x.fields, y.fields, z.fields;
      forall k | k in m && k in n && k in o
        ensures Associates(m[k], n[k], o[k])
          <==> Join(Join(m[k], n[k]), o[k]) == Join(m[k], Join(n[k], o[k]))
      {
        JoinAssociative(m[k], n[k], o[k]);
      }
      JoinMaps(m, n, o);
    } else if x.Arr? && y.Arr? && z.Arr? {
      JoinSlicesAssociative(x.items, y.items, z.items);
    }
  }

  lemma {:induction false} NullFreeNeverClashes(x: Value, y: Value)
    requires NullFree(x) && NullFree(y)
    ensures !Clash(x, y)
    ensures NullFree(Join(x, y))
    decreases x
  {
    if x.Obj? && y.Obj? {
      forall k | k in x.fields && k in y.fields
        ensures !Clash(x.fields[k], y.fields[k]) && NullFree(Join(x.fields[k], y.fields[k]))
        ensures !Join(x.fields[k], y.fields[k]).Null?
      {
        NullFreeNeverClashes(x.fields[k], y.fields[k]);
      }
    }
  }

  /** On documents without null map values every merge is defined, and grouping to the left
      equals grouping to the right if and only if `Associates` holds. */
  lemma MergeAssociativeExactly(a: Doc, b: Doc, c: Doc)
    requires NullFree(Obj(a)) && NullFree(Obj(b)) && NullFree(Obj(c))
    ensures Merged(a, b).Ok? && Merged(b, c).Ok?
    ensures Merged(Merged(a, b).value, c).Ok? && Merged(a, Merged(b, c).value).Ok?
    ensures Merged(Merged(a, b).value, c) == Merged(a, Merged(b, c).value)
       <==> Associates(Obj(a), Obj(b), Obj(c))
  {
    NullFreeNeverClashes(Obj(a), Obj(b));
    NullFreeNeverClashes(Obj(b), Obj(c));
    NullFreeNeverClashes(Join(Obj(a), Obj(b)), Obj(c));
    NullFreeNeverClashes(Obj(a), Join(Obj(b), Obj(c)));
    JoinAssociative(Obj(a), Obj(b), Obj(c));
  }

  /** At every key path that two documents share they hold the same kind of value. */
  predicate SameKinds(x: Value, y: Value)
    decreases x
  {
    (x.Obj? <==> y.Obj?) && (x.Arr? <==> y.Arr?) &&
    (x.Obj? && y.Obj? ==>
       forall k | k in x.fields && k in y.fields :: SameKinds(x.fields[k], y.fields[k]))
  }

  lemma {:induction false} SameKindsAssociate(x: Value, y: Value, z: Value)
    requires SameKinds(x, y)
    ensures Associates(x, y, z)
    decreases x
  {
    if x.Obj? && y.Obj? && z.Obj? {
      forall k | k in x.fields && k in y.fields && k in z.fields
        ensures Associates(x.fields[k], y.fields[k], z.fields[k])
      {
        SameKindsAssociate(x.fields[k], y.fields[k], z.fields[k]);
      }
    }
  }

  /** Associativity on documents without null map values where shared key paths hold values of one
      kind; agreement of the first two documents is already enough. */
  lemma MergeAssociative(a: Doc, b: Doc, c: Doc)
    requires NullFree(Obj(a)) && NullFree(Obj(b)) && NullFree(Obj(c))
    requires SameKinds(Obj(a), Obj(b))
    ensures Merged(a, b).Ok? && Merged(b, c).Ok?
    ensures Merged(Merged(a, b).value, c) == Merged(a, Merged(b, c).value)
    ensures Merged(Merged(a, b).value, c).Ok?
  {
    SameKindsAssociate(Obj(a), Obj(b), Obj(c));
    MergeAssociativeExactly(a, b, c);
  }

  /** Without `Associates` grouping matters: a scalar between two maps forgets the left one. */
  lemma MergeNotAssociative() returns (a: Doc, b: Doc, c: Doc)
    ensures Merged(a, b).Ok? && Merged(b, c).Ok?
    ensures Merged(Merged(a, b).value, c) != Merged(a, Merged(b, c).value)
  {
    var left := Obj(map["a" := Atom("int", "1")]);
    var middle := Atom("int", "2");
    var right := Obj(map["b" := Atom("int", "3")]);
    a, b, c := map["k" := left], map["k" := middle], map["k" := right];
    assert !Within(left, right) by { assert "a" in left.fields; }
    assert !Associates(Obj(a), Obj(b), Obj(c)) by {
      assert "k" in a && "k" in b && "k" in c;
      assert !Associates(a["k"], b["k"], c["k"]);
    }
    MergeAssociativeExactly(a, b, c);
  }
}
