/** What a diff remembers: two right documents have the same diff from `a` exactly when they are
    `SameUpTo` each other, and `Patch` recovers the right document. */
module RawPatch {
  import opened Values
  import opened RawDiff
  import Decimal

  // ---------------------------------------------------------------------------------------
  // Trailing nulls
  // ---------------------------------------------------------------------------------------

  function Strip(s: seq<Value>): (r: seq<Value>)
    ensures r <= s
    ensures r != [] ==> !r[|r| - 1].Null?
  {
    if s != [] && s[|s| - 1].Null? then Strip(s[..|s| - 1]) else s
  }

  lemma {:induction false} StripAt(s: seq<Value>, i: nat)
    ensures At(Strip(s), i) == At(s, i)
  {
    if s != [] && s[|s| - 1].Null? { StripAt(s[..|s| - 1], i); }
  }

  ghost predicate SamePadded(s: seq<Value>, t: seq<Value>) {
    forall i: nat :: At(s, i) == At(t, i)
  }

  lemma StripSame(s: seq<Value>, t: seq<Value>)
    ensures Strip(s) == Strip(t) <==> SamePadded(s, t)
  {
    var p, q := Strip(s), Strip(t);
    if p == q {
      forall i: nat ensures At(s, i) == At(t, i) { StripAt(s, i); StripAt(t, i); }
    }
    if SamePadded(s, t) {
      forall i: nat ensures At(p, i) == At(q, i) { StripAt(s, i); StripAt(t, i); }
      SameCores(p, q);
    }
  }

  lemma SameCores(p: seq<Value>, q: seq<Value>)
    requires SamePadded(p, q)
    requires p != [] ==> !p[|p| - 1].Null?
    requires q != [] ==> !q[|q| - 1].Null?
    ensures p == q
  {
    assert p != [] ==> At(p, |p| - 1) == At(q, |p| - 1);
    assert q != [] ==> At(p, |q| - 1) == At(q, |q| - 1);
    forall i | 0 <= i < |p| ensures p[i] == q[i] {
      assert At(p, i) == At(q, i);
    }
  }

  // ---------------------------------------------------------------------------------------
  // The kernel of diff(a, _)
  // ---------------------------------------------------------------------------------------

  /** A map `n` whose diff from the map `m` is the "replaced by `c`" marker: nothing changes but
      the key "", which appears with value `c`, or disappears and `c` is null. */
  predicate Mimics(m: Doc, n: Doc, c: Value)
    decreases Obj(m), 0
  {
    && (("" !in m && "" in n && n[""] == c) || ("" in m && "" !in n && c.Null?))
    && (forall k | k in m.Keys + n.Keys && k != "" ::
          k in m && k in n && SameUpTo(m[k], m[k], n[k]))
  }

  /** `b` and `c` are equal except for trailing nulls of arrays that stand, along keys of maps,
      where `a` has an array too; and except that a map may mimic a replacement. */
  predicate SameUpTo(a: Value, b: Value, c: Value)
    decreases a, 1
  {
    match a
    case Obj(m) =>
      if b.Obj? && c.Obj? then
        b.fields.Keys == c.fields.Keys &&
        forall k | k in b.fields ::
          if k in m then SameUpTo(m[k], b.fields[k], c.fields[k]) else b.fields[k] == c.fields[k]
      else if b.Obj? then Mimics(m, b.fields, c)
      else if c.Obj? then Mimics(m, c.fields, b)
      else b == c
    case Arr(_) =>
      if b.Arr? && c.Arr? then Strip(b.items) == Strip(c.items) else b == c
    case _ => b == c
  }

  lemma ArrayKernel(s: seq<Value>, t: seq<Value>, u: seq<Value>)
    ensures DiffOf(Arr(s), Arr(t)) == DiffOf(Arr(s), Arr(u)) <==> Strip(t) == Strip(u)
  {
    StripSame(t, u);
    var nt, nu := Longer(s, t), Longer(s, u);
    var dt, du := ArrayDiff(s, t, nt), ArrayDiff(s, u, nu);
    if SamePadded(t, u) { ArrayDiffsSame(s, t, u); }
    if DiffOf(Arr(s), Arr(t)) == DiffOf(Arr(s), Arr(u)) {
      SameBoxed(dt, du);
      SameArrayDiffs(s, t, u);
    }
  }

  lemma SameBoxed(d: Doc, e: Doc)
    requires Boxed(d) == Boxed(e)
    ensures d == e
  {
    assert "array" in Boxed(d) <==> d != map[];
    assert "array" in Boxed(e) <==> e != map[];
    assert d != map[] ==> Boxed(d)["array"] == Obj(d);
  }

  lemma ArrayDiffsSame(s: seq<Value>, t: seq<Value>, u: seq<Value>)
    requires SamePadded(t, u)
    ensures ArrayDiff(s, t, Longer(s, t)) == ArrayDiff(s, u, Longer(s, u))
  {
    var dt, du := ArrayDiff(s, t, Longer(s, t)), ArrayDiff(s, u, Longer(s, u));
    forall k: string
      ensures k in dt <==> k in du
      ensures k in dt ==> dt[k] == du[k]
    {
      if k in dt { ArrayDiffsAgree(s, t, u, k); }
      if k in du { ArrayDiffsAgree(s, u, t, k); }
    }
  }

  lemma SameArrayDiffs(s: seq<Value>, t: seq<Value>, u: seq<Value>)
    requires ArrayDiff(s, t, Longer(s, t)) == ArrayDiff(s, u, Longer(s, u))
    ensures SamePadded(t, u)
  {
    forall i: nat ensures At(t, i) == At(u, i) {
      ArrayDiffAt(s, t, Longer(s, t), i);
      ArrayDiffAt(s, u, Longer(s, u), i);
    }
  }

  lemma ArrayDiffsAgree(s: seq<Value>, t: seq<Value>, u: seq<Value>, k: string)
    requires SamePadded(t, u)
    requires k in ArrayDiff(s, t, Longer(s, t))
    ensures k in ArrayDiff(s, u, Longer(s, u))
    ensures ArrayDiff(s, t, Longer(s, t))[k] == ArrayDiff(s, u, Longer(s, u))[k]
  {
    var i := Decimal.Parse(k);
    ArrayDiffKey(s, t, Longer(s, t), k);
    ArrayDiffAt(s, t, Longer(s, t), i);
    assert At(t, i) == At(u, i);
    ArrayDiffAt(s, u, Longer(s, u), i);
  }

  lemma DiffEntries(m: Doc, n: Doc, k: string)
    ensures k in DiffOf(Obj(m), Obj(n)) <==> HasEntry(m, n, k)
    ensures HasEntry(m, n, k) ==> DiffOf(Obj(m), Obj(n))[k] == EntryOf(m, n, k)
  {
  }

  lemma {:induction false} MimicKernel(m: Doc, n: Doc, c: Value)
    requires !c.Obj?
    ensures DiffOf(Obj(m), Obj(n)) == map["" := c] <==> Mimics(m, n, c)
    decreases Obj(m), 0
  {
    var d := DiffOf(Obj(m), Obj(n));
    forall k ensures k in d <==> HasEntry(m, n, k)
             ensures k in d ==> d[k] == EntryOf(m, n, k) {
      DiffEntries(m, n, k);
    }
    forall k | k in m && k in n
      ensures DiffOf(m[k], n[k]) == map[] <==> SameUpTo(m[k], m[k], n[k])
    {
      assert m[k] == Obj(m).fields[k];
      DiffSelf(m[k]);
      DiffKernel(m[k], m[k], n[k]);
    }
    if d == map["" := c] {
      assert "" in d && d[""] == c;
      forall k | k in m.Keys + n.Keys && k != ""
        ensures k in m && k in n && SameUpTo(m[k], m[k], n[k])
      {
        assert k !in d;
      }
    }
    if Mimics(m, n, c) {
      assert d.Keys == {""};
    }
  }

  /** Two maps give one diff key by key. */
  lemma {:induction false} MapKernel(m: Doc, n: Doc, o: Doc)
    ensures DiffOf(Obj(m), Obj(n)) == DiffOf(Obj(m), Obj(o)) <==> SameUpTo(Obj(m), Obj(n), Obj(o))
    decreases Obj(m), 0
  {
    var d, e := DiffOf(Obj(m), Obj(n)), DiffOf(Obj(m), Obj(o));
    forall k ensures k in d <==> HasEntry(m, n, k)
             ensures k in d ==> d[k] == EntryOf(m, n, k)
             ensures k in e <==> HasEntry(m, o, k)
             ensures k in e ==> e[k] == EntryOf(m, o, k) {
      DiffEntries(m, n, k);
      DiffEntries(m, o, k);
    }
    forall k | k in m && k in n && k in o
      ensures DiffOf(m[k], n[k]) == DiffOf(m[k], o[k]) <==> SameUpTo(m[k], n[k], o[k])
    {
      assert m[k] == Obj(m).fields[k];
      DiffKernel(m[k], n[k], o[k]);
    }
    if d == e {
      forall k ensures k in n <==> k in o {
        assert k in d <==> k in e;
        assert k in d ==> d[k] == e[k];
      }
      forall k | k in n
        ensures if k in m then SameUpTo(m[k], n[k], o[k]) else n[k] == o[k]
      {
        assert k in d <==> k in e;
        assert k in d ==> d[k] == e[k];
      }
    }
    if SameUpTo(Obj(m), Obj(n), Obj(o)) {
      assert d == e;
    }
  }

  /** Exactly what the diff from `a` fails to tell apart, for all documents. */
  lemma {:induction false} DiffKernel(a: Value, b: Value, c: Value)
    ensures DiffOf(a, b) == DiffOf(a, c) <==> SameUpTo(a, b, c)
    decreases a, 1
  {
    match a
    case Obj(m) =>
      if b.Obj? && c.Obj? {
        MapKernel(m, b.fields, c.fields);
      } else if b.Obj? {
        MimicKernel(m, b.fields, c);
      } else if c.Obj? {
        MimicKernel(m, c.fields, b);
      } else {
        assert map["" := b][""] == b && map["" := c][""] == c;
      }
    case Arr(s) =>
      if b.Arr? && c.Arr? {
        ArrayKernel(s, b.items, c.items);
      } else {
        ReplacedArray(s, b, c);
      }
    case _ =>
      assert map["" := b][""] == b && map["" := c][""] == c;
  }

  lemma ReplacedArray(s: seq<Value>, b: Value, c: Value)
    requires !b.Arr? || !c.Arr?
    ensures DiffOf(Arr(s), b) == DiffOf(Arr(s), c) <==> b == c
  {
    assert map["" := b][""] == b && map["" := c][""] == c;
    if b.Arr? { assert "" !in DiffOf(Arr(s), b); }
    if c.Arr? { assert "" !in DiffOf(Arr(s), c); }
  }

  /** The guard `len(diffResult) != 0` hides only what `SameUpTo` describes. */
  lemma DiffIsEmpty(a: Value, b: Value)
    ensures DiffOf(a, b) == map[] <==> SameUpTo(a, a, b)
  {
    DiffSelf(a);
    DiffKernel(a, a, b);
  }

  // ---------------------------------------------------------------------------------------
  // Documents on which nothing is lost
  // ---------------------------------------------------------------------------------------

  /** No array that stands along keys of maps ends in null. */
  predicate NoTrailingNull(v: Value) {
    match v
    case Obj(m) => forall k | k in m :: NoTrailingNull(m[k])
    case Arr(s) => s != [] ==> !s[|s| - 1].Null?
    case _ => true
  }

  /** No map along keys of maps uses the empty key. */
  predicate NoMarkerKey(v: Value) {
    v.Obj? ==> "" !in v.fields && forall k | k in v.fields :: NoMarkerKey(v.fields[k])
  }

  lemma {:induction false} SameUpToIsEquality(a: Value, b: Value, c: Value)
    requires NoTrailingNull(b) && NoTrailingNull(c)
    requires a == b || (NoMarkerKey(a) && NoMarkerKey(b) && NoMarkerKey(c))
    ensures SameUpTo(a, b, c) <==> b == c
    decreases a
  {
    if a.Obj? && b.Obj? && c.Obj? {
      forall k | k in a.fields && k in b.fields && k in c.fields
        ensures SameUpTo(a.fields[k], b.fields[k], c.fields[k]) <==> b.fields[k] == c.fields[k]
      {
        SameUpToIsEquality(a.fields[k], b.fields[k], c.fields[k]);
      }
      assert SameUpTo(a, b, c) ==> b.fields == c.fields;
    }
  }

  /** The diff loses nothing: it determines the right document. */
  lemma DiffLosesNothing(a: Value, b: Value, c: Value)
    requires NoMarkerKey(a) && NoMarkerKey(b) && NoMarkerKey(c)
    requires NoTrailingNull(b) && NoTrailingNull(c)
    ensures DiffOf(a, b) == DiffOf(a, c) <==> b == c
  {
    SameUpToIsEquality(a, b, c);
    DiffKernel(a, b, c);
  }

  /** The diff is empty exactly on equal documents; the empty key does no harm here. */
  lemma DiffEmptyMeansEqual(a: Value, b: Value)
    requires NoTrailingNull(a) && NoTrailingNull(b)
    ensures DiffOf(a, b) == map[] <==> a == b
  {
    SameUpToIsEquality(a, a, b);
    DiffIsEmpty(a, b);
  }

  /** Both side conditions are needed, also below a key of two maps: a trailing null is invisible,
      and an added empty key looks like a replacement. */
  lemma DiffLosesSomething() returns (list: Doc, longer: Doc, empty: Doc, marked: Doc, plain: Doc)
    ensures list != longer && DiffOf(Obj(list), Obj(longer)) == map[]
    ensures marked != plain && DiffOf(Obj(empty), Obj(marked)) == DiffOf(Obj(empty), Obj(plain))
  {
    var one := Atom("int", "1");
    list, longer := map["k" := Arr([one])], map["k" := Arr([one, Null])];
    assert list["k"] != longer["k"];
    assert SameUpTo(Obj(list), Obj(list), Obj(longer)) by {
      assert [one, Null][..1] == [one];
      assert Strip([one, Null]) == Strip([one]);
    }
    DiffIsEmpty(Obj(list), Obj(longer));
    empty, marked, plain := map["k" := Obj(map[])], map["k" := Obj(map["" := one])], map["k" := one];
    assert marked["k"] != plain["k"];
    assert Mimics(map[], map["" := one], one);
    assert SameUpTo(empty["k"], marked["k"], plain["k"]);
    DiffKernel(Obj(empty), Obj(marked), Obj(plain));
  }

  // ---------------------------------------------------------------------------------------
  // Undoing a diff
  // ---------------------------------------------------------------------------------------

  /** A number above every index that has an entry in `d`. */
  ghost function Above(d: Doc): (n: nat)
    ensures forall i: nat | Decimal.Print(i) in d :: i < n
    decreases |d|
  {
    if d == map[] then 0
    else
      var k :| k in d;
      var n := Above(d - {k});
      var n' := if Decimal.Parse(k) < n then n else Decimal.Parse(k) + 1;
      AboveStep(d, k, n, n');
      n'
  }

  lemma AboveStep(d: Doc, k: string, n: nat, n': nat)
    requires k in d
    requires forall i: nat | Decimal.Print(i) in d - {k} :: i < n
    requires n' == if Decimal.Parse(k) < n then n else Decimal.Parse(k) + 1
    ensures forall i: nat | Decimal.Print(i) in d :: i < n'
  {
    forall i: nat | Decimal.Print(i) in d ensures i < n' {
      if Decimal.Print(i) == k { Decimal.ParsePrint(i); }
    }
  }

  /** `s` with the entries of `d` written over it, padded with nulls up to length `n`. */
  ghost function Overwrite(s: seq<Value>, d: Doc, n: nat): (r: seq<Value>)
    ensures |r| == n
  {
    seq(n, i requires 0 <= i < n =>
      if Decimal.Print(i) in d then d[Decimal.Print(i)] else At(s, i))
  }

  ghost function PatchItems(s: seq<Value>, d: Doc): seq<Value> {
    Strip(Overwrite(s, d, |s| + Above(d)))
  }

  /** The nested map of an array diff. */
  function ArrayPart(d: Doc): Doc {
    if "array" in d && d["array"].Obj? then d["array"].fields else map[]
  }

  /** The form of a diff that says "replaced". */
  predicate IsMarker(d: Doc) {
    d.Keys == {""} && !d[""].Obj?
  }

  /** Applies a diff: the right document, recovered from the left one. */
  ghost function Patch(a: Value, d: Doc): Value
    decreases a
  {
    match a
    case Obj(m) =>
      if IsMarker(d) then d[""]
      else Obj(map k | k in m.Keys + d.Keys && !(k in m && k in d && d[k].Null?) ::
                 if k !in d then Patch(m[k], map[])
                 else if k in m && d[k].Obj? then Patch(m[k], d[k].fields) else d[k])
    case Arr(s) =>
      if "" in d then d[""]
      else Arr(PatchItems(s, ArrayPart(d)))
    case _ =>
      if "" in d then d[""] else a
  }

  /** The only change is that the key "" disappears, or appears with a value that is not a map: the
      diff is then that of a replacement. */
  predicate LooksReplaced(m: Doc, n: Doc) {
    var c := if "" in n then n[""] else Null;
    !c.Obj? && Mimics(m, n, c)
  }

  lemma MarkerExactly(m: Doc, n: Doc)
    ensures IsMarker(DiffOf(Obj(m), Obj(n))) <==> LooksReplaced(m, n)
    ensures LooksReplaced(m, n) ==>
      DiffOf(Obj(m), Obj(n))[""] == if "" in n then n[""] else Null
  {
    var d, c := DiffOf(Obj(m), Obj(n)), if "" in n then n[""] else Null;
    DiffEntries(m, n, "");
    if !c.Obj? { MimicKernel(m, n, c); }
    if IsMarker(d) {
      assert d == map["" := d[""]];
      assert d[""] == EntryOf(m, n, "");
    }
  }

  /** Nowhere, along keys that both documents have, does a change look like a replacement. */
  predicate Unclashed(a: Value, b: Value)
    decreases a
  {
    a.Obj? && b.Obj? ==>
      !LooksReplaced(a.fields, b.fields) &&
      forall k | k in a.fields && k in b.fields :: Unclashed(a.fields[k], b.fields[k])
  }

  /** Where both documents have a map, they agree on whether it uses the empty key. */
  predicate MarkerFree(a: Value, b: Value)
    decreases a
  {
    a.Obj? && b.Obj? ==>
      ("" in a.fields <==> "" in b.fields) &&
      forall k | k in a.fields && k in b.fields :: MarkerFree(a.fields[k], b.fields[k])
  }

  lemma {:induction false} MarkerFreeIsUnclashed(a: Value, b: Value)
    requires MarkerFree(a, b)
    ensures Unclashed(a, b)
    decreases a
  {
    if a.Obj? && b.Obj? {
      forall k | k in a.fields && k in b.fields ensures Unclashed(a.fields[k], b.fields[k]) {
        MarkerFreeIsUnclashed(a.fields[k], b.fields[k]);
      }
    }
  }

  /** `b` without the trailing nulls that a diff from `a` cannot show. */
  function Visible(a: Value, b: Value): Value
    decreases a
  {
    if a.Obj? && b.Obj? then
      Obj(map k | k in b.fields ::
            if k in a.fields then Visible(a.fields[k], b.fields[k]) else b.fields[k])
    else if a.Arr? && b.Arr? then Arr(Strip(b.items))
    else b
  }

  lemma PatchedItems(s: seq<Value>, t: seq<Value>)
    ensures PatchItems(s, ArrayDiff(s, t, Longer(s, t))) == Strip(t)
  {
    var e := ArrayDiff(s, t, Longer(s, t));
    var n := |s| + Above(e);
    forall i: nat ensures At(Overwrite(s, e, n), i) == At(t, i) {
      OverwrittenAt(s, t, n, i);
    }
    StripSame(Overwrite(s, e, n), t);
  }

  lemma OverwrittenAt(s: seq<Value>, t: seq<Value>, n: nat, i: nat)
    requires n == |s| + Above(ArrayDiff(s, t, Longer(s, t)))
    ensures At(Overwrite(s, ArrayDiff(s, t, Longer(s, t)), n), i) == At(t, i)
  {
    ArrayDiffAt(s, t, Longer(s, t), i);
  }

  lemma ArrayPartOfDiff(s: seq<Value>, t: seq<Value>)
    ensures ArrayPart(DiffOf(Arr(s), Arr(t))) == ArrayDiff(s, t, Longer(s, t))
    ensures "" !in DiffOf(Arr(s), Arr(t))
  {
  }

  /** Unless the change looks like a replacement, maps are patched key by key. */
  lemma PatchedFields(m: Doc, n: Doc)
    requires !LooksReplaced(m, n)
    ensures var p := Patch(Obj(m), DiffOf(Obj(m), Obj(n)));
      && p.Obj? && p.fields.Keys == n.Keys
      && forall k | k in n ::
           p.fields[k] == if k in m then Patch(m[k], DiffOf(m[k], n[k])) else n[k]
  {
    MarkerExactly(m, n);
    var d := DiffOf(Obj(m), Obj(n));
    forall k ensures k in d <==> HasEntry(m, n, k)
             ensures k in d ==> d[k] == EntryOf(m, n, k) {
      DiffEntries(m, n, k);
    }
  }

  lemma PatchedMarker(m: Doc, n: Doc)
    requires LooksReplaced(m, n)
    ensures Patch(Obj(m), DiffOf(Obj(m), Obj(n))) == if "" in n then n[""] else Null
  {
    MarkerExactly(m, n);
  }

  lemma PatchedArray(s: seq<Value>, t: seq<Value>)
    ensures Patch(Arr(s), DiffOf(Arr(s), Arr(t))) == Arr(Strip(t))
  {
    ArrayPartOfDiff(s, t);
    PatchedItems(s, t);
  }

  lemma StripTwice(s: seq<Value>)
    ensures Strip(Strip(s)) == Strip(s)
  {
  }

  /** For all documents: the patched document cannot be told from the right one by a diff. */
  lemma {:induction false} PatchIsSameUpTo(a: Value, b: Value)
    ensures SameUpTo(a, b, Patch(a, DiffOf(a, b)))
    decreases a
  {
    if a.Obj? && b.Obj? {
      var m, n := a.fields, b.fields;
      if LooksReplaced(m, n) {
        PatchedMarker(m, n);
      } else {
        forall k | k in m && k in n
          ensures SameUpTo(m[k], n[k], Patch(m[k], DiffOf(m[k], n[k])))
        {
          PatchIsSameUpTo(m[k], n[k]);
        }
        PatchedFields(m, n);
      }
    } else if a.Arr? && b.Arr? {
      PatchedArray(a.items, b.items);
      StripTwice(b.items);
    } else {
      Replaced(a, b);
    }
  }

  lemma Replaced(a: Value, b: Value)
    requires !(a.Obj? && b.Obj?) && !(a.Arr? && b.Arr?)
    ensures Patch(a, DiffOf(a, b)) == b
    ensures SameUpTo(a, b, b)
  {
    DiffKernel(a, b, b);
    if DiffOf(a, b) != map[] { assert DiffOf(a, b) == map["" := b]; }
  }

  /** For all documents: the patched document has the same diff as the right one. */
  lemma PatchKeepsDiff(a: Value, b: Value)
    ensures DiffOf(a, Patch(a, DiffOf(a, b))) == DiffOf(a, b)
  {
    PatchIsSameUpTo(a, b);
    DiffKernel(a, b, Patch(a, DiffOf(a, b)));
  }

  /** Patching gives the right document back, up to the trailing nulls that a diff cannot show,
      exactly if no change looks like a replacement. */
  lemma {:induction false} PatchRestores(a: Value, b: Value)
    ensures Patch(a, DiffOf(a, b)) == Visible(a, b) <==> Unclashed(a, b)
    decreases a
  {
    if a.Obj? && b.Obj? {
      var m, n := a.fields, b.fields;
      if LooksReplaced(m, n) {
        PatchedMarker(m, n);
      } else {
        forall k | k in m && k in n
          ensures Patch(m[k], DiffOf(m[k], n[k])) == Visible(m[k], n[k]) <==> Unclashed(m[k], n[k])
        {
          PatchRestores(m[k], n[k]);
        }
        PatchedFields(m, n);
        SameFields(Patch(a, DiffOf(a, b)).fields, Visible(a, b).fields);
      }
    } else if a.Arr? && b.Arr? {
      PatchedArray(a.items, b.items);
    } else {
      Replaced(a, b);
    }
  }

  lemma SameFields(m: Doc, n: Doc)
    requires m.Keys == n.Keys
    ensures m == n <==> forall k | k in m :: m[k] == n[k]
  {
  }

  /** Where, along keys of maps, both documents have an array, the right one does not end in null. */
  predicate ShowsAll(a: Value, b: Value)
    decreases a
  {
    if a.Obj? && b.Obj? then
      forall k | k in a.fields && k in b.fields :: ShowsAll(a.fields[k], b.fields[k])
    else a.Arr? && b.Arr? && b.items != [] ==> !b.items[|b.items| - 1].Null?
  }

  lemma {:induction false} NoTrailingNullShowsAll(a: Value, b: Value)
    requires NoTrailingNull(b)
    ensures ShowsAll(a, b)
    decreases a
  {
    if a.Obj? && b.Obj? {
      forall k | k in a.fields && k in b.fields ensures ShowsAll(a.fields[k], b.fields[k]) {
        NoTrailingNullShowsAll(a.fields[k], b.fields[k]);
      }
    }
  }

  lemma {:induction false} AllVisible(a: Value, b: Value)
    ensures Visible(a, b) == b <==> ShowsAll(a, b)
    decreases a
  {
    if a.Obj? && b.Obj? {
      forall k | k in a.fields && k in b.fields
        ensures Visible(a.fields[k], b.fields[k]) == b.fields[k]
          <==> ShowsAll(a.fields[k], b.fields[k])
      {
        AllVisible(a.fields[k], b.fields[k]);
      }
      SameFields(Visible(a, b).fields, b.fields);
    }
  }

  /** Visible or not, a document differs from what a patch gives if some change looks replaced. */
  lemma {:induction false} OnlyUnclashedComesBack(a: Value, b: Value)
    requires Patch(a, DiffOf(a, b)) == b
    ensures Unclashed(a, b)
    decreases a
  {
    if a.Obj? && b.Obj? {
      var m, n := a.fields, b.fields;
      if LooksReplaced(m, n) { PatchedMarker(m, n); }
      PatchedFields(m, n);
      forall k | k in m && k in n ensures Unclashed(m[k], n[k]) {
        OnlyUnclashedComesBack(m[k], n[k]);
      }
    }
  }

  /** Round trip, exactly: the patch inverts the diff if and only if no change looks like a
      replacement and no array that stands in both documents ends in null on the right. */
  lemma PatchInvertsDiff(a: Value, b: Value)
    ensures Patch(a, DiffOf(a, b)) == b <==> Unclashed(a, b) && ShowsAll(a, b)
  {
    PatchRestores(a, b);
    AllVisible(a, b);
    if Patch(a, DiffOf(a, b)) == b { OnlyUnclashedComesBack(a, b); }
  }
}
