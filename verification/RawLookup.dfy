/** `ChainGet` and `getObjectKey` of raw/raw.go, and what a lookup finds in a merged document. */
module RawLookup {
  import opened Values
  import opened RawMerge

  /** A lookup key: a string, an int, or a value of any other dynamic type. */
  datatype Key = Field(name: string) | Index(i: int) | OtherKey

  datatype LookupError = InvalidKeys | WrongKeyType | NotFound | WrongValueType

  datatype Lookup = Found(value: Value) | Failed(error: LookupError) | Crashed

  /** The type argument `V` of a lookup. */
  datatype Want = AnyValue | MapValue | SliceValue | AtomValue(typ: string)

  /** `o.(V)`; a nil interface holds no type at all, so it satisfies none. */
  predicate HasType(v: Value, want: Want) {
    match v
    case Null => false
    case Atom(typ, _) => want == AnyValue || want == AtomValue(typ)
    case Arr(_) => want == AnyValue || want == SliceValue
    case Obj(_) => want == AnyValue || want == MapValue
  }

  function GetObjectKey(holder: Value, key: Key): Lookup {
    match key
    case Index(i) =>
      if !holder.Arr? then Failed(WrongKeyType)
      else if |holder.items| < i then Failed(NotFound)
      else if 0 <= i < |holder.items| then Found(holder.items[i])
      else Crashed   // slice[i] out of range
    case Field(name) =>
      if !holder.Obj? then Failed(WrongKeyType)
      else if name !in holder.fields then Failed(NotFound)
      else Found(holder.fields[name])
    case OtherKey => Failed(InvalidKeys)
  }

  /** Following `keys` from `v`; a nil on the way ends the walk. */
  function Walk(v: Value, keys: seq<Key>): Lookup
    decreases |keys|
  {
    if keys == [] then Found(v)
    else if v.Null? then Failed(NotFound)
    else
      var next := GetObjectKey(v, keys[0]);
      if next.Found? then Walk(next.value, keys[1..]) else next
  }

  /** The outcome of `ChainGet[want](m, keys...)`. */
  function Chained(m: Doc, keys: seq<Key>, want: Want): Lookup {
    if keys == [] then Crashed   // keys[:len(keys)-1]
    else
      var end := Walk(Obj(m), keys);
      if end.Found? && !HasType(end.value, want) then Failed(WrongValueType) else end
  }

  lemma {:induction false} WalkAppend(v: Value, keys: seq<Key>, more: seq<Key>)
    ensures Walk(v, keys + more)
         == if Walk(v, keys).Found? then Walk(Walk(v, keys).value, more) else Walk(v, keys)
    decreases |keys|
  {
    if keys == [] {
      assert keys + more == more;
    } else if !v.Null? && GetObjectKey(v, keys[0]).Found? {
      assert (keys + more)[1..] == keys[1..] + more;
      WalkAppend(GetObjectKey(v, keys[0]).value, keys[1..], more);
    }
  }

  lemma WalkSnoc(v: Value, keys: seq<Key>, last: Key)
    requires Walk(v, keys).Found?
    ensures Walk(v, keys + [last])
         == if Walk(v, keys).value.Null? then Failed(NotFound)
            else GetObjectKey(Walk(v, keys).value, last)
  {
    WalkAppend(v, keys, [last]);
  }

  method ChainGet(m: Doc, keys: seq<Key>, want: Want) returns (r: Lookup)
    ensures r == Chained(m, keys, want)
  {
    if |keys| == 0 { return Crashed; }
    var running := Obj(m);
    var last := |keys| - 1;
    for i := 0 to last
      invariant Walk(Obj(m), keys[..i]) == Found(running)
    {
      assert keys == keys[..i] + keys[i..];
      WalkAppend(Obj(m), keys[..i], keys[i..]);
      assert keys[..i + 1] == keys[..i] + [keys[i]];
      WalkSnoc(Obj(m), keys[..i], keys[i]);
      if running.Null? { return Failed(NotFound); }
      var next := GetObjectKey(running, keys[i]);
      if !next.Found? { return next; }
      running := next.value;
    }
    assert keys == keys[..last] + [keys[last]];
    WalkSnoc(Obj(m), keys[..last], keys[last]);
    if running.Null? { return Failed(NotFound); }
    r := GetObjectKey(running, keys[last]);
    if r.Found? && !HasType(r.value, want) { r := Failed(WrongValueType); }
  }

  /** Some prefix of `keys` ends at a slice which the next key indexes at its very length, or
      below zero. */
  ghost predicate IndexesOutside(v: Value, keys: seq<Key>) {
    exists n | 0 <= n < |keys| :: OutsideAt(v, keys, n)
  }

  predicate OutsideAt(v: Value, keys: seq<Key>, n: nat)
    requires n < |keys|
  {
    var end := Walk(v, keys[..n]);
    && end.Found? && end.value.Arr? && keys[n].Index?
    && (keys[n].i < 0 || keys[n].i == |end.value.items|)
  }

  lemma OutsidePrefix(v: Value, keys: seq<Key>, last: Key, n: nat)
    requires n < |keys|
    ensures OutsideAt(v, keys + [last], n) <==> OutsideAt(v, keys, n)
  {
    assert (keys + [last])[..n] == keys[..n];
  }

  lemma {:induction false} WalkCrashes(v: Value, keys: seq<Key>)
    ensures Walk(v, keys) == Crashed <==> IndexesOutside(v, keys)
    decreases |keys|
  {
    if keys != [] {
      var init, last := keys[..|keys| - 1], keys[|keys| - 1];
      assert keys == init + [last];
      WalkCrashes(v, init);
      WalkAppend(v, init, [last]);
      forall n | 0 <= n < |init| ensures OutsideAt(v, keys, n) <==> OutsideAt(v, init, n) {
        OutsidePrefix(v, init, last, n);
      }
      assert IndexesOutside(v, keys) <==> IndexesOutside(v, init) || OutsideAt(v, keys, |init|);
      if Walk(v, init).Found? {
        WalkSnoc(v, init, last);
      }
    }
  }

  /** `ChainGet` panics exactly when it is given no keys, or when it reaches a slice and indexes
      it at its length or below zero; an index beyond the length is only `NotFound`. */
  lemma ChainGetCrashes(m: Doc, keys: seq<Key>, want: Want)
    ensures Chained(m, keys, want) == Crashed <==> keys == [] || IndexesOutside(Obj(m), keys)
  {
    WalkCrashes(Obj(m), keys);
  }

  // ---------------------------------------------------------------------------------------
  // Lookups in a merged document
  // ---------------------------------------------------------------------------------------

  function Fields(path: seq<string>): (keys: seq<Key>)
    ensures |keys| == |path|
  {
    seq(|path|, i requires 0 <= i < |path| => Field(path[i]))
  }

  lemma FieldsStep(path: seq<string>)
    requires path != []
    ensures Fields(path)[0] == Field(path[0]) && Fields(path)[1..] == Fields(path[1..])
  {
  }

  /** One key path, of at least one key, ends at a null in both documents. */
  ghost predicate SharedNull(x: Value, y: Value, path: seq<string>) {
    path != [] && Walk(x, Fields(path)) == Found(Null) && Walk(y, Fields(path)) == Found(Null)
  }

  lemma {:induction false} ClashHasPath(x: Value, y: Value) returns (path: seq<string>)
    requires Clash(x, y)
    ensures SharedNull(x, y, path)
    decreases x
  {
    var k :| k in x.fields && k in y.fields &&
             ((x.fields[k].Null? && y.fields[k].Null?) || Clash(x.fields[k], y.fields[k]));
    var rest: seq<string> := [];
    if !(x.fields[k].Null? && y.fields[k].Null?) {
      rest := ClashHasPath(x.fields[k], y.fields[k]);
    }
    path := [k] + rest;
    FieldsStep(path);
    assert path[1..] == rest;
  }

  lemma {:induction false} PathMakesClash(x: Value, y: Value, path: seq<string>)
    requires SharedNull(x, y, path)
    ensures Clash(x, y)
    decreases |path|
  {
    FieldsStep(path);
    var k := path[0];
    assert x.Obj? && y.Obj? && k in x.fields && k in y.fields;
    assert Walk(x, Fields(path)) == Walk(x.fields[k], Fields(path[1..]));
    assert Walk(y, Fields(path)) == Walk(y.fields[k], Fields(path[1..]));
    if |path| == 1 {
      assert Fields(path[1..]) == [];
      assert x.fields[k].Null? && y.fields[k].Null?;
    } else {
      PathMakesClash(x.fields[k], y.fields[k], path[1..]);
      assert Clash(x.fields[k], y.fields[k]);
    }
  }

  /** `Merge` panics exactly when one key path, through maps, ends at a null on both sides. */
  lemma MergePanicsOnSharedNull(a: Doc, b: Doc)
    ensures Merged(a, b) == Panicked <==> exists path :: SharedNull(Obj(a), Obj(b), path)
  {
    if Clash(Obj(a), Obj(b)) {
      var path := ClashHasPath(Obj(a), Obj(b));
    }
    forall path | SharedNull(Obj(a), Obj(b), path) ensures Clash(Obj(a), Obj(b)) {
      PathMakesClash(Obj(a), Obj(b), path);
    }
  }

  /** The dynamic type of a value that is not nil. */
  function TypeOf(v: Value): Want
    requires !v.Null?
  {
    match v
    case Atom(typ, _) => AtomValue(typ)
    case Arr(_) => SliceValue
    case Obj(_) => MapValue
  }

  /** A value has one type, besides being any value; a nil has none. */
  lemma OneType(v: Value, want: Want)
    ensures HasType(v, want) <==> !v.Null? && (want == AnyValue || want == TypeOf(v))
  {
  }

  /** The element at an index, behind any path of keys: what stands between the elements before and
      behind it; wanted as any value or as its own type it is found, as another one it is a
      `WrongValueType`. */
  lemma ChainGetFindsElement(m: Doc, path: seq<string>, s: seq<Value>, v: Value, t: seq<Value>,
                             want: Want)
    requires Walk(Obj(m), Fields(path)) == Found(Arr(s + [v] + t))
    ensures Chained(m, Fields(path) + [Index(|s|)], want)
         == if !v.Null? && (want == AnyValue || want == TypeOf(v)) then Found(v)
            else Failed(WrongValueType)
  {
    WalkSnoc(Obj(m), Fields(path), Index(|s|));
    OneType(v, want);
  }

  /** The value of a key, behind any path of keys. */
  lemma ChainGetFindsField(m: Doc, path: seq<string>, fields: Doc, k: string, want: Want)
    requires Walk(Obj(m), Fields(path)) == Found(Obj(fields))
    ensures Chained(m, Fields(path) + [Field(k)], want)
         == if k !in fields then Failed(NotFound)
            else if !fields[k].Null? && (want == AnyValue || want == TypeOf(fields[k]))
            then Found(fields[k])
            else Failed(WrongValueType)
  {
    WalkSnoc(Obj(m), Fields(path), Field(k));
    if k in fields { OneType(fields[k], want); }
  }

  /** The errors at a value that the last key does not fit: nil is `NotFound`, any other mismatch of
      key and holder `WrongKeyType`, a key that is neither string nor int `InvalidKeys`, an index
      beyond the length `NotFound`, and the length itself or a negative index a panic. */
  lemma ChainGetErrors(m: Doc, path: seq<string>, key: Key, want: Want)
    requires Walk(Obj(m), Fields(path)).Found?
    ensures var v := Walk(Obj(m), Fields(path)).value;
      var r := Chained(m, Fields(path) + [key], want);
      && (v.Null? ==> r == Failed(NotFound))
      && (!v.Null? && key.OtherKey? ==> r == Failed(InvalidKeys))
      && (!v.Null? && key.Field? && !v.Obj? ==> r == Failed(WrongKeyType))
      && (!v.Null? && key.Index? && !v.Arr? ==> r == Failed(WrongKeyType))
      && (key.Index? && v.Arr? && |v.items| < key.i ==> r == Failed(NotFound))
      && (key.Index? && v.Arr? && (key.i < 0 || key.i == |v.items|) ==> r == Crashed)
  {
    WalkSnoc(Obj(m), Fields(path), key);
  }

  /** How many keys of the path lead from map to value before the walk stops. */
  function Reach(v: Value, path: seq<string>): nat
    decreases |path|
  {
    if path != [] && v.Obj? && path[0] in v.fields
    then 1 + Reach(v.fields[path[0]], path[1..]) else 0
  }

  lemma {:induction false} FoundReaches(v: Value, path: seq<string>)
    ensures Walk(v, Fields(path)).Found? <==> Reach(v, path) == |path|
    ensures Reach(v, path) <= |path|
    decreases |path|
  {
    if path != [] {
      FieldsStep(path);
      if v.Obj? && path[0] in v.fields { FoundReaches(v.fields[path[0]], path[1..]); }
    }
  }

  /** The walk stops at a map that lacks the next key, not at a nil. */
  predicate Absent(v: Value, path: seq<string>)
    decreases |path|
  {
    path != [] && v.Obj? && (path[0] in v.fields ==> Absent(v.fields[path[0]], path[1..]))
  }

  /** What a key path finds in a merged document. The right part decides, with its value or its
      error, unless its walk stops at an absent key before that of the left part stops. Values
      found in both parts are joined. */
  function MergedLookup(x: Value, y: Value, path: seq<string>): Lookup {
    var ra, rb := Walk(x, Fields(path)), Walk(y, Fields(path));
    if ra.Found? && rb.Found? then Found(Join(ra.value, rb.value))
    else if Absent(y, path) && Reach(y, path) < Reach(x, path) then ra
    else rb
  }

  lemma {:induction false} WalkJoin(x: Value, y: Value, path: seq<string>)
    ensures Walk(Join(x, y), Fields(path)) == MergedLookup(x, y, path)
    decreases |path|
  {
    if path != [] {
      var k, rest := path[0], path[1..];
      FieldsStep(path);
      if x.Obj? && y.Obj? && k in x.fields && k in y.fields {
        WalkJoin(x.fields[k], y.fields[k], rest);
      } else if x.Obj? && y.Obj? && k in x.fields {
        assert Join(x, y).fields[k] == x.fields[k];
      } else if x.Obj? && y.Obj? && k in y.fields {
        assert Join(x, y).fields[k] == y.fields[k];
        FoundReaches(y, path);
      }
    }
  }

  /** Lookup law, for all documents that merge: the lookup of a key path in the merged document is
      determined by the two parts, the errors included. */
  lemma MergedLookups(a: Doc, b: Doc, path: seq<string>)
    requires Merged(a, b).Ok?
    ensures Walk(Obj(Merged(a, b).value), Fields(path)) == MergedLookup(Obj(a), Obj(b), path)
  {
    WalkJoin(Obj(a), Obj(b), path);
  }

  /** If the merge does not panic, a leaf of the right document wins. */
  lemma MergeKeepsRightLeaf(a: Doc, b: Doc, path: seq<string>, want: Want)
    requires Merged(a, b).Ok?
    requires var end := Walk(Obj(b), Fields(path));
             end.Found? && !end.value.Obj? && !end.value.Arr?
    ensures Chained(Merged(a, b).value, Fields(path), want) == Chained(b, Fields(path), want)
  {
    MergedLookups(a, b, path);
    FoundReaches(Obj(a), path);
    FoundReaches(Obj(b), path);
  }

  /** If the merge does not panic: where the right document lacks a key, the values found are exactly
      those of the left one. */
  lemma MergeKeepsLeftWhereRightIsAbsent(a: Doc, b: Doc, path: seq<string>, want: Want)
    requires Merged(a, b).Ok? && Absent(Obj(b), path)
    ensures Chained(a, Fields(path), want).Found?
        ==> Chained(Merged(a, b).value, Fields(path), want) == Chained(a, Fields(path), want)
    ensures Chained(Merged(a, b).value, Fields(path), want).Found?
        ==> Chained(a, Fields(path), want) == Chained(Merged(a, b).value, Fields(path), want)
  {
    MergedLookups(a, b, path);
    FoundReaches(Obj(a), path);
    FoundReaches(Obj(b), path);
    AbsentFails(Obj(b), path);
  }

  lemma {:induction false} AbsentFails(v: Value, path: seq<string>)
    requires Absent(v, path)
    ensures Walk(v, Fields(path)) == Failed(NotFound)
    decreases |path|
  {
    FieldsStep(path);
    if path[0] in v.fields { AbsentFails(v.fields[path[0]], path[1..]); }
  }

  /** In a right document without null map values only an absent key makes a walk `NotFound`. */
  lemma {:induction false} NotFoundIsAbsent(v: Value, path: seq<string>)
    requires NullFree(v) && !v.Null?
    ensures Walk(v, Fields(path)) == Failed(NotFound) <==> Absent(v, path)
    decreases |path|
  {
    if path != [] {
      FieldsStep(path);
      if v.Obj? && path[0] in v.fields { NotFoundIsAbsent(v.fields[path[0]], path[1..]); }
    }
  }

  /** If the merge does not panic: where both sides hold slices, an index valid on the left still
      finds the left element. */
  lemma MergeKeepsLeftElements(a: Doc, b: Doc, path: seq<string>, i: nat, want: Want)
    requires Merged(a, b).Ok?
    requires var l := Walk(Obj(a), Fields(path));
             l.Found? && l.value.Arr? && i < |l.value.items|
    requires var r := Walk(Obj(b), Fields(path)); r.Found? && r.value.Arr?
    ensures var keys := Fields(path) + [Index(i)];
            Chained(Merged(a, b).value, keys, want) == Chained(a, keys, want)
  {
    MergedLookups(a, b, path);
    WalkSnoc(Obj(a), Fields(path), Index(i));
    WalkSnoc(Obj(Merged(a, b).value), Fields(path), Index(i));
  }
}
