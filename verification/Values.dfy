/** JSON-like documents as the `raw` package sees them: the dynamic values held by a
    `map[string]any`. A nil slice and an empty slice are the same `Arr([])`. */
module Values {

  /** `Atom` is any non-nil dynamic value that is neither a `Map` nor a `Slice`:
      its dynamic type together with its printed form. */
  datatype Value =
    | Null
    | Atom(typ: string, text: string)
    | Arr(items: seq<Value>)
    | Obj(fields: Doc)

  type Doc = map<string, Value>

  /** What a Go call leaves behind: a value, or a run-time panic. */
  datatype Outcome<+T> = Ok(value: T) | Panicked

  /** Both dynamic types are `Map`, or both are `Slice`. */
  predicate SameContainer(x: Value, y: Value) {
    (x.Obj? && y.Obj?) || (x.Arr? && y.Arr?)
  }

  /** No null is the value of a map key that can be reached by following map keys only. */
  predicate NullFree(v: Value) {
    v.Obj? ==> forall k | k in v.fields :: !v.fields[k].Null? && NullFree(v.fields[k])
  }

  /** The elements of `s` that do not occur in `drop`, in order, duplicates kept. */
  function Without(s: seq<Value>, drop: seq<Value>): (r: seq<Value>)
    ensures forall v :: v in r <==> v in s && v !in drop
  {
    if s == [] then []
    else (if s[0] in drop then [] else [s[0]]) + Without(s[1..], drop)
  }

  lemma {:induction false} WithoutAppend(s: seq<Value>, t: seq<Value>, drop: seq<Value>)
    ensures Without(s + t, drop) == Without(s, drop) + Without(t, drop)
  {
    if s == [] {
      assert s + t == t;
    } else {
      assert (s + t)[1..] == s[1..] + t;
      WithoutAppend(s[1..], t, drop);
    }
  }

  lemma {:induction false} WithoutTwice(s: seq<Value>, first: seq<Value>, second: seq<Value>)
    ensures Without(Without(s, first), second) == Without(s, first + second)
  {
    if s != [] {
      WithoutTwice(s[1..], first, second);
      var head := if s[0] in first then [] else [s[0]];
      WithoutAppend(head, Without(s[1..], first), second);
    }
  }

  lemma {:induction false} WithoutNothing(s: seq<Value>, drop: seq<Value>)
    requires forall v | v in s :: v !in drop
    ensures Without(s, drop) == s
  {
    if s != [] { WithoutNothing(s[1..], drop); }
  }

  lemma {:induction false} WithoutAll(s: seq<Value>, drop: seq<Value>)
    requires forall v | v in s :: v in drop
    ensures Without(s, drop) == []
  {
    if s != [] { WithoutAll(s[1..], drop); }
  }

  /** Only membership in `drop` matters, not order or multiplicity. */
  lemma {:induction false} WithoutSameDrop(s: seq<Value>, d: seq<Value>, e: seq<Value>)
    requires forall v :: v in d <==> v in e
    ensures Without(s, d) == Without(s, e)
  {
    if s != [] { WithoutSameDrop(s[1..], d, e); }
  }
}
