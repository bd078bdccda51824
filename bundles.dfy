/** Android `Bundle`s as the managed-configuration comparison sees them
    (`equalBundles`, written the same way in `EmmModule` and
    `EmmModuleImpl`). A bundle is an object: `id` stands for its identity,
    which `!=` on two bundle values compares, since `Bundle` does not
    override `equals`. */
module Bundles {
  import opened Wrappers

  /** A value whose `equals` compares contents (strings, boxed numbers and
      booleans). */
  datatype Primitive = PString(s: string) | PInt(i: int) | PBool(b: bool)

  /** A restriction value: null, a primitive, an array (`String[]` or
      `Parcelable[]`, by its identity: arrays do not override `equals`
      either), or a nested bundle. */
  datatype Value = Null | Prim(p: Primitive) | Arr(id: nat) | Nested(b: Bundle)

  datatype Bundle = Bundle(id: nat, entries: map<string, Value>)

  /** Kotlin's `==` on two values: contents for primitives, identity for
      arrays and bundles, and false across kinds. */
  predicate SameValue(x: Value, y: Value) {
    match (x, y)
    case (Null, Null) => true
    case (Prim(p), Prim(q)) => p == q
    case (Arr(a), Arr(b)) => a == b
    case (Nested(a), Nested(b)) => a.id == b.id
    case _ => false
  }

  /** The bundle recursion goes down through; a null bundle does not
      recurse. */
  function Measure(one: Option<Bundle>): Bundle {
    if one.Some? then one.value else Bundle(0, map[])
  }

  /** The result of `equalBundles(one, two)`. */
  predicate BundlesEqual(one: Option<Bundle>, two: Option<Bundle>)
    decreases Measure(one), 2
  {
    if one.None? && two.None? then true
    else if one.None? || two.None? then false
    else
      && |one.value.entries| == |two.value.entries|
      && forall k | k in one.value.entries.Keys + two.value.entries.Keys :: KeyMatches(one.value, two.value, k)
  }

  /** One round of the loop over the union of the keys. */
  predicate KeyMatches(one: Bundle, two: Bundle, k: string)
    decreases one, 1
  {
    && k in one.entries && k in two.entries
    && ValuesMatch(one, two, k)
  }

  predicate ValuesMatch(one: Bundle, two: Bundle, k: string)
    requires k in one.entries && k in two.entries
    decreases one, 0
  {
    var x, y := one.entries[k], two.entries[k];
    if x.Nested? && y.Nested? && !BundlesEqual(Some(x.b), Some(y.b)) then false
    else if x.Null? then y.Null?
    else SameValue(x, y)
  }

  /** `equalBundles(one, two)`: the loop over the union of the key sets with
      its early returns. */
  method EqualBundles(one: Option<Bundle>, two: Option<Bundle>) returns (r: bool)
    ensures r == BundlesEqual(one, two)
    decreases Measure(one)
  {
    if one.None? && two.None? {
      return true;
    }
    if one.None? || two.None? {
      return false;
    }
    var a, b := one.value, two.value;
    if |a.entries| != |b.entries| {
      return false;
    }
    var keys := a.entries.Keys + b.entries.Keys;
    var todo := keys;
    while todo != {}
      invariant todo <= keys
      invariant forall k | k in keys - todo :: KeyMatches(a, b, k)
      decreases todo
    {
      var key :| key in todo;
      if key !in a.entries || key !in b.entries {
        return false;
      }
      var x, y := a.entries[key], b.entries[key];
      if x.Nested? && y.Nested? {
        assert x.b < a;
        var inner := EqualBundles(Some(x.b), Some(y.b));
        if !inner {
          assert !KeyMatches(a, b, key) && key in keys;
          return false;
        }
      }
      if x.Null? {
        if !y.Null? {
          assert !ValuesMatch(a, b, key) && key in keys;
          return false;
        }
      } else if !SameValue(x, y) {
        assert !ValuesMatch(a, b, key) && key in keys;
        return false;
      }
      todo := todo - {key};
    }
    return true;
  }

  /** The null rules: two nulls are equal, one null is not; a null entry
      matches only a null entry. */
  lemma NullRules(b: Bundle, c: Bundle, k: string)
    requires k in b.entries && k in c.entries
    ensures BundlesEqual(None, None)
    ensures !BundlesEqual(Some(b), None) && !BundlesEqual(None, Some(b))
    ensures b.entries[k].Null? ==> (ValuesMatch(b, c, k) <==> c.entries[k].Null?)
  {
  }

  /** Equal bundles have the same keys. */
  lemma EqualHaveSameKeys(b: Bundle, c: Bundle)
    requires BundlesEqual(Some(b), Some(c))
    ensures b.entries.Keys == c.entries.Keys
  {
    forall k | k in b.entries.Keys + c.entries.Keys ensures k in b.entries && k in c.entries {
      assert KeyMatches(b, c, k);
    }
  }

  /** The comparison is symmetric. */
  lemma {:induction false} Symmetric(one: Option<Bundle>, two: Option<Bundle>)
    ensures BundlesEqual(one, two) == BundlesEqual(two, one)
    decreases Measure(one)
  {
    if one.Some? && two.Some? {
      var a, b := one.value, two.value;
      forall k | k in a.entries && k in b.entries
        ensures ValuesMatch(a, b, k) == ValuesMatch(b, a, k)
      {
        var x, y := a.entries[k], b.entries[k];
        if x.Nested? && y.Nested? {
          assert x.b < a;
          Symmetric(Some(x.b), Some(y.b));
        }
      }
      assert a.entries.Keys + b.entries.Keys == b.entries.Keys + a.entries.Keys;
      forall k | k in a.entries.Keys + b.entries.Keys ensures KeyMatches(a, b, k) == KeyMatches(b, a, k) {
      }
    }
  }

  /** Every bundle equals itself. */
  lemma {:induction false} Reflexive(b: Bundle)
    ensures BundlesEqual(Some(b), Some(b))
    decreases b
  {
    forall k | k in b.entries.Keys + b.entries.Keys ensures KeyMatches(b, b, k) {
      var x := b.entries[k];
      if x.Nested? {
        assert x.b < b;
        Reflexive(x.b);
      }
    }
  }

  lemma MatchIsSame(b: Bundle, c: Bundle, k: string)
    requires k in b.entries && k in c.entries && ValuesMatch(b, c, k)
    ensures SameValue(b.entries[k], c.entries[k])
  {
    var x, y := b.entries[k], c.entries[k];
    if x.Null? {
      assert y.Null?;
    }
  }

  /** Nested values with one identity are one bundle. */
  predicate Coherent(b: Bundle, c: Bundle) {
    forall k | k in b.entries && k in c.entries ::
      b.entries[k].Nested? && c.entries[k].Nested? && b.entries[k].b.id == c.entries[k].b.id ==>
        b.entries[k].b == c.entries[k].b
  }

  /** Because nested bundles are in the end compared by identity, two bundles
      are equal exactly when they have the same keys and every value is `==`
      to its counterpart: the recursive comparison never decides the
      result. */
  lemma {:induction false} EqualIsShallow(b: Bundle, c: Bundle)
    requires Coherent(b, c)
    ensures BundlesEqual(Some(b), Some(c)) <==>
              b.entries.Keys == c.entries.Keys && forall k | k in b.entries :: SameValue(b.entries[k], c.entries[k])
  {
    if BundlesEqual(Some(b), Some(c)) {
      EqualHaveSameKeys(b, c);
      forall k | k in b.entries ensures SameValue(b.entries[k], c.entries[k]) {
        assert k in b.entries.Keys + c.entries.Keys;
        assert KeyMatches(b, c, k);
        assert ValuesMatch(b, c, k);
        MatchIsSame(b, c, k);
      }
    }
    if b.entries.Keys == c.entries.Keys && forall k | k in b.entries :: SameValue(b.entries[k], c.entries[k]) {
      assert |b.entries| == |b.entries.Keys| == |c.entries.Keys| == |c.entries|;
      forall k | k in b.entries.Keys + c.entries.Keys ensures KeyMatches(b, c, k) {
        var x, y := b.entries[k], c.entries[k];
        assert SameValue(x, y);
        if x.Nested? && y.Nested? {
          // the same bundle, which equals itself
          assert x.b < b;
          Reflexive(x.b);
        }
      }
    }
  }

  /** Two loads of the same nested restriction arrive as different bundle
      objects and so never compare equal, however equal their contents. */
  lemma NestedCopiesDiffer(key: string, inner: map<string, Value>, id1: nat, id2: nat, idA: nat, idB: nat)
    requires id1 != id2
    ensures !BundlesEqual(Some(Bundle(idA, map[key := Nested(Bundle(id1, inner))])),
                          Some(Bundle(idB, map[key := Nested(Bundle(id2, inner))])))
  {
    var a := Bundle(idA, map[key := Nested(Bundle(id1, inner))]);
    var b := Bundle(idB, map[key := Nested(Bundle(id2, inner))]);
    EqualIsShallow(a, b);
    assert key in a.entries && !SameValue(a.entries[key], b.entries[key]);
  }

  /** Two loads of the same array restriction arrive as different array
      objects and so never compare equal, however equal their elements. */
  lemma ArrayCopiesDiffer(key: string, id1: nat, id2: nat, idA: nat, idB: nat)
    requires id1 != id2
    ensures !BundlesEqual(Some(Bundle(idA, map[key := Arr(id1)])), Some(Bundle(idB, map[key := Arr(id2)])))
  {
    var a := Bundle(idA, map[key := Arr(id1)]);
    var b := Bundle(idB, map[key := Arr(id2)]);
    EqualIsShallow(a, b);
    assert key in a.entries && !SameValue(a.entries[key], b.entries[key]);
  }
}
