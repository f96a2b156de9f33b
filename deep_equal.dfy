/**
 * Deep equality of JSON-like values that ignores properties whose value is
 * `undefined`.
 */
module DeepEqual {
  import opened JsValues

  /**
   * The strict equality `===`. Values in this model carry no object
   * identity, so two object operands are taken to be distinct references:
   * that is the case in which the comparison walks the properties, and
   * IsEqualReflexive shows that the walk answers true when both operands
   * are the same object, so the identity shortcut changes no result.
   */
  predicate StrictEquals(a: Val, b: Val)
  {
    !a.Obj? && !b.Obj? && a == b
  }

  /**
   * Strict equality holds between two primitives exactly when they are the
   * same value, and never when an operand is an object.
   */
  lemma StrictEqualsValue(a: Val, b: Val)
    ensures StrictEquals(a, b) ==> a == b
    ensures !a.Obj? && !b.Obj? ==> (StrictEquals(a, b) <==> a == b)
    ensures a.Obj? || b.Obj? ==> !StrictEquals(a, b)
  {
  }

  /**
   * `isEqual(a, b)`: strict equality unless both sides are objects; two
   * objects are equal when they have as many defined properties and every
   * defined property of `a` is an own property of `b` whose value is
   * recursively equal.
   */
  function IsEqual(a: Val, b: Val): (r: bool)
    ensures !a.Obj? || !b.Obj? ==> (r <==> a == b)
  {
    if StrictEquals(a, b) then true
    else if !a.Obj? || !b.Obj? then StrictEquals(a, b)
    else
      var defined1 := DefinedEntries(a.props);
      var defined2 := DefinedEntries(b.props);
      if |defined1| != |defined2| then false
      else
        forall i :: 0 <= i < |defined1| ==>
          HasOwn(b.props, defined1[i].0) &&
          (assert defined1[i] in a.props; IsEqual(defined1[i].1, Get(b.props, defined1[i].0)))
  }

  /** Every well-formed value is equal to itself, nested objects included. */
  lemma {:induction false} IsEqualReflexive(a: Val)
    requires WellFormed(a)
    ensures IsEqual(a, a)
  {
    if a.Obj? {
      var ps := a.props;
      var d := DefinedEntries(ps);
      forall i | 0 <= i < |d|
        ensures HasOwn(ps, d[i].0) && IsEqual(d[i].1, Get(ps, d[i].0))
      {
        assert d[i] in ps;
        HasOwnMember(ps, d[i]);
        IsEqualReflexive(d[i].1);
      }
    }
  }

  /** A defined value is never equal to `undefined`. */
  lemma NotEqualUndefined(v: Val)
    requires v != Undefined
    ensures !IsEqual(v, Undefined)
  {
  }

  /**
   * Properties whose value is `undefined` are ignored on both sides: an
   * object compares as the object without them.
   */
  lemma {:induction false} UndefinedKeysIgnored(p1: seq<Entry>, p2: seq<Entry>)
    requires DistinctKeys(p1) && DistinctKeys(p2)
    ensures IsEqual(Obj(p1), Obj(p2)) == IsEqual(Obj(DefinedEntries(p1)), Obj(DefinedEntries(p2)))
  {
    var s1, s2 := DefinedEntries(p1), DefinedEntries(p2);
    DefinedEntriesIdempotent(p1);
    DefinedEntriesIdempotent(p2);
    var d1 := DefinedEntries(p1);
    forall i | 0 <= i < |d1|
      ensures (HasOwn(p2, d1[i].0) && IsEqual(d1[i].1, Get(p2, d1[i].0)))
          == (HasOwn(s2, d1[i].0) && IsEqual(d1[i].1, Get(s2, d1[i].0)))
    {
      var k := d1[i].0;
      DefinedEntriesGet(p2, k);
      if HasOwn(p2, k) && !HasOwn(s2, k) {
        NotEqualUndefined(d1[i].1);
      }
    }
  }

  /**
   * The comparison of two objects by key, as the source states it: the
   * defined-key counts agree and each defined key of the first is an own
   * key of the second whose value is recursively equal.
   */
  lemma ObjectsByKey(p1: seq<Entry>, p2: seq<Entry>)
    requires DistinctKeys(p1)
    ensures IsEqual(Obj(p1), Obj(p2)) <==>
      |DefinedKeys(p1)| == |DefinedKeys(p2)| &&
      forall k :: k in DefinedKeys(p1) ==> HasOwn(p2, k) && IsEqual(Get(p1, k), Get(p2, k))
  {
    var d1 := DefinedEntries(p1);
    var keys1 := DefinedKeys(p1);
    forall i | 0 <= i < |d1| ensures keys1[i] == d1[i].0 && Get(p1, d1[i].0) == d1[i].1 {
      assert d1[i] in p1;
    }
    var byIndex := forall i :: 0 <= i < |d1| ==> HasOwn(p2, d1[i].0) && IsEqual(d1[i].1, Get(p2, d1[i].0));
    var byKey := forall k :: k in keys1 ==> HasOwn(p2, k) && IsEqual(Get(p1, k), Get(p2, k));
    if byIndex {
      forall k | k in keys1 ensures HasOwn(p2, k) && IsEqual(Get(p1, k), Get(p2, k)) {
        var i :| 0 <= i < |keys1| && keys1[i] == k;
      }
    }
    if byKey {
      forall i | 0 <= i < |d1| ensures HasOwn(p2, d1[i].0) && IsEqual(d1[i].1, Get(p2, d1[i].0)) {
        assert keys1[i] in keys1;
      }
    }
    assert byIndex <==> byKey;
  }

  /** Objects with different numbers of defined properties are not equal. */
  lemma DefinedCountsDiffer(p1: seq<Entry>, p2: seq<Entry>)
    requires |DefinedKeys(p1)| != |DefinedKeys(p2)|
    ensures !IsEqual(Obj(p1), Obj(p2))
  {
  }

  /** A defined key of the first object that the second does not own makes them unequal. */
  lemma MissingKeyNotEqual(p1: seq<Entry>, p2: seq<Entry>, k: string)
    requires DistinctKeys(p1)
    requires k in DefinedKeys(p1) && !HasOwn(p2, k)
    ensures !IsEqual(Obj(p1), Obj(p2))
  {
    ObjectsByKey(p1, p2);
  }

  /** Every defined key of the first of two equal objects is a defined key of the second. */
  lemma DefinedKeysCovered(p1: seq<Entry>, p2: seq<Entry>)
    requires IsEqual(Obj(p1), Obj(p2))
    ensures KeySet(DefinedEntries(p1)) <= KeySet(DefinedEntries(p2))
  {
    var d1, d2 := DefinedEntries(p1), DefinedEntries(p2);
    forall k | k in KeySet(d1) ensures k in KeySet(d2) {
      var e := (k, Get(d1, k));
      assert e in d1;
      var i :| 0 <= i < |d1| && d1[i] == e;
      var w := Get(p2, k);
      if w == Undefined {
        NotEqualUndefined(e.1);
      }
      assert (k, w) in d2;
      HasOwnMember(d2, (k, w));
    }
  }

  lemma SubsetOfSameSize<T>(s: set<T>, t: set<T>)
    requires s <= t && |s| == |t|
    ensures s == t
  {
    assert t == s + (t - s);
  }

  /**
   * The comparison is symmetric on well-formed values, although the source
   * only walks the defined keys of its first argument: equal counts of
   * distinct defined keys force the second object to have no others.
   */
  lemma {:induction false} IsEqualSymmetric(a: Val, b: Val)
    requires WellFormed(a) && WellFormed(b)
    requires IsEqual(a, b)
    ensures IsEqual(b, a)
  {
    if a.Obj? && b.Obj? {
      var p1, p2 := a.props, b.props;
      var d1, d2 := DefinedEntries(p1), DefinedEntries(p2);
      DefinedKeysCovered(p1, p2);
      KeySetSize(d1);
      KeySetSize(d2);
      SubsetOfSameSize(KeySet(d1), KeySet(d2));
      forall j | 0 <= j < |d2|
        ensures HasOwn(p1, d2[j].0) && IsEqual(d2[j].1, Get(p1, d2[j].0))
      {
        var k := d2[j].0;
        assert d2[j] in p2;
        HasOwnMember(d2, d2[j]);
        var e := (k, Get(d1, k));
        assert e in d1 && e in p1;
        HasOwnMember(p1, e);
        var i :| 0 <= i < |d1| && d1[i] == e;
        IsEqualSymmetric(e.1, d2[j].1);
      }
    }
  }

  /** `{a: 1, b: undefined}` equals `{a: 1}`; `{a: 1}` differs from `{a: 1, b: 2}`; `null` differs from `{}`. */
  lemma IsEqualExamples()
    ensures IsEqual(Obj([("a", Num(1)), ("b", Undefined)]), Obj([("a", Num(1))]))
    ensures !IsEqual(Obj([("a", Num(1))]), Obj([("a", Num(1)), ("b", Num(2))]))
    ensures !IsEqual(Null, Obj([]))
  {
    var p1: seq<Entry> := [("a", Num(1)), ("b", Undefined)];
    assert DefinedEntries(p1) == [("a", Num(1))] by {
      assert p1[1..] == [("b", Undefined)];
    }
    var p2: seq<Entry> := [("a", Num(1)), ("b", Num(2))];
    assert |DefinedEntries(p2)| == 2 by {
      assert p2[1..] == [("b", Num(2))];
    }
  }
}
