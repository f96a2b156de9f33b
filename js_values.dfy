/**
 * JSON-like JavaScript values and the object operations the form hook relies on.
 *
 * An object is its list of own enumerable properties in key order, the order
 * `Object.keys`, `Object.entries`, object spread and `JSON.stringify` visit
 * them in. A JavaScript object never holds the same key twice; `DistinctKeys`
 * states that, and `WellFormed` states it at every depth.
 */
module JsValues {

  /** `Undefined` is JavaScript's `undefined`; `Null` is `null`. */
  datatype Val =
    | Undefined
    | Null
    | Bool(b: bool)
    | Num(n: int)
    | Str(s: string)
    | Obj(props: seq<Entry>)

  /** One own property: its key and its value. */
  type Entry = (string, Val)

  /** `Object.keys(o)`: the keys in property order. */
  function KeysOf(ps: seq<Entry>): seq<string>
  {
    seq(|ps|, i requires 0 <= i < |ps| => ps[i].0)
  }

  /** `Object.prototype.hasOwnProperty.call(o, key)`. */
  predicate HasOwn(ps: seq<Entry>, key: string)
  {
    ps != [] && (ps[0].0 == key || HasOwn(ps[1..], key))
  }

  /** Owning a key is its being one of `Object.keys(o)`. */
  lemma {:induction false} HasOwnKeysOf(ps: seq<Entry>, key: string)
    ensures HasOwn(ps, key) <==> key in KeysOf(ps)
  {
    if ps != [] {
      assert KeysOf(ps) == [ps[0].0] + KeysOf(ps[1..]);
      HasOwnKeysOf(ps[1..], key);
    }
  }

  predicate DistinctKeys(ps: seq<Entry>)
  {
    ps == [] || (!HasOwn(ps[1..], ps[0].0) && DistinctKeys(ps[1..]))
  }

  /** The keys of `before`, in order, are a prefix of the keys of `after`. */
  predicate KeyOrderKept(before: seq<Entry>, after: seq<Entry>)
  {
    |before| <= |after| && forall i :: 0 <= i < |before| ==> after[i].0 == before[i].0
  }

  /** No object at any depth repeats a key. */
  predicate WellFormed(v: Val)
  {
    match v
    case Obj(ps) =>
      DistinctKeys(ps) && forall i :: 0 <= i < |ps| ==> assert ps[i] in ps; WellFormed(ps[i].1)
    case _ => true
  }

  lemma {:induction false} HasOwnMember(ps: seq<Entry>, e: Entry)
    requires e in ps
    ensures HasOwn(ps, e.0)
    decreases |ps|
  {
    if ps[0] != e {
      assert e in ps[1..];
      HasOwnMember(ps[1..], e);
    }
  }

  /** The first property of a distinct-keyed object repeats nowhere after it. */
  lemma HeadKeyUnique(ps: seq<Entry>)
    requires ps != [] && DistinctKeys(ps)
    ensures forall e :: e in ps[1..] ==> e.0 != ps[0].0
  {
    forall e | e in ps[1..] ensures e.0 != ps[0].0 {
      HasOwnMember(ps[1..], e);
    }
  }

  /**
   * The property read `o[key]`: the value of the own property `key`, or
   * `undefined` when the object has no such property (objects here have no
   * prototype to inherit from).
   */
  function Get(ps: seq<Entry>, key: string): (v: Val)
    ensures !HasOwn(ps, key) ==> v == Undefined
    ensures HasOwn(ps, key) ==> (key, v) in ps
    ensures DistinctKeys(ps) ==> forall e :: e in ps && e.0 == key ==> v == e.1
  {
    if ps == [] then Undefined
    else if ps[0].0 == key then
      if DistinctKeys(ps) then HeadKeyUnique(ps); ps[0].1 else ps[0].1
    else Get(ps[1..], key)
  }

  /**
   * The assignment `o[key] = v` on an object: an existing property keeps its
   * place and takes the new value; a new one is appended.
   */
  function Put(ps: seq<Entry>, key: string, v: Val): (r: seq<Entry>)
    ensures Get(r, key) == v
    ensures forall k :: k != key ==> Get(r, k) == Get(ps, k)
    ensures forall k :: HasOwn(r, k) <==> HasOwn(ps, k) || k == key
    ensures KeyOrderKept(ps, r)
    ensures !HasOwn(ps, key) ==> r == ps + [(key, v)]
    ensures forall e :: e in r ==> e in ps || e == (key, v)
    ensures DistinctKeys(ps) ==> DistinctKeys(r)
  {
    if ps == [] then [(key, v)]
    else if ps[0].0 == key then [(key, v)] + ps[1..]
    else [ps[0]] + Put(ps[1..], key, v)
  }

  /**
   * The object spread `{...target, ...source}`: `target`'s properties in
   * order, then each property of `source` assigned in `source`'s order.
   */
  function Spread(target: seq<Entry>, source: seq<Entry>): (r: seq<Entry>)
    ensures KeyOrderKept(target, r)
    ensures forall k :: HasOwn(r, k) <==> HasOwn(target, k) || HasOwn(source, k)
    ensures forall e :: e in r ==> e in target || e in source
    ensures DistinctKeys(target) ==> DistinctKeys(r)
    decreases |source|
  {
    if source == [] then target
    else Spread(Put(target, source[0].0, source[0].1), source[1..])
  }

  /**
   * After a spread whose source has distinct keys, every key of the source
   * holds the source's value and every other key keeps the target's.
   */
  lemma {:induction false} SpreadGet(target: seq<Entry>, source: seq<Entry>, k: string)
    requires DistinctKeys(source)
    ensures Get(Spread(target, source), k) == if HasOwn(source, k) then Get(source, k) else Get(target, k)
    decreases |source|
  {
    if source != [] {
      SpreadGet(Put(target, source[0].0, source[0].1), source[1..], k);
    }
  }

  /** The properties whose value is not `undefined`, in order. */
  function DefinedEntries(ps: seq<Entry>): (r: seq<Entry>)
    ensures forall e :: e in r <==> e in ps && e.1 != Undefined
    ensures forall k :: HasOwn(r, k) ==> HasOwn(ps, k)
    ensures DistinctKeys(ps) ==> DistinctKeys(r)
  {
    if ps == [] then []
    else if ps[0].1 == Undefined then DefinedEntries(ps[1..])
    else [ps[0]] + DefinedEntries(ps[1..])
  }

  /**
   * Leaving out the `undefined` properties changes no property read: a key
   * that is absent reads as `undefined` just as one set to `undefined` does.
   */
  lemma {:induction false} DefinedEntriesGet(ps: seq<Entry>, k: string)
    requires DistinctKeys(ps)
    ensures Get(DefinedEntries(ps), k) == Get(ps, k)
    ensures HasOwn(DefinedEntries(ps), k) <==> Get(ps, k) != Undefined
  {
    if ps != [] {
      DefinedEntriesGet(ps[1..], k);
      if ps[0].0 == k {
        HeadKeyUnique(ps);
      }
    }
  }

  lemma {:induction false} DefinedEntriesIdempotent(ps: seq<Entry>)
    ensures DefinedEntries(DefinedEntries(ps)) == DefinedEntries(ps)
  {
    if ps != [] {
      DefinedEntriesIdempotent(ps[1..]);
      if ps[0].1 != Undefined {
        assert ([ps[0]] + DefinedEntries(ps[1..]))[1..] == DefinedEntries(ps[1..]);
      }
    }
  }

  /** The set of keys of an object. */
  function KeySet(ps: seq<Entry>): (ks: set<string>)
    ensures forall k :: k in ks <==> HasOwn(ps, k)
  {
    if ps == [] then {} else {ps[0].0} + KeySet(ps[1..])
  }

  /** An object with distinct keys has as many keys as properties. */
  lemma {:induction false} KeySetSize(ps: seq<Entry>)
    requires DistinctKeys(ps)
    ensures |KeySet(ps)| == |ps|
  {
    if ps != [] {
      KeySetSize(ps[1..]);
    }
  }

  /** The keys whose value is not `undefined`, in order. */
  function DefinedKeys(ps: seq<Entry>): seq<string>
  {
    KeysOf(DefinedEntries(ps))
  }

  /**
   * `Object.keys(o).filter(key => o[key] !== undefined)`: a key is kept
   * exactly when the object owns it and it does not read as `undefined`.
   */
  lemma DefinedKeysFilter(ps: seq<Entry>, k: string)
    requires DistinctKeys(ps)
    ensures k in DefinedKeys(ps) <==> HasOwn(ps, k) && Get(ps, k) != Undefined
  {
    HasOwnKeysOf(DefinedEntries(ps), k);
    DefinedEntriesGet(ps, k);
  }

  /** No property, at any depth, holds `undefined`. */
  predicate DefinedThroughout(v: Val)
  {
    match v
    case Obj(ps) =>
      forall i :: 0 <= i < |ps| ==> assert ps[i] in ps; ps[i].1 != Undefined && DefinedThroughout(ps[i].1)
    case _ => true
  }

  /**
   * What `JSON.stringify` keeps of a value: the properties whose value is
   * `undefined` are left out, at every depth, and the order is kept. Two
   * values serialise to the same text exactly when their normal forms agree.
   */
  function Normalize(v: Val): (r: Val)
    ensures !v.Obj? ==> r == v
    ensures v.Obj? ==> r.Obj? && KeysOf(r.props) == DefinedKeys(v.props)
    ensures DefinedThroughout(r)
  {
    match v
    case Obj(ps) =>
      var d := DefinedEntries(ps);
      Obj(seq(|d|, i requires 0 <= i < |d| => assert d[i] in ps; (d[i].0, Normalize(d[i].1))))
    case _ => v
  }
}
