/**
 * The values the sanitizer walks over and the values it builds.
 *
 * Ruby data reaches the sanitizer as a graph of objects; containers are
 * modelled in an arena (see module SanitizeData) so that cycles can exist.
 * A string that parses as JSON yields a fresh, finite tree, modelled here
 * by the datatype Json. The result of a traversal is always a finite tree,
 * the datatype Out.
 */
module Values {

  datatype Option<+T> = None | Some(value: T)

  /** A traversal either produces a value or raises. The exception modelled
      is the TypeError of `Regexp#match` applied to a key that is neither a
      String, a Symbol nor nil. (Strings here are valid text; a String key
      with invalid bytes would make the same call raise an ArgumentError.) */
  datatype Result<+T> = Ok(value: T) | TypeError

  /** Leaves that are not strings: nil, booleans, numbers (kept as their
      literal text) and any other Ruby object, named by a description. */
  datatype Scalar = Nil | Bool(b: bool) | Number(literal: string) | Other(description: string)

  /** A value produced by the JSON parser. Objects keep their members in
      order; keys are strings. */
  datatype Json =
    | JObject(members: seq<(string, Json)>)
    | JArray(items: seq<Json>)
    | JString(text: string)
    | JScalar(scalar: Scalar)

  /** Every object in the tree has distinct member names, as the Ruby Hash
      that `JSON.parse` builds does. */
  predicate UniqueNames(j: Json) {
    match j
    case JObject(ms) =>
      && (forall i, k :: 0 <= i < k < |ms| ==> ms[i].0 != ms[k].0)
      && (forall i :: 0 <= i < |ms| ==> UniqueNames(ms[i].1))
    case JArray(xs) => forall i :: 0 <= i < |xs| ==> UniqueNames(xs[i])
    case _ => true
  }

  /** The key under which a value is sanitized: none (the top level), a
      String, a Symbol, or any other Ruby object used as a key. A String and
      a Symbol with the same text are different Hash keys. */
  datatype Key = NoKey | Name(name: string) | Sym(name: string) | Opaque(value: Json)

  /** The keys `Regexp#match` accepts as text: Strings and Symbols. */
  predicate Named(k: Key) {
    k.Name? || k.Sym?
  }

  /** A leaf handed to the masking policy. */
  datatype Leaf = LString(text: string) | LScalar(scalar: Scalar)

  /** The sanitized value: a new hash (keys in insertion order), a new
      array, a string or an untouched scalar. */
  datatype Out =
    | OHash(entries: seq<(Key, Out)>)
    | OArray(items: seq<Out>)
    | OStr(text: string)
    | OScalar(scalar: Scalar)

  function KeysOf(entries: seq<(Key, Out)>): (ks: seq<Key>)
    ensures |ks| == |entries|
    ensures forall i :: 0 <= i < |entries| ==> ks[i] == entries[i].0
  {
    seq(|entries|, i requires 0 <= i < |entries| => entries[i].0)
  }

  predicate Distinct(ks: seq<Key>) {
    forall i, j :: 0 <= i < j < |ks| ==> ks[i] != ks[j]
  }

  function Sum(ns: seq<nat>): nat {
    if ns == [] then 0 else ns[0] + Sum(ns[1..])
  }

  function Max(ns: seq<nat>): nat {
    if ns == [] then 0 else if ns[0] >= Max(ns[1..]) then ns[0] else Max(ns[1..])
  }

  lemma {:induction false} SumBounds(ns: seq<nat>, i: int)
    requires 0 <= i < |ns|
    ensures ns[i] <= Sum(ns)
  {
    if i > 0 {
      SumBounds(ns[1..], i - 1);
    }
  }

  lemma {:induction false} MaxBounds(ns: seq<nat>, i: int)
    requires 0 <= i < |ns|
    ensures ns[i] <= Max(ns)
  {
    if i > 0 {
      MaxBounds(ns[1..], i - 1);
    }
  }

  /** Number of nodes of a parsed tree. */
  function Size(j: Json): (n: nat)
    ensures n >= 1
  {
    match j
    case JObject(ms) => 1 + Sum(seq(|ms|, i requires 0 <= i < |ms| => Size(ms[i].1)))
    case JArray(xs) => 1 + Sum(seq(|xs|, i requires 0 <= i < |xs| => Size(xs[i])))
    case _ => 1
  }

  /** Length of the longest string value in a parsed tree (object keys are
      not values and are not counted). */
  function MaxLeaf(j: Json): nat {
    match j
    case JObject(ms) => Max(seq(|ms|, i requires 0 <= i < |ms| => MaxLeaf(ms[i].1)))
    case JArray(xs) => Max(seq(|xs|, i requires 0 <= i < |xs| => MaxLeaf(xs[i])))
    case JString(t) => |t|
    case JScalar(_) => 0
  }

  /** A member of an object is a smaller tree with no longer string values. */
  lemma MemberBounds(ms: seq<(string, Json)>, i: int)
    requires 0 <= i < |ms|
    ensures Size(ms[i].1) < Size(JObject(ms))
    ensures MaxLeaf(ms[i].1) <= MaxLeaf(JObject(ms))
  {
    SumBounds(seq(|ms|, k requires 0 <= k < |ms| => Size(ms[k].1)), i);
    MaxBounds(seq(|ms|, k requires 0 <= k < |ms| => MaxLeaf(ms[k].1)), i);
  }

  /** An element of an array is a smaller tree with no longer string values. */
  lemma ItemBounds(xs: seq<Json>, i: int)
    requires 0 <= i < |xs|
    ensures Size(xs[i]) < Size(JArray(xs))
    ensures MaxLeaf(xs[i]) <= MaxLeaf(JArray(xs))
  {
    SumBounds(seq(|xs|, k requires 0 <= k < |xs| => Size(xs[k])), i);
    MaxBounds(seq(|xs|, k requires 0 <= k < |xs| => MaxLeaf(xs[k])), i);
  }
}
