/**
 * Raven::Processor::SanitizeData: the recursive traversal that masks
 * sensitive leaves of arbitrary, possibly cyclic, data.
 *
 * The input graph is an arena of nodes addressed by Ref (Ruby's
 * `__id__`), so a hash or an array can contain itself. The traversal
 * threads the list of container ids on the current ancestor path and
 * builds a fresh, finite result.
 */
module SanitizeData {
  import opened Values
  import opened Patterns

  /** What an already-visited hash is replaced by. */
  const HASH_PLACEHOLDER: string := "{...}"

  /** What an already-visited array or JSON string is replaced by. */
  const ARRAY_PLACEHOLDER: string := "[...]"

  /** The code the sanitizer calls but does not own: the encoding repair
      `clean_invalid_utf8_bytes`, `JSON.parse` with its exception rescued
      into None, and `to_json`. */
  datatype Env = Env(
    clean: string -> string,
    parse: string -> Option<Json>,
    encode: Out -> string)

  /** What the sanitizer relies on from the parser: the document is an
      object or an array, every object in it has distinct names (it is a
      Ruby Hash), and each string inside it is shorter than the text it was
      parsed from (its quotes at least are gone). */
  ghost predicate ParsedFrom(s: string, j: Json) {
    (j.JObject? || j.JArray?) && UniqueNames(j) && MaxLeaf(j) < |s|
  }

  ghost predicate ValidEnv(env: Env) {
    forall s :: env.parse(s).Some? ==> ParsedFrom(s, env.parse(s).value)
  }

  /* ---------------------------------------------------------------------
   * The masking policy: `sanitize(key, value)`.
   * ------------------------------------------------------------------- */

  /** `FIELDS_RE.match(key)`: nil never matches, a String or a Symbol is
      searched, and any other object makes `Regexp#match` raise a TypeError. */
  function FieldsMatch(key: Key): (r: Result<bool>)
    ensures r == TypeError <==> key.Opaque?
    ensures r == Ok(true) <==> Named(key) && MatchesFields(key.name)
  {
    match key
    case NoKey => Ok(false)
    case Name(n) => Ok(MatchesFields(n))
    case Sym(n) => Ok(MatchesFields(n))
    case Opaque(_) => TypeError
  }

  function Sanitize(clean: string -> string, key: Key, value: Leaf): (r: Result<Out>)
    // a non-String, or an empty String, is returned as it is, whatever the key
    ensures value.LScalar? ==> r == Ok(OScalar(value.scalar))
    ensures value == LString([]) ==> r == Ok(OStr([]))
    // a non-empty String with a line of 16 digits is masked, whatever the key
    ensures value.LString? && value.text != [] && MatchesValues(clean(value.text))
      ==> r == Ok(OStr(MASK))
    // a non-empty String under a sensitive String or Symbol key is masked
    ensures value.LString? && value.text != [] && Named(key) && MatchesFields(key.name)
      ==> r == Ok(OStr(MASK))
    // any other non-empty String comes back cleaned
    ensures value.LString? && value.text != [] && !MatchesValues(clean(value.text))
      && (key.NoKey? || (Named(key) && !MatchesFields(key.name)))
      ==> r == Ok(OStr(clean(value.text)))
    // the key is only looked at when the value test fails
    ensures r == TypeError <==>
      value.LString? && value.text != [] && !MatchesValues(clean(value.text)) && key.Opaque?
  {
    match value
    case LScalar(sc) => Ok(OScalar(sc))
    case LString(s) =>
      if s == [] then Ok(OStr(s))
      else if MatchesValues(clean(s)) then Ok(OStr(MASK))
      else
        match FieldsMatch(key)
        case TypeError => TypeError
        case Ok(sensitive) => if sensitive then Ok(OStr(MASK)) else Ok(OStr(clean(s)))
  }

  /* ---------------------------------------------------------------------
   * Building the results: `memo[k] = v` inside `each.reduce({})`, and
   * `map` over an array.
   * ------------------------------------------------------------------- */

  /** Where key k sits in the hash being built, or -1. */
  function IndexOf(memo: seq<(Key, Out)>, k: Key): (i: int)
    ensures -1 <= i < |memo|
    ensures i >= 0 ==> memo[i].0 == k
    ensures i < 0 <==> k !in KeysOf(memo)
  {
    if memo == [] then -1
    else if memo[0].0 == k then 0
    else
      var i := IndexOf(memo[1..], k);
      assert KeysOf(memo) == [memo[0].0] + KeysOf(memo[1..]);
      if i < 0 then -1 else i + 1
  }

  /** `memo[k] = v` on a Ruby Hash: an existing key keeps its place and
      takes the new value, a new key goes last. */
  function Put(memo: seq<(Key, Out)>, k: Key, v: Out): (r: seq<(Key, Out)>)
    requires Distinct(KeysOf(memo))
    ensures Distinct(KeysOf(r))
    ensures KeysOf(r) == if k in KeysOf(memo) then KeysOf(memo) else KeysOf(memo) + [k]
    ensures forall i :: 0 <= i < |r| ==> r[i] == if r[i].0 == k then (k, v) else memo[i]
  {
    var i := IndexOf(memo, k);
    if i < 0 then
      assert KeysOf(memo + [(k, v)]) == KeysOf(memo) + [k];
      memo + [(k, v)]
    else
      assert KeysOf(memo[i := (k, v)]) == KeysOf(memo);
      memo[i := (k, v)]
  }

  /** The fold `pairs.each.reduce(memo) { |memo, (k, v)| memo[k] = v; memo }`,
      where each value is the outcome of `apply`; an exception in any of
      them propagates. */
  function Reduce(memo: seq<(Key, Out)>, pairs: seq<(Key, Result<Out>)>): (r: Result<seq<(Key, Out)>>)
    requires Distinct(KeysOf(memo))
    ensures r.Ok? <==> forall i :: 0 <= i < |pairs| ==> pairs[i].1.Ok?
    ensures r.Ok? ==> Distinct(KeysOf(r.value))
    decreases |pairs|
  {
    if pairs == [] then Ok(memo)
    else
      match pairs[0].1
      case TypeError => TypeError
      case Ok(v) => Reduce(Put(memo, pairs[0].0, v), pairs[1..])
  }

  /** `map` over the outcomes of `apply` on each element. */
  function MapAll(rs: seq<Result<Out>>): (r: Result<seq<Out>>)
    ensures r.Ok? <==> forall i :: 0 <= i < |rs| ==> rs[i].Ok?
    ensures r.Ok? ==> |r.value| == |rs| && forall i :: 0 <= i < |rs| ==> rs[i] == Ok(r.value[i])
  {
    if rs == [] then Ok([])
    else
      match rs[0]
      case TypeError => TypeError
      case Ok(v) =>
        match MapAll(rs[1..])
        case TypeError => TypeError
        case Ok(vs) => Ok([v] + vs)
  }

  function HashOf(r: Result<seq<(Key, Out)>>): Result<Out> {
    match r
    case TypeError => TypeError
    case Ok(memo) => Ok(OHash(memo))
  }

  function ArrayOf(r: Result<seq<Out>>): Result<Out> {
    match r
    case TypeError => TypeError
    case Ok(items) => Ok(OArray(items))
  }

  /** `json_hash.to_json` of the rebuilt hash. */
  function Encoded(env: Env, r: Result<seq<(Key, Out)>>): Result<Out> {
    match r
    case TypeError => TypeError
    case Ok(memo) => Ok(OStr(env.encode(OHash(memo))))
  }

  /* ---------------------------------------------------------------------
   * The block parameters `|memo, (k, v)|` of `each.reduce`.
   * ------------------------------------------------------------------- */

  /** A parsed value used as a hash key: a String is a name, nil is no key,
      anything else stays an object. */
  function KeyOf(k: Json): (r: Key)
    ensures r.Name? <==> k.JString?
    ensures k.JString? ==> r == Name(k.text)
    ensures r.NoKey? <==> k == JScalar(Nil)
    ensures r.Opaque? ==> r.value == k
    ensures !r.Sym?
  {
    match k
    case JString(t) => Name(t)
    case JScalar(Nil) => NoKey
    case _ => Opaque(k)
  }

  /** How `(k, v)` destructures one element yielded by `each`: an array
      gives its first two entries (nil for the missing ones); any other
      element is the key and nil the value. */
  function Destructure(e: Json): (r: (Key, Json))
    ensures !e.JArray? ==> r.0 == KeyOf(e)
    ensures e.JArray? && e.items != [] ==> r.0 == KeyOf(e.items[0])
    ensures e.JArray? && e.items == [] ==> r.0 == NoKey
    ensures e.JArray? && |e.items| >= 2 ==> r.1 == e.items[1]
    ensures r.1 == JScalar(Nil) || (e.JArray? && |e.items| >= 2 && r.1 == e.items[1])
  {
    match e
    case JArray(xs) =>
      (if |xs| > 0 then KeyOf(xs[0]) else NoKey, if |xs| > 1 then xs[1] else JScalar(Nil))
    case _ => (KeyOf(e), JScalar(Nil))
  }

  /** The `(k, v)` pairs that `each.reduce` sees on a parsed hash or array:
      the members of an object, or the destructured elements of an array. */
  function Pairs(j: Json): (ps: seq<(Key, Json)>)
    ensures j.JObject? ==>
              |ps| == |j.members| &&
              forall i :: 0 <= i < |ps| ==> ps[i] == (Name(j.members[i].0), j.members[i].1)
    ensures j.JArray? ==>
              |ps| == |j.items| &&
              forall i :: 0 <= i < |ps| ==> ps[i] == Destructure(j.items[i])
  {
    match j
    case JObject(ms) => seq(|ms|, i requires 0 <= i < |ms| => (Name(ms[i].0), ms[i].1))
    case JArray(xs) => seq(|xs|, i requires 0 <= i < |xs| => Destructure(xs[i]))
    case _ => []
  }

  lemma PairBounds(j: Json, i: int)
    requires 0 <= i < |Pairs(j)|
    ensures Size(Pairs(j)[i].1) < Size(j)
    ensures MaxLeaf(Pairs(j)[i].1) <= MaxLeaf(j)
  {
    match j
    case JObject(ms) =>
      MemberBounds(ms, i);
    case JArray(xs) =>
      ItemBounds(xs, i);
      if xs[i].JArray? && |xs[i].items| > 1 {
        ItemBounds(xs[i].items, 1);
      }
  }

  /* ---------------------------------------------------------------------
   * `apply` on parsed JSON. Every object the parser returns is fresh, so
   * no id of it is on the ancestor path and the guards of `apply` never
   * fire below a parsed string: the visited list is not threaded here.
   * ------------------------------------------------------------------- */

  function ApplyJson(env: Env, j: Json, key: Key): (res: Result<Out>)
    requires ValidEnv(env)
    ensures j.JScalar? ==> res == Ok(OScalar(j.scalar))
    ensures res.Ok? && j.JObject? ==> res.value.OHash? && Distinct(KeysOf(res.value.entries))
    ensures res.Ok? && j.JArray? ==> res.value.OArray? && |res.value.items| == |j.items|
    ensures res.Ok? && j.JString? ==> res.value.OStr?
    decreases MaxLeaf(j), Size(j), 1
  {
    match j
    case JObject(_) =>
      HashOf(ApplyPairs(env, j))
    case JArray(xs) =>
      var rs := seq(|xs|, i requires 0 <= i < |xs| =>
        ItemBounds(xs, i);
        ApplyJson(env, xs[i], key));
      ArrayOf(MapAll(rs))
    case JString(t) =>
      (match env.parse(t)
       case Some(p) => Encoded(env, ApplyPairs(env, p))
       case None => Sanitize(env.clean, key, LString(t)))
    case JScalar(sc) =>
      Sanitize(env.clean, key, LScalar(sc))
  }

  /** `each.reduce({}) { |memo, (k, v)| memo[k] = apply(v, k, visited) }`
      on a parsed hash or array. */
  function ApplyPairs(env: Env, j: Json): (res: Result<seq<(Key, Out)>>)
    requires ValidEnv(env)
    ensures res.Ok? ==> Distinct(KeysOf(res.value))
    ensures j.JObject? && j.members == [] ==> res == Ok([])
    decreases MaxLeaf(j), Size(j), 0
  {
    var ps := Pairs(j);
    var applied := seq(|ps|, i requires 0 <= i < |ps| =>
      PairBounds(j, i);
      (ps[i].0, ApplyJson(env, ps[i].1, ps[i].0)));
    Reduce([], applied)
  }

  /* ---------------------------------------------------------------------
   * `apply` on the caller's data, `process`.
   * ------------------------------------------------------------------- */

  /** Object identity, `__id__`. */
  type Ref = nat

  /** A Ruby object of the input: a Hash (key, value-id pairs in order), an
      Array, a String (which may hold JSON), or any other object. */
  datatype Node =
    | NMap(entries: seq<(Key, Ref)>)
    | NSeq(items: seq<Ref>)
    | NStr(text: string)
    | NScalar(scalar: Scalar)

  type Arena = map<Ref, Node>

  /** Every object a container refers to exists. */
  ghost predicate Closed(a: Arena) {
    && (forall r, i :: r in a && a[r].NMap? && 0 <= i < |a[r].entries| ==> a[r].entries[i].1 in a)
    && (forall r, i :: r in a && a[r].NSeq? && 0 <= i < |a[r].items| ==> a[r].items[i] in a)
  }

  /** How many objects are not on the ancestor path. */
  function Unvisited(a: Arena, visited: seq<Ref>): nat {
    |a.Keys - (set x | x in visited)|
  }

  lemma VisitShrinks(a: Arena, visited: seq<Ref>, r: Ref)
    requires r in a && r !in visited
    ensures Unvisited(a, visited + [r]) < Unvisited(a, visited)
  {
    var before := a.Keys - (set x | x in visited);
    var after := a.Keys - (set x | x in visited + [r]);
    assert after == before - {r};
    assert r in before;
  }

  /** `apply(value, key, visited)` with `sanitize` as the block. */
  function ApplyRef(env: Env, a: Arena, r: Ref, key: Key, visited: seq<Ref>): (res: Result<Out>)
    requires ValidEnv(env) && Closed(a) && r in a
    ensures a[r].NScalar? ==> res == Ok(OScalar(a[r].scalar))
    ensures res.Ok? && a[r].NMap? ==>
              (res.value.OHash? && Distinct(KeysOf(res.value.entries))) || res.value == OStr(HASH_PLACEHOLDER)
    ensures res.Ok? && a[r].NSeq? ==>
              (res.value.OArray? && |res.value.items| == |a[r].items|) || res.value == OStr(ARRAY_PLACEHOLDER)
    ensures res.Ok? && a[r].NStr? ==> res.value.OStr?
    decreases Unvisited(a, visited)
  {
    match a[r]
    case NMap(es) =>
      if r in visited then Ok(OStr(HASH_PLACEHOLDER))
      else
        var inner := visited + [r];
        VisitShrinks(a, visited, r);
        var applied := seq(|es|, i requires 0 <= i < |es| =>
          (es[i].0, ApplyRef(env, a, es[i].1, es[i].0, inner)));
        HashOf(Reduce([], applied))
    case NSeq(xs) =>
      if r in visited then Ok(OStr(ARRAY_PLACEHOLDER))
      else
        var inner := visited + [r];
        VisitShrinks(a, visited, r);
        var rs := seq(|xs|, i requires 0 <= i < |xs| => ApplyRef(env, a, xs[i], key, inner));
        ArrayOf(MapAll(rs))
    case NStr(t) =>
      (match env.parse(t)
       case Some(p) =>
         if r in visited then Ok(OStr(ARRAY_PLACEHOLDER))
         else Encoded(env, ApplyPairs(env, p))
       case None => Sanitize(env.clean, key, LString(t)))
    case NScalar(sc) =>
      Sanitize(env.clean, key, LScalar(sc))
  }

  /** `process(data)`: `apply` from no key and an empty ancestor path. */
  function Process(env: Env, a: Arena, root: Ref): (res: Result<Out>)
    requires ValidEnv(env) && Closed(a) && root in a
    ensures a[root].NScalar? ==> res == Ok(OScalar(a[root].scalar))
    ensures res.Ok? && a[root].NMap? ==> res.value.OHash?
    ensures res.Ok? && a[root].NSeq? ==> res.value.OArray? && |res.value.items| == |a[root].items|
    ensures res.Ok? && a[root].NStr? ==> res.value.OStr?
  {
    ApplyRef(env, a, root, NoKey, [])
  }
}
