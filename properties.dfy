/**
 * What the sanitizer promises, stated over the model of
 * Raven::Processor::SanitizeData and proved.
 */
module SanitizeDataProperties {
  import opened Values
  import opened Patterns
  import opened SanitizeData

  /* ---------------------------------------------------------------------
   * The masking policy.
   * ------------------------------------------------------------------- */

  /** A result of `sanitize` read back as a leaf. */
  function AsLeaf(o: Out): Leaf
    requires o.OStr? || o.OScalar?
  {
    if o.OStr? then LString(o.text) else LScalar(o.scalar)
  }

  ghost predicate Idempotent(clean: string -> string) {
    forall s :: clean(clean(s)) == clean(s)
  }

  /** Sanitizing a sanitized leaf changes nothing, provided the encoding
      repair is idempotent and leaves the all-ASCII mask alone: the mask is
      neither empty nor a line of 16 digits, and a cleaned string is clean.
      The key must be a name or nil: under any other key a card number is
      masked the first time and the mask then raises. */
  lemma SanitizeIdempotent(clean: string -> string, key: Key, value: Leaf)
    requires Idempotent(clean) && clean(MASK) == MASK && !key.Opaque?
    requires Sanitize(clean, key, value).Ok?
    ensures Sanitize(clean, key, value).value.OStr? || Sanitize(clean, key, value).value.OScalar?
    ensures Sanitize(clean, key, AsLeaf(Sanitize(clean, key, value).value)) == Sanitize(clean, key, value)
  {
    var r := Sanitize(clean, key, value).value;
    if value.LString? && value.text != [] {
      var s := value.text;
      if r == OStr(MASK) {
        assert !CardAt(MASK, 0);
        assert !MatchesValues(MASK);
      } else {
        assert r == OStr(clean(s));
        assert clean(clean(s)) == clean(s);
      }
    }
  }

  /** Only a String or Symbol key can make a value sensitive: with no key,
      or with a String or Symbol that does not match FIELDS_RE, the outcome
      is the same. */
  lemma KeyMattersOnlyWhenSensitive(clean: string -> string, name: string, value: Leaf)
    requires !MatchesFields(name)
    ensures Sanitize(clean, NoKey, value) == Sanitize(clean, Name(name), value)
    ensures Sanitize(clean, NoKey, value) == Sanitize(clean, Sym(name), value)
    ensures Sanitize(clean, NoKey, value).Ok?
  {
  }

  /** The mask replaces exactly the non-empty Strings that the two tests
      flag; no scalar and no empty String is ever masked. */
  lemma MaskedExactlyWhenSensitive(clean: string -> string, key: Key, value: Leaf)
    requires Sanitize(clean, key, value).Ok?
    requires value.LString? ==> clean(value.text) != MASK
    ensures Sanitize(clean, key, value) == Ok(OStr(MASK)) <==>
      value.LString? && value.text != [] &&
      (MatchesValues(clean(value.text)) || (Named(key) && MatchesFields(key.name)))
  {
    if value.LString? && value.text == [] {
      assert MASK != [];
    }
  }

  /* ---------------------------------------------------------------------
   * Rebuilding a hash with `each.reduce({})`.
   * ------------------------------------------------------------------- */

  function PairKeys(pairs: seq<(Key, Result<Out>)>): seq<Key> {
    seq(|pairs|, i requires 0 <= i < |pairs| => pairs[i].0)
  }

  /** The rebuilt entries when every `apply` returned. */
  function Settled(pairs: seq<(Key, Result<Out>)>): (entries: seq<(Key, Out)>)
    requires forall i :: 0 <= i < |pairs| ==> pairs[i].1.Ok?
  {
    seq(|pairs|, i requires 0 <= i < |pairs| => (pairs[i].0, pairs[i].1.value))
  }

  /** Putting a key the hash does not hold appends it. */
  lemma PutFresh(memo: seq<(Key, Out)>, k: Key, v: Out)
    requires Distinct(KeysOf(memo)) && k !in KeysOf(memo)
    ensures Put(memo, k, v) == memo + [(k, v)]
    ensures KeysOf(memo + [(k, v)]) == KeysOf(memo) + [k]
  {
  }

  /** One step of the fold on a returned value. */
  lemma ReduceFirst(memo: seq<(Key, Out)>, pairs: seq<(Key, Result<Out>)>)
    requires Distinct(KeysOf(memo)) && pairs != [] && pairs[0].1.Ok?
    ensures Reduce(memo, pairs) == Reduce(Put(memo, pairs[0].0, pairs[0].1.value), pairs[1..])
  {
  }

  /** The first pair settles in front of the rest. */
  lemma SettledFirst(pairs: seq<(Key, Result<Out>)>)
    requires pairs != [] && forall i :: 0 <= i < |pairs| ==> pairs[i].1.Ok?
    ensures Settled(pairs) == [(pairs[0].0, pairs[0].1.value)] + Settled(pairs[1..])
  {
  }

  /** The keys after the first are distinct and none of them is already in
      the hash once the first has been put. */
  lemma RestFresh(memo: seq<(Key, Out)>, pairs: seq<(Key, Result<Out>)>)
    requires pairs != [] && Distinct(PairKeys(pairs))
    requires forall i :: 0 <= i < |pairs| ==> pairs[i].0 !in KeysOf(memo)
    ensures Distinct(PairKeys(pairs[1..]))
    ensures forall i :: 0 <= i < |pairs[1..]| ==> pairs[1..][i].0 !in KeysOf(memo) + [pairs[0].0]
  {
    assert PairKeys(pairs[1..]) == PairKeys(pairs)[1..];
    forall i | 0 <= i < |pairs[1..]|
      ensures pairs[1..][i].0 !in KeysOf(memo) + [pairs[0].0]
    {
      assert PairKeys(pairs)[i + 1] != PairKeys(pairs)[0];
    }
  }

  /** One step of the fold on distinct keys: the first pair is appended and
      what remains meets the same conditions. */
  lemma ReduceDistinctStep(memo: seq<(Key, Out)>, pairs: seq<(Key, Result<Out>)>)
    requires Distinct(KeysOf(memo)) && Distinct(PairKeys(pairs))
    requires forall i :: 0 <= i < |pairs| ==> pairs[i].0 !in KeysOf(memo)
    requires forall i :: 0 <= i < |pairs| ==> pairs[i].1.Ok?
    requires pairs != []
    ensures var next := memo + [(pairs[0].0, pairs[0].1.value)];
            && Distinct(KeysOf(next)) && Distinct(PairKeys(pairs[1..]))
            && (forall i :: 0 <= i < |pairs[1..]| ==> pairs[1..][i].0 !in KeysOf(next))
            && (forall i :: 0 <= i < |pairs[1..]| ==> pairs[1..][i].1.Ok?)
            && Reduce(memo, pairs) == Reduce(next, pairs[1..])
            && memo + Settled(pairs) == next + Settled(pairs[1..])
  {
    var k, v := pairs[0].0, pairs[0].1.value;
    var next := memo + [(k, v)];
    PutFresh(memo, k, v);
    ReduceFirst(memo, pairs);
    RestFresh(memo, pairs);
    SettledFirst(pairs);
    assert memo + ([(k, v)] + Settled(pairs[1..])) == next + Settled(pairs[1..]);
  }

  /** With distinct keys, the fold appends each key once, in order, with
      its own value. */
  lemma {:induction false} ReduceDistinct(memo: seq<(Key, Out)>, pairs: seq<(Key, Result<Out>)>)
    requires Distinct(KeysOf(memo)) && Distinct(PairKeys(pairs))
    requires forall i :: 0 <= i < |pairs| ==> pairs[i].0 !in KeysOf(memo)
    requires forall i :: 0 <= i < |pairs| ==> pairs[i].1.Ok?
    ensures Reduce(memo, pairs) == Ok(memo + Settled(pairs))
    decreases |pairs|
  {
    if pairs != [] {
      ReduceDistinctStep(memo, pairs);
      ReduceDistinct(memo + [(pairs[0].0, pairs[0].1.value)], pairs[1..]);
    } else {
      assert memo + Settled(pairs) == memo;
    }
  }

  /* ---------------------------------------------------------------------
   * `apply` on the caller's data: one lemma per branch.
   * ------------------------------------------------------------------- */

  function EntryKeys(es: seq<(Key, Ref)>): seq<Key> {
    seq(|es|, i requires 0 <= i < |es| => es[i].0)
  }

  /** Unfolds `apply` on a Hash not on the ancestor path into the fold over
      its entries' outcomes. */
  lemma HashUnfold(env: Env, a: Arena, r: Ref, key: Key, visited: seq<Ref>)
    returns (applied: seq<(Key, Result<Out>)>)
    requires ValidEnv(env) && Closed(a) && r in a && a[r].NMap? && r !in visited
    ensures var es := a[r].entries;
            && |applied| == |es|
            && PairKeys(applied) == EntryKeys(es)
            && (forall i :: 0 <= i < |es| ==> applied[i] == (es[i].0, ApplyRef(env, a, es[i].1, es[i].0, visited + [r])))
            && ApplyRef(env, a, r, key, visited) == HashOf(Reduce([], applied))
  {
    var es := a[r].entries;
    var inner := visited + [r];
    applied := seq(|es|, i requires 0 <= i < |es| => (es[i].0, ApplyRef(env, a, es[i].1, es[i].0, inner)));
    assert PairKeys(applied) == EntryKeys(es);
  }

  /** A Hash not on the ancestor path becomes a new hash with the same keys
      in the same order; each value is processed under its own key, with
      the hash added to the ancestor path; an exception in any value
      propagates. The enclosing key plays no part. */
  lemma HashBranch(env: Env, a: Arena, r: Ref, key: Key, visited: seq<Ref>)
    requires ValidEnv(env) && Closed(a) && r in a && a[r].NMap? && r !in visited
    requires Distinct(EntryKeys(a[r].entries))
    ensures var es := a[r].entries;
            var res := ApplyRef(env, a, r, key, visited);
            && (res.Ok? <==> forall i :: 0 <= i < |es| ==> ApplyRef(env, a, es[i].1, es[i].0, visited + [r]).Ok?)
            && (res.Ok? ==>
                  && res.value.OHash?
                  && |res.value.entries| == |es|
                  && forall i :: 0 <= i < |es| ==>
                       res.value.entries[i] == (es[i].0, ApplyRef(env, a, es[i].1, es[i].0, visited + [r]).value))
  {
    var es := a[r].entries;
    var applied := HashUnfold(env, a, r, key, visited);
    if forall i :: 0 <= i < |es| ==> ApplyRef(env, a, es[i].1, es[i].0, visited + [r]).Ok? {
      ReduceDistinct([], applied);
      assert [] + Settled(applied) == Settled(applied);
    }
  }

  /** An Array not on the ancestor path becomes a new array of the same
      length and order; every element is processed under the enclosing key,
      with the array added to the ancestor path. */
  lemma ArrayBranch(env: Env, a: Arena, r: Ref, key: Key, visited: seq<Ref>)
    requires ValidEnv(env) && Closed(a) && r in a && a[r].NSeq? && r !in visited
    ensures var xs := a[r].items;
            var res := ApplyRef(env, a, r, key, visited);
            && (res.Ok? <==> forall i :: 0 <= i < |xs| ==> ApplyRef(env, a, xs[i], key, visited + [r]).Ok?)
            && (res.Ok? ==>
                  && res.value.OArray?
                  && |res.value.items| == |xs|
                  && forall i :: 0 <= i < |xs| ==>
                       Ok(res.value.items[i]) == ApplyRef(env, a, xs[i], key, visited + [r]))
  {
    var xs := a[r].items;
    var rs := seq(|xs|, i requires 0 <= i < |xs| => ApplyRef(env, a, xs[i], key, visited + [r]));
    assert ApplyRef(env, a, r, key, visited) == ArrayOf(MapAll(rs));
    assert forall i :: 0 <= i < |xs| ==> rs[i] == ApplyRef(env, a, xs[i], key, visited + [r]);
  }

  /** A container already on the ancestor path is not entered: a Hash
      becomes "{...}", an Array or a String holding JSON becomes "[...]". */
  lemma CycleGuard(env: Env, a: Arena, r: Ref, key: Key, visited: seq<Ref>)
    requires ValidEnv(env) && Closed(a) && r in a && r in visited
    ensures a[r].NMap? ==> ApplyRef(env, a, r, key, visited) == Ok(OStr(HASH_PLACEHOLDER))
    ensures a[r].NSeq? ==> ApplyRef(env, a, r, key, visited) == Ok(OStr(ARRAY_PLACEHOLDER))
    ensures a[r].NStr? && env.parse(a[r].text).Some? ==>
              ApplyRef(env, a, r, key, visited) == Ok(OStr(ARRAY_PLACEHOLDER))
  {
  }

  /** A hash that holds itself under key k: the inner occurrence is
      elided, siblings are processed normally. */
  lemma SelfReferentialHash(env: Env, a: Arena, r: Ref, key: Key, visited: seq<Ref>, i: int)
    requires ValidEnv(env) && Closed(a) && r in a && a[r].NMap? && r !in visited
    requires Distinct(EntryKeys(a[r].entries))
    requires 0 <= i < |a[r].entries| && a[r].entries[i].1 == r
    requires ApplyRef(env, a, r, key, visited).Ok?
    ensures var out := ApplyRef(env, a, r, key, visited).value;
            out.OHash? && i < |out.entries| && out.entries[i] == (a[r].entries[i].0, OStr(HASH_PLACEHOLDER))
  {
    HashBranch(env, a, r, key, visited);
    CycleGuard(env, a, r, a[r].entries[i].0, visited + [r]);
  }

  /** An array that holds itself: the inner occurrence becomes "[...]". */
  lemma SelfReferentialArray(env: Env, a: Arena, r: Ref, key: Key, visited: seq<Ref>, i: int)
    requires ValidEnv(env) && Closed(a) && r in a && a[r].NSeq? && r !in visited
    requires 0 <= i < |a[r].items| && a[r].items[i] == r
    requires ApplyRef(env, a, r, key, visited).Ok?
    ensures var out := ApplyRef(env, a, r, key, visited).value;
            out.OArray? && i < |out.items| && out.items[i] == OStr(ARRAY_PLACEHOLDER)
  {
    ArrayBranch(env, a, r, key, visited);
    CycleGuard(env, a, r, key, visited + [r]);
  }

  /** The ancestor path only ever holds hashes and arrays (a String's id
      is pushed just before descending into its freshly parsed contents),
      so the guard on JSON strings never fires: a String is treated the
      same wherever it is met. */
  lemma StringIgnoresPath(env: Env, a: Arena, r: Ref, key: Key, visited: seq<Ref>)
    requires ValidEnv(env) && Closed(a) && r in a && a[r].NStr?
    requires forall v :: v in visited ==> v in a && (a[v].NMap? || a[v].NSeq?)
    ensures ApplyRef(env, a, r, key, visited) == ApplyRef(env, a, r, key, [])
  {
    assert r !in visited;
  }

  /** A fold over distinct keys in which every `apply` returned settles
      into exactly those entries. */
  lemma SettledFold(applied: seq<(Key, Result<Out>)>)
    requires Distinct(PairKeys(applied))
    ensures Reduce([], applied).Ok? ==> Reduce([], applied).value == Settled(applied)
  {
    if Reduce([], applied).Ok? {
      ReduceDistinct([], applied);
      assert [] + Settled(applied) == Settled(applied);
    }
  }

  /** Unfolds the fold over a parsed object into its members' outcomes. */
  lemma ObjectUnfold(env: Env, ms: seq<(string, Json)>) returns (applied: seq<(Key, Result<Out>)>)
    requires ValidEnv(env)
    ensures |applied| == |ms|
    ensures forall i :: 0 <= i < |ms| ==> applied[i] == (Name(ms[i].0), ApplyJson(env, ms[i].1, Name(ms[i].0)))
    ensures ApplyPairs(env, JObject(ms)) == Reduce([], applied)
  {
    var j := JObject(ms);
    var ps := Pairs(j);
    applied := seq(|ps|, i requires 0 <= i < |ps| => (ps[i].0, ApplyJson(env, ps[i].1, ps[i].0)));
  }

  /** The fold over a parsed object with distinct names rebuilds it in
      order, each value processed under its own name; an exception in any
      value propagates. */
  lemma ObjectFold(env: Env, ms: seq<(string, Json)>)
    requires ValidEnv(env)
    requires forall i, k :: 0 <= i < k < |ms| ==> ms[i].0 != ms[k].0
    ensures var res := ApplyPairs(env, JObject(ms));
            && (res.Ok? <==> forall i :: 0 <= i < |ms| ==> ApplyJson(env, ms[i].1, Name(ms[i].0)).Ok?)
            && (res.Ok? ==>
                  && |res.value| == |ms|
                  && forall i :: 0 <= i < |ms| ==>
                       res.value[i] == (Name(ms[i].0), ApplyJson(env, ms[i].1, Name(ms[i].0)).value))
  {
    var applied := ObjectUnfold(env, ms);
    assert forall i :: 0 <= i < |ms| ==> PairKeys(applied)[i] == Name(ms[i].0);
    SettledFold(applied);
  }

  /** A String that parses as a JSON object becomes the `to_json` of a new
      hash with the object's keys in order, each value processed under its
      own key (strings inside are themselves tried as JSON). */
  lemma JsonObjectString(env: Env, a: Arena, r: Ref, key: Key, visited: seq<Ref>, members: seq<(string, Json)>)
    requires ValidEnv(env) && Closed(a) && r in a && a[r].NStr? && r !in visited
    requires env.parse(a[r].text) == Some(JObject(members))
    requires forall i :: 0 <= i < |members| ==> ApplyJson(env, members[i].1, Name(members[i].0)).Ok?
    ensures ApplyRef(env, a, r, key, visited) ==
              Ok(OStr(env.encode(OHash(seq(|members|, i requires 0 <= i < |members| =>
                (Name(members[i].0), ApplyJson(env, members[i].1, Name(members[i].0)).value))))))
  {
    assert ParsedFrom(a[r].text, JObject(members));
    ObjectFold(env, members);
    var res := ApplyPairs(env, JObject(members));
    assert ApplyRef(env, a, r, key, visited) == Encoded(env, res);
    assert res.value == seq(|members|, i requires 0 <= i < |members| =>
      (Name(members[i].0), ApplyJson(env, members[i].1, Name(members[i].0)).value));
  }

  /** The keys of ks, each kept where it first occurs. */
  function FirstOccurrences(ks: seq<Key>): (r: seq<Key>)
    ensures Distinct(r)
    ensures forall k :: k in r <==> k in ks
    decreases |ks|
  {
    if ks == [] then []
    else
      var init, last := ks[..|ks| - 1], ks[|ks| - 1];
      assert ks == init + [last];
      FirstOccurrences(init) + (if last in init then [] else [last])
  }

  /** The entries of a hash whose keys are ks, in order, each over v. */
  function Uniform(ks: seq<Key>, v: Out): (es: seq<(Key, Out)>)
    ensures KeysOf(es) == ks
    ensures |es| == |ks| && forall i :: 0 <= i < |es| ==> es[i].1 == v
  {
    var es := seq(|ks|, i requires 0 <= i < |ks| => (ks[i], v));
    assert KeysOf(es) == ks;
    es
  }

  /** The fold with one more pair at the end puts that pair last. */
  lemma {:induction false} ReduceLast(memo: seq<(Key, Out)>, pairs: seq<(Key, Result<Out>)>, k: Key, v: Out)
    requires Distinct(KeysOf(memo))
    requires forall i :: 0 <= i < |pairs| ==> pairs[i].1.Ok?
    ensures Reduce(memo, pairs + [(k, Ok(v))]) == Ok(Put(Reduce(memo, pairs).value, k, v))
    decreases |pairs|
  {
    var more := pairs + [(k, Ok(v))];
    if pairs == [] {
      assert more == [(k, Ok(v))];
      assert more[1..] == [];
    } else {
      assert more[0] == pairs[0];
      assert more[1..] == pairs[1..] + [(k, Ok(v))];
      ReduceLast(Put(memo, pairs[0].0, pairs[0].1.value), pairs[1..], k, v);
    }
  }

  /** Putting v into a hash whose values are all v keeps it uniform. */
  lemma PutUniform(ks: seq<Key>, k: Key, v: Out)
    requires Distinct(ks)
    ensures Put(Uniform(ks, v), k, v) == Uniform(if k in ks then ks else ks + [k], v)
  {
    var memo := Uniform(ks, v);
    var r := Put(memo, k, v);
    var ks' := if k in ks then ks else ks + [k];
    assert KeysOf(r) == ks';
    forall i | 0 <= i < |r|
      ensures r[i] == (ks'[i], v)
    {
      assert r[i].0 == KeysOf(r)[i];
    }
  }

  /** The first occurrences of ks + [k] are those of ks, then k if new. */
  lemma FirstOccurrencesLast(ks: seq<Key>, k: Key)
    ensures FirstOccurrences(ks + [k]) == FirstOccurrences(ks) + (if k in ks then [] else [k])
  {
    assert (ks + [k])[..|ks|] == ks;
  }

  /** The keys of pairs + [p] are those of pairs, then p's. */
  lemma PairKeysLast(pairs: seq<(Key, Result<Out>)>, p: (Key, Result<Out>))
    ensures PairKeys(pairs + [p]) == PairKeys(pairs) + [p.0]
  {
  }

  /** A fold in which every value is v keeps the keys at their first
      occurrence, each over v. */
  lemma {:induction false} ReduceUniform(pairs: seq<(Key, Result<Out>)>, v: Out)
    requires forall i :: 0 <= i < |pairs| ==> pairs[i].1 == Ok(v)
    ensures Reduce([], pairs) == Ok(Uniform(FirstOccurrences(PairKeys(pairs)), v))
    decreases |pairs|
  {
    if pairs == [] {
      assert Uniform([], v) == [];
    } else {
      var init, k := pairs[..|pairs| - 1], pairs[|pairs| - 1].0;
      assert pairs == init + [(k, Ok(v))];
      var firsts := FirstOccurrences(PairKeys(init));
      var after := if k in PairKeys(init) then firsts else firsts + [k];
      calc {
        Reduce([], pairs);
        { ReduceLast([], init, k, v); }
        Ok(Put(Reduce([], init).value, k, v));
        { ReduceUniform(init, v); }
        Ok(Put(Uniform(firsts, v), k, v));
        { PutUniform(firsts, k, v); }
        Ok(Uniform(after, v));
        { PairKeysLast(init, (k, Ok(v)));
          FirstOccurrencesLast(PairKeys(init), k);
          assert firsts + [] == firsts; }
        Ok(Uniform(FirstOccurrences(PairKeys(pairs)), v));
      }
    }
  }

  /** A String that parses as a JSON array of non-arrays is rebuilt as a
      hash keyed by its elements: each element is a key over nil, a repeated
      element keeps its first place, and the hash is re-encoded. */
  lemma JsonFlatArrayString(env: Env, a: Arena, r: Ref, key: Key, visited: seq<Ref>, xs: seq<Json>)
    requires ValidEnv(env) && Closed(a) && r in a && a[r].NStr? && r !in visited
    requires env.parse(a[r].text) == Some(JArray(xs))
    requires forall i :: 0 <= i < |xs| ==> !xs[i].JArray?
    ensures ApplyRef(env, a, r, key, visited) ==
              Ok(OStr(env.encode(OHash(Uniform(
                FirstOccurrences(seq(|xs|, i requires 0 <= i < |xs| => KeyOf(xs[i]))), OScalar(Nil))))))
  {
    var j := JArray(xs);
    var ps := Pairs(j);
    var applied := seq(|ps|, i requires 0 <= i < |ps| => (ps[i].0, ApplyJson(env, ps[i].1, ps[i].0)));
    assert ApplyRef(env, a, r, key, visited) == Encoded(env, ApplyPairs(env, j));
    assert ApplyPairs(env, j) == Reduce([], applied);
    forall i | 0 <= i < |applied|
      ensures applied[i] == (KeyOf(xs[i]), Ok(OScalar(Nil)))
    {
      assert ps[i] == (KeyOf(xs[i]), JScalar(Nil));
    }
    assert PairKeys(applied) == seq(|xs|, i requires 0 <= i < |xs| => KeyOf(xs[i]));
    ReduceUniform(applied, OScalar(Nil));
  }

  /** A single key gives a single entry. */
  lemma UniformSingleton(ks: seq<Key>, k: Key, v: Out)
    requires ks == [k]
    ensures Uniform(FirstOccurrences(ks), v) == [(k, v)]
  {
    assert ks == [] + [k];
    FirstOccurrencesLast([], k);
    var es := Uniform([k], v);
    assert es[0].0 == KeysOf(es)[0];
  }

  /** A String that parses as a one-element array of a non-array x becomes
      the `to_json` of {x=>nil}: x is a key, and no key is ever masked. */
  lemma JsonSingletonString(env: Env, a: Arena, r: Ref, key: Key, visited: seq<Ref>, x: Json)
    requires ValidEnv(env) && Closed(a) && r in a && a[r].NStr? && r !in visited
    requires env.parse(a[r].text) == Some(JArray([x])) && !x.JArray?
    ensures ApplyRef(env, a, r, key, visited) == Ok(OStr(env.encode(OHash([(KeyOf(x), OScalar(Nil))]))))
  {
    var xs := [x];
    JsonFlatArrayString(env, a, r, key, visited, xs);
    var ks := seq(|xs|, i requires 0 <= i < |xs| => KeyOf(xs[i]));
    assert ks == [KeyOf(x)];
    UniformSingleton(ks, KeyOf(x), OScalar(Nil));
  }

  /** Unfolds the fold over a parsed array of pairs into the outcomes of
      its values, each under the key in front of it. */
  lemma PairArrayUnfold(env: Env, xs: seq<Json>) returns (applied: seq<(Key, Result<Out>)>)
    requires ValidEnv(env)
    requires forall i :: 0 <= i < |xs| ==> xs[i].JArray? && |xs[i].items| >= 2
    ensures |applied| == |xs|
    ensures forall i :: 0 <= i < |xs| ==>
              applied[i] == (KeyOf(xs[i].items[0]), ApplyJson(env, xs[i].items[1], KeyOf(xs[i].items[0])))
    ensures ApplyPairs(env, JArray(xs)) == Reduce([], applied)
  {
    var j := JArray(xs);
    var ps := Pairs(j);
    applied := seq(|ps|, i requires 0 <= i < |ps| => (ps[i].0, ApplyJson(env, ps[i].1, ps[i].0)));
    forall i | 0 <= i < |xs|
      ensures ps[i] == (KeyOf(xs[i].items[0]), xs[i].items[1])
    {
      assert ps[i] == Destructure(xs[i]);
    }
  }

  /** The fold over a parsed array of pairs `[k, v, ...]` whose keys are
      distinct: each pair gives the entry k => apply(v, k), in order; an
      exception in any value propagates. */
  lemma PairArrayFold(env: Env, xs: seq<Json>)
    requires ValidEnv(env)
    requires forall i :: 0 <= i < |xs| ==> xs[i].JArray? && |xs[i].items| >= 2
    requires forall i, k :: 0 <= i < k < |xs| ==> KeyOf(xs[i].items[0]) != KeyOf(xs[k].items[0])
    ensures var res := ApplyPairs(env, JArray(xs));
            && (res.Ok? <==> forall i :: 0 <= i < |xs| ==>
                  ApplyJson(env, xs[i].items[1], KeyOf(xs[i].items[0])).Ok?)
            && (res.Ok? ==>
                  && |res.value| == |xs|
                  && forall i :: 0 <= i < |xs| ==>
                       res.value[i] == (KeyOf(xs[i].items[0]), ApplyJson(env, xs[i].items[1], KeyOf(xs[i].items[0])).value))
  {
    var applied := PairArrayUnfold(env, xs);
    assert forall i :: 0 <= i < |xs| ==> PairKeys(applied)[i] == KeyOf(xs[i].items[0]);
    SettledFold(applied);
  }

  /** A String that parses as a JSON array of pairs with distinct keys
      becomes the `to_json` of the hash k => apply(v, k), in order, and
      returns exactly when every value does. */
  lemma JsonPairArrayString(env: Env, a: Arena, r: Ref, key: Key, visited: seq<Ref>, xs: seq<Json>)
    requires ValidEnv(env) && Closed(a) && r in a && a[r].NStr? && r !in visited
    requires env.parse(a[r].text) == Some(JArray(xs))
    requires forall i :: 0 <= i < |xs| ==> xs[i].JArray? && |xs[i].items| >= 2
    requires forall i, k :: 0 <= i < k < |xs| ==> KeyOf(xs[i].items[0]) != KeyOf(xs[k].items[0])
    ensures var res := ApplyRef(env, a, r, key, visited);
            && (res.Ok? <==> forall i :: 0 <= i < |xs| ==>
                  ApplyJson(env, xs[i].items[1], KeyOf(xs[i].items[0])).Ok?)
            && (res.Ok? ==>
                  res.value == OStr(env.encode(OHash(seq(|xs|, i requires 0 <= i < |xs| =>
                    (KeyOf(xs[i].items[0]), ApplyJson(env, xs[i].items[1], KeyOf(xs[i].items[0])).value))))))
  {
    PairArrayFold(env, xs);
    var res := ApplyPairs(env, JArray(xs));
    assert ApplyRef(env, a, r, key, visited) == Encoded(env, res);
    if res.Ok? {
      assert res.value == seq(|xs|, i requires 0 <= i < |xs| =>
        (KeyOf(xs[i].items[0]), ApplyJson(env, xs[i].items[1], KeyOf(xs[i].items[0])).value));
    }
  }

  /** A String that does not parse is a plain leaf for the masking policy. */
  lemma PlainString(env: Env, a: Arena, r: Ref, key: Key, visited: seq<Ref>)
    requires ValidEnv(env) && Closed(a) && r in a && a[r].NStr?
    requires env.parse(a[r].text) == None
    ensures ApplyRef(env, a, r, key, visited) == Sanitize(env.clean, key, LString(a[r].text))
  {
  }

  /** At the top level there is no key, so a top-level String is masked
      only when it holds a line of 16 digits. */
  lemma TopLevelString(env: Env, a: Arena, root: Ref)
    requires ValidEnv(env) && Closed(a) && root in a && a[root].NStr?
    requires env.parse(a[root].text) == None
    ensures var t := a[root].text;
            Process(env, a, root) ==
              Ok(OStr(if t == [] then t else if MatchesValues(env.clean(t)) then MASK else env.clean(t)))
  {
  }

  /* ---------------------------------------------------------------------
   * `apply` inside parsed JSON: one lemma per branch.
   * ------------------------------------------------------------------- */

  /** A String met inside parsed JSON is treated exactly as a String of the
      caller's data that is not on the ancestor path, so the lemmas about
      Strings above hold for it too. */
  lemma StringSameInside(env: Env, a: Arena, r: Ref, key: Key, visited: seq<Ref>)
    requires ValidEnv(env) && Closed(a) && r in a && a[r].NStr? && r !in visited
    ensures ApplyJson(env, JString(a[r].text), key) == ApplyRef(env, a, r, key, visited)
  {
  }

  /** A String inside parsed JSON that does not itself parse is handed to
      the masking policy with its key. */
  lemma JsonPlainLeaf(env: Env, t: string, key: Key)
    requires ValidEnv(env) && env.parse(t) == None
    ensures ApplyJson(env, JString(t), key) == Sanitize(env.clean, key, LString(t))
  {
  }

  /** A parsed object becomes a new hash with its names in order, each
      value processed under its own name; the enclosing key plays no part. */
  lemma JsonObjectBranch(env: Env, ms: seq<(string, Json)>, key: Key)
    requires ValidEnv(env)
    requires forall i, k :: 0 <= i < k < |ms| ==> ms[i].0 != ms[k].0
    ensures var res := ApplyJson(env, JObject(ms), key);
            && (res.Ok? <==> forall i :: 0 <= i < |ms| ==> ApplyJson(env, ms[i].1, Name(ms[i].0)).Ok?)
            && (res.Ok? ==>
                  && res.value.OHash?
                  && |res.value.entries| == |ms|
                  && forall i :: 0 <= i < |ms| ==>
                       res.value.entries[i] == (Name(ms[i].0), ApplyJson(env, ms[i].1, Name(ms[i].0)).value))
  {
    ObjectFold(env, ms);
  }

  /** A parsed array becomes a new array of the same length and order;
      every element is processed under the enclosing key. */
  lemma JsonArrayBranch(env: Env, xs: seq<Json>, key: Key)
    requires ValidEnv(env)
    ensures var res := ApplyJson(env, JArray(xs), key);
            && (res.Ok? <==> forall i :: 0 <= i < |xs| ==> ApplyJson(env, xs[i], key).Ok?)
            && (res.Ok? ==>
                  && res.value.OArray?
                  && |res.value.items| == |xs|
                  && forall i :: 0 <= i < |xs| ==> Ok(res.value.items[i]) == ApplyJson(env, xs[i], key))
  {
    var rs := seq(|xs|, i requires 0 <= i < |xs| => ApplyJson(env, xs[i], key));
    assert ApplyJson(env, JArray(xs), key) == ArrayOf(MapAll(rs));
    assert forall i :: 0 <= i < |xs| ==> rs[i] == ApplyJson(env, xs[i], key);
  }

  /* ---------------------------------------------------------------------
   * When the traversal cannot raise.
   * ------------------------------------------------------------------- */

  /** The parser returns objects only (as with a payload of hashes). */
  ghost predicate ObjectsOnly(env: Env) {
    forall s :: env.parse(s).Some? ==> env.parse(s).value.JObject?
  }

  /** Every hash of the input is keyed by Strings (or Symbols) or nil. */
  ghost predicate NamedKeys(a: Arena) {
    forall r, i :: r in a && a[r].NMap? && 0 <= i < |a[r].entries| ==> !a[r].entries[i].0.Opaque?
  }

  lemma {:induction false} JsonNeverRaises(env: Env, j: Json, key: Key)
    requires ValidEnv(env) && ObjectsOnly(env) && !key.Opaque?
    ensures ApplyJson(env, j, key).Ok?
    decreases MaxLeaf(j), Size(j), 1
  {
    match j
    case JObject(_) =>
      ObjectNeverRaises(env, j);
    case JArray(xs) =>
      forall i | 0 <= i < |xs|
        ensures ApplyJson(env, xs[i], key).Ok?
      {
        ItemBounds(xs, i);
        JsonNeverRaises(env, xs[i], key);
      }
    case JString(t) =>
      if env.parse(t).Some? {
        ObjectNeverRaises(env, env.parse(t).value);
      }
    case JScalar(_) =>
  }

  lemma {:induction false} ObjectNeverRaises(env: Env, j: Json)
    requires ValidEnv(env) && ObjectsOnly(env) && j.JObject?
    ensures ApplyPairs(env, j).Ok?
    decreases MaxLeaf(j), Size(j), 0
  {
    var ps := Pairs(j);
    forall i | 0 <= i < |ps|
      ensures ApplyJson(env, ps[i].1, ps[i].0).Ok?
    {
      PairBounds(j, i);
      JsonNeverRaises(env, ps[i].1, ps[i].0);
    }
  }

  lemma {:induction false} RefNeverRaises(env: Env, a: Arena, r: Ref, key: Key, visited: seq<Ref>)
    requires ValidEnv(env) && ObjectsOnly(env) && Closed(a) && NamedKeys(a) && r in a && !key.Opaque?
    ensures ApplyRef(env, a, r, key, visited).Ok?
    decreases Unvisited(a, visited)
  {
    match a[r]
    case NMap(es) =>
      if r !in visited {
        VisitShrinks(a, visited, r);
        forall i | 0 <= i < |es|
          ensures ApplyRef(env, a, es[i].1, es[i].0, visited + [r]).Ok?
        {
          RefNeverRaises(env, a, es[i].1, es[i].0, visited + [r]);
        }
      }
    case NSeq(xs) =>
      if r !in visited {
        VisitShrinks(a, visited, r);
        forall i | 0 <= i < |xs|
          ensures ApplyRef(env, a, xs[i], key, visited + [r]).Ok?
        {
          RefNeverRaises(env, a, xs[i], key, visited + [r]);
        }
      }
    case NStr(t) =>
      if env.parse(t).Some? {
        ObjectNeverRaises(env, env.parse(t).value);
      }
    case NScalar(_) =>
  }

  /** With hashes keyed by names and JSON strings that hold objects,
      `process` always returns. (A JSON array of pairs can put a number in
      key position and make it raise; see the examples.) */
  lemma ProcessNeverRaises(env: Env, a: Arena, root: Ref)
    requires ValidEnv(env) && ObjectsOnly(env) && Closed(a) && NamedKeys(a) && root in a
    ensures Process(env, a, root).Ok?
  {
    RefNeverRaises(env, a, root, NoKey, []);
  }
}
