/**
 * Concrete inputs and what the sanitizer makes of them, with the encoding
 * repair taken as the identity (every string valid) and a parser that
 * knows six documents.
 */
module SanitizeDataExamples {
  import opened Values
  import opened Patterns
  import opened SanitizeData
  import opened SanitizeDataProperties

  const PAYLOAD: string := "{\"password\":\"abc\"}"
  const NUMBERS: string := "[1,2]"
  const NUMBER_PAIR: string := "[[1,\"x\"]]"
  const EMPTY_ARRAY: string := "[]"
  const SECRET_LIST: string := "[\"hunter2\"]"
  const PASSWORD_PAIR: string := "[[\"password\",\"abc\"]]"

  function ExampleParse(s: string): Option<Json> {
    if s == PAYLOAD then Some(JObject([("password", JString("abc"))]))
    else if s == NUMBERS then Some(JArray([JScalar(Number("1")), JScalar(Number("2"))]))
    else if s == NUMBER_PAIR then Some(JArray([JArray([JScalar(Number("1")), JString("x")])]))
    else if s == EMPTY_ARRAY then Some(JArray([]))
    else if s == SECRET_LIST then Some(JArray([JString("hunter2")]))
    else if s == PASSWORD_PAIR then Some(JArray([JArray([JString("password"), JString("abc")])]))
    else None
  }

  function ExampleEnv(encode: Out -> string): Env {
    Env(s => s, ExampleParse, encode)
  }

  /** The longest string values of the first four documents. */
  lemma FirstDocumentsBounded()
    ensures MaxLeaf(JObject([("password", JString("abc"))])) == 3
    ensures MaxLeaf(JArray([JScalar(Number("1")), JScalar(Number("2"))])) == 0
    ensures MaxLeaf(JArray([JArray([JScalar(Number("1")), JString("x")])])) == 1
    ensures MaxLeaf(JArray([])) == 0
  {
    var ms := [("password", JString("abc"))];
    assert seq(|ms|, i requires 0 <= i < |ms| => MaxLeaf(ms[i].1)) == [3];
    assert Max([3]) == 3;
    var xs := [JScalar(Number("1")), JScalar(Number("2"))];
    assert seq(|xs|, i requires 0 <= i < |xs| => MaxLeaf(xs[i])) == [0, 0];
    assert Max([0, 0]) == 0;
    var ys := [JScalar(Number("1")), JString("x")];
    assert seq(|ys|, i requires 0 <= i < |ys| => MaxLeaf(ys[i])) == [0, 1];
    assert Max([0, 1]) == 1;
    var zs := [JArray(ys)];
    assert seq(|zs|, i requires 0 <= i < |zs| => MaxLeaf(zs[i])) == [1];
    assert Max([1]) == 1;
    var none: seq<Json> := [];
    assert seq(|none|, i requires 0 <= i < |none| => MaxLeaf(none[i])) == [];
  }

  /** The longest string values of the last two documents. */
  lemma LastDocumentsBounded()
    ensures MaxLeaf(JArray([JString("hunter2")])) == 7
    ensures MaxLeaf(JArray([JArray([JString("password"), JString("abc")])])) == 8
  {
    var secrets := [JString("hunter2")];
    assert seq(|secrets|, i requires 0 <= i < |secrets| => MaxLeaf(secrets[i])) == [7];
    assert Max([7]) == 7;
    var pair := [JString("password"), JString("abc")];
    assert seq(|pair|, i requires 0 <= i < |pair| => MaxLeaf(pair[i])) == [8, 3];
    assert Max([8, 3]) == 8;
    var pairs := [JArray(pair)];
    assert seq(|pairs|, i requires 0 <= i < |pairs| => MaxLeaf(pairs[i])) == [8];
    assert Max([8]) == 8;
  }

  lemma ExampleEnvValid(encode: Out -> string)
    ensures ValidEnv(ExampleEnv(encode))
  {
    FirstDocumentsBounded();
    LastDocumentsBounded();
    forall s | ExampleParse(s).Some?
      ensures ParsedFrom(s, ExampleParse(s).value)
    {
    }
  }

  lemma CardNumberIsACard()
    ensures MatchesValues("1234567890123456")
  {
    assert CardAt("1234567890123456", 0);
  }

  lemma AuthorizationIsSensitive()
    ensures MatchesFields("Authorization")
  {
    assert WordAt("Authorization", "authorization", 0);
    assert ContainsIgnoringCase("Authorization", FIELD_NAMES[0]);
  }

  /** A hash at 0 holding one entry, the value at 1 under `name`. */
  lemma SingleEntryHash(encode: Out -> string, a: Arena, name: string, out: Out)
    requires Closed(a) && 0 in a && 1 in a && a[0] == NMap([(Name(name), 1)])
    requires ValidEnv(ExampleEnv(encode))
    requires ApplyRef(ExampleEnv(encode), a, 1, Name(name), [0]) == Ok(out)
    ensures ApplyRef(ExampleEnv(encode), a, 0, NoKey, []) == Ok(OHash([(Name(name), out)]))
  {
    var env := ExampleEnv(encode);
    assert [] + [0] == [0];
    assert EntryKeys(a[0].entries) == [Name(name)];
    HashBranch(env, a, 0, NoKey, []);
    var res := ApplyRef(env, a, 0, NoKey, []);
    assert res.Ok?;
    assert res.value.entries == [(Name(name), out)];
  }

  /** {"card"=>"1234567890123456"} becomes {"card"=>"********"}. */
  lemma CardMasked(encode: Out -> string)
    ensures var a := map[0 := NMap([(Name("card"), 1)]), 1 := NStr("1234567890123456")];
            ValidEnv(ExampleEnv(encode)) &&
            Process(ExampleEnv(encode), a, 0) == Ok(OHash([(Name("card"), OStr(MASK))]))
  {
    var a := map[0 := NMap([(Name("card"), 1)]), 1 := NStr("1234567890123456")];
    var env := ExampleEnv(encode);
    ExampleEnvValid(encode);
    CardNumberIsACard();
    assert Closed(a);
    assert ApplyRef(env, a, 1, Name("card"), [0]) == Ok(OStr(MASK));
    SingleEntryHash(encode, a, "card", OStr(MASK));
  }

  /** {"Authorization"=>"Bearer xyz"} becomes {"Authorization"=>"********"}. */
  lemma AuthorizationMasked(encode: Out -> string)
    ensures var a := map[0 := NMap([(Name("Authorization"), 1)]), 1 := NStr("Bearer xyz")];
            ValidEnv(ExampleEnv(encode)) &&
            Process(ExampleEnv(encode), a, 0) == Ok(OHash([(Name("Authorization"), OStr(MASK))]))
  {
    var a := map[0 := NMap([(Name("Authorization"), 1)]), 1 := NStr("Bearer xyz")];
    var env := ExampleEnv(encode);
    ExampleEnvValid(encode);
    AuthorizationIsSensitive();
    assert Closed(a);
    assert ApplyRef(env, a, 1, Name("Authorization"), [0]) == Ok(OStr(MASK));
    SingleEntryHash(encode, a, "Authorization", OStr(MASK));
  }

  /** {"note"=>"hello world"} comes back unchanged. */
  lemma NoteKept(encode: Out -> string)
    ensures var a := map[0 := NMap([(Name("note"), 1)]), 1 := NStr("hello world")];
            ValidEnv(ExampleEnv(encode)) &&
            Process(ExampleEnv(encode), a, 0) == Ok(OHash([(Name("note"), OStr("hello world"))]))
  {
    var a := map[0 := NMap([(Name("note"), 1)]), 1 := NStr("hello world")];
    var env := ExampleEnv(encode);
    ExampleEnvValid(encode);
    assert !MatchesFields("note");
    assert !MatchesValues("hello world");
    assert Closed(a);
    assert ApplyRef(env, a, 1, Name("note"), [0]) == Ok(OStr("hello world"));
    SingleEntryHash(encode, a, "note", OStr("hello world"));
  }

  /** An empty String stays empty even under "password". */
  lemma EmptyPasswordKept(encode: Out -> string)
    ensures var a := map[0 := NMap([(Name("password"), 1)]), 1 := NStr("")];
            ValidEnv(ExampleEnv(encode)) &&
            Process(ExampleEnv(encode), a, 0) == Ok(OHash([(Name("password"), OStr(""))]))
  {
    var a := map[0 := NMap([(Name("password"), 1)]), 1 := NStr("")];
    var env := ExampleEnv(encode);
    ExampleEnvValid(encode);
    assert Closed(a);
    assert ApplyRef(env, a, 1, Name("password"), [0]) == Ok(OStr(""));
    SingleEntryHash(encode, a, "password", OStr(""));
  }

  lemma PasswordIsSensitive()
    ensures MatchesFields("password")
  {
    assert WordAt("password", "password", 0);
    assert ContainsIgnoringCase("password", FIELD_NAMES[1]);
  }

  /** A short String that is not JSON is masked under "password". */
  lemma ShortMaskedUnderPassword(encode: Out -> string, a: Arena, r: Ref, visited: seq<Ref>)
    requires Closed(a) && r in a && a[r].NStr? && 0 < |a[r].text| < 16
    requires ExampleParse(a[r].text) == None
    ensures ValidEnv(ExampleEnv(encode))
    ensures ApplyRef(ExampleEnv(encode), a, r, Name("password"), visited) == Ok(OStr(MASK))
  {
    ExampleEnvValid(encode);
    PasswordIsSensitive();
    PlainString(ExampleEnv(encode), a, r, Name("password"), visited);
  }

  /** The Array ["a", "b"] under "password", met below a hash at 0. */
  lemma ArrayUnderPassword(encode: Out -> string, a: Arena)
    requires Closed(a) && 1 in a && 2 in a && 3 in a
    requires a[1] == NSeq([2, 3]) && a[2] == NStr("a") && a[3] == NStr("b")
    ensures ValidEnv(ExampleEnv(encode))
    ensures ApplyRef(ExampleEnv(encode), a, 1, Name("password"), [0]) == Ok(OArray([OStr(MASK), OStr(MASK)]))
  {
    var env := ExampleEnv(encode);
    ShortMaskedUnderPassword(encode, a, 2, [0, 1]);
    ShortMaskedUnderPassword(encode, a, 3, [0, 1]);
    ArrayBranch(env, a, 1, Name("password"), [0]);
    var inner := ApplyRef(env, a, 1, Name("password"), [0]);
    assert inner.Ok?;
    assert inner.value.items == [OStr(MASK), OStr(MASK)];
  }

  /** An Array inherits the key of the hash that holds it:
      {"password"=>["a", "b"]} becomes {"password"=>["********", "********"]}. */
  lemma KeyInheritedByArray(encode: Out -> string)
    ensures var a := map[0 := NMap([(Name("password"), 1)]), 1 := NSeq([2, 3]), 2 := NStr("a"), 3 := NStr("b")];
            ValidEnv(ExampleEnv(encode)) &&
            Process(ExampleEnv(encode), a, 0) == Ok(OHash([(Name("password"), OArray([OStr(MASK), OStr(MASK)]))]))
  {
    var a := map[0 := NMap([(Name("password"), 1)]), 1 := NSeq([2, 3]), 2 := NStr("a"), 3 := NStr("b")];
    var env := ExampleEnv(encode);
    assert Closed(a);
    ArrayUnderPassword(encode, a);
    SingleEntryHash(encode, a, "password", OArray([OStr(MASK), OStr(MASK)]));
  }

  /** The parsed value "abc" under "password" is masked. */
  lemma ParsedPasswordMasked(encode: Out -> string)
    ensures ValidEnv(ExampleEnv(encode))
    ensures ApplyJson(ExampleEnv(encode), JString("abc"), Name("password")) == Ok(OStr(MASK))
  {
    ExampleEnvValid(encode);
    PasswordIsSensitive();
    assert ExampleParse("abc") == None;
  }

  /** The String PAYLOAD at 1, met under "payload" below the hash at 0. */
  lemma PayloadString(encode: Out -> string, a: Arena)
    requires Closed(a) && 1 in a && a[1] == NStr(PAYLOAD)
    ensures ValidEnv(ExampleEnv(encode))
    ensures ApplyRef(ExampleEnv(encode), a, 1, Name("payload"), [0]) ==
              Ok(OStr(encode(OHash([(Name("password"), OStr(MASK))]))))
  {
    var env := ExampleEnv(encode);
    ParsedPasswordMasked(encode);
    var members := [("password", JString("abc"))];
    assert env.parse(PAYLOAD) == Some(JObject(members));
    JsonObjectString(env, a, 1, Name("payload"), [0], members);
    assert seq(|members|, i requires 0 <= i < |members| =>
             (Name(members[i].0), ApplyJson(env, members[i].1, Name(members[i].0)).value))
           == [(Name("password"), OStr(MASK))];
  }

  /** A String holding '{"password":"abc"}' under "payload" becomes the
      `to_json` of {"password"=>"********"}. */
  lemma JsonPayloadMasked(encode: Out -> string)
    ensures var a := map[0 := NMap([(Name("payload"), 1)]), 1 := NStr(PAYLOAD)];
            ValidEnv(ExampleEnv(encode)) &&
            Process(ExampleEnv(encode), a, 0) ==
              Ok(OHash([(Name("payload"), OStr(encode(OHash([(Name("password"), OStr(MASK))]))))]))
  {
    var a := map[0 := NMap([(Name("payload"), 1)]), 1 := NStr(PAYLOAD)];
    var env := ExampleEnv(encode);
    assert Closed(a);
    PayloadString(encode, a);
    SingleEntryHash(encode, a, "payload", OStr(encode(OHash([(Name("password"), OStr(MASK))]))));
  }

  /** The pairs of the parsed '[1,2]': each element is a key over nil. */
  lemma NumbersRebuilt(encode: Out -> string)
    ensures ValidEnv(ExampleEnv(encode))
    ensures ApplyPairs(ExampleEnv(encode), JArray([JScalar(Number("1")), JScalar(Number("2"))])) ==
              Ok([(Opaque(JScalar(Number("1"))), OScalar(Nil)), (Opaque(JScalar(Number("2"))), OScalar(Nil))])
  {
    var env := ExampleEnv(encode);
    ExampleEnvValid(encode);
    var j := JArray([JScalar(Number("1")), JScalar(Number("2"))]);
    var k1, k2 := Opaque(JScalar(Number("1"))), Opaque(JScalar(Number("2")));
    var ps := Pairs(j);
    assert ps == [(k1, JScalar(Nil)), (k2, JScalar(Nil))];
    var applied := [(k1, Ok(OScalar(Nil))), (k2, Ok(OScalar(Nil)))];
    assert ApplyJson(env, JScalar(Nil), k1) == Ok(OScalar(Nil));
    assert ApplyJson(env, JScalar(Nil), k2) == Ok(OScalar(Nil));
    assert seq(|ps|, i requires 0 <= i < |ps| => (ps[i].0, ApplyJson(env, ps[i].1, ps[i].0))) == applied;
    assert PairKeys(applied) == [k1, k2];
    ReduceDistinct([], applied);
    assert Settled(applied) == [(k1, OScalar(Nil)), (k2, OScalar(Nil))];
    assert [] + Settled(applied) == Settled(applied);
  }

  /** '[1,2]' is rebuilt as a hash whose keys are the elements and whose
      values are nil: the `to_json` of {1=>nil, 2=>nil}. */
  lemma JsonArrayBecomesHash(encode: Out -> string)
    ensures var a := map[0 := NStr(NUMBERS)];
            ValidEnv(ExampleEnv(encode)) &&
            Process(ExampleEnv(encode), a, 0) ==
              Ok(OStr(encode(OHash([(Opaque(JScalar(Number("1"))), OScalar(Nil)),
                                    (Opaque(JScalar(Number("2"))), OScalar(Nil))]))))
  {
    var a := map[0 := NStr(NUMBERS)];
    var env := ExampleEnv(encode);
    NumbersRebuilt(encode);
    var j := JArray([JScalar(Number("1")), JScalar(Number("2"))]);
    assert env.parse(NUMBERS) == Some(j);
    assert ApplyRef(env, a, 0, NoKey, []) == Encoded(env, ApplyPairs(env, j));
  }

  /** '[[1,"x"]]' puts 1 in key position over the String "x": the field
      test is then applied to an Integer and raises a TypeError. */
  lemma JsonPairWithNumberKeyRaises(encode: Out -> string)
    ensures var a := map[0 := NStr(NUMBER_PAIR)];
            ValidEnv(ExampleEnv(encode)) &&
            Process(ExampleEnv(encode), a, 0) == TypeError
  {
    var a := map[0 := NStr(NUMBER_PAIR)];
    var env := ExampleEnv(encode);
    ExampleEnvValid(encode);
    var j := JArray([JArray([JScalar(Number("1")), JString("x")])]);
    assert env.parse(NUMBER_PAIR) == Some(j);
    var k := Opaque(JScalar(Number("1")));
    var ps := Pairs(j);
    assert ps == [(k, JString("x"))];
    assert env.parse("x") == None;
    assert !MatchesValues("x");
    assert ApplyJson(env, JString("x"), k) == TypeError;
    assert seq(|ps|, i requires 0 <= i < |ps| => (ps[i].0, ApplyJson(env, ps[i].1, ps[i].0))) == [(k, TypeError)];
    assert ApplyPairs(env, j) == Reduce([], [(k, TypeError)]);
    assert ApplyRef(env, a, 0, NoKey, []) == Encoded(env, ApplyPairs(env, j));
  }

  /** h = {}; h["self"] = h: the inner occurrence becomes "{...}". */
  lemma SelfHash(encode: Out -> string)
    ensures var a := map[0 := NMap([(Name("self"), 0)])];
            ValidEnv(ExampleEnv(encode)) &&
            Process(ExampleEnv(encode), a, 0) == Ok(OHash([(Name("self"), OStr(HASH_PLACEHOLDER))]))
  {
    var a := map[0 := NMap([(Name("self"), 0)])];
    var env := ExampleEnv(encode);
    ExampleEnvValid(encode);
    assert EntryKeys(a[0].entries) == [Name("self")];
    CycleGuard(env, a, 0, Name("self"), [0]);
    HashBranch(env, a, 0, NoKey, []);
    var res := ApplyRef(env, a, 0, NoKey, []);
    assert res.Ok?;
    assert res.value.entries == [(Name("self"), OStr(HASH_PLACEHOLDER))];
  }

  /** a = []; a << a: the inner occurrence becomes "[...]". */
  lemma SelfArray(encode: Out -> string)
    ensures var a := map[0 := NSeq([0])];
            ValidEnv(ExampleEnv(encode)) &&
            Process(ExampleEnv(encode), a, 0) == Ok(OArray([OStr(ARRAY_PLACEHOLDER)]))
  {
    var a := map[0 := NSeq([0])];
    var env := ExampleEnv(encode);
    ExampleEnvValid(encode);
    CycleGuard(env, a, 0, NoKey, [0]);
    ArrayBranch(env, a, 0, NoKey, []);
    var res := ApplyRef(env, a, 0, NoKey, []);
    assert res.Ok?;
    assert res.value.items == [OStr(ARRAY_PLACEHOLDER)];
  }

  /** The Array ["x"] at 1, met under a key that is not sensitive. */
  lemma ArrayOfPlainString(encode: Out -> string, a: Arena, name: string)
    requires Closed(a) && 1 in a && 2 in a
    requires a[1] == NSeq([2]) && a[2] == NStr("x") && !MatchesFields(name)
    ensures ValidEnv(ExampleEnv(encode))
    ensures ApplyRef(ExampleEnv(encode), a, 1, Name(name), [0]) == Ok(OArray([OStr("x")]))
  {
    var env := ExampleEnv(encode);
    ExampleEnvValid(encode);
    assert !MatchesValues("x");
    PlainString(env, a, 2, Name(name), [0, 1]);
    ArrayBranch(env, a, 1, Name(name), [0]);
    var inner := ApplyRef(env, a, 1, Name(name), [0]);
    assert inner.Ok?;
    assert inner.value.items == [OStr("x")];
  }

  /** The hash at 0 with the same Array at 1 under "a" and under "b". */
  lemma HashOfShared(encode: Out -> string, a: Arena)
    requires Closed(a) && 0 in a && 1 in a && a[0] == NMap([(Name("a"), 1), (Name("b"), 1)])
    requires ValidEnv(ExampleEnv(encode))
    requires ApplyRef(ExampleEnv(encode), a, 1, Name("a"), [0]) == Ok(OArray([OStr("x")]))
    requires ApplyRef(ExampleEnv(encode), a, 1, Name("b"), [0]) == Ok(OArray([OStr("x")]))
    ensures ApplyRef(ExampleEnv(encode), a, 0, NoKey, []) ==
              Ok(OHash([(Name("a"), OArray([OStr("x")])), (Name("b"), OArray([OStr("x")]))]))
  {
    var env := ExampleEnv(encode);
    assert [] + [0] == [0];
    assert EntryKeys(a[0].entries) == [Name("a"), Name("b")];
    HashBranch(env, a, 0, NoKey, []);
    var res := ApplyRef(env, a, 0, NoKey, []);
    assert res.Ok?;
    assert res.value.entries == [(Name("a"), OArray([OStr("x")])), (Name("b"), OArray([OStr("x")]))];
  }

  /** The same array under two keys is not a cycle: each sibling gets its
      own ancestor path, so both are processed in full. */
  lemma SharedNotCyclic(encode: Out -> string)
    ensures var a := map[0 := NMap([(Name("a"), 1), (Name("b"), 1)]), 1 := NSeq([2]), 2 := NStr("x")];
            ValidEnv(ExampleEnv(encode)) &&
            Process(ExampleEnv(encode), a, 0) ==
              Ok(OHash([(Name("a"), OArray([OStr("x")])), (Name("b"), OArray([OStr("x")]))]))
  {
    var a := map[0 := NMap([(Name("a"), 1), (Name("b"), 1)]), 1 := NSeq([2]), 2 := NStr("x")];
    assert Closed(a);
    assert !MatchesFields("a") && !MatchesFields("b") by {
      assert !ContainsIgnoringCase("a", FIELD_NAMES[0]) && !ContainsIgnoringCase("b", FIELD_NAMES[0]);
    }
    ArrayOfPlainString(encode, a, "a");
    ArrayOfPlainString(encode, a, "b");
    HashOfShared(encode, a);
  }

  /** Under "password", the String "[]" is JSON: it is rebuilt and
      re-encoded as the `to_json` of {} rather than masked. */
  lemma JsonUnderPasswordReencoded(encode: Out -> string)
    ensures var a := map[0 := NMap([(Name("password"), 1)]), 1 := NStr(EMPTY_ARRAY)];
            ValidEnv(ExampleEnv(encode)) &&
            Process(ExampleEnv(encode), a, 0) == Ok(OHash([(Name("password"), OStr(encode(OHash([]))))]))
  {
    var a := map[0 := NMap([(Name("password"), 1)]), 1 := NStr(EMPTY_ARRAY)];
    var env := ExampleEnv(encode);
    ExampleEnvValid(encode);
    assert Closed(a);
    var none: seq<Json> := [];
    assert env.parse(EMPTY_ARRAY) == Some(JArray(none));
    JsonFlatArrayString(env, a, 1, Name("password"), [0], none);
    assert seq(|none|, i requires 0 <= i < |none| => KeyOf(none[i])) == [];
    assert Uniform([], OScalar(Nil)) == [];
    SingleEntryHash(encode, a, "password", OStr(encode(OHash([]))));
  }

  /** A String key and a Symbol key with the same name are two keys:
      {"a"=>nil, :a=>true} keeps both entries. */
  lemma StringAndSymbolKeysApart(encode: Out -> string)
    ensures var a := map[0 := NMap([(Name("a"), 1), (Sym("a"), 2)]), 1 := NScalar(Nil), 2 := NScalar(Bool(true))];
            ValidEnv(ExampleEnv(encode)) &&
            Process(ExampleEnv(encode), a, 0) ==
              Ok(OHash([(Name("a"), OScalar(Nil)), (Sym("a"), OScalar(Bool(true)))]))
  {
    var a := map[0 := NMap([(Name("a"), 1), (Sym("a"), 2)]), 1 := NScalar(Nil), 2 := NScalar(Bool(true))];
    var env := ExampleEnv(encode);
    ExampleEnvValid(encode);
    assert Closed(a);
    assert [] + [0] == [0];
    assert EntryKeys(a[0].entries) == [Name("a"), Sym("a")];
    assert ApplyRef(env, a, 1, Name("a"), [0]) == Ok(OScalar(Nil));
    assert ApplyRef(env, a, 2, Sym("a"), [0]) == Ok(OScalar(Bool(true)));
    HashBranch(env, a, 0, NoKey, []);
    var res := ApplyRef(env, a, 0, NoKey, []);
    assert res.Ok?;
    assert res.value.entries == [(Name("a"), OScalar(Nil)), (Sym("a"), OScalar(Bool(true)))];
  }

  /** The String SECRET_LIST at 1, met under "password" below the hash at 0. */
  lemma SecretListString(encode: Out -> string, a: Arena)
    requires Closed(a) && 1 in a && a[1] == NStr(SECRET_LIST)
    requires ValidEnv(ExampleEnv(encode))
    ensures ApplyRef(ExampleEnv(encode), a, 1, Name("password"), [0]) ==
              Ok(OStr(encode(OHash([(Name("hunter2"), OScalar(Nil))]))))
  {
    var env := ExampleEnv(encode);
    assert env.parse(SECRET_LIST) == Some(JArray([JString("hunter2")]));
    JsonSingletonString(env, a, 1, Name("password"), [0], JString("hunter2"));
  }

  /** Under "password", the String '["hunter2"]' is JSON: its element
      becomes a hash key over nil, and keys are never tested, so the secret
      reaches the output as the `to_json` of {"hunter2"=>nil}. */
  lemma SecretInJsonArrayKept(encode: Out -> string)
    ensures var a := map[0 := NMap([(Name("password"), 1)]), 1 := NStr(SECRET_LIST)];
            ValidEnv(ExampleEnv(encode)) &&
            Process(ExampleEnv(encode), a, 0) ==
              Ok(OHash([(Name("password"), OStr(encode(OHash([(Name("hunter2"), OScalar(Nil))]))))]))
  {
    var a := map[0 := NMap([(Name("password"), 1)]), 1 := NStr(SECRET_LIST)];
    ExampleEnvValid(encode);
    assert Closed(a);
    SecretListString(encode, a);
    SingleEntryHash(encode, a, "password", OStr(encode(OHash([(Name("hunter2"), OScalar(Nil))]))));
  }

  /** A JSON array of pairs is a hash in disguise: '[["password","abc"]]'
      becomes the `to_json` of {"password"=>"********"}. */
  lemma JsonPairMasked(encode: Out -> string)
    ensures var a := map[0 := NStr(PASSWORD_PAIR)];
            ValidEnv(ExampleEnv(encode)) &&
            Process(ExampleEnv(encode), a, 0) ==
              Ok(OStr(encode(OHash([(Name("password"), OStr(MASK))]))))
  {
    var a := map[0 := NStr(PASSWORD_PAIR)];
    var env := ExampleEnv(encode);
    ParsedPasswordMasked(encode);
    var xs := [JArray([JString("password"), JString("abc")])];
    assert env.parse(PASSWORD_PAIR) == Some(JArray(xs));
    JsonPairArrayString(env, a, 0, NoKey, [], xs);
    assert seq(|xs|, i requires 0 <= i < |xs| =>
             (KeyOf(xs[i].items[0]), ApplyJson(env, xs[i].items[1], KeyOf(xs[i].items[0])).value))
           == [(Name("password"), OStr(MASK))];
  }
}
