# SanitizeData: a verified model of Raven's data sanitizer

This project models `Raven::Processor::SanitizeData` from the Raven Ruby
client (lib/raven/processors/sanitizedata.rb) and proves properties of it in
Dafny. Before an event is sent, the processor walks the event's data and
builds a copy in which sensitive leaves are replaced by the mask
`"********"`. The data can be nested hashes, arrays, strings that hold JSON,
and other scalars, and it can contain cycles. A leaf is sensitive when its
cleaned text has a line of exactly 16 ASCII digits (`VALUES_RE`). It is also
sensitive when its key contains `authorization`, `password`, `passwd` or
`secret`, ignoring case (`FIELDS_RE`). A container already on the path from
the root is not entered again. A Hash is replaced by `"{...}"`. An Array, or a
String holding JSON, is replaced by `"[...]"`.

Files and modules:

- `values.dfy`, module `Values`: the values involved.
  - The output tree `Out`.
  - Parsed JSON `Json`.
  - Keys `Key`: none (`nil`), a String `Name`, a Symbol `Sym`, or any other object `Opaque`. A String and a Symbol with the same text are different keys, as in a Ruby Hash.
  - `Result`, because the traversal can raise (see below).
  - The size measures that show the traversal of parsed JSON terminates.
- `patterns.dfy`, module `Patterns`: `MASK`, `FIELDS_RE` and `VALUES_RE`, written as predicates.
  - `VALUES_RE` uses Ruby's line anchors: `^` matches at the start of a line, `$` at the end of a line.
  - It is proved equal to "some newline-separated line is 16 digits".
- `sanitize_data.dfy`, module `SanitizeData`: the processor itself.
  - `Sanitize` is `sanitize`.
  - `ApplyRef` is `apply` on the caller's data.
  - `ApplyJson` and `ApplyPairs` are `apply` on freshly parsed JSON.
  - `Process` is `process`.
  - The caller's data is an arena `map<Ref, Node>`. A `Ref` stands for a Ruby object identity (`__id__`), so cycles can be written down.
  - The ancestor list `visited` is a `seq<Ref>`, extended with `visited + [r]` exactly as `visited += [value.__id__]` does.
  - Recursion into containers decreases the number of arena objects not yet on the ancestor path.
- `properties.dfy`, module `SanitizeDataProperties`: the proved properties.
- `examples.dfy`, module `SanitizeDataExamples`: concrete inputs and their proved outputs.

The model takes three pieces of code from outside the processor as parameters, in the datatype `SanitizeData.Env`:

- `clean` is `clean_invalid_utf8_bytes`.
- `parse` is `JSON.parse(value) rescue nil`.
- `encode` is `to_json`.

The only thing assumed about them (`ValidEnv`) is about `parse`. Whatever it returns is an object or an array, every object in it has distinct names (`JSON.parse` builds Ruby Hashes), and every string value in it is shorter than the text it was parsed from.

How the code behaves in cases that are easy to overlook:

- Not every call returns. `FIELDS_RE.match(key)` raises `TypeError` when the key is neither a String, a Symbol nor nil. That happens when the value is a non-empty String without a 16-digit line.
  - Hashes with, say, Integer keys do this.
  - So does a String holding a JSON array of pairs. `each.reduce` with `|memo, (k, v)|` destructures each element, so `'[[1,"x"]]'` puts `1` in key position over `"x"`.
  - The model has this error path as `Result.TypeError`. `SanitizeDataExamples.JsonPairWithNumberKeyRaises` exhibits it.
  - `SanitizeDataProperties.ProcessNeverRaises` gives a sufficient condition for `process` to return.
- A String holding a JSON array is not handled like an Array. It is rebuilt as a hash whose keys are the destructured elements: `'[1,2]'` becomes the `to_json` of `{1=>nil, 2=>nil}`. `SanitizeDataProperties.JsonFlatArrayString` states this for every array without nested arrays; `SanitizeDataExamples.JsonArrayBecomesHash` is one instance.
- A String that parses as JSON is never masked as a whole, even under a sensitive key. `{"password"=>"[]"}` becomes `{"password"=>"{}"}`, the `to_json` of an empty hash (`SanitizeDataExamples.JsonUnderPasswordReencoded`).
- Inside a String holding a JSON object, and inside a JSON array of pairs, the values are tested under their own keys (`SanitizeDataExamples.JsonPayloadMasked`, `SanitizeDataExamples.JsonPairMasked`). The elements of a JSON array that are not pairs become hash keys, and keys are never tested. So `{"password"=>'["hunter2"]'}` becomes `{"password"=>to_json({"hunter2"=>nil})}` and the secret reaches the output (`SanitizeDataExamples.SecretInJsonArrayKept`). Likewise `'[{"password":"abc"}]'` makes the whole object a key, and `"abc"` is never masked.

## Model

| member | source | states |
|---|---|---|
| Patterns.MatchesValuesIffCardLine | lib/raven/processors/sanitizedata.rb:10 | `VALUES_RE` with Ruby's line anchors matches a string exactly when some newline-separated line of it is 16 ASCII digits |
| Patterns.CardWithoutNewline | lib/raven/processors/sanitizedata.rb:10 | on a string without a newline, `VALUES_RE` matches exactly when the whole string is 16 ASCII digits |
| Patterns.CardLineOfMatch | lib/raven/processors/sanitizedata.rb:10 | a match of `VALUES_RE` lies on one line that is exactly 16 digits |
| Patterns.MatchOfCardLine | lib/raven/processors/sanitizedata.rb:10 | a line of exactly 16 digits anywhere in the string is a match of `VALUES_RE` |
| Patterns.FieldsIgnoreCase | lib/raven/processors/sanitizedata.rb:9 | the `/i` flag: a name matches `FIELDS_RE` exactly when its lower-case form does |
| Patterns.FieldsUnanchored | lib/raven/processors/sanitizedata.rb:9 | `FIELDS_RE` is a substring search: a matching name still matches with any text around it |
| SanitizeData.FieldsMatch | lib/raven/processors/sanitizedata.rb:46 | `FIELDS_RE.match(key)`: nil never matches, a String or Symbol matches exactly when it contains one of the four words, any other key raises `TypeError` |
| SanitizeData.Sanitize | lib/raven/processors/sanitizedata.rb:43-50 | a non-String or empty String comes back unchanged; otherwise the result is `MASK` when the cleaned text has a 16-digit line or the key is sensitive, else the cleaned text; it raises exactly when the value is a non-empty String without a 16-digit line under a key that is not a String, Symbol or nil |
| SanitizeData.Put | lib/raven/processors/sanitizedata.rb:18-19 | `memo[k] = v` on a Ruby Hash: the keys stay distinct, an existing key keeps its place and takes the new value, a new key goes last, every other entry is unchanged |
| SanitizeData.Reduce | lib/raven/processors/sanitizedata.rb:17-20 | the `each.reduce({})` fold returns exactly when every `apply` in it returns, and its keys are distinct |
| SanitizeData.MapAll | lib/raven/processors/sanitizedata.rb:25-27 | `map` over the elements returns exactly when every `apply` returns, with one result per element, in order |
| SanitizeData.KeyOf | lib/raven/processors/sanitizedata.rb:32 | the key a destructured JSON element yields: a String gives the String key with that text, null gives no key, any other value is an opaque key holding that value, never a Symbol |
| SanitizeData.Destructure | lib/raven/processors/sanitizedata.rb:32 | the `(k, v)` destructuring of one JSON element: a non-array element is the key over nil; an array element's key comes from its first entry (no key when it is empty) and its value is its second entry, nil when it has fewer than two |
| SanitizeData.ApplyJson | lib/raven/processors/sanitizedata.rb:21-39 | `apply` on parsed JSON: a scalar comes back unchanged, an object becomes a hash with distinct keys, an array keeps its length, a String stays a String; the lemmas `JsonObjectBranch`, `JsonArrayBranch`, `JsonPlainLeaf` and `StringSameInside` give the contents |
| SanitizeData.ApplyPairs | lib/raven/processors/sanitizedata.rb:32-35 | the fold over a parsed document yields distinct keys, and an empty object gives the empty hash |
| SanitizeData.ApplyRef | lib/raven/processors/sanitizedata.rb:12-40 | `apply` on the caller's data: a scalar comes back unchanged, a Hash becomes a hash with distinct keys or `"{...}"`, an Array becomes an array of its length or `"[...]"`, a String stays a String |
| SanitizeData.Process | lib/raven/processors/sanitizedata.rb:53-57 | `process` keeps the shape of the root: a scalar unchanged, a Hash gives a hash, an Array an array of its length, a String a String |
| SanitizeDataProperties.SanitizeIdempotent | lib/raven/processors/sanitizedata.rb:43-50 | sanitizing a sanitized leaf again changes nothing, when cleaning is idempotent and leaves the mask alone, under a nil, String or Symbol key |
| SanitizeDataProperties.KeyMattersOnlyWhenSensitive | lib/raven/processors/sanitizedata.rb:46 | a nil key, and a String or Symbol key that does not match `FIELDS_RE`, give the same outcome, and it never raises |
| SanitizeDataProperties.MaskedExactlyWhenSensitive | lib/raven/processors/sanitizedata.rb:44-47 | provided the cleaned text is not itself `"********"`, the result is the mask exactly when the value is a non-empty String whose cleaned text has a 16-digit line or whose String or Symbol key is sensitive; scalars and empty Strings are never masked |
| SanitizeDataProperties.ReduceDistinct | lib/raven/processors/sanitizedata.rb:17-20 | with distinct keys, the fold appends each key once, in the order met, with its own value |
| SanitizeDataProperties.HashBranch | lib/raven/processors/sanitizedata.rb:13-20 | a Hash not on the ancestor path becomes a new hash with the same keys in the same order; each value is processed under its own key with the hash added to the ancestor path; it returns exactly when every value does |
| SanitizeDataProperties.ArrayBranch | lib/raven/processors/sanitizedata.rb:21-27 | an Array not on the ancestor path becomes an array of the same length and order; each element is processed under the enclosing key with the array added to the ancestor path; it returns exactly when every element does |
| SanitizeDataProperties.CycleGuard | lib/raven/processors/sanitizedata.rb:14-29 | a container already on the ancestor path is not entered: a Hash gives `"{...}"`, an Array or a String holding JSON gives `"[...]"` |
| SanitizeDataProperties.SelfReferentialHash | lib/raven/processors/sanitizedata.rb:13-20 | a hash that holds itself becomes a hash in which that entry is `"{...}"` |
| SanitizeDataProperties.SelfReferentialArray | lib/raven/processors/sanitizedata.rb:21-27 | an array that holds itself becomes an array in which that element is `"[...]"` |
| SanitizeDataProperties.StringIgnoresPath | lib/raven/processors/sanitizedata.rb:28-30 | the ancestor path holds only containers, so a String gives the same result wherever it is met |
| SanitizeDataProperties.JsonObjectString | lib/raven/processors/sanitizedata.rb:28-37 | a String that parses as an object becomes the `to_json` of a new hash with the object's keys in order, each value processed under its own key |
| SanitizeDataProperties.ReduceUniform | lib/raven/processors/sanitizedata.rb:17-20 | a fold in which every value is the same keeps each key at its first occurrence, each over that value |
| SanitizeDataProperties.JsonFlatArrayString | lib/raven/processors/sanitizedata.rb:28-37 | a String that parses as an array of non-arrays becomes the `to_json` of a hash whose keys are the elements, each once, in first-occurrence order, each over nil |
| SanitizeDataProperties.JsonSingletonString | lib/raven/processors/sanitizedata.rb:28-37 | a String that parses as a one-element array of a non-array x becomes the `to_json` of `{x=>nil}`, whatever the enclosing key |
| SanitizeDataProperties.ObjectFold | lib/raven/processors/sanitizedata.rb:32-35 | the fold over a parsed object rebuilds its members in order, each value processed under its own name, and returns exactly when every value does |
| SanitizeDataProperties.PairArrayFold | lib/raven/processors/sanitizedata.rb:32-35 | the fold over a parsed array of pairs `[k, v, ...]` with distinct keys gives `k => apply(v, k)` in order, and returns exactly when every value does |
| SanitizeDataProperties.JsonPairArrayString | lib/raven/processors/sanitizedata.rb:28-37 | a String that parses as an array of pairs with distinct keys becomes the `to_json` of the hash `k => apply(v, k)`, and returns exactly when every value does |
| SanitizeDataProperties.PlainString | lib/raven/processors/sanitizedata.rb:28-39 | a String that does not parse is handed to `sanitize` with its key |
| SanitizeDataProperties.TopLevelString | lib/raven/processors/sanitizedata.rb:53-57 | `process` starts with a nil key, so a top-level String is masked only when it has a 16-digit line |
| SanitizeDataProperties.StringSameInside | lib/raven/processors/sanitizedata.rb:28-39 | a String inside parsed JSON is treated exactly as a String of the caller's data that is not on the ancestor path |
| SanitizeDataProperties.JsonPlainLeaf | lib/raven/processors/sanitizedata.rb:38-39 | inside parsed JSON, a String that does not parse is handed to `sanitize` with its key |
| SanitizeDataProperties.JsonObjectBranch | lib/raven/processors/sanitizedata.rb:13-20 | inside parsed JSON, an object becomes a hash with its names in order, each value processed under its own name, whatever the enclosing key; it returns exactly when every value does |
| SanitizeDataProperties.JsonArrayBranch | lib/raven/processors/sanitizedata.rb:21-27 | inside parsed JSON, an array becomes an array of the same length and order, each element processed under the enclosing key; it returns exactly when every element does |
| SanitizeDataProperties.JsonNeverRaises | lib/raven/processors/sanitizedata.rb:21-39 | parsed JSON under a nil, String or Symbol key is processed without raising when the parser gives objects only |
| SanitizeDataProperties.ObjectNeverRaises | lib/raven/processors/sanitizedata.rb:32-35 | the fold over a parsed object returns when the parser gives objects only |
| SanitizeDataProperties.RefNeverRaises | lib/raven/processors/sanitizedata.rb:12-40 | with hashes keyed by Strings, Symbols or nil and a parser that gives objects only, `apply` always returns, on any graph including cyclic ones |
| SanitizeDataProperties.ProcessNeverRaises | lib/raven/processors/sanitizedata.rb:53-57 | a sufficient condition, not an exact one: under the same conditions, `process` always returns |
| SanitizeDataExamples.CardMasked | lib/raven/processors/sanitizedata.rb:46-47 | `{"card"=>"1234567890123456"}` becomes `{"card"=>"********"}` |
| SanitizeDataExamples.AuthorizationMasked | lib/raven/processors/sanitizedata.rb:46-47 | `{"Authorization"=>"Bearer xyz"}` becomes `{"Authorization"=>"********"}` |
| SanitizeDataExamples.NoteKept | lib/raven/processors/sanitizedata.rb:48-49 | `{"note"=>"hello world"}` comes back unchanged |
| SanitizeDataExamples.EmptyPasswordKept | lib/raven/processors/sanitizedata.rb:44-45 | `{"password"=>""}` comes back unchanged |
| SanitizeDataExamples.KeyInheritedByArray | lib/raven/processors/sanitizedata.rb:25-27 | `{"password"=>["a","b"]}` becomes `{"password"=>["********","********"]}` |
| SanitizeDataExamples.JsonPayloadMasked | lib/raven/processors/sanitizedata.rb:28-37 | `{"payload"=>'{"password":"abc"}'}` becomes the payload re-encoded with `"password"` masked |
| SanitizeDataExamples.JsonArrayBecomesHash | lib/raven/processors/sanitizedata.rb:32-37 | `'[1,2]'` becomes the `to_json` of `{1=>nil, 2=>nil}` |
| SanitizeDataExamples.JsonPairWithNumberKeyRaises | lib/raven/processors/sanitizedata.rb:32-33 | `'[[1,"x"]]'` makes `process` raise `TypeError` |
| SanitizeDataExamples.SelfHash | lib/raven/processors/sanitizedata.rb:14 | `h = {}; h["self"] = h` becomes `{"self"=>"{...}"}` |
| SanitizeDataExamples.SelfArray | lib/raven/processors/sanitizedata.rb:22 | `a = []; a << a` becomes `["[...]"]` |
| SanitizeDataExamples.JsonUnderPasswordReencoded | lib/raven/processors/sanitizedata.rb:28-37 | `{"password"=>"[]"}` becomes `{"password"=>to_json({})}`: JSON text is re-encoded, not masked |
| SanitizeDataExamples.SecretInJsonArrayKept | lib/raven/processors/sanitizedata.rb:28-37 | `{"password"=>'["hunter2"]'}` becomes `{"password"=>to_json({"hunter2"=>nil})}`: the secret is a key and is not masked |
| SanitizeDataExamples.JsonPairMasked | lib/raven/processors/sanitizedata.rb:32-37 | `'[["password","abc"]]'` becomes the `to_json` of `{"password"=>"********"}` |
| SanitizeDataExamples.StringAndSymbolKeysApart | lib/raven/processors/sanitizedata.rb:17-19 | `{"a"=>nil, :a=>true}` keeps both entries |
| SanitizeDataExamples.SharedNotCyclic | lib/raven/processors/sanitizedata.rb:15-18 | one array under two sibling keys is processed in full both times: siblings never see each other's ids |

## Left out

- `clean_invalid_utf8_bytes` (lines 61-80) is the parameter `clean`. How it transcodes depends on the Ruby version and on `String#encode`, which are not part of this model.
- The JSON grammar and the text produced by `to_json` belong to the `json` library. They are the parameters `parse` and `encode`.
- `parse` returns only an object or an array. This matches the json library before version 2.0. From version 2.0 on, a String such as `"12"` parses to a scalar and line 32 then raises `NoMethodError`. That path is not modelled.
- `FIELDS_RE` folds case for ASCII letters only. Ruby's `/i` also folds a few non-ASCII characters, such as the long s, onto `s`.
- Keys other than Strings, Symbols and nil are one kind, `Opaque`. Any of them makes `FIELDS_RE.match` raise.
- Strings are sequences of characters, that is, valid text. A String key with invalid bytes would make `FIELDS_RE.match` at line 46 raise `ArgumentError`; the model has no such key.
- Opaque keys are equal when their values are written the same. Ruby compares Hash keys with `eql?`, under which, for example, the JSON numbers `1.0` and `1.00` are one Float key; the model treats number literals as text and keeps them apart.
- Object identity exists only for arena nodes. The arena model leaves out identity of scalars and of the fresh objects built by `JSON.parse`. Neither can ever be on the ancestor path.
- The input is never modified. This holds by construction, because every operation is a function of the arena.
- SanitizeIdempotent: proved leaf by leaf, not for `process` applied twice to a whole tree.
  - It needs a nil, String or Symbol key. Under any other key a card number is masked the first time and the mask then raises.
  - It needs cleaning to be idempotent and to leave the mask unchanged.
