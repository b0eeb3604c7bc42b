/**
 * The constants of the sanitizer: the mask and the two regular expressions
 * that decide whether a leaf is sensitive, written out as predicates.
 */
module Patterns {

  /** MASK: what a sensitive string is replaced by. */
  const MASK: string := "********"

  /** The alternatives of FIELDS_RE, `/(authorization|password|passwd|secret)/i`. */
  const FIELD_NAMES: seq<string> := ["authorization", "password", "passwd", "secret"]

  predicate IsAsciiDigit(c: char) {
    '0' <= c <= '9'
  }

  /* ---------------------------------------------------------------------
   * VALUES_RE = /^\d{16}$/
   *
   * In Ruby `^` matches at the start of the string or just after a newline
   * and `$` at the end of the string or just before a newline, and `\d`
   * stands for the ASCII digits.
   * ------------------------------------------------------------------- */

  /** The pattern matches starting at position p. */
  predicate CardAt(s: string, p: int) {
    && 0 <= p
    && p + 16 <= |s|
    && (p == 0 || s[p - 1] == '\n')
    && (forall i :: p <= i < p + 16 ==> IsAsciiDigit(s[i]))
    && (p + 16 == |s| || s[p + 16] == '\n')
  }

  /** `VALUES_RE.match(s)` is truthy. */
  predicate MatchesValues(s: string) {
    exists p :: 0 <= p <= |s| - 16 && CardAt(s, p)
  }

  /** A whole line that looks like a card number. */
  predicate IsCardNumber(line: string) {
    |line| == 16 && forall i :: 0 <= i < 16 ==> IsAsciiDigit(line[i])
  }

  function FirstNewline(s: string): (i: nat)
    requires '\n' in s
    ensures i < |s| && s[i] == '\n'
    ensures forall k :: 0 <= k < i ==> s[k] != '\n'
  {
    if s[0] == '\n' then 0
    else
      assert s == [s[0]] + s[1..];
      1 + FirstNewline(s[1..])
  }

  /** The newline-separated lines of s (a trailing newline gives a last,
      empty line). */
  function Lines(s: string): (ls: seq<string>)
    ensures |ls| >= 1
    decreases |s|
  {
    if '\n' in s then
      var i := FirstNewline(s);
      [s[..i]] + Lines(s[i + 1..])
    else
      [s]
  }

  /** The reading of VALUES_RE by lines: some line is exactly 16 ASCII digits. */
  predicate HasCardLine(s: string) {
    exists line :: line in Lines(s) && IsCardNumber(line)
  }

  /** A match starting on the first line of s is the whole first line. */
  lemma CardOnFirstLine(s: string, i: nat, p: int)
    requires i < |s| && s[i] == '\n'
    requires forall k :: 0 <= k < i ==> s[k] != '\n'
    requires CardAt(s, p) && p <= i
    ensures p == 0 && IsCardNumber(s[..i])
  {
    if p > 0 {
      assert false;
    }
    if i < 16 {
      assert false;
    }
    if i > 16 {
      assert false;
    }
  }

  /** A match after the first newline is a match in the rest of the string. */
  lemma CardInRest(s: string, i: nat, p: int)
    requires i < |s| && CardAt(s, p) && p > i && s[i] == '\n'
    ensures CardAt(s[i + 1..], p - i - 1)
  {
    var rest := s[i + 1..];
    var q := p - i - 1;
    forall k | q <= k < q + 16
      ensures IsAsciiDigit(rest[k])
    {
      assert rest[k] == s[k + i + 1];
    }
    if q > 0 {
      assert rest[q - 1] == s[p - 1];
    }
    if q + 16 < |rest| {
      assert rest[q + 16] == s[p + 16];
    }
  }

  /** A match in the rest of the string is a match in the whole string. */
  lemma CardFromRest(s: string, i: nat, q: int)
    requires i < |s| && s[i] == '\n' && CardAt(s[i + 1..], q)
    ensures CardAt(s, q + i + 1)
  {
    var rest := s[i + 1..];
    forall k | q + i + 1 <= k < q + i + 17
      ensures IsAsciiDigit(s[k])
    {
      assert s[k] == rest[k - i - 1];
    }
    if q > 0 {
      assert s[q + i] == rest[q - 1];
    }
    if q + 16 < |rest| {
      assert s[q + i + 17] == rest[q + 16];
    }
  }

  /** A string with no newline is its own single line. */
  lemma CardWithoutNewline(s: string)
    requires '\n' !in s
    ensures MatchesValues(s) <==> IsCardNumber(s)
  {
    if MatchesValues(s) {
      var p :| 0 <= p <= |s| - 16 && CardAt(s, p);
      if p > 0 {
        assert false;
      }
      if p + 16 < |s| {
        assert false;
      }
    }
    if IsCardNumber(s) {
      assert CardAt(s, 0);
    }
  }

  /** The first line of a string with a newline, and the rest. */
  lemma LinesSplit(s: string)
    requires '\n' in s
    ensures Lines(s) == [s[..FirstNewline(s)]] + Lines(s[FirstNewline(s) + 1..])
  {
  }

  /** A match of the pattern lies on one of the lines. */
  lemma {:induction false} CardLineOfMatch(s: string)
    requires MatchesValues(s)
    ensures HasCardLine(s)
    decreases |s|
  {
    if '\n' in s {
      var i := FirstNewline(s);
      var rest := s[i + 1..];
      LinesSplit(s);
      var p :| 0 <= p <= |s| - 16 && CardAt(s, p);
      if p <= i {
        CardOnFirstLine(s, i, p);
        assert s[..i] in Lines(s);
      } else {
        CardInRest(s, i, p);
        assert MatchesValues(rest);
        CardLineOfMatch(rest);
        var line :| line in Lines(rest) && IsCardNumber(line);
        assert line in Lines(s);
      }
    } else {
      CardWithoutNewline(s);
      assert s in Lines(s);
    }
  }

  /** A line of 16 digits is a match of the pattern. */
  lemma {:induction false} MatchOfCardLine(s: string)
    requires HasCardLine(s)
    ensures MatchesValues(s)
    decreases |s|
  {
    var line :| line in Lines(s) && IsCardNumber(line);
    if '\n' in s {
      var i := FirstNewline(s);
      var rest := s[i + 1..];
      LinesSplit(s);
      if line == s[..i] {
        assert CardAt(s, 0);
      } else {
        assert line in Lines(rest);
        MatchOfCardLine(rest);
        var q :| 0 <= q <= |rest| - 16 && CardAt(rest, q);
        CardFromRest(s, i, q);
      }
    } else {
      assert Lines(s) == [s];
      CardWithoutNewline(s);
    }
  }

  /** The position-based matcher agrees with the line-based reading. */
  lemma MatchesValuesIffCardLine(s: string)
    ensures MatchesValues(s) <==> HasCardLine(s)
  {
    if MatchesValues(s) {
      CardLineOfMatch(s);
    }
    if HasCardLine(s) {
      MatchOfCardLine(s);
    }
  }

  /* ---------------------------------------------------------------------
   * FIELDS_RE = /(authorization|password|passwd|secret)/i
   *
   * An unanchored, case-insensitive search for any of the four words.
   * ------------------------------------------------------------------- */

  function LowerAscii(c: char): char {
    if 'A' <= c <= 'Z' then (c as int + 32) as char else c
  }

  function LowerAll(s: string): (r: string)
    ensures |r| == |s|
    ensures forall i :: 0 <= i < |s| ==> r[i] == LowerAscii(s[i])
  {
    seq(|s|, i requires 0 <= i < |s| => LowerAscii(s[i]))
  }

  /** `word` occurs at position p of `text`, ignoring case. */
  predicate WordAt(text: string, word: string, p: int) {
    && 0 <= p
    && p + |word| <= |text|
    && forall i :: 0 <= i < |word| ==> LowerAscii(text[p + i]) == word[i]
  }

  predicate ContainsIgnoringCase(text: string, word: string) {
    exists p :: 0 <= p <= |text| - |word| && WordAt(text, word, p)
  }

  /** `FIELDS_RE.match(name)` is truthy for a String name. */
  predicate MatchesFields(name: string) {
    exists w :: w in FIELD_NAMES && ContainsIgnoringCase(name, w)
  }

  /** The match ignores case: a name matches exactly when its lower-case
      form does. */
  lemma FieldsIgnoreCase(name: string)
    ensures MatchesFields(name) <==> MatchesFields(LowerAll(name))
  {
    var low := LowerAll(name);
    forall w, p | w in FIELD_NAMES
      ensures WordAt(name, w, p) <==> WordAt(low, w, p)
    {
      if 0 <= p && p + |w| <= |name| {
        forall k | p <= k < p + |w|
          ensures LowerAscii(name[k]) == LowerAscii(low[k])
        {
          assert low[k] == LowerAscii(name[k]);
        }
      }
    }
    if MatchesFields(name) {
      var w :| w in FIELD_NAMES && ContainsIgnoringCase(name, w);
      var p :| 0 <= p <= |name| - |w| && WordAt(name, w, p);
      assert WordAt(low, w, p);
    }
    if MatchesFields(low) {
      var w :| w in FIELD_NAMES && ContainsIgnoringCase(low, w);
      var p :| 0 <= p <= |low| - |w| && WordAt(low, w, p);
      assert WordAt(name, w, p);
    }
  }

  /** The match is a substring search: text around a matching name does
      not stop it from matching. */
  lemma FieldsUnanchored(prefix: string, name: string, suffix: string)
    requires MatchesFields(name)
    ensures MatchesFields(prefix + name + suffix)
  {
    var w :| w in FIELD_NAMES && ContainsIgnoringCase(name, w);
    var p :| 0 <= p <= |name| - |w| && WordAt(name, w, p);
    var whole := prefix + name + suffix;
    forall i | 0 <= i < |w|
      ensures LowerAscii(whole[|prefix| + p + i]) == w[i]
    {
      assert whole[|prefix| + p + i] == name[p + i];
    }
    assert WordAt(whole, w, |prefix| + p);
  }
}
