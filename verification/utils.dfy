/**
 * The case conversions of src/lib/utils.ts. Both are regular-expression
 * replacements with the `g` flag: matches are found left to right, do not
 * overlap, and scanning resumes after each match. Case mapping is ASCII.
 */
module Utils {
  import opened Chars

  /** `([a-z0-9])([A-Z])`: the place where one camelCase word ends and the next begins. */
  predicate WordBreak(a: char, b: char) {
    (IsLower(a) || IsDigit(a)) && IsUpper(b)
  }

  /** `s.replace(/([a-z0-9])([A-Z])/g, "$1_$2")`. */
  function MarkWords(s: string): string {
    if |s| < 2 then s
    else if WordBreak(s[0], s[1]) then [s[0], '_', s[1]] + MarkWords(s[2..])
    else [s[0]] + MarkWords(s[1..])
  }

  /** `toLowerCase`, on ASCII letters: each uppercase letter becomes its own
      lowercase letter, every other character stays. */
  function LowerCase(s: string): (r: string)
    ensures |r| == |s|
    ensures forall i :: 0 <= i < |r| ==> !IsUpper(r[i])
    ensures forall i :: 0 <= i < |r| ==> !IsUpper(s[i]) ==> r[i] == s[i]
    ensures forall i :: 0 <= i < |r| ==> IsUpper(s[i]) ==> r[i] as int - 'a' as int == s[i] as int - 'A' as int
  {
    seq(|s|, i requires 0 <= i < |s| => ToLower(s[i]))
  }

  /** camelCase to snake_case. */
  function CamelToSnake(camelCase: string): (r: string)
    ensures forall i :: 0 <= i < |r| ==> !IsUpper(r[i])
  {
    LowerCase(MarkWords(camelCase))
  }

  /** `s.replace(/_([a-z])/g, (_, c) => c.toUpperCase())`: snake_case to camelCase. */
  function SnakeToCamel(snakeCase: string): (r: string)
    ensures |r| <= |snakeCase|
  {
    if |snakeCase| < 2 then snakeCase
    else if snakeCase[0] == '_' && IsLower(snakeCase[1]) then [ToUpper(snakeCase[1])] + SnakeToCamel(snakeCase[2..])
    else [snakeCase[0]] + SnakeToCamel(snakeCase[1..])
  }

  /* ---------------------------------------------------------------------- */
  /* camelToSnake                                                            */
  /* ---------------------------------------------------------------------- */

  /** The words of `s[i..]` marked one character at a time: `_` goes before
      each `s[k]` that is uppercase and directly follows a lowercase letter
      or a digit, and every character keeps its place. */
  function Marked(s: string, i: nat): string
    requires i <= |s|
    decreases |s| - i
  {
    if i == |s| then []
    else (if 0 < i && WordBreak(s[i - 1], s[i]) then "_" else "") + [s[i]] + Marked(s, i + 1)
  }

  /** One character with no break before it. */
  lemma MarkedPlain(s: string, i: nat)
    requires i < |s| && (0 < i ==> !WordBreak(s[i - 1], s[i]))
    ensures Marked(s, i) == [s[i]] + Marked(s, i + 1)
  {
  }

  /** A word break: a lowercase letter or digit, `_`, the uppercase letter. */
  lemma MarkedBreak(s: string, i: nat)
    requires i + 1 < |s| && (0 < i ==> !WordBreak(s[i - 1], s[i])) && WordBreak(s[i], s[i + 1])
    ensures Marked(s, i) == [s[i], '_', s[i + 1]] + Marked(s, i + 2)
  {
    MarkedPlain(s, i);
    Regroup(s[i], '_', s[i + 1], Marked(s, i + 2));
  }

  lemma Regroup(a: char, b: char, c: char, rest: string)
    ensures [a] + ([b] + [c] + rest) == [a, b, c] + rest
  {
  }

  /** One step of the scan over `s[i..]`. */
  lemma MarkWordsStep(s: string, i: nat)
    requires i + 1 < |s|
    ensures WordBreak(s[i], s[i + 1]) ==> MarkWords(s[i..]) == [s[i], '_', s[i + 1]] + MarkWords(s[i + 2..])
    ensures !WordBreak(s[i], s[i + 1]) ==> MarkWords(s[i..]) == [s[i]] + MarkWords(s[i + 1..])
  {
    var t := s[i..];
    assert t[0] == s[i] && t[1] == s[i + 1] && t[1..] == s[i + 1..] && t[2..] == s[i + 2..];
  }

  /** The scan agrees with the character-by-character rule, from any point
      where no break is pending. */
  lemma {:induction false} MarkWordsFrom(s: string, i: nat)
    requires i <= |s|
    requires 0 < i < |s| ==> !WordBreak(s[i - 1], s[i])
    ensures MarkWords(s[i..]) == Marked(s, i)
    decreases |s| - i
  {
    if i == |s| {
    } else if i == |s| - 1 {
      assert s[i..] == [s[i]];
      MarkedPlain(s, i);
    } else {
      MarkWordsStep(s, i);
      if WordBreak(s[i], s[i + 1]) {
        MarkWordsFrom(s, i + 2);
        MarkedBreak(s, i);
      } else {
        MarkWordsFrom(s, i + 1);
        MarkedPlain(s, i);
      }
    }
  }

  /** `camelToSnake` puts `_` exactly before each uppercase letter that
      directly follows a lowercase letter or a digit, keeps every character
      in order, and lowercases the result. */
  lemma CamelToSnakeMarks(s: string)
    ensures CamelToSnake(s) == LowerCase(Marked(s, 0))
  {
    MarkWordsFrom(s, 0);
    assert s[0..] == s;
  }

  /** Without an uppercase letter there is no word break to mark. */
  lemma {:induction false} MarkWordsLower(s: string)
    requires forall i :: 0 <= i < |s| ==> !IsUpper(s[i])
    ensures MarkWords(s) == s
  {
    if |s| >= 2 {
      MarkWordsLower(s[1..]);
      assert s == [s[0]] + s[1..];
    }
  }

  /** A string without uppercase letters is already snake_case. */
  lemma CamelToSnakeLower(s: string)
    ensures (forall i :: 0 <= i < |s| ==> !IsUpper(s[i])) ==> CamelToSnake(s) == s
  {
    if forall i :: 0 <= i < |s| ==> !IsUpper(s[i]) {
      MarkWordsLower(s);
    }
  }

  /** Converting twice is converting once. */
  lemma CamelToSnakeIdempotent(s: string)
    ensures CamelToSnake(CamelToSnake(s)) == CamelToSnake(s)
  {
    CamelToSnakeLower(CamelToSnake(s));
  }

  /* ---------------------------------------------------------------------- */
  /* snakeToCamel                                                            */
  /* ---------------------------------------------------------------------- */

  /** No `_` is directly followed by a lowercase letter. */
  predicate NoSnakeJoin(r: string) {
    forall i :: 0 <= i < |r| - 1 && r[i] == '_' ==> !IsLower(r[i + 1])
  }

  /** The first character of the result is lowercase exactly when that of
      the input is. */
  lemma SnakeToCamelFirst(s: string)
    requires |s| >= 1
    ensures |SnakeToCamel(s)| >= 1
    ensures IsLower(SnakeToCamel(s)[0]) <==> IsLower(s[0])
    ensures s[0] != '_' ==> SnakeToCamel(s)[0] == s[0]
  {
  }

  lemma NoSnakeJoinCons(c: char, rest: string)
    requires NoSnakeJoin(rest)
    requires c == '_' && |rest| >= 1 ==> !IsLower(rest[0])
    ensures NoSnakeJoin([c] + rest)
  {
    var r := [c] + rest;
    forall i | 1 <= i < |r| ensures r[i] == rest[i - 1] {
    }
  }

  /** After `snakeToCamel` no `_` is followed by a lowercase letter. */
  lemma {:induction false} SnakeToCamelJoined(s: string)
    ensures NoSnakeJoin(SnakeToCamel(s))
  {
    if |s| < 2 {
    } else if s[0] == '_' && IsLower(s[1]) {
      SnakeToCamelJoined(s[2..]);
      NoSnakeJoinCons(ToUpper(s[1]), SnakeToCamel(s[2..]));
    } else {
      SnakeToCamelJoined(s[1..]);
      SnakeToCamelFirst(s[1..]);
      assert s[1..][0] == s[1];
      NoSnakeJoinCons(s[0], SnakeToCamel(s[1..]));
    }
  }

  /** The `_` at `i` is one the regular expression replaces: it is followed
      by a lowercase letter. A `_` cannot be the letter of an earlier match,
      so this does not depend on what comes before. */
  predicate SnakeJoinAt(s: string, i: int) {
    0 <= i < |s| - 1 && s[i] == '_' && IsLower(s[i + 1])
  }

  /** `s[i..]` converted one character at a time: each `_` that starts a
      match goes, the letter after it becomes uppercase, and every other
      character, a `_` before anything but a lowercase letter included,
      stays as it is. */
  function Camelled(s: string, i: nat): string
    requires i <= |s|
    decreases |s| - i
  {
    if i == |s| then []
    else if SnakeJoinAt(s, i) then Camelled(s, i + 1)
    else [if SnakeJoinAt(s, i - 1) then ToUpper(s[i]) else s[i]] + Camelled(s, i + 1)
  }

  /** The scan agrees with the character-by-character rule, from any point
      that is not the letter of a match. */
  lemma {:induction false} SnakeToCamelFrom(s: string, i: nat)
    requires i <= |s| && !SnakeJoinAt(s, i - 1)
    ensures SnakeToCamel(s[i..]) == Camelled(s, i)
    decreases |s| - i
  {
    if i == |s| {
    } else if i == |s| - 1 {
      assert s[i..] == [s[i]];
    } else if SnakeJoinAt(s, i) {
      assert s[i..] == ['_', s[i + 1]] + s[i + 2..];
      SnakeToCamelJoin(s[i + 1], s[i + 2..]);
      SnakeToCamelFrom(s, i + 2);
    } else {
      var t := s[i..];
      assert t[0] == s[i] && t[1] == s[i + 1] && t[1..] == s[i + 1..];
      SnakeToCamelFrom(s, i + 1);
    }
  }

  /** `snakeToCamel` drops exactly the `_` directly before a lowercase
      letter, uppercases that letter, and keeps every other character in
      order. */
  lemma SnakeToCamelChars(s: string)
    ensures SnakeToCamel(s) == Camelled(s, 0)
  {
    SnakeToCamelFrom(s, 0);
    assert s[0..] == s;
  }

  /** A `_` before anything but a lowercase letter is kept. */
  lemma SnakeToCamelKeep(c: char, rest: string)
    requires !IsLower(c)
    ensures SnakeToCamel(['_', c] + rest) == ['_'] + SnakeToCamel([c] + rest)
  {
    assert (['_', c] + rest)[1..] == [c] + rest;
  }

  /** "a_1" stays as it is, and in "__a" only the second `_` goes. */
  lemma SnakeToCamelKeptExamples()
    ensures SnakeToCamel("a_1") == "a_1"
    ensures SnakeToCamel("__a") == "_A"
  {
    SnakeToCamelKeep('1', []);
    SnakeToCamelKeep('_', "a");
    assert "a_1" == ['a'] + "_1";
  }

  /** A string without `_` comes back unchanged. */
  lemma {:induction false} SnakeToCamelPlain(s: string)
    requires '_' !in s
    ensures SnakeToCamel(s) == s
  {
    if |s| >= 2 {
      assert s[0] in s;
      assert forall k :: 0 <= k < |s| - 1 ==> s[1..][k] in s;
      SnakeToCamelPlain(s[1..]);
      assert s == [s[0]] + s[1..];
    }
  }

  /* ---------------------------------------------------------------------- */
  /* The round trip                                                          */
  /* ---------------------------------------------------------------------- */

  /** An ASCII alphanumeric camelCase name: it does not start with an
      uppercase letter and has no two uppercase letters in a row. */
  predicate CamelWord(s: string) {
    (forall i :: 0 <= i < |s| ==> IsLower(s[i]) || IsUpper(s[i]) || IsDigit(s[i]))
    && (|s| >= 1 ==> !IsUpper(s[0]))
    && (forall i :: 0 < i < |s| && IsUpper(s[i]) ==> !IsUpper(s[i - 1]))
  }

  lemma CamelWordTail(s: string, k: nat)
    requires CamelWord(s) && 1 <= k <= |s| && (k < |s| ==> !IsUpper(s[k]))
    ensures CamelWord(s[k..])
  {
    var t := s[k..];
    forall i | 0 <= i < |t| ensures t[i] == s[k + i] {
    }
  }

  lemma LowerCaseCons(a: string, b: string)
    ensures LowerCase(a + b) == LowerCase(a) + LowerCase(b)
  {
  }

  lemma SnakeToCamelCons(c: char, rest: string)
    requires c != '_'
    ensures SnakeToCamel([c] + rest) == [c] + SnakeToCamel(rest)
  {
    if rest != [] {
      assert ([c] + rest)[1..] == rest;
    }
  }

  lemma SnakeToCamelJoin(c: char, rest: string)
    requires IsLower(c)
    ensures SnakeToCamel(['_', c] + rest) == [ToUpper(c)] + SnakeToCamel(rest)
  {
    assert (['_', c] + rest)[2..] == rest;
  }

  lemma CamelToSnakeBreak(s: string)
    requires |s| >= 2 && WordBreak(s[0], s[1])
    ensures CamelToSnake(s) == [s[0]] + (['_', ToLower(s[1])] + CamelToSnake(s[2..]))
  {
    LowerCaseCons([s[0], '_', s[1]], MarkWords(s[2..]));
  }

  /** `snakeToCamel` turns a marked word break back into the uppercase
      letter. */
  lemma SnakeToCamelBreak(a: char, b: char, rest: string)
    requires a != '_' && IsUpper(b)
    ensures SnakeToCamel([a] + (['_', ToLower(b)] + rest)) == [a, b] + SnakeToCamel(rest)
  {
    SnakeToCamelCons(a, ['_', ToLower(b)] + rest);
    SnakeToCamelJoin(ToLower(b), rest);
    UpperLowerInverse(b);
  }

  lemma CamelToSnakePlain(s: string)
    requires |s| >= 2 && !WordBreak(s[0], s[1]) && !IsUpper(s[0])
    ensures CamelToSnake(s) == [s[0]] + CamelToSnake(s[1..])
  {
    LowerCaseCons([s[0]], MarkWords(s[1..]));
  }

  /** `snakeToCamel` undoes `camelToSnake` on camelCase names. */
  lemma {:induction false} SnakeCamelRoundTrip(s: string)
    requires CamelWord(s)
    ensures SnakeToCamel(CamelToSnake(s)) == s
  {
    if |s| < 2 {
      CamelToSnakeLower(s);
    } else if WordBreak(s[0], s[1]) {
      CamelWordTail(s, 2);
      SnakeCamelRoundTrip(s[2..]);
      CamelToSnakeBreak(s);
      SnakeToCamelBreak(s[0], s[1], CamelToSnake(s[2..]));
      assert s == [s[0], s[1]] + s[2..];
    } else {
      CamelWordTail(s, 1);
      SnakeCamelRoundTrip(s[1..]);
      CamelToSnakePlain(s);
      SnakeToCamelCons(s[0], CamelToSnake(s[1..]));
      assert s == [s[0]] + s[1..];
    }
  }
}
