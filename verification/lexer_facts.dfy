/**
 * What the tokenizer of src/lib/expressions.ts guarantees about its output:
 * every token has one of the five shapes and stands in the input at its
 * recorded position, tokens follow each other without overlap, their texts
 * put together are the input without its whitespace, and a failure reports
 * a character that can start no token.
 */
module LexerFacts {
  import opened Wrappers
  import opened Chars
  import opened Expressions

  /** A digit, an operator, a parenthesis or `[a-zA-Z_]`: a character that begins a token. */
  predicate StartsToken(c: char) {
    IsDigit(c) || IsOperatorChar(c) || c == '(' || c == ')' || IsIdentStart(c)
  }

  /** A character that can stand anywhere inside some token. */
  predicate InToken(c: char) {
    IsNumberChar(c) || IsIdentChar(c) || IsOperatorChar(c) || c == '(' || c == ')'
  }

  /** `text` stands in `s` at `pos`. */
  predicate StandsAt(s: string, pos: nat, text: string) {
    |text| >= 1 && pos + |text| <= |s| && s[pos..pos + |text|] == text
  }

  /** A number literal: a digit, then the longest run of `[0-9.]`. */
  predicate NumberRun(s: string, pos: nat, text: string) {
    StandsAt(s, pos, text) && IsDigit(text[0])
    && (forall k :: 0 <= k < |text| ==> IsNumberChar(text[k]))
    && (pos + |text| == |s| || !IsNumberChar(s[pos + |text|]))
  }

  /** A name: `[a-zA-Z_]`, then the longest run of `[a-zA-Z0-9_]`. */
  predicate NameRun(s: string, pos: nat, text: string) {
    StandsAt(s, pos, text) && IsIdentStart(text[0])
    && (forall k :: 0 <= k < |text| ==> IsIdentChar(text[k]))
    && (pos + |text| == |s| || !IsIdentChar(s[pos + |text|]))
  }

  /** `t` has one of the five token shapes and its text stands in `s` at its
      position; a number or a name is the longest run the input allows. */
  predicate Shaped(s: string, t: Token) {
    StandsAt(s, t.position, t.text) &&
    match t.kind
    case Number => NumberRun(s, t.position, t.text)
    case Variable => NameRun(s, t.position, t.text)
    case Operator => |t.text| == 1 && IsOperatorChar(t.text[0])
    case LeftParen => t.text == "("
    case RightParen => t.text == ")"
  }

  /** The tokens `ts` of `s[i..]`: each is well shaped, none starts before
      `i`, and each ends before the next one begins. */
  predicate TokensOf(s: string, i: nat, ts: seq<Token>) {
    (forall k :: 0 <= k < |ts| ==> Shaped(s, ts[k]) && i <= ts[k].position)
    && (forall a, b :: 0 <= a < b < |ts| ==> ts[a].position + |ts[a].text| <= ts[b].position)
  }

  /** Characters of numbers and names are never whitespace. */
  lemma SolidRun(s: string, i: nat, j: nat)
    requires i <= j <= |s|
    requires forall k :: i <= k < j ==> IsNumberChar(s[k]) || IsIdentChar(s[k])
    ensures forall k :: i <= k < j ==> !IsWhitespace(s[k]) && InToken(s[k])
  {
  }

  /** The run of `[0-9.]` starting at a digit is a number literal. */
  lemma NumberShaped(s: string, i: nat)
    requires i < |s| && IsDigit(s[i])
    ensures NumberRun(s, i, s[i..NumberEnd(s, i)])
  {
    var j := NumberEnd(s, i);
    var t := s[i..j];
    assert i < j by { assert IsNumberChar(s[i]); }
    forall k | 0 <= k < |t| ensures IsNumberChar(t[k]) {
      assert t[k] == s[i + k];
    }
  }

  /** The run of `[a-zA-Z0-9_]` starting at `[a-zA-Z_]` is a name. */
  lemma NameShaped(s: string, i: nat)
    requires i < |s| && IsIdentStart(s[i])
    ensures NameRun(s, i, s[i..IdentEnd(s, i)])
  {
    var j := IdentEnd(s, i);
    var t := s[i..j];
    assert i < j by { assert IsIdentChar(s[i]); }
    forall k | 0 <= k < |t| ensures IsIdentChar(t[k]) {
      assert t[k] == s[i + k];
    }
  }

  /** One turn of the scanner: whitespace is skipped, a token is emitted at
      the current index and the scan resumes right after it, and only a
      character that starts no token stops the scan. */
  lemma ScanFacts(s: string, i: nat)
    requires i < |s|
    ensures Scan(s, i).Skip? ==> IsWhitespace(s[i]) && Scan(s, i).next == i + 1
    ensures Scan(s, i).Emit? ==>
      var t := Scan(s, i).token;
      t.position == i && Shaped(s, t) && Scan(s, i).next == i + |t.text|
      && forall k :: i <= k < i + |t.text| ==> !IsWhitespace(s[k]) && InToken(s[k])
    ensures Scan(s, i).Stuck? ==>
      Scan(s, i).error == UnexpectedCharacter(i, s[i]) && !IsWhitespace(s[i]) && !StartsToken(s[i])
  {
    var c := s[i];
    if IsWhitespace(c) {
    } else if IsDigit(c) {
      NumberShaped(s, i);
      SolidRun(s, i, NumberEnd(s, i));
    } else if !IsOperatorChar(c) && c != '(' && c != ')' && IsIdentStart(c) {
      NameShaped(s, i);
      SolidRun(s, i, IdentEnd(s, i));
    }
  }

  /** `LexFrom` one scanner turn at a time. */
  lemma LexStep(s: string, i: nat)
    requires i < |s|
    ensures Scan(s, i).Skip? ==> LexFrom(s, i) == LexFrom(s, Scan(s, i).next)
    ensures Scan(s, i).Emit? ==> LexFrom(s, i) == Prepend([Scan(s, i).token], LexFrom(s, Scan(s, i).next))
    ensures Scan(s, i).Stuck? ==> LexFrom(s, i) == Err(Scan(s, i).error)
  {
  }

  /** A token standing at `i`, followed by tokens of what comes after it. */
  lemma TokensCons(s: string, i: nat, t: Token, rest: seq<Token>)
    requires Shaped(s, t) && t.position == i && TokensOf(s, i + |t.text|, rest)
    ensures TokensOf(s, i, [t] + rest)
  {
    var ts := [t] + rest;
    assert forall k :: 1 <= k < |ts| ==> ts[k] == rest[k - 1];
  }

  /** Every token of a successful scan of `s[i..]` is well shaped and in order. */
  lemma {:induction false} LexShapes(s: string, i: nat)
    requires i <= |s|
    ensures LexFrom(s, i).Ok? ==> TokensOf(s, i, LexFrom(s, i).value)
    decreases |s| - i
  {
    if i < |s| && LexFrom(s, i).Ok? {
      ScanFacts(s, i);
      LexStep(s, i);
      var sc := Scan(s, i);
      LexShapes(s, sc.next);
      if sc.Emit? {
        TokensCons(s, i, sc.token, LexFrom(s, sc.next).value);
      }
    }
  }

  /** The text of every token, one after the other. */
  function Texts(ts: seq<Token>): string {
    if ts == [] then [] else ts[0].text + Texts(ts[1..])
  }

  /** `s` with every whitespace character removed. */
  function NoSpace(s: string): string {
    if s == [] then [] else (if IsWhitespace(s[0]) then [] else [s[0]]) + NoSpace(s[1..])
  }

  lemma {:induction false} NoSpaceAppend(a: string, b: string)
    ensures NoSpace(a + b) == NoSpace(a) + NoSpace(b)
  {
    if a != [] {
      assert (a + b)[1..] == a[1..] + b;
      NoSpaceAppend(a[1..], b);
    } else {
      assert a + b == b;
    }
  }

  lemma {:induction false} NoSpaceSolid(a: string)
    requires forall k :: 0 <= k < |a| ==> !IsWhitespace(a[k])
    ensures NoSpace(a) == a
  {
    if a != [] {
      NoSpaceSolid(a[1..]);
      assert a == [a[0]] + a[1..];
    }
  }

  /** Removing whitespace from `s[i..]` when `s[i..j]` has none. */
  lemma NoSpaceFrom(s: string, i: nat, j: nat)
    requires i <= j <= |s|
    requires forall k :: i <= k < j ==> !IsWhitespace(s[k])
    ensures NoSpace(s[i..]) == s[i..j] + NoSpace(s[j..])
  {
    assert s[i..] == s[i..j] + s[j..];
    NoSpaceAppend(s[i..j], s[j..]);
    NoSpaceSolid(s[i..j]);
  }

  /** A successful scan loses nothing but whitespace: the token texts, put
      together, are the scanned input with its whitespace removed. */
  lemma {:induction false} LexTexts(s: string, i: nat)
    requires i <= |s|
    ensures LexFrom(s, i).Ok? ==> Texts(LexFrom(s, i).value) == NoSpace(s[i..])
    decreases |s| - i
  {
    if i == |s| {
      assert s[i..] == [];
    } else if LexFrom(s, i).Ok? {
      ScanFacts(s, i);
      LexStep(s, i);
      var sc := Scan(s, i);
      LexTexts(s, sc.next);
      if sc.Skip? {
        assert s[i..] == [s[i]] + s[i + 1..];
      } else {
        NoSpaceFrom(s, i, sc.next);
        var rest := LexFrom(s, sc.next).value;
        assert ([sc.token] + rest)[1..] == rest;
      }
    }
  }

  /** Tokenizing fails only at a character that is not whitespace and can
      start no token, and the error names that character and its index. */
  lemma {:induction false} LexError(s: string, i: nat)
    requires i <= |s|
    ensures LexFrom(s, i).Err? ==>
      var e := LexFrom(s, i).error;
      e.UnexpectedCharacter? && i <= e.position < |s| && s[e.position] == e.character
      && !IsWhitespace(e.character) && !StartsToken(e.character)
    decreases |s| - i
  {
    if i < |s| {
      ScanFacts(s, i);
      if !Scan(s, i).Stuck? {
        LexError(s, Scan(s, i).next);
      }
    }
  }

  /** A character that can stand in no token makes tokenizing fail, wherever
      it is. */
  lemma {:induction false} LexForeign(s: string, i: nat, k: nat)
    requires i <= k < |s| && !IsWhitespace(s[k]) && !InToken(s[k])
    ensures LexFrom(s, i).Err?
    decreases |s| - i
  {
    ScanFacts(s, i);
    if !Scan(s, i).Stuck? {
      LexForeign(s, Scan(s, i).next, k);
    }
  }
}
