/**
 * Number literals and worked evaluations of src/lib/expressions.ts: the
 * cases its tests state, and the edge cases that follow from the code.
 * Each evaluation goes through the tokens of the string and, where it
 * succeeds, through the syntax tree the tokens spell.
 */
module ExpressionExamples {
  import opened Wrappers
  import opened Chars
  import opened Expressions
  import opened Grammar

  /** A resolver that gives every variable the same value. */
  function Constant(v: real): string -> real {
    _ => v
  }

  /** The resolver of the variables test: `pansen` is 33, `fisch` is 44. */
  function Dishes(name: string): real {
    if name == "pansen" then 33.0 else if name == "fisch" then 44.0 else 0.0
  }

  /* ---------------------------------------------------------------------- */
  /* Number literals                                                         */
  /* ---------------------------------------------------------------------- */

  lemma DigitsValueNonNegative(d: string)
    ensures DigitsValue(d) >= 0
  {
  }

  /** A number literal never evaluates to a negative value (nor to NaN: the
      model has no such value, and the text always starts with a digit). */
  lemma {:induction false} NumberValueNonNegative(text: string)
    ensures NumberValue(text) >= 0.0
  {
    var j := DigitEnd(text, 0);
    DigitsValueNonNegative(text[..j]);
    if j < |text| && text[j] == '.' {
      var k := DigitEnd(text, j + 1);
      DigitsValueNonNegative(text[j + 1..k]);
      assert DigitsValue(text[j + 1..k]) as real / Pow10(k - j - 1) as real >= 0.0;
    }
  }

  lemma {:induction false} DigitEndAll(s: string, i: nat)
    requires i <= |s| && forall k :: i <= k < |s| ==> IsDigit(s[k])
    ensures DigitEnd(s, i) == |s|
    decreases |s| - i
  {
    if i < |s| {
      DigitEndAll(s, i + 1);
    }
  }

  /** A literal made only of digits is read as a whole number. */
  lemma WholeNumber(text: string)
    requires forall k :: 0 <= k < |text| ==> IsDigit(text[k])
    ensures NumberValue(text) == DigitsValue(text) as real
  {
    DigitEndAll(text, 0);
    assert text[..|text|] == text;
  }

  /** A single digit is its own value. */
  lemma OneDigit(c: char)
    requires IsDigit(c)
    ensures NumberValue([c]) == (c as int - '0' as int) as real
  {
    WholeNumber([c]);
    assert [c][..0] == [];
  }

  /** Two digits are read as tens and units. */
  lemma TwoDigits(c: char, d: char)
    requires IsDigit(c) && IsDigit(d)
    ensures NumberValue([c, d]) == (10 * (c as int - '0' as int) + (d as int - '0' as int)) as real
  {
    WholeNumber([c, d]);
    assert [c, d][..1] == [c];
    assert [c][..0] == [];
    assert DigitsValue([c]) == DigitValue(c);
    assert DigitsValue([c, d]) == DigitsValue([c]) * 10 + DigitValue(d);
  }

  /** A second `.` ends the literal's value: `1.2.3` is 1.2. */
  lemma SecondPointIgnored()
    ensures NumberValue("1.2.3") == 1.2
  {
    var s := "1.2.3";
    assert DigitEnd(s, 1) == 1;
    assert DigitEnd(s, 0) == 1;
    assert DigitEnd(s, 3) == 3;
    assert DigitEnd(s, 2) == 3;
    assert s[..1] == "1" && s[2..3] == "2";
    assert DigitsValue("1") == 1 && DigitsValue("2") == 2;
  }

  /* ---------------------------------------------------------------------- */
  /* Tokens                                                                  */
  /* ---------------------------------------------------------------------- */

  /** The end of the input ends the scan. */
  lemma LexEnd(s: string)
    ensures LexFrom(s, |s|) == Ok([])
  {
  }

  /** Whitespace is skipped. */
  lemma LexSkip(s: string, i: nat, rest: seq<Token>)
    requires i < |s| && IsWhitespace(s[i]) && LexFrom(s, i + 1) == Ok(rest)
    ensures LexFrom(s, i) == Ok(rest)
  {
  }

  /** An operator or a parenthesis is a token of its own. */
  lemma LexSingle(s: string, i: nat, rest: seq<Token>)
    requires i < |s| && LexFrom(s, i + 1) == Ok(rest)
    requires IsOperatorChar(s[i]) || s[i] == '(' || s[i] == ')'
    ensures IsOperatorChar(s[i]) ==> LexFrom(s, i) == Ok([Token(Operator, [s[i]], i)] + rest)
    ensures s[i] == '(' ==> LexFrom(s, i) == Ok([Token(LeftParen, "(", i)] + rest)
    ensures s[i] == ')' ==> LexFrom(s, i) == Ok([Token(RightParen, ")", i)] + rest)
  {
  }

  /** A number literal that ends at `j`. */
  lemma LexNumber(s: string, i: nat, j: nat, rest: seq<Token>)
    requires i < |s| && IsDigit(s[i]) && NumberEnd(s, i) == j && LexFrom(s, j) == Ok(rest)
    ensures LexFrom(s, i) == Ok([Token(Number, s[i..j], i)] + rest)
  {
  }

  /** A name that ends at `j`. */
  lemma LexName(s: string, i: nat, j: nat, rest: seq<Token>)
    requires i < |s| && IsIdentStart(s[i]) && IdentEnd(s, i) == j && LexFrom(s, j) == Ok(rest)
    ensures LexFrom(s, i) == Ok([Token(Variable, s[i..j], i)] + rest)
  {
  }

  lemma {:induction false} NumberEndAt(s: string, i: nat, j: nat)
    requires i <= j <= |s| && (forall k :: i <= k < j ==> IsNumberChar(s[k]))
    requires j == |s| || !IsNumberChar(s[j])
    ensures NumberEnd(s, i) == j
    decreases j - i
  {
    if i < j {
      NumberEndAt(s, i + 1, j);
    }
  }

  lemma {:induction false} IdentEndAt(s: string, i: nat, j: nat)
    requires i <= j <= |s| && (forall k :: i <= k < j ==> IsIdentChar(s[k]))
    requires j == |s| || !IsIdentChar(s[j])
    ensures IdentEnd(s, i) == j
    decreases j - i
  {
    if i < j {
      IdentEndAt(s, i + 1, j);
    }
  }

  /** The tokens of `12 + 3`. */
  lemma LexSum(s: string)
    requires s == "12 + 3"
    ensures Lex(s) == Ok([Token(Number, "12", 0), Token(Operator, "+", 3), Token(Number, "3", 5)])
  {
    var t0, t1, t2 := Token(Number, "12", 0), Token(Operator, "+", 3), Token(Number, "3", 5);
    LexEnd(s);
    NumberEndAt(s, 5, 6);
    LexNumber(s, 5, 6, []);
    assert s[5..6] == "3";
    assert [t2] + [] == [t2];
    LexSkip(s, 4, [t2]);
    LexSingle(s, 3, [t2]);
    assert [t1] + [t2] == [t1, t2];
    LexSkip(s, 2, [t1, t2]);
    NumberEndAt(s, 0, 2);
    LexNumber(s, 0, 2, [t1, t2]);
    assert s[0..2] == "12";
    assert [t0] + [t1, t2] == [t0, t1, t2];
  }

  /** The tokens of `12 + 3 * 5`. */
  lemma LexPrecedence(s: string)
    requires s == "12 + 3 * 5"
    ensures Lex(s) == Ok([Token(Number, "12", 0), Token(Operator, "+", 3), Token(Number, "3", 5), Token(Operator, "*", 7), Token(Number, "5", 9)])
  {
    var t0, t1, t2, t3, t4 := Token(Number, "12", 0), Token(Operator, "+", 3), Token(Number, "3", 5), Token(Operator, "*", 7), Token(Number, "5", 9);
    LexEnd(s);
    NumberEndAt(s, 9, 10);
    LexNumber(s, 9, 10, []);
    assert s[9..10] == "5";
    assert [t4] + [] == [t4];
    LexSkip(s, 8, [t4]);
    LexSingle(s, 7, [t4]);
    assert [t3] + [t4] == [t3, t4];
    LexSkip(s, 6, [t3, t4]);
    NumberEndAt(s, 5, 6);
    LexNumber(s, 5, 6, [t3, t4]);
    assert s[5..6] == "3";
    assert [t2] + [t3, t4] == [t2, t3, t4];
    LexSkip(s, 4, [t2, t3, t4]);
    LexSingle(s, 3, [t2, t3, t4]);
    assert [t1] + [t2, t3, t4] == [t1, t2, t3, t4];
    LexSkip(s, 2, [t1, t2, t3, t4]);
    NumberEndAt(s, 0, 2);
    LexNumber(s, 0, 2, [t1, t2, t3, t4]);
    assert s[0..2] == "12";
    assert [t0] + [t1, t2, t3, t4] == [t0, t1, t2, t3, t4];
  }

  /** The tokens of `pansen + fisch + 13` from index 14 on. */
  lemma LexVariablesFrom14(s: string)
    requires s == "pansen + fisch + 13"
    ensures LexFrom(s, 14) == Ok([Token(Operator, "+", 15), Token(Number, "13", 17)])
  {
    var t3, t4 := Token(Operator, "+", 15), Token(Number, "13", 17);
    LexEnd(s);
    NumberEndAt(s, 17, 19);
    LexNumber(s, 17, 19, []);
    assert s[17..19] == "13";
    assert [t4] + [] == [t4];
    LexSkip(s, 16, [t4]);
    LexSingle(s, 15, [t4]);
    assert [t3] + [t4] == [t3, t4];
    LexSkip(s, 14, [t3, t4]);
  }

  /** The tokens of `pansen + fisch + 13` from index 7 on. */
  lemma LexVariablesFrom7(s: string)
    requires s == "pansen + fisch + 13"
    ensures LexFrom(s, 7) == Ok([Token(Operator, "+", 7), Token(Variable, "fisch", 9), Token(Operator, "+", 15), Token(Number, "13", 17)])
  {
    var t1, t2, t3, t4 := Token(Operator, "+", 7), Token(Variable, "fisch", 9), Token(Operator, "+", 15), Token(Number, "13", 17);
    LexVariablesFrom14(s);
    IdentEndAt(s, 9, 14);
    LexName(s, 9, 14, [t3, t4]);
    assert s[9..14] == "fisch";
    assert [t2] + [t3, t4] == [t2, t3, t4];
    LexSkip(s, 8, [t2, t3, t4]);
    LexSingle(s, 7, [t2, t3, t4]);
    assert [t1] + [t2, t3, t4] == [t1, t2, t3, t4];
  }

  /** The tokens of `pansen + fisch + 13`. */
  lemma LexVariables(s: string)
    requires s == "pansen + fisch + 13"
    ensures Lex(s) == Ok([Token(Variable, "pansen", 0), Token(Operator, "+", 7), Token(Variable, "fisch", 9), Token(Operator, "+", 15), Token(Number, "13", 17)])
  {
    var t0, t1, t2, t3, t4 := Token(Variable, "pansen", 0), Token(Operator, "+", 7), Token(Variable, "fisch", 9), Token(Operator, "+", 15), Token(Number, "13", 17);
    LexVariablesFrom7(s);
    LexSkip(s, 6, [t1, t2, t3, t4]);
    IdentEndAt(s, 0, 6);
    LexName(s, 0, 6, [t1, t2, t3, t4]);
    assert s[0..6] == "pansen";
    assert [t0] + [t1, t2, t3, t4] == [t0, t1, t2, t3, t4];
  }

  /** The tokens of `12 + 3 + pansen` from index 7 on. */
  lemma LexEightEachFrom7(s: string)
    requires s == "12 + 3 + pansen"
    ensures LexFrom(s, 7) == Ok([Token(Operator, "+", 7), Token(Variable, "pansen", 9)])
  {
    var t3, t4 := Token(Operator, "+", 7), Token(Variable, "pansen", 9);
    LexEnd(s);
    IdentEndAt(s, 9, 15);
    LexName(s, 9, 15, []);
    assert s[9..15] == "pansen";
    assert [t4] + [] == [t4];
    LexSkip(s, 8, [t4]);
    LexSingle(s, 7, [t4]);
    assert [t3] + [t4] == [t3, t4];
  }

  /** The tokens of `12 + 3 + pansen`. */
  lemma LexEightEach(s: string)
    requires s == "12 + 3 + pansen"
    ensures Lex(s) == Ok([Token(Number, "12", 0), Token(Operator, "+", 3), Token(Number, "3", 5), Token(Operator, "+", 7), Token(Variable, "pansen", 9)])
  {
    var t0, t1, t2, t3, t4 := Token(Number, "12", 0), Token(Operator, "+", 3), Token(Number, "3", 5), Token(Operator, "+", 7), Token(Variable, "pansen", 9);
    LexEightEachFrom7(s);
    LexSkip(s, 6, [t3, t4]);
    NumberEndAt(s, 5, 6);
    LexNumber(s, 5, 6, [t3, t4]);
    assert s[5..6] == "3";
    assert [t2] + [t3, t4] == [t2, t3, t4];
    LexSkip(s, 4, [t2, t3, t4]);
    LexSingle(s, 3, [t2, t3, t4]);
    assert [t1] + [t2, t3, t4] == [t1, t2, t3, t4];
    LexSkip(s, 2, [t1, t2, t3, t4]);
    NumberEndAt(s, 0, 2);
    LexNumber(s, 0, 2, [t1, t2, t3, t4]);
    assert s[0..2] == "12";
    assert [t0] + [t1, t2, t3, t4] == [t0, t1, t2, t3, t4];
  }

  /** The tokens of `--5`. */
  lemma LexDoubleNegation(s: string)
    requires s == "--5"
    ensures Lex(s) == Ok([Token(Operator, "-", 0), Token(Operator, "-", 1), Token(Number, "5", 2)])
  {
    var t0, t1, t2 := Token(Operator, "-", 0), Token(Operator, "-", 1), Token(Number, "5", 2);
    LexEnd(s);
    NumberEndAt(s, 2, 3);
    LexNumber(s, 2, 3, []);
    assert s[2..3] == "5";
    assert [t2] + [] == [t2];
    LexSingle(s, 1, [t2]);
    assert [t1] + [t2] == [t1, t2];
    LexSingle(s, 0, [t1, t2]);
    assert [t0] + [t1, t2] == [t0, t1, t2];
  }

  /** The tokens of `-(3+4)`. */
  lemma LexNegatedGroup(s: string)
    requires s == "-(3+4)"
    ensures Lex(s) == Ok([Token(Operator, "-", 0), Token(LeftParen, "(", 1), Token(Number, "3", 2), Token(Operator, "+", 3), Token(Number, "4", 4), Token(RightParen, ")", 5)])
  {
    var t0, t1, t2, t3, t4, t5 := Token(Operator, "-", 0), Token(LeftParen, "(", 1), Token(Number, "3", 2), Token(Operator, "+", 3), Token(Number, "4", 4), Token(RightParen, ")", 5);
    LexEnd(s);
    LexSingle(s, 5, []);
    assert [t5] + [] == [t5];
    NumberEndAt(s, 4, 5);
    LexNumber(s, 4, 5, [t5]);
    assert s[4..5] == "4";
    assert [t4] + [t5] == [t4, t5];
    LexSingle(s, 3, [t4, t5]);
    assert [t3] + [t4, t5] == [t3, t4, t5];
    NumberEndAt(s, 2, 3);
    LexNumber(s, 2, 3, [t3, t4, t5]);
    assert s[2..3] == "3";
    assert [t2] + [t3, t4, t5] == [t2, t3, t4, t5];
    LexSingle(s, 1, [t2, t3, t4, t5]);
    assert [t1] + [t2, t3, t4, t5] == [t1, t2, t3, t4, t5];
    LexSingle(s, 0, [t1, t2, t3, t4, t5]);
    assert [t0] + [t1, t2, t3, t4, t5] == [t0, t1, t2, t3, t4, t5];
  }

  /** The tokens of `x o y o z`, three one-digit numbers joined by the same
      operator with a space on either side, as in `1 - 2 - 3` and `8 / 4 / 2`. */
  lemma LexChain(s: string, x: char, o: char, y: char, z: char)
    requires IsDigit(x) && IsDigit(y) && IsDigit(z) && IsOperatorChar(o)
    requires s == [x, ' ', o, ' ', y, ' ', o, ' ', z]
    ensures Lex(s) == Ok([Token(Number, [x], 0), Token(Operator, [o], 2), Token(Number, [y], 4), Token(Operator, [o], 6), Token(Number, [z], 8)])
  {
    var t0, t1, t2, t3, t4 := Token(Number, [x], 0), Token(Operator, [o], 2), Token(Number, [y], 4), Token(Operator, [o], 6), Token(Number, [z], 8);
    LexEnd(s);
    NumberEndAt(s, 8, 9);
    LexNumber(s, 8, 9, []);
    assert s[8..9] == [z];
    assert [t4] + [] == [t4];
    LexSkip(s, 7, [t4]);
    LexSingle(s, 6, [t4]);
    assert [t3] + [t4] == [t3, t4];
    LexSkip(s, 5, [t3, t4]);
    NumberEndAt(s, 4, 5);
    LexNumber(s, 4, 5, [t3, t4]);
    assert s[4..5] == [y];
    assert [t2] + [t3, t4] == [t2, t3, t4];
    LexSkip(s, 3, [t2, t3, t4]);
    LexSingle(s, 2, [t2, t3, t4]);
    assert [t1] + [t2, t3, t4] == [t1, t2, t3, t4];
    LexSkip(s, 1, [t1, t2, t3, t4]);
    NumberEndAt(s, 0, 1);
    LexNumber(s, 0, 1, [t1, t2, t3, t4]);
    assert s[0..1] == [x];
    assert [t0] + [t1, t2, t3, t4] == [t0, t1, t2, t3, t4];
  }

  /** The tokens of `1 2`. */
  lemma LexTwoNumbers(s: string)
    requires s == "1 2"
    ensures Lex(s) == Ok([Token(Number, "1", 0), Token(Number, "2", 2)])
  {
    var t0, t1 := Token(Number, "1", 0), Token(Number, "2", 2);
    LexEnd(s);
    NumberEndAt(s, 2, 3);
    LexNumber(s, 2, 3, []);
    assert s[2..3] == "2";
    assert [t1] + [] == [t1];
    LexSkip(s, 1, [t1]);
    NumberEndAt(s, 0, 1);
    LexNumber(s, 0, 1, [t1]);
    assert s[0..1] == "1";
    assert [t0] + [t1] == [t0, t1];
  }

  /** The tokens of `(1+2))`. */
  lemma LexExtraParenthesis(s: string)
    requires s == "(1+2))"
    ensures Lex(s) == Ok([Token(LeftParen, "(", 0), Token(Number, "1", 1), Token(Operator, "+", 2), Token(Number, "2", 3), Token(RightParen, ")", 4), Token(RightParen, ")", 5)])
  {
    var t0, t1, t2, t3, t4, t5 := Token(LeftParen, "(", 0), Token(Number, "1", 1), Token(Operator, "+", 2), Token(Number, "2", 3), Token(RightParen, ")", 4), Token(RightParen, ")", 5);
    LexEnd(s);
    LexSingle(s, 5, []);
    assert [t5] + [] == [t5];
    LexSingle(s, 4, [t5]);
    assert [t4] + [t5] == [t4, t5];
    NumberEndAt(s, 3, 4);
    LexNumber(s, 3, 4, [t4, t5]);
    assert s[3..4] == "2";
    assert [t3] + [t4, t5] == [t3, t4, t5];
    LexSingle(s, 2, [t3, t4, t5]);
    assert [t2] + [t3, t4, t5] == [t2, t3, t4, t5];
    NumberEndAt(s, 1, 2);
    LexNumber(s, 1, 2, [t2, t3, t4, t5]);
    assert s[1..2] == "1";
    assert [t1] + [t2, t3, t4, t5] == [t1, t2, t3, t4, t5];
    LexSingle(s, 0, [t1, t2, t3, t4, t5]);
    assert [t0] + [t1, t2, t3, t4, t5] == [t0, t1, t2, t3, t4, t5];
  }

  /** The tokens of `5 / 0`. */
  lemma LexDivisionByZero(s: string)
    requires s == "5 / 0"
    ensures Lex(s) == Ok([Token(Number, "5", 0), Token(Operator, "/", 2), Token(Number, "0", 4)])
  {
    var t0, t1, t2 := Token(Number, "5", 0), Token(Operator, "/", 2), Token(Number, "0", 4);
    LexEnd(s);
    NumberEndAt(s, 4, 5);
    LexNumber(s, 4, 5, []);
    assert s[4..5] == "0";
    assert [t2] + [] == [t2];
    LexSkip(s, 3, [t2]);
    LexSingle(s, 2, [t2]);
    assert [t1] + [t2] == [t1, t2];
    LexSkip(s, 1, [t1, t2]);
    NumberEndAt(s, 0, 1);
    LexNumber(s, 0, 1, [t1, t2]);
    assert s[0..1] == "5";
    assert [t0] + [t1, t2] == [t0, t1, t2];
  }

  /** The tokens of `(1 + 2`. */
  lemma LexUnclosed(s: string)
    requires s == "(1 + 2"
    ensures Lex(s) == Ok([Token(LeftParen, "(", 0), Token(Number, "1", 1), Token(Operator, "+", 3), Token(Number, "2", 5)])
  {
    var t0, t1, t2, t3 := Token(LeftParen, "(", 0), Token(Number, "1", 1), Token(Operator, "+", 3), Token(Number, "2", 5);
    LexEnd(s);
    NumberEndAt(s, 5, 6);
    LexNumber(s, 5, 6, []);
    assert s[5..6] == "2";
    assert [t3] + [] == [t3];
    LexSkip(s, 4, [t3]);
    LexSingle(s, 3, [t3]);
    assert [t2] + [t3] == [t2, t3];
    LexSkip(s, 2, [t2, t3]);
    NumberEndAt(s, 1, 2);
    LexNumber(s, 1, 2, [t2, t3]);
    assert s[1..2] == "1";
    assert [t1] + [t2, t3] == [t1, t2, t3];
    LexSingle(s, 0, [t1, t2, t3]);
    assert [t0] + [t1, t2, t3] == [t0, t1, t2, t3];
  }

  /** The tokens of `)`. */
  lemma LexClosing(s: string)
    requires s == ")"
    ensures Lex(s) == Ok([Token(RightParen, ")", 0)])
  {
    var t0 := Token(RightParen, ")", 0);
    LexEnd(s);
    LexSingle(s, 0, []);
    assert [t0] + [] == [t0];
  }

  /** The tokens of `1 +`. */
  lemma LexDangling(s: string)
    requires s == "1 +"
    ensures Lex(s) == Ok([Token(Number, "1", 0), Token(Operator, "+", 2)])
  {
    var t0, t1 := Token(Number, "1", 0), Token(Operator, "+", 2);
    LexEnd(s);
    LexSingle(s, 2, []);
    assert [t1] + [] == [t1];
    LexSkip(s, 1, [t1]);
    NumberEndAt(s, 0, 1);
    LexNumber(s, 0, 1, [t1]);
    assert s[0..1] == "1";
    assert [t0] + [t1] == [t0, t1];
  }
  /* ---------------------------------------------------------------------- */
  /* Evaluations                                                             */
  /* ---------------------------------------------------------------------- */

  /** `12 + 3` is 15. */
  lemma SumExample()
    ensures Evaluate("12 + 3", Constant(0.0)) == Ok(15.0)
  {
    LexSum("12 + 3");
    SumTokens(Lex("12 + 3").value, Constant(0.0));
  }

  lemma SumTokens(toks: seq<Token>, r: string -> real)
    requires toks == [Token(Number, "12", 0), Token(Operator, "+", 3), Token(Number, "3", 5)]
    requires r == Constant(0.0)
    ensures EvalTokens(toks, r) == Ok(15.0)
  {
    TwoDigits('1', '2');
    OneDigit('3');
    assert SpelledAt(Num("12"), toks, 0);
    assert SpelledAt(Num("3"), toks, 2);
    EvalSpelled(Bin(Add, Num("12"), Num("3")), toks, r);
  }

  /** `12 + 3 * 5` is 27: the product is taken first. */
  lemma PrecedenceExample()
    ensures Evaluate("12 + 3 * 5", Constant(0.0)) == Ok(27.0)
  {
    LexPrecedence("12 + 3 * 5");
    PrecedenceTokens(Lex("12 + 3 * 5").value, Constant(0.0));
  }

  lemma PrecedenceTokens(toks: seq<Token>, r: string -> real)
    requires toks == [Token(Number, "12", 0), Token(Operator, "+", 3), Token(Number, "3", 5), Token(Operator, "*", 7), Token(Number, "5", 9)]
    requires r == Constant(0.0)
    ensures EvalTokens(toks, r) == Ok(27.0)
  {
    TwoDigits('1', '2');
    OneDigit('3');
    OneDigit('5');
    assert Times(3.0, 5.0) == 15.0;
    assert SpelledAt(Num("12"), toks, 0);
    assert SpelledAt(Num("3"), toks, 2);
    assert SpelledAt(Num("5"), toks, 4);
    assert SpelledAt(Bin(Mul, Num("3"), Num("5")), toks, 2);
    EvalSpelled(Bin(Add, Num("12"), Bin(Mul, Num("3"), Num("5"))), toks, r);
  }

  /** `pansen + fisch + 13` is 90 with `pansen` 33 and `fisch` 44. */
  lemma VariablesExample()
    ensures Evaluate("pansen + fisch + 13", Dishes) == Ok(90.0)
  {
    LexVariables("pansen + fisch + 13");
    VariablesTokens(Lex("pansen + fisch + 13").value, Dishes);
  }

  lemma VariablesTokens(toks: seq<Token>, r: string -> real)
    requires toks == [Token(Variable, "pansen", 0), Token(Operator, "+", 7), Token(Variable, "fisch", 9), Token(Operator, "+", 15), Token(Number, "13", 17)]
    requires r == Dishes
    ensures EvalTokens(toks, r) == Ok(90.0)
  {
    TwoDigits('1', '3');
    assert SpelledAt(Var("pansen"), toks, 0);
    assert SpelledAt(Var("fisch"), toks, 2);
    assert SpelledAt(Bin(Add, Var("pansen"), Var("fisch")), toks, 0);
    assert SpelledAt(Num("13"), toks, 4);
    EvalSpelled(Bin(Add, Bin(Add, Var("pansen"), Var("fisch")), Num("13")), toks, r);
  }

  /** `12 + 3 + pansen` is 23 when every name stands for 8. */
  lemma EightEachExample()
    ensures Evaluate("12 + 3 + pansen", Constant(8.0)) == Ok(23.0)
  {
    LexEightEach("12 + 3 + pansen");
    EightEachTokens(Lex("12 + 3 + pansen").value, Constant(8.0));
  }

  lemma EightEachTokens(toks: seq<Token>, r: string -> real)
    requires toks == [Token(Number, "12", 0), Token(Operator, "+", 3), Token(Number, "3", 5), Token(Operator, "+", 7), Token(Variable, "pansen", 9)]
    requires r == Constant(8.0)
    ensures EvalTokens(toks, r) == Ok(23.0)
  {
    TwoDigits('1', '2');
    OneDigit('3');
    assert SpelledAt(Num("12"), toks, 0);
    assert SpelledAt(Num("3"), toks, 2);
    assert SpelledAt(Bin(Add, Num("12"), Num("3")), toks, 0);
    assert SpelledAt(Var("pansen"), toks, 4);
    EvalSpelled(Bin(Add, Bin(Add, Num("12"), Num("3")), Var("pansen")), toks, r);
  }

  /** `--5` is 5: a minus in term position negates the term after it. */
  lemma DoubleNegationExample()
    ensures Evaluate("--5", Constant(0.0)) == Ok(5.0)
  {
    LexDoubleNegation("--5");
    DoubleNegationTokens(Lex("--5").value, Constant(0.0));
  }

  lemma DoubleNegationTokens(toks: seq<Token>, r: string -> real)
    requires toks == [Token(Operator, "-", 0), Token(Operator, "-", 1), Token(Number, "5", 2)]
    requires r == Constant(0.0)
    ensures EvalTokens(toks, r) == Ok(5.0)
  {
    OneDigit('5');
    assert SpelledAt(Num("5"), toks, 2);
    assert SpelledAt(Neg(Num("5")), toks, 1);
    EvalSpelled(Neg(Neg(Num("5"))), toks, r);
  }

  /** `-(3+4)` is -7. */
  lemma NegatedGroupExample()
    ensures Evaluate("-(3+4)", Constant(0.0)) == Ok(-7.0)
  {
    LexNegatedGroup("-(3+4)");
    NegatedGroupTokens(Lex("-(3+4)").value, Constant(0.0));
  }

  lemma NegatedGroupTokens(toks: seq<Token>, r: string -> real)
    requires toks == [Token(Operator, "-", 0), Token(LeftParen, "(", 1), Token(Number, "3", 2), Token(Operator, "+", 3), Token(Number, "4", 4), Token(RightParen, ")", 5)]
    requires r == Constant(0.0)
    ensures EvalTokens(toks, r) == Ok(-7.0)
  {
    OneDigit('3');
    OneDigit('4');
    assert SpelledAt(Num("3"), toks, 2);
    assert SpelledAt(Num("4"), toks, 4);
    assert SpelledAt(Bin(Add, Num("3"), Num("4")), toks, 2);
    assert SpelledAt(Group(Bin(Add, Num("3"), Num("4"))), toks, 1);
    EvalSpelled(Neg(Group(Bin(Add, Num("3"), Num("4")))), toks, r);
  }

  /** `1 - 2 - 3` is (1 - 2) - 3, that is -4. */
  lemma SubtractionsExample()
    ensures Evaluate("1 - 2 - 3", Constant(0.0)) == Ok(-4.0)
  {
    LexChain("1 - 2 - 3", '1', '-', '2', '3');
    SubtractionsTokens(Lex("1 - 2 - 3").value, Constant(0.0));
  }

  lemma SubtractionsTokens(toks: seq<Token>, r: string -> real)
    requires toks == [Token(Number, "1", 0), Token(Operator, "-", 2), Token(Number, "2", 4), Token(Operator, "-", 6), Token(Number, "3", 8)]
    requires r == Constant(0.0)
    ensures EvalTokens(toks, r) == Ok(-4.0)
  {
    OneDigit('1');
    OneDigit('2');
    OneDigit('3');
    assert SpelledAt(Num("1"), toks, 0);
    assert SpelledAt(Num("2"), toks, 2);
    assert SpelledAt(Bin(Sub, Num("1"), Num("2")), toks, 0);
    assert SpelledAt(Num("3"), toks, 4);
    EvalSpelled(Bin(Sub, Bin(Sub, Num("1"), Num("2")), Num("3")), toks, r);
  }

  /** `8 / 4 / 2` is (8 / 4) / 2, that is 1. */
  lemma DivisionsExample()
    ensures Evaluate("8 / 4 / 2", Constant(0.0)) == Ok(1.0)
  {
    LexChain("8 / 4 / 2", '8', '/', '4', '2');
    DivisionsTokens(Lex("8 / 4 / 2").value, Constant(0.0));
  }

  lemma DivisionsTokens(toks: seq<Token>, r: string -> real)
    requires toks == [Token(Number, "8", 0), Token(Operator, "/", 2), Token(Number, "4", 4), Token(Operator, "/", 6), Token(Number, "2", 8)]
    requires r == Constant(0.0)
    ensures EvalTokens(toks, r) == Ok(1.0)
  {
    OneDigit('2');
    OneDigit('4');
    OneDigit('8');
    assert Over(8.0, 4.0) == 2.0 && Over(2.0, 2.0) == 1.0;
    assert SpelledAt(Num("8"), toks, 0);
    assert SpelledAt(Num("4"), toks, 2);
    assert SpelledAt(Bin(Div, Num("8"), Num("4")), toks, 0);
    assert SpelledAt(Num("2"), toks, 4);
    EvalSpelled(Bin(Div, Bin(Div, Num("8"), Num("4")), Num("2")), toks, r);
  }

  /** `1 2` is 1: the second number is never looked at. */
  lemma TwoNumbersExample()
    ensures Evaluate("1 2", Constant(0.0)) == Ok(1.0)
  {
    LexTwoNumbers("1 2");
    TwoNumbersTokens(Lex("1 2").value, Constant(0.0));
  }

  lemma TwoNumbersTokens(toks: seq<Token>, r: string -> real)
    requires toks == [Token(Number, "1", 0), Token(Number, "2", 2)]
    requires r == Constant(0.0)
    ensures EvalTokens(toks, r) == Ok(1.0)
  {
    OneDigit('1');
    EvalSpelled(Num("1"), toks, r);
  }

  /** `(1+2))` is 3: the extra `)` is never looked at. */
  lemma ExtraParenthesisExample()
    ensures Evaluate("(1+2))", Constant(0.0)) == Ok(3.0)
  {
    LexExtraParenthesis("(1+2))");
    ExtraParenthesisTokens(Lex("(1+2))").value, Constant(0.0));
  }

  lemma ExtraParenthesisTokens(toks: seq<Token>, r: string -> real)
    requires toks == [Token(LeftParen, "(", 0), Token(Number, "1", 1), Token(Operator, "+", 2), Token(Number, "2", 3), Token(RightParen, ")", 4), Token(RightParen, ")", 5)]
    requires r == Constant(0.0)
    ensures EvalTokens(toks, r) == Ok(3.0)
  {
    OneDigit('1');
    OneDigit('2');
    assert SpelledAt(Num("1"), toks, 1);
    assert SpelledAt(Num("2"), toks, 3);
    assert SpelledAt(Bin(Add, Num("1"), Num("2")), toks, 1);
    EvalSpelled(Group(Bin(Add, Num("1"), Num("2"))), toks, r);
  }

  /** `5 / 0` fails with a division by zero. */
  lemma DivisionByZeroExample()
    ensures Evaluate("5 / 0", Constant(0.0)) == Err(DivisionByZero)
  {
    LexDivisionByZero("5 / 0");
    DivisionByZeroTokens(Lex("5 / 0").value, Constant(0.0));
  }

  lemma DivisionByZeroTokens(toks: seq<Token>, r: string -> real)
    requires toks == [Token(Number, "5", 0), Token(Operator, "/", 2), Token(Number, "0", 4)]
    requires r == Constant(0.0)
    ensures EvalTokens(toks, r) == Err(DivisionByZero)
  {
    OneDigit('0');
    OneDigit('5');
    assert SpelledAt(Num("5"), toks, 0);
    assert SpelledAt(Num("0"), toks, 2);
    EvalSpelled(Bin(Div, Num("5"), Num("0")), toks, r);
  }

  /** `(1 + 2` fails: the group is complete but no `)` follows it. */
  lemma UnclosedExample()
    ensures Evaluate("(1 + 2", Constant(0.0)) == Err(MissingClosingParenthesis)
  {
    LexUnclosed("(1 + 2");
    UnclosedTokens(Lex("(1 + 2").value, Constant(0.0));
  }

  lemma UnclosedTokens(toks: seq<Token>, r: string -> real)
    requires toks == [Token(LeftParen, "(", 0), Token(Number, "1", 1), Token(Operator, "+", 3), Token(Number, "2", 5)]
    requires r == Constant(0.0)
    ensures EvalTokens(toks, r) == Err(MissingClosingParenthesis)
  {
    OneDigit('1');
    OneDigit('2');
    var sum := Bin(Add, Num("1"), Num("2"));
    assert SpelledAt(Num("1"), toks, 1);
    assert SpelledAt(Num("2"), toks, 3);
    SumSpelled(sum, toks, 1, r);
    AddSubExit(toks, 4, 3.0, r, AddSubLoop(toks, 4, 3.0, r));
    assert Term(toks, 0, r) == Err(MissingClosingParenthesis);
    assert MulDiv(toks, 0, r) == Err(MissingClosingParenthesis);
  }

  /** `)` fails: a closing parenthesis cannot start a term. */
  lemma ClosingExample()
    ensures Evaluate(")", Constant(0.0)) == Err(UnexpectedToken(0, ")"))
  {
    LexClosing(")");
    ClosingTokens(Lex(")").value, Constant(0.0));
  }

  lemma ClosingTokens(toks: seq<Token>, r: string -> real)
    requires toks == [Token(RightParen, ")", 0)]
    requires r == Constant(0.0)
    ensures EvalTokens(toks, r) == Err(UnexpectedToken(0, ")"))
  {
    assert Term(toks, 0, r) == Err(UnexpectedToken(0, ")"));
    assert MulDiv(toks, 0, r) == Err(UnexpectedToken(0, ")"));
  }

  /** `1 +` fails: the operand after `+` is missing. */
  lemma DanglingExample()
    ensures Evaluate("1 +", Constant(0.0)) == Err(UnexpectedEnd)
  {
    LexDangling("1 +");
    DanglingTokens(Lex("1 +").value, Constant(0.0));
  }

  lemma DanglingTokens(toks: seq<Token>, r: string -> real)
    requires toks == [Token(Number, "1", 0), Token(Operator, "+", 2)]
    requires r == Constant(0.0)
    ensures EvalTokens(toks, r) == Err(UnexpectedEnd)
  {
    OneDigit('1');
    assert Term(toks, 2, r) == Err(UnexpectedEnd);
    assert MulDiv(toks, 2, r) == Err(UnexpectedEnd);
    assert Term(toks, 0, r) == Ok(Step(1.0, 1));
    assert MulDivLoop(toks, 1, 1.0, r) == Ok(Step(1.0, 1));
    assert MulDiv(toks, 0, r) == Ok(Step(1.0, 1));
    assert AddSubLoop(toks, 1, 1.0, r) == Err(UnexpectedEnd);
    assert AddSub(toks, 0, r) == Err(UnexpectedEnd);
  }
  /** `.5` fails at once: a number must start with a digit. */
  lemma LeadingPointExample()
    ensures Evaluate(".5", Constant(0.0)) == Err(UnexpectedCharacter(0, '.'))
  {
    assert Scan(".5", 0) == Stuck(UnexpectedCharacter(0, '.'));
  }

  /** An empty expression fails: a term is expected. */
  lemma EmptyExample()
    ensures Evaluate("", Constant(0.0)) == Err(UnexpectedEnd)
  {
    assert Lex("") == Ok([]);
    assert Term([], 0, Constant(0.0)) == Err(UnexpectedEnd);
  }
}
