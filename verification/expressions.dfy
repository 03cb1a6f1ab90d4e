/**
 * The arithmetic expression engine of src/lib/expressions.ts.
 *
 * The first half of the module gives the meaning of the engine as functions:
 * a lexer `LexFrom` over a character index and a recursive-descent evaluator
 * (`AddSub`, `MulDiv`, `Term`, with the two `while` loops of the source as
 * `AddSubLoop` and `MulDivLoop`) over a token sequence and a cursor.
 * The second half is the `ExpressionParser` class itself, with its mutable
 * `tokens` and `position` fields, whose methods are proved to compute exactly
 * what those functions say.
 *
 * Numbers are exact reals; the five exceptions the source throws are the
 * variants of `ParseError`.
 */
module Expressions {
  import opened Wrappers
  import opened Chars

  datatype TokenKind = Number | Operator | Variable | LeftParen | RightParen

  /** A token, its text as it stands in the source and the index where it starts. */
  datatype Token = Token(kind: TokenKind, text: string, position: nat)

  /** The exceptions thrown by the parser, one variant per message. */
  datatype ParseError =
    | UnexpectedCharacter(position: nat, character: char)
    | UnexpectedEnd
    | MissingClosingParenthesis
    | UnexpectedToken(position: nat, text: string)
    | DivisionByZero

  predicate IsOperatorChar(c: char) { c == '+' || c == '-' || c == '*' || c == '/' }

  /* ---------------------------------------------------------------------- */
  /* Lexer                                                                   */
  /* ---------------------------------------------------------------------- */

  /** The end of the maximal run of `[0-9.]` that starts at `i`. */
  function NumberEnd(s: string, i: nat): (j: nat)
    requires i <= |s|
    ensures i <= j <= |s|
    ensures forall k :: i <= k < j ==> IsNumberChar(s[k])
    ensures j == |s| || !IsNumberChar(s[j])
    decreases |s| - i
  {
    if i < |s| && IsNumberChar(s[i]) then NumberEnd(s, i + 1) else i
  }

  /** The end of the maximal run of `[a-zA-Z0-9_]` that starts at `i`. */
  function IdentEnd(s: string, i: nat): (j: nat)
    requires i <= |s|
    ensures i <= j <= |s|
    ensures forall k :: i <= k < j ==> IsIdentChar(s[k])
    ensures j == |s| || !IsIdentChar(s[j])
    decreases |s| - i
  {
    if i < |s| && IsIdentChar(s[i]) then IdentEnd(s, i + 1) else i
  }

  /** Puts `ts` in front of the tokens of a successful scan; an error stays. */
  function Prepend(ts: seq<Token>, r: Result<seq<Token>, ParseError>): Result<seq<Token>, ParseError> {
    match r
    case Ok(rest) => Ok(ts + rest)
    case Err(e) => Err(e)
  }

  lemma PrependNothing(r: Result<seq<Token>, ParseError>)
    ensures Prepend([], r) == r
  {
    if r.Ok? {
      assert [] + r.value == r.value;
    }
  }

  lemma PrependTwice(a: seq<Token>, b: seq<Token>, r: Result<seq<Token>, ParseError>)
    ensures Prepend(a, Prepend(b, r)) == Prepend(a + b, r)
  {
    if r.Ok? {
      assert a + (b + r.value) == (a + b) + r.value;
    }
  }

  /** What `tokenize` does with the character at `i`: skip it, emit one token
      and continue at `next`, or throw. */
  datatype Scanned = Skip(next: nat) | Emit(token: Token, next: nat) | Stuck(error: ParseError)

  /** One turn of the scanning loop, started at `i`. */
  function Scan(s: string, i: nat): (r: Scanned)
    requires i < |s|
    ensures !r.Stuck? ==> i < r.next <= |s|
  {
    var c := s[i];
    if IsWhitespace(c) then Skip(i + 1)
    else if IsDigit(c) then
      var j := NumberEnd(s, i);
      Emit(Token(Number, s[i..j], i), j)
    else if IsOperatorChar(c) then Emit(Token(Operator, [c], i), i + 1)
    else if c == '(' then Emit(Token(LeftParen, "(", i), i + 1)
    else if c == ')' then Emit(Token(RightParen, ")", i), i + 1)
    else if IsIdentStart(c) then
      var j := IdentEnd(s, i);
      Emit(Token(Variable, s[i..j], i), j)
    else Stuck(UnexpectedCharacter(i, c))
  }

  /** The tokens of `s[i..]`, or the first character that starts no token. */
  function LexFrom(s: string, i: nat): (r: Result<seq<Token>, ParseError>)
    requires i <= |s|
    ensures r.Err? ==> r.error.UnexpectedCharacter? && i <= r.error.position < |s|
    decreases |s| - i
  {
    if i == |s| then Ok([])
    else
      match Scan(s, i)
      case Skip(j) => LexFrom(s, j)
      case Emit(t, j) => Prepend([t], LexFrom(s, j))
      case Stuck(e) => Err(e)
  }

  /** `tokenize(s)`: the tokens of `s`, or the first character that starts
      no token; blank input has no tokens. */
  function Lex(s: string): (r: Result<seq<Token>, ParseError>)
    ensures r.Err? ==> r.error.UnexpectedCharacter? && r.error.position < |s|
    ensures (forall k :: 0 <= k < |s| ==> IsWhitespace(s[k])) ==> r == Ok([])
  {
    if forall k :: 0 <= k < |s| ==> IsWhitespace(s[k]) then
      LexBlank(s, 0);
      LexFrom(s, 0)
    else LexFrom(s, 0)
  }

  /** Whitespace alone gives no tokens. */
  lemma {:induction false} LexBlank(s: string, i: nat)
    requires i <= |s| && forall k :: i <= k < |s| ==> IsWhitespace(s[k])
    ensures LexFrom(s, i) == Ok([])
    decreases |s| - i
  {
    if i < |s| {
      LexBlank(s, i + 1);
    }
  }

  /* ---------------------------------------------------------------------- */
  /* Number literals                                                         */
  /* ---------------------------------------------------------------------- */

  /** The end of the run of `[0-9]` that starts at `i`. */
  function DigitEnd(s: string, i: nat): (j: nat)
    requires i <= |s|
    ensures i <= j <= |s|
    ensures forall k :: i <= k < j ==> IsDigit(s[k])
    ensures j == |s| || !IsDigit(s[j])
    decreases |s| - i
  {
    if i < |s| && IsDigit(s[i]) then DigitEnd(s, i + 1) else i
  }

  function DigitValue(c: char): nat {
    if IsDigit(c) then c as int - '0' as int else 0
  }

  /** The value of a decimal digit string, most significant digit first. */
  function DigitsValue(d: string): nat {
    if d == [] then 0 else DigitsValue(d[..|d| - 1]) * 10 + DigitValue(d[|d| - 1])
  }

  function Pow10(n: nat): (p: nat)
    ensures p >= 1
  {
    if n == 0 then 1 else 10 * Pow10(n - 1)
  }

  /** `parseFloat` on the text of a NUMBER token: the leading digits, then,
      when a `.` follows them, the digits after it as the fraction. Whatever
      follows (a second `.`) is ignored. */
  function NumberValue(text: string): (v: real)
    ensures v >= DigitsValue(text[..DigitEnd(text, 0)]) as real
  {
    var j := DigitEnd(text, 0);
    var whole := DigitsValue(text[..j]) as real;
    if j < |text| && text[j] == '.' then
      var k := DigitEnd(text, j + 1);
      whole + DigitsValue(text[j + 1..k]) as real / Pow10(k - j - 1) as real
    else whole
  }

  /* ---------------------------------------------------------------------- */
  /* Evaluator                                                               */
  /* ---------------------------------------------------------------------- */

  /** A value together with the cursor position after the tokens it used. */
  datatype Step = Step(value: real, next: nat)

  /** An OPERATOR token whose text is the single character `op`. */
  predicate IsOp(t: Token, op: char) { t.kind == Operator && |t.text| == 1 && t.text[0] == op }

  /** `parseAddSubtract` started at `pos`. */
  function AddSub(toks: seq<Token>, pos: nat, resolve: string -> real): (r: Result<Step, ParseError>)
    requires pos <= |toks|
    ensures r.Ok? ==> pos < r.value.next <= |toks|
    decreases |toks| - pos, 3
  {
    match MulDiv(toks, pos, resolve)
    case Err(e) => Err(e)
    case Ok(first) => AddSubLoop(toks, first.next, first.value, resolve)
  }

  /** The `while` loop of `parseAddSubtract`, with `acc` the running result. */
  function AddSubLoop(toks: seq<Token>, pos: nat, acc: real, resolve: string -> real): (r: Result<Step, ParseError>)
    requires pos <= |toks|
    ensures r.Ok? ==> pos <= r.value.next <= |toks|
    decreases |toks| - pos, 2
  {
    if pos < |toks| && (IsOp(toks[pos], '+') || IsOp(toks[pos], '-')) then
      match MulDiv(toks, pos + 1, resolve)
      case Err(e) => Err(e)
      case Ok(right) =>
        AddSubLoop(toks, right.next, if IsOp(toks[pos], '+') then acc + right.value else acc - right.value, resolve)
    else Ok(Step(acc, pos))
  }

  /** The product and the quotient of two numbers. Written as functions so
      that the definitions of the evaluator mention no product of two
      unknowns, which keeps their unfolding cheap for the solver. */
  function Times(a: real, b: real): real { a * b }

  function Over(a: real, b: real): real
    requires b != 0.0
  {
    a / b
  }

  /** `parseMultiplyDivide` started at `pos`. */
  function MulDiv(toks: seq<Token>, pos: nat, resolve: string -> real): (r: Result<Step, ParseError>)
    requires pos <= |toks|
    ensures r.Ok? ==> pos < r.value.next <= |toks|
    decreases |toks| - pos, 1
  {
    match Term(toks, pos, resolve)
    case Err(e) => Err(e)
    case Ok(first) => MulDivLoop(toks, first.next, first.value, resolve)
  }

  /** The `while` loop of `parseMultiplyDivide`. */
  function MulDivLoop(toks: seq<Token>, pos: nat, acc: real, resolve: string -> real): (r: Result<Step, ParseError>)
    requires pos <= |toks|
    ensures r.Ok? ==> pos <= r.value.next <= |toks|
    decreases |toks| - pos, 1
  {
    if pos < |toks| && (IsOp(toks[pos], '*') || IsOp(toks[pos], '/')) then
      match Term(toks, pos + 1, resolve)
      case Err(e) => Err(e)
      case Ok(right) =>
        if IsOp(toks[pos], '*') then MulDivLoop(toks, right.next, Times(acc, right.value), resolve)
        else if right.value == 0.0 then Err(DivisionByZero)
        else MulDivLoop(toks, right.next, Over(acc, right.value), resolve)
    else Ok(Step(acc, pos))
  }

  /** `parseTerm` at `pos`. */
  function Term(toks: seq<Token>, pos: nat, resolve: string -> real): (r: Result<Step, ParseError>)
    requires pos <= |toks|
    ensures r.Ok? ==> pos < r.value.next <= |toks|
    decreases |toks| - pos, 0
  {
    if pos == |toks| then Err(UnexpectedEnd)
    else
      var t := toks[pos];
      if t.kind == Number then Ok(Step(NumberValue(t.text), pos + 1))
      else if t.kind == Variable then Ok(Step(resolve(t.text), pos + 1))
      else if t.kind == LeftParen then
        match AddSub(toks, pos + 1, resolve)
        case Err(e) => Err(e)
        case Ok(inner) =>
          if inner.next < |toks| && toks[inner.next].kind == RightParen then Ok(Step(inner.value, inner.next + 1))
          else Err(MissingClosingParenthesis)
      else if IsOp(t, '-') then
        match Term(toks, pos + 1, resolve)
        case Err(e) => Err(e)
        case Ok(operand) => Ok(Step(-operand.value, operand.next))
      else Err(UnexpectedToken(t.position, t.text))
  }

  /** A token that can begin a term: a number, a variable, `(` or a unary `-`. */
  predicate StartsTerm(t: Token) {
    t.kind == Number || t.kind == Variable || t.kind == LeftParen || IsOp(t, '-')
  }

  /** A token that cannot begin a term is rejected where a term is expected,
      with its own position and text, by all three levels of the parser. */
  lemma StrayToken(toks: seq<Token>, pos: nat, resolve: string -> real)
    requires pos < |toks| && !StartsTerm(toks[pos])
    ensures Term(toks, pos, resolve) == Err(UnexpectedToken(toks[pos].position, toks[pos].text))
    ensures MulDiv(toks, pos, resolve) == Err(UnexpectedToken(toks[pos].position, toks[pos].text))
    ensures AddSub(toks, pos, resolve) == Err(UnexpectedToken(toks[pos].position, toks[pos].text))
  {
  }

  /** Where a term is expected after the last token, all three levels of the
      parser report the unexpected end. */
  lemma NoTermLeft(toks: seq<Token>, pos: nat, resolve: string -> real)
    requires pos == |toks|
    ensures Term(toks, pos, resolve) == Err(UnexpectedEnd)
    ensures MulDiv(toks, pos, resolve) == Err(UnexpectedEnd)
    ensures AddSub(toks, pos, resolve) == Err(UnexpectedEnd)
  {
  }

  /** A `(` whose inner expression runs to the end of the tokens is never
      closed. */
  lemma Unclosed(toks: seq<Token>, pos: nat, resolve: string -> real)
    requires pos < |toks| && toks[pos].kind == LeftParen
    requires AddSub(toks, pos + 1, resolve).Ok? && AddSub(toks, pos + 1, resolve).value.next == |toks|
    ensures Term(toks, pos, resolve) == Err(MissingClosingParenthesis)
  {
  }

  /** Evaluation of a whole token sequence from its first token; tokens left
      over after the expression are ignored, as in the source. */
  function EvalTokens(toks: seq<Token>, resolve: string -> real): (r: Result<real, ParseError>)
    ensures toks == [] ==> r == Err(UnexpectedEnd)
    ensures toks != [] && !StartsTerm(toks[0]) ==> r == Err(UnexpectedToken(toks[0].position, toks[0].text))
  {
    var r := (match AddSub(toks, 0, resolve)
      case Ok(st) => Ok(st.value)
      case Err(e) => Err(e));
    if toks == [] then
      NoTermLeft(toks, 0, resolve);
      r
    else if !StartsTerm(toks[0]) then
      StrayToken(toks, 0, resolve);
      r
    else r
  }

  /** What `new ExpressionParser(resolve).parse(s)` returns or throws. */
  function Evaluate(s: string, resolve: string -> real): (r: Result<real, ParseError>)
    ensures Lex(s).Err? ==> r == Err(Lex(s).error)
    ensures Lex(s) == Ok([]) ==> r == Err(UnexpectedEnd)
  {
    match Lex(s)
    case Err(e) => Err(e)
    case Ok(toks) => EvalTokens(toks, resolve)
  }

  /** The names of the VARIABLE tokens of `toks`, in order. */
  function VariableNames(toks: seq<Token>): seq<string> {
    if toks == [] then []
    else VariableNames(toks[..|toks| - 1]) + (if toks[|toks| - 1].kind == Variable then [toks[|toks| - 1].text] else [])
  }

  /** The log of resolver calls after parsing `toks[i..j]`, starting from `log`:
      one entry per VARIABLE token, in order. */
  function Logged(log: seq<string>, toks: seq<Token>, i: nat, j: nat): seq<string>
    requires i <= j <= |toks|
    decreases j - i
  {
    if i == j then log
    else
      var earlier := Logged(log, toks, i, j - 1);
      if toks[j - 1].kind == Variable then earlier + [toks[j - 1].text] else earlier
  }

  /** Logging a stretch in two parts is logging it at once. */
  lemma {:induction false} LoggedSplit(log: seq<string>, toks: seq<Token>, i: nat, j: nat, k: nat)
    requires i <= j <= k <= |toks|
    ensures Logged(Logged(log, toks, i, j), toks, j, k) == Logged(log, toks, i, k)
    decreases k - j
  {
    if j < k {
      LoggedSplit(log, toks, i, j, k - 1);
    }
  }

  /** `calls` is the log after parsing `toks[i..j]`, starting from `log`. */
  predicate Logs(calls: seq<string>, log: seq<string>, toks: seq<Token>, i: nat, j: nat)
    requires i <= j <= |toks|
  {
    calls == Logged(log, toks, i, j)
  }

  /** The call log after a loop turn: the names before the operator at `j`,
      then those of the operand that follows it. */
  lemma LogsJoin(calls: seq<string>, mid: seq<string>, log: seq<string>, toks: seq<Token>, i: nat, j: nat, k: nat)
    requires i <= j < k <= |toks| && toks[j].kind != Variable
    requires Logs(mid, log, toks, i, j) && Logs(calls, mid, toks, j + 1, k)
    ensures Logs(calls, log, toks, i, k)
  {
    LoggedSplit(log, toks, i, j + 1, k);
  }

  /** The call log after a token that is not a variable and what follows it. */
  lemma LogsAfter(calls: seq<string>, log: seq<string>, toks: seq<Token>, i: nat, k: nat)
    requires i < k <= |toks| && toks[i].kind != Variable
    requires Logs(calls, log, toks, i + 1, k)
    ensures Logs(calls, log, toks, i, k)
  {
    LogsJoin(calls, log, log, toks, i, i, k);
  }

  /** From the start of the tokens, the log is the variable names appended. */
  lemma {:induction false} LoggedNames(log: seq<string>, toks: seq<Token>, j: nat)
    requires j <= |toks|
    ensures Logged(log, toks, 0, j) == log + VariableNames(toks[..j])
  {
    if j == 0 {
      assert log + [] == log;
    } else {
      LoggedNames(log, toks, j - 1);
      assert toks[..j][..j - 1] == toks[..j - 1];
    }
  }

  /** A method result `r`, with the cursor now at `pos`, as a step. */
  function AsStep(r: Result<real, ParseError>, pos: nat): Result<Step, ParseError> {
    match r
    case Ok(v) => Ok(Step(v, pos))
    case Err(e) => Err(e)
  }

  /* Each grammar function, stated as a relation to an expected outcome.
     The parser methods and the proof steps below are phrased with these, so
     that a method's proof needs each grammar function only at the points
     where the step lemmas mention it. */

  predicate AddSubGives(toks: seq<Token>, pos: nat, resolve: string -> real, s: Result<Step, ParseError>)
    requires pos <= |toks|
  {
    AddSub(toks, pos, resolve) == s
  }

  predicate AddSubLoopGives(toks: seq<Token>, pos: nat, acc: real, resolve: string -> real, s: Result<Step, ParseError>)
    requires pos <= |toks|
  {
    AddSubLoop(toks, pos, acc, resolve) == s
  }

  predicate MulDivGives(toks: seq<Token>, pos: nat, resolve: string -> real, s: Result<Step, ParseError>)
    requires pos <= |toks|
  {
    MulDiv(toks, pos, resolve) == s
  }

  predicate MulDivLoopGives(toks: seq<Token>, pos: nat, acc: real, resolve: string -> real, s: Result<Step, ParseError>)
    requires pos <= |toks|
  {
    MulDivLoop(toks, pos, acc, resolve) == s
  }

  predicate TermGives(toks: seq<Token>, pos: nat, resolve: string -> real, s: Result<Step, ParseError>)
    requires pos <= |toks|
  {
    Term(toks, pos, resolve) == s
  }

  /** The first product of `parseAddSubtract`: an error ends the sum, a value
      starts the loop. */
  lemma AddSubEnter(toks: seq<Token>, pos: nat, resolve: string -> real, first: Result<real, ParseError>, next: nat)
    requires pos <= |toks|
    requires MulDivGives(toks, pos, resolve, AsStep(first, next))
    ensures first.Err? ==> AddSubGives(toks, pos, resolve, AsStep(first, next))
    ensures first.Ok? ==> pos < next <= |toks| && AddSubLoopGives(toks, next, first.value, resolve, AddSub(toks, pos, resolve))
  {
  }

  /** One turn of the `+`/`-` loop: the operator at `pos`, then a product. */
  lemma AddSubTurn(toks: seq<Token>, pos: nat, acc: real, resolve: string -> real,
                   right: Result<real, ParseError>, next: nat, spec: Result<Step, ParseError>)
    requires pos < |toks| && (IsOp(toks[pos], '+') || IsOp(toks[pos], '-'))
    requires MulDivGives(toks, pos + 1, resolve, AsStep(right, next))
    requires AddSubLoopGives(toks, pos, acc, resolve, spec)
    ensures right.Err? ==> spec == AsStep(right, next)
    ensures right.Ok? ==> pos < next <= |toks|
    ensures right.Ok? && IsOp(toks[pos], '+') ==> AddSubLoopGives(toks, next, acc + right.value, resolve, spec)
    ensures right.Ok? && IsOp(toks[pos], '-') ==> AddSubLoopGives(toks, next, acc - right.value, resolve, spec)
  {
  }

  /** The `+`/`-` loop stops at the end or at any other token. */
  lemma AddSubExit(toks: seq<Token>, pos: nat, acc: real, resolve: string -> real, spec: Result<Step, ParseError>)
    requires pos <= |toks| && !(pos < |toks| && (IsOp(toks[pos], '+') || IsOp(toks[pos], '-')))
    requires AddSubLoopGives(toks, pos, acc, resolve, spec)
    ensures spec == AsStep(Ok(acc), pos)
  {
  }

  /** The first term of `parseMultiplyDivide`. */
  lemma MulDivEnter(toks: seq<Token>, pos: nat, resolve: string -> real, first: Result<real, ParseError>, next: nat)
    requires pos <= |toks|
    requires TermGives(toks, pos, resolve, AsStep(first, next))
    ensures first.Err? ==> MulDivGives(toks, pos, resolve, AsStep(first, next))
    ensures first.Ok? ==> pos < next <= |toks| && MulDivLoopGives(toks, next, first.value, resolve, MulDiv(toks, pos, resolve))
  {
  }

  /** One turn of the `*`/`/` loop: the operator at `pos`, then a term; a
      zero divisor ends the loop with an error. */
  lemma MulDivTurn(toks: seq<Token>, pos: nat, acc: real, resolve: string -> real,
                   right: Result<real, ParseError>, next: nat, spec: Result<Step, ParseError>)
    requires pos < |toks| && (IsOp(toks[pos], '*') || IsOp(toks[pos], '/'))
    requires TermGives(toks, pos + 1, resolve, AsStep(right, next))
    requires MulDivLoopGives(toks, pos, acc, resolve, spec)
    ensures right.Err? ==> spec == AsStep(right, next)
    ensures right.Ok? ==> pos < next <= |toks|
    ensures right.Ok? && IsOp(toks[pos], '*') ==> MulDivLoopGives(toks, next, Times(acc, right.value), resolve, spec)
    ensures right.Ok? && IsOp(toks[pos], '/') && right.value == 0.0 ==> spec == Err(DivisionByZero)
    ensures right.Ok? && IsOp(toks[pos], '/') && right.value != 0.0 ==> MulDivLoopGives(toks, next, Over(acc, right.value), resolve, spec)
  {
  }

  /** The `*`/`/` loop stops at the end or at any other token. */
  lemma MulDivExit(toks: seq<Token>, pos: nat, acc: real, resolve: string -> real, spec: Result<Step, ParseError>)
    requires pos <= |toks| && !(pos < |toks| && (IsOp(toks[pos], '*') || IsOp(toks[pos], '/')))
    requires MulDivLoopGives(toks, pos, acc, resolve, spec)
    ensures spec == AsStep(Ok(acc), pos)
  {
  }

  lemma SliceExtend(s: string, i: nat, j: nat)
    requires i <= j < |s|
    ensures s[i..j] + [s[j]] == s[i..j + 1]
  {
  }

  /** The inner loop of `tokenize` that collects a number literal: the
      characters of `[0-9.]` from `start` on, and the index after them. */
  method ReadNumber(expression: string, start: nat) returns (value: string, pos: nat)
    requires start <= |expression|
    ensures pos == NumberEnd(expression, start)
    ensures value == expression[start..pos]
  {
    value, pos := "", start;
    while pos < |expression| && IsNumberChar(expression[pos])
      invariant start <= pos <= NumberEnd(expression, start)
      invariant value == expression[start..pos]
    {
      SliceExtend(expression, start, pos);
      value := value + [expression[pos]];
      pos := pos + 1;
    }
  }

  /** The inner loop of `tokenize` that collects a variable name: the
      characters of `[a-zA-Z0-9_]` from `start` on, and the index after them. */
  method ReadName(expression: string, start: nat) returns (value: string, pos: nat)
    requires start <= |expression|
    ensures pos == IdentEnd(expression, start)
    ensures value == expression[start..pos]
  {
    value, pos := "", start;
    while pos < |expression| && IsIdentChar(expression[pos])
      invariant start <= pos <= IdentEnd(expression, start)
      invariant value == expression[start..pos]
    {
      SliceExtend(expression, start, pos);
      value := value + [expression[pos]];
      pos := pos + 1;
    }
  }

  /* ---------------------------------------------------------------------- */
  /* The parser object                                                       */
  /* ---------------------------------------------------------------------- */

  class ExpressionParser {
    var tokens: seq<Token>
    var position: nat
    const resolver: string -> real
    /** Every name handed to `resolver` so far, in call order. */
    ghost var Calls: seq<string>

    constructor (resolver: string -> real)
      ensures this.resolver == resolver
      ensures tokens == [] && position == 0 && Calls == []
    {
      this.resolver := resolver;
      tokens := [];
      position := 0;
      Calls := [];
    }

    /** Tokenizes `expression`, then evaluates it from a cursor reset to 0.
        Nothing from an earlier call influences the result. */
    method Parse(expression: string) returns (r: Result<real, ParseError>)
      modifies this
      ensures r == Evaluate(expression, resolver)
      ensures r.Ok? ==> Lex(expression).Ok? && tokens == Lex(expression).value && position <= |tokens|
      ensures r.Ok? ==> Calls == old(Calls) + VariableNames(tokens[..position])
    {
      var lexed := Tokenize(expression);
      if lexed.Err? {
        return Err(lexed.error);
      }
      tokens := lexed.value;
      position := 0;
      r := ParseExpression();
      LoggedNames(old(Calls), tokens, position);
    }

    method Tokenize(expression: string) returns (r: Result<seq<Token>, ParseError>)
      ensures r == Lex(expression)
    {
      var toks: seq<Token> := [];
      var pos := 0;
      PrependNothing(Lex(expression));
      while pos < |expression|
        invariant pos <= |expression|
        invariant Lex(expression) == Prepend(toks, LexFrom(expression, pos))
      {
        var c := expression[pos];
        if IsWhitespace(c) {
          pos := pos + 1;
          continue;
        }
        var start := pos;
        var token: Token;
        if IsDigit(c) {
          var value;
          value, pos := ReadNumber(expression, start);
          token := Token(Number, value, start);
        } else if IsOperatorChar(c) {
          token := Token(Operator, [c], pos);
          pos := pos + 1;
        } else if c == '(' {
          token := Token(LeftParen, "(", pos);
          pos := pos + 1;
        } else if c == ')' {
          token := Token(RightParen, ")", pos);
          pos := pos + 1;
        } else if IsIdentStart(c) {
          var value;
          value, pos := ReadName(expression, start);
          token := Token(Variable, value, start);
        } else {
          return Err(UnexpectedCharacter(pos, c));
        }
        assert Scan(expression, start) == Emit(token, pos);
        PrependTwice(toks, [token], LexFrom(expression, pos));
        toks := toks + [token];
      }
      assert toks + [] == toks;
      return Ok(toks);
    }

    method ParseExpression() returns (r: Result<real, ParseError>)
      requires position <= |tokens|
      modifies this`position, this`Calls
      ensures position <= |tokens|
      ensures AddSubGives(tokens, old(position), resolver, AsStep(r, position))
      ensures r.Ok? ==> Logs(Calls, old(Calls), tokens, old(position), position)
      decreases |tokens| - position, 4
    {
      r := ParseAddSubtract();
    }

    method ParseAddSubtract() returns (r: Result<real, ParseError>)
      requires position <= |tokens|
      modifies this`position, this`Calls
      ensures position <= |tokens|
      ensures AddSubGives(tokens, old(position), resolver, AsStep(r, position))
      ensures r.Ok? ==> Logs(Calls, old(Calls), tokens, old(position), position)
      decreases |tokens| - position, 3
    {
      var first := ParseMultiplyDivide();
      AddSubEnter(tokens, old(position), resolver, first, position);
      if first.Err? {
        return first;
      }
      var result := first.value;
      ghost var toks, spec := tokens, AddSub(tokens, old(position), resolver);
      while position < |tokens|
        invariant tokens == toks && old(position) < position <= |toks|
        invariant AddSubLoopGives(toks, position, result, resolver, spec)
        invariant Logs(Calls, old(Calls), toks, old(position), position)
        decreases |tokens| - position
      {
        var token := tokens[position];
        if !(IsOp(token, '+') || IsOp(token, '-')) {
          break;
        }
        ghost var at, mid := position, Calls;
        position := position + 1;
        var right := ParseMultiplyDivide();
        AddSubTurn(toks, at, result, resolver, right, position, spec);
        if right.Err? {
          return right;
        }
        LogsJoin(Calls, mid, old(Calls), toks, old(position), at, position);
        if IsOp(token, '+') {
          result := result + right.value;
        } else {
          result := result - right.value;
        }
      }
      AddSubExit(toks, position, result, resolver, spec);
      r := Ok(result);
    }

    method ParseMultiplyDivide() returns (r: Result<real, ParseError>)
      requires position <= |tokens|
      modifies this`position, this`Calls
      ensures position <= |tokens|
      ensures MulDivGives(tokens, old(position), resolver, AsStep(r, position))
      ensures r.Ok? ==> Logs(Calls, old(Calls), tokens, old(position), position)
      decreases |tokens| - position, 1
    {
      var first := ParseTerm();
      MulDivEnter(tokens, old(position), resolver, first, position);
      if first.Err? {
        return first;
      }
      var result := first.value;
      ghost var toks, spec := tokens, MulDiv(tokens, old(position), resolver);
      while position < |tokens|
        invariant tokens == toks && old(position) < position <= |toks|
        invariant MulDivLoopGives(toks, position, result, resolver, spec)
        invariant Logs(Calls, old(Calls), toks, old(position), position)
        decreases |tokens| - position
      {
        var token := tokens[position];
        if !(IsOp(token, '*') || IsOp(token, '/')) {
          break;
        }
        ghost var at, mid := position, Calls;
        position := position + 1;
        var right := ParseTerm();
        MulDivTurn(toks, at, result, resolver, right, position, spec);
        if right.Err? {
          return right;
        }
        LogsJoin(Calls, mid, old(Calls), toks, old(position), at, position);
        if IsOp(token, '*') {
          result := Times(result, right.value);
        } else {
          if right.value == 0.0 {
            return Err(DivisionByZero);
          }
          result := Over(result, right.value);
        }
      }
      MulDivExit(toks, position, result, resolver, spec);
      r := Ok(result);
    }

    method ParseTerm() returns (r: Result<real, ParseError>)
      requires position <= |tokens|
      modifies this`position, this`Calls
      ensures position <= |tokens|
      ensures TermGives(tokens, old(position), resolver, AsStep(r, position))
      ensures r.Ok? ==> Logs(Calls, old(Calls), tokens, old(position), position)
      decreases |tokens| - position, 0
    {
      if position >= |tokens| {
        return Err(UnexpectedEnd);
      }
      var token := tokens[position];
      if token.kind == Number {
        position := position + 1;
        return Ok(NumberValue(token.text));
      }
      if token.kind == Variable {
        position := position + 1;
        Calls := Calls + [token.text];
        return Ok(resolver(token.text));
      }
      ghost var start := position;
      if token.kind == LeftParen {
        position := position + 1;
        var inner := ParseExpression();
        if inner.Err? {
          return inner;
        }
        if position >= |tokens| || tokens[position].kind != RightParen {
          return Err(MissingClosingParenthesis);
        }
        LogsJoin(Calls, Calls, old(Calls), tokens, start + 1, position, position + 1);
        LogsAfter(Calls, old(Calls), tokens, start, position + 1);
        position := position + 1;
        return inner;
      }
      if IsOp(token, '-') {
        position := position + 1;
        var operand := ParseTerm();
        if operand.Err? {
          return operand;
        }
        LogsAfter(Calls, old(Calls), tokens, start, position);
        return Ok(-operand.value);
      }
      return Err(UnexpectedToken(token.position, token.text));
    }
  }
}
