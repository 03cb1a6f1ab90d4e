/**
 * The grammar that the recursive-descent parser of src/lib/expressions.ts
 * implements, as a syntax tree with its own meaning:
 *
 *   expression := addSubtract
 *   addSubtract := multiplyDivide (('+' | '-') multiplyDivide)*
 *   multiplyDivide := term (('*' | '/') term)*
 *   term := NUMBER | VARIABLE | '(' expression ')' | '-' term
 *
 * A tree respects precedence when a sum only has products as right operands
 * and a product only has terms as right operands; both operators of a level
 * group to the left. The theorem below says that the parser, run on the
 * tokens of such a tree, computes exactly the tree's value: `*` and `/` bind
 * tighter than `+` and `-`, and `1 - 2 - 3` is `(1 - 2) - 3`.
 */
module Grammar {
  import opened Wrappers
  import opened Expressions

  datatype BinOp = Add | Sub | Mul | Div

  /** The operator character that stands for `op` in the token stream. */
  function OpChar(op: BinOp): char {
    match op
    case Add => '+'
    case Sub => '-'
    case Mul => '*'
    case Div => '/'
  }

  datatype Expr =
    | Num(text: string)
    | Var(name: string)
    | Neg(operand: Expr)
    | Group(inner: Expr)
    | Bin(op: BinOp, left: Expr, right: Expr)

  /** `term`: a number, a variable, a parenthesised sum or a negated term. */
  predicate IsTerm(e: Expr)
    decreases e, 0
  {
    match e
    case Num(_) => true
    case Var(_) => true
    case Neg(x) => IsTerm(x)
    case Group(x) => IsSum(x)
    case Bin(_, _, _) => false
  }

  /** `multiplyDivide`: a term, or a product times or over a term. */
  predicate IsProduct(e: Expr)
    decreases e, 1
  {
    IsTerm(e) || (e.Bin? && (e.op == Mul || e.op == Div) && IsProduct(e.left) && IsTerm(e.right))
  }

  /** `addSubtract`: a product, or a sum plus or minus a product. */
  predicate IsSum(e: Expr)
    decreases e, 2
  {
    IsProduct(e) || (e.Bin? && (e.op == Add || e.op == Sub) && IsSum(e.left) && IsProduct(e.right))
  }

  /** The number of tokens that spell `e`. */
  function Width(e: Expr): (w: nat)
    ensures w >= 1
  {
    match e
    case Num(_) => 1
    case Var(_) => 1
    case Neg(x) => 1 + Width(x)
    case Group(x) => Width(x) + 2
    case Bin(_, l, r) => Width(l) + 1 + Width(r)
  }

  /** `toks[pos..pos + Width(e)]` spells `e`: token kinds and texts in order,
      whatever their positions in the input. */
  predicate SpelledAt(e: Expr, toks: seq<Token>, pos: nat) {
    pos + Width(e) <= |toks| &&
    match e
    case Num(text) => toks[pos].kind == Number && toks[pos].text == text
    case Var(name) => toks[pos].kind == Variable && toks[pos].text == name
    case Neg(x) => IsOp(toks[pos], '-') && SpelledAt(x, toks, pos + 1)
    case Group(x) =>
      toks[pos].kind == LeftParen && SpelledAt(x, toks, pos + 1) && toks[pos + 1 + Width(x)].kind == RightParen
    case Bin(op, l, r) =>
      SpelledAt(l, toks, pos) && IsOp(toks[pos + Width(l)], OpChar(op)) && SpelledAt(r, toks, pos + Width(l) + 1)
  }

  /** One binary operation on two values, dividing by zero being an error. */
  function Apply(op: BinOp, a: real, b: real): (r: Result<real, ParseError>)
    ensures r.Err? <==> op == Div && b == 0.0
  {
    match op
    case Add => Ok(a + b)
    case Sub => Ok(a - b)
    case Mul => Ok(Times(a, b))
    case Div => if b == 0.0 then Err(DivisionByZero) else Ok(Over(a, b))
  }

  /** A binary operation on two outcomes, the left one's error first. */
  function Combine(op: BinOp, a: Result<real, ParseError>, b: Result<real, ParseError>): (r: Result<real, ParseError>)
    ensures r.Ok? <==> a.Ok? && b.Ok? && !(op == Div && b.value == 0.0)
    ensures a.Err? ==> r == a
    ensures a.Ok? && b.Err? ==> r == b
  {
    match a
    case Err(err) => Err(err)
    case Ok(x) =>
      match b
      case Err(err) => Err(err)
      case Ok(y) => Apply(op, x, y)
  }

  /** The value of a tree: numbers by their literal, variables by `resolve`,
      the left operand first. Division by zero is the only possible error. */
  function Eval(e: Expr, resolve: string -> real): (r: Result<real, ParseError>)
    ensures r.Err? ==> r.error == DivisionByZero
  {
    match e
    case Num(text) => Ok(NumberValue(text))
    case Var(name) => Ok(resolve(name))
    case Neg(x) =>
      (match Eval(x, resolve)
       case Ok(v) => Ok(-v)
       case Err(err) => Err(err))
    case Group(x) => Eval(x, resolve)
    case Bin(op, l, r) => Combine(op, Eval(l, resolve), Eval(r, resolve))
  }

  /** No `*` or `/` at `pos`: a product that ends there ends for good. */
  predicate EndsProduct(toks: seq<Token>, pos: nat) {
    pos >= |toks| || !(IsOp(toks[pos], '*') || IsOp(toks[pos], '/'))
  }

  /** No operator at `pos`: an expression that ends there ends for good. */
  predicate EndsExpression(toks: seq<Token>, pos: nat) {
    pos >= |toks| || toks[pos].kind != Operator
  }

  /** `parseTerm` on the tokens of a term returns its value and stops right
      after it. */
  lemma {:induction false} TermSpelled(e: Expr, toks: seq<Token>, pos: nat, resolve: string -> real)
    requires IsTerm(e) && SpelledAt(e, toks, pos)
    ensures TermGives(toks, pos, resolve, AsStep(Eval(e, resolve), pos + Width(e)))
    decreases e, 0
  {
    match e
    case Num(_) =>
    case Var(_) =>
    case Neg(x) =>
      TermSpelled(x, toks, pos + 1, resolve);
    case Group(x) =>
      var end := pos + 1 + Width(x);
      SumSpelled(x, toks, pos + 1, resolve);
      match Eval(x, resolve)
      case Err(_) =>
      case Ok(v) =>
        AddSubExit(toks, end, v, resolve, AddSubLoop(toks, end, v, resolve));
  }

  /** `parseMultiplyDivide` from `pos` has the outcome `v` for what stands
      in `toks[pos..end]`, and on success its loop goes on at `end`. */
  predicate ProductOutcome(toks: seq<Token>, pos: nat, end: nat, resolve: string -> real, v: Result<real, ParseError>)
    requires pos <= end <= |toks|
  {
    match v
    case Err(err) => MulDivGives(toks, pos, resolve, Err(err))
    case Ok(x) => MulDivGives(toks, pos, resolve, MulDivLoop(toks, end, x, resolve))
  }

  /** `parseAddSubtract` from `pos` has the outcome `v` for what stands in
      `toks[pos..end]`, and on success its loop goes on at `end`. */
  predicate SumOutcome(toks: seq<Token>, pos: nat, end: nat, resolve: string -> real, v: Result<real, ParseError>)
    requires pos <= end <= |toks|
  {
    match v
    case Err(err) => AddSubGives(toks, pos, resolve, Err(err))
    case Ok(x) => AddSubGives(toks, pos, resolve, AddSubLoop(toks, end, x, resolve))
  }

  /** A product followed by `*` or `/` and a term is a longer product. */
  lemma ProductTurn(toks: seq<Token>, pos: nat, at: nat, end: nat, resolve: string -> real,
                    op: BinOp, a: Result<real, ParseError>, b: Result<real, ParseError>)
    requires pos <= at < end <= |toks| && (op == Mul || op == Div) && IsOp(toks[at], OpChar(op))
    requires ProductOutcome(toks, pos, at, resolve, a)
    requires TermGives(toks, at + 1, resolve, AsStep(b, end))
    ensures ProductOutcome(toks, pos, end, resolve, Combine(op, a, b))
  {
    if a.Ok? {
      MulDivTurn(toks, at, a.value, resolve, b, end, MulDivLoop(toks, at, a.value, resolve));
    }
  }

  /** A sum followed by `+` or `-` and a complete product is a longer sum. */
  lemma SumTurn(toks: seq<Token>, pos: nat, at: nat, end: nat, resolve: string -> real,
                op: BinOp, a: Result<real, ParseError>, b: Result<real, ParseError>)
    requires pos <= at < end <= |toks| && (op == Add || op == Sub) && IsOp(toks[at], OpChar(op))
    requires SumOutcome(toks, pos, at, resolve, a)
    requires ProductOutcome(toks, at + 1, end, resolve, b) && EndsProduct(toks, end)
    ensures SumOutcome(toks, pos, end, resolve, Combine(op, a, b))
  {
    if a.Ok? {
      if b.Ok? {
        MulDivExit(toks, end, b.value, resolve, MulDivLoop(toks, end, b.value, resolve));
      }
      AddSubTurn(toks, at, a.value, resolve, b, end, AddSubLoop(toks, at, a.value, resolve));
    }
  }

  /** A complete product is a sum. */
  lemma SumOfProduct(toks: seq<Token>, pos: nat, end: nat, resolve: string -> real, v: Result<real, ParseError>)
    requires pos < end <= |toks| && ProductOutcome(toks, pos, end, resolve, v) && EndsProduct(toks, end)
    ensures SumOutcome(toks, pos, end, resolve, v)
  {
    if v.Ok? {
      MulDivExit(toks, end, v.value, resolve, MulDivLoop(toks, end, v.value, resolve));
      AddSubEnter(toks, pos, resolve, v, end);
    }
  }

  /** A term is a product. */
  lemma ProductOfTerm(toks: seq<Token>, pos: nat, end: nat, resolve: string -> real, v: Result<real, ParseError>)
    requires pos < end <= |toks| && TermGives(toks, pos, resolve, AsStep(v, end))
    ensures ProductOutcome(toks, pos, end, resolve, v)
  {
    MulDivEnter(toks, pos, resolve, v, end);
  }

  /** `parseMultiplyDivide` on the tokens of a product computes the product,
      grouping to the left, and its loop then goes on at the next token. */
  lemma {:induction false} ProductSpelled(e: Expr, toks: seq<Token>, pos: nat, resolve: string -> real)
    requires IsProduct(e) && SpelledAt(e, toks, pos)
    ensures ProductOutcome(toks, pos, pos + Width(e), resolve, Eval(e, resolve))
    decreases e, 1
  {
    if IsTerm(e) {
      TermSpelled(e, toks, pos, resolve);
      ProductOfTerm(toks, pos, pos + Width(e), resolve, Eval(e, resolve));
    } else {
      var at := pos + Width(e.left);
      ProductSpelled(e.left, toks, pos, resolve);
      TermSpelled(e.right, toks, at + 1, resolve);
      ProductTurn(toks, pos, at, pos + Width(e), resolve, e.op, Eval(e.left, resolve), Eval(e.right, resolve));
    }
  }

  /** `parseAddSubtract` on the tokens of a sum computes the sum, grouping to
      the left, and its loop then goes on at the next token, provided that
      token does not continue the last product. */
  lemma {:induction false} SumSpelled(e: Expr, toks: seq<Token>, pos: nat, resolve: string -> real)
    requires IsSum(e) && SpelledAt(e, toks, pos) && EndsProduct(toks, pos + Width(e))
    ensures SumOutcome(toks, pos, pos + Width(e), resolve, Eval(e, resolve))
    decreases e, 2
  {
    if IsProduct(e) {
      ProductSpelled(e, toks, pos, resolve);
      SumOfProduct(toks, pos, pos + Width(e), resolve, Eval(e, resolve));
    } else {
      var at := pos + Width(e.left);
      SumSpelled(e.left, toks, pos, resolve);
      ProductSpelled(e.right, toks, at + 1, resolve);
      SumTurn(toks, pos, at, pos + Width(e), resolve, e.op, Eval(e.left, resolve), Eval(e.right, resolve));
    }
  }

  /** The parser evaluates the tokens of any precedence-respecting tree to the
      tree's value, when nothing but a non-operator token follows it. */
  lemma EvalSpelled(e: Expr, toks: seq<Token>, resolve: string -> real)
    requires IsSum(e) && SpelledAt(e, toks, 0) && EndsExpression(toks, Width(e))
    ensures EvalTokens(toks, resolve) == Eval(e, resolve)
  {
    SumSpelled(e, toks, 0, resolve);
    if Eval(e, resolve).Ok? {
      var v := Eval(e, resolve).value;
      AddSubExit(toks, Width(e), v, resolve, AddSubLoop(toks, Width(e), v, resolve));
    }
  }
}
