/**
 * The expression evaluator of the calculator sample (`eval_expression` in
 * simple_calc.cpp): a scanner and shunting-yard pass that turn the text into
 * reverse Polish notation (RPN), a stack machine that evaluates that sequence,
 * and the trimming of trailing zeros from the printed result.
 *
 * Number tokens stay strings. The conversion `std::stod`, the zero test on a
 * divisor and the floating-point operations (including `std::pow`) are
 * parameters of the evaluator, so the model fixes the token order and the
 * stack and error logic, not the arithmetic.
 *
 * Stacks are sequences whose top is element 0.
 */
module SimpleCalc {
  import opened Common

  // ---------------------------------------------------------------------
  // Character classes and precedence (is_op_char, prec)
  // ---------------------------------------------------------------------

  /** `isspace` in the "C" locale: blank, tab, newline, vertical tab, form feed, return. */
  predicate IsSpace(c: char) { c == ' ' || ('\t' <= c <= '\r') }

  predicate IsDigit(c: char) { '0' <= c <= '9' }

  predicate IsOpChar(c: char) { c == '+' || c == '-' || c == '*' || c == '/' || c == '^' }

  /** Binding strength of an operator; 0 for anything that is not one. */
  function Prec(op: char): (p: nat)
    ensures p == 0 <==> !IsOpChar(op)
    ensures p <= 3
  {
    if op == '+' || op == '-' then 1
    else if op == '*' || op == '/' then 2
    else if op == '^' then 3
    else 0
  }

  /**
   * The operator `top` on the stack is moved to the output before `c` is
   * pushed: it binds tighter, or as tight and `c` is left-associative
   * (everything except `^`).
   */
  predicate PopsBefore(top: char, c: char)
  {
    IsOpChar(top) && (Prec(top) > Prec(c) || (Prec(top) == Prec(c) && c != '^'))
  }

  // ---------------------------------------------------------------------
  // Errors and results
  // ---------------------------------------------------------------------

  datatype CalcError =
    | UnexpectedChar(ch: char)
    | MismatchedParen
    | SyntaxError
    | DivisionByZero
    | BadNumber(token: string)

  datatype Result<T> = Ok(value: T) | Err(error: CalcError)

  /** The text the evaluator stores in `err`. */
  function Message(e: CalcError): (m: string)
    ensures m != []
  {
    match e
    case UnexpectedChar(c) => "Unexpected char: " + [c]
    case MismatchedParen => "Mismatched parenthesis"
    case SyntaxError => "Syntax error"
    case DivisionByZero => "Division by zero"
    case BadNumber(tk) => "Bad number: " + tk
  }

  // ---------------------------------------------------------------------
  // Scanning
  // ---------------------------------------------------------------------

  /** What the scanner recognises at one position of the expression. */
  datatype Token =
    | TNum(text: string)
    | TOp(op: char, unary: bool)
    | TLParen
    | TRParen
    | TBad(ch: char)

  predicate IsNumStart(c: char) { IsDigit(c) || c == '.' }

  /** A character the main loop accepts where a token may begin. */
  predicate IsTokenStart(c: char)
  {
    IsSpace(c) || IsNumStart(c) || IsOpChar(c) || c == '(' || c == ')'
  }

  /**
   * `expr[j]` continues the number that began at `start`: a digit, `.`, `e`,
   * `E`, or a sign directly after an `e`/`E` of this number.
   */
  predicate InNumber(expr: string, start: nat, j: nat)
    requires start <= j < |expr|
  {
    IsDigit(expr[j]) || expr[j] == '.' || expr[j] == 'e' || expr[j] == 'E'
    || ((expr[j] == '+' || expr[j] == '-') && start < j && (expr[j - 1] == 'e' || expr[j - 1] == 'E'))
  }

  /** End of the maximal run of number characters from `j` on. */
  function NumberEnd(expr: string, start: nat, j: nat): (e: nat)
    requires start <= j <= |expr|
    ensures j <= e <= |expr|
    ensures forall k :: j <= k < e ==> InNumber(expr, start, k)
    ensures e == |expr| || !InNumber(expr, start, e)
    decreases |expr| - j
  {
    if j < |expr| && InNumber(expr, start, j) then NumberEnd(expr, start, j + 1) else j
  }

  /**
   * A `-` at index `i` gets a `"0"` operand in front of it: it is the first
   * character, or it follows `(` or an operator character directly.
   */
  predicate UnaryAt(expr: string, i: nat)
    requires i < |expr|
  {
    expr[i] == '-' && (i == 0 || expr[i - 1] == '(' || IsOpChar(expr[i - 1]))
  }

  /** A token sequence as the scanner produces it. */
  predicate WellLexed(toks: seq<Token>)
  {
    forall t :: t in toks ==>
      (t.TNum? ==> t.text != [] && IsNumStart(t.text[0])) && (t.TOp? ==> IsOpChar(t.op))
  }

  /**
   * The tokens of `expr[i..]`. Scanning stops at the first character that
   * cannot begin a token: the evaluator reports it there.
   */
  function LexFrom(expr: string, i: nat): (toks: seq<Token>)
    requires i <= |expr|
    decreases |expr| - i
  {
    if i == |expr| then []
    else
      var c := expr[i];
      if IsSpace(c) then LexFrom(expr, i + 1)
      else if IsNumStart(c) then
        var e := NumberEnd(expr, i, i);
        assert InNumber(expr, i, i);
        [TNum(expr[i..e])] + LexFrom(expr, e)
      else if IsOpChar(c) then [TOp(c, UnaryAt(expr, i))] + LexFrom(expr, i + 1)
      else if c == '(' then [TLParen] + LexFrom(expr, i + 1)
      else if c == ')' then [TRParen] + LexFrom(expr, i + 1)
      else [TBad(c)]
  }

  function Lex(expr: string): seq<Token> { LexFrom(expr, 0) }

  /**
   * What the scanner produces: numbers that start with a digit or `.`,
   * operator tokens for operator characters only, a unary flag only on `-`,
   * and at most one bad character, last, which occurs in the text and cannot
   * begin a token.
   */
  lemma {:induction false} LexFacts(expr: string, i: nat)
    requires i <= |expr|
    ensures WellLexed(LexFrom(expr, i))
    ensures forall t :: t in LexFrom(expr, i) && t.TBad? ==> !IsTokenStart(t.ch) && t.ch in expr[i..]
    ensures forall k :: 0 <= k < |LexFrom(expr, i)| - 1 ==> !LexFrom(expr, i)[k].TBad?
    ensures forall t :: t in LexFrom(expr, i) && t.TOp? && t.unary ==> t.op == '-'
    decreases |expr| - i
  {
    if i < |expr| {
      var c := expr[i];
      if IsSpace(c) {
        LexSpace(expr, i);
        LexFacts(expr, i + 1);
        assert expr[i + 1..] == expr[i..][1..];
      } else if IsNumStart(c) {
        var e := NumberEnd(expr, i, i);
        assert InNumber(expr, i, i);
        LexNumber(expr, i);
        LexFacts(expr, e);
        ConsKeepsFacts(TNum(expr[i..e]), LexFrom(expr, e), expr[i..], expr[e..]);
      } else if IsOpChar(c) || c == '(' || c == ')' {
        LexSingle(expr, i);
        LexFacts(expr, i + 1);
        ConsKeepsFacts(SingleToken(expr, i), LexFrom(expr, i + 1), expr[i..], expr[i + 1..]);
      } else {
        LexBad(expr, i);
        assert [TBad(c)] + [] == [TBad(c)] && c == expr[i..][0];
      }
    }
  }

  /** A good token in front of scanned tokens keeps what `LexFacts` states about them. */
  lemma {:induction false} ConsKeepsFacts(t: Token, rest: seq<Token>, text: string, restText: string)
    requires (t.TNum? ==> t.text != [] && IsNumStart(t.text[0])) && (t.TOp? ==> IsOpChar(t.op))
    requires !t.TBad? && (t.TOp? && t.unary ==> t.op == '-')
    requires |restText| <= |text| && restText == text[|text| - |restText|..]
    requires WellLexed(rest)
    requires forall u :: u in rest && u.TBad? ==> !IsTokenStart(u.ch) && u.ch in restText
    requires forall k :: 0 <= k < |rest| - 1 ==> !rest[k].TBad?
    requires forall u :: u in rest && u.TOp? && u.unary ==> u.op == '-'
    ensures WellLexed([t] + rest)
    ensures forall u :: u in [t] + rest && u.TBad? ==> !IsTokenStart(u.ch) && u.ch in text
    ensures forall k :: 0 <= k < |[t] + rest| - 1 ==> !([t] + rest)[k].TBad?
    ensures forall u :: u in [t] + rest && u.TOp? && u.unary ==> u.op == '-'
  {
    forall u | u in [t] + rest && u.TBad? ensures !IsTokenStart(u.ch) && u.ch in text {
      assert u in rest;
      var j :| 0 <= j < |restText| && restText[j] == u.ch;
      assert text[|text| - |restText| + j] == u.ch;
    }
    forall k | 0 <= k < |[t] + rest| - 1 ensures !([t] + rest)[k].TBad? {
      if k > 0 {
        assert ([t] + rest)[k] == rest[k - 1];
      }
    }
  }

  // ---------------------------------------------------------------------
  // Shunting-yard
  // ---------------------------------------------------------------------

  /** Each operator character as a one-character output token, in order. */
  function Singles(cs: seq<char>): (r: seq<string>)
    ensures |r| == |cs|
  {
    if cs == [] then [] else [[cs[0]]] + Singles(cs[1..])
  }

  datatype Stacks = Stacks(out: seq<string>, ops: seq<char>)

  /**
   * The inner loop before an operator `c` is pushed: move operators from the
   * top of the stack to the output while they pop before `c`.
   */
  function PopHigher(out: seq<string>, ops: seq<char>, c: char): (r: Stacks)
    ensures |r.ops| <= |ops|
    decreases |ops|
  {
    if ops != [] && PopsBefore(ops[0], c) then PopHigher(out + [[ops[0]]], ops[1..], c)
    else Stacks(out, ops)
  }

  /**
   * PopHigher pops a run of operators off the top of the stack, each of
   * which pops before `c`, appends them to the output one by one, and
   * leaves the rest of the stack as it was.
   */
  lemma {:induction false} PopHigherShape(out: seq<string>, ops: seq<char>, c: char)
    ensures var r := PopHigher(out, ops, c);
      forall k :: 0 <= k < |r.ops| ==> r.ops[k] == ops[|ops| - |r.ops| + k]
    ensures var r := PopHigher(out, ops, c);
      r.out == out + Singles(ops[..|ops| - |r.ops|])
    ensures var r := PopHigher(out, ops, c);
      forall k :: 0 <= k < |ops| - |r.ops| ==> PopsBefore(ops[k], c)
    decreases |ops|
  {
    if ops != [] && PopsBefore(ops[0], c) {
      PopHigherShape(out + [[ops[0]]], ops[1..], c);
      PopHigherStep(out, ops, c, PopHigher(out + [[ops[0]]], ops[1..], c));
    } else {
      PopHigherNone(out, ops);
    }
  }

  /** Popping nothing leaves both stacks as they were. */
  lemma {:induction false} PopHigherNone(out: seq<string>, ops: seq<char>)
    ensures forall k :: 0 <= k < |ops| ==> ops[k] == ops[|ops| - |ops| + k]
    ensures out == out + Singles(ops[..|ops| - |ops|])
  {
    assert ops[..0] == [] && Singles([]) == [];
  }

  /** What PopHigher leaves on the stack is the part of `ops` below the popped run. */
  lemma {:induction false} PopHigherRest(out: seq<string>, ops: seq<char>, c: char)
    ensures PopHigher(out, ops, c).ops == ops[|ops| - |PopHigher(out, ops, c).ops|..]
  {
    var r := PopHigher(out, ops, c);
    var n := |ops| - |r.ops|;
    PopHigherShape(out, ops, c);
    forall k | 0 <= k < |r.ops| ensures r.ops[k] == ops[n..][k] {
      assert r.ops[k] == ops[n + k];
    }
  }

  /** The pop loop stops at the first operator that does not pop before `c`. */
  lemma {:induction false} PopHigherStopsBelow(out: seq<string>, ops: seq<char>, c: char)
    ensures PopHigher(out, ops, c).ops == [] || !PopsBefore(PopHigher(out, ops, c).ops[0], c)
    decreases |ops|
  {
    if ops != [] && PopsBefore(ops[0], c) {
      PopHigherStopsBelow(out + [[ops[0]]], ops[1..], c);
    }
  }

  /** One more pop in front of a popped run keeps the run's shape. */
  lemma {:induction false} PopHigherStep(out: seq<string>, ops: seq<char>, c: char, r: Stacks)
    requires ops != [] && PopsBefore(ops[0], c)
    requires |r.ops| <= |ops[1..]| && forall k :: 0 <= k < |r.ops| ==> r.ops[k] == ops[1..][|ops[1..]| - |r.ops| + k]
    requires r.out == out + [[ops[0]]] + Singles(ops[1..][..|ops[1..]| - |r.ops|])
    requires forall k :: 0 <= k < |ops[1..]| - |r.ops| ==> PopsBefore(ops[1..][k], c)
    ensures |r.ops| <= |ops| && forall k :: 0 <= k < |r.ops| ==> r.ops[k] == ops[|ops| - |r.ops| + k]
    ensures r.out == out + Singles(ops[..|ops| - |r.ops|])
    ensures forall k :: 0 <= k < |ops| - |r.ops| ==> PopsBefore(ops[k], c)
  {
    var m := |ops| - 1 - |r.ops|;
    assert |ops[1..]| == |ops| - 1;
    forall k | 0 <= k < |r.ops| ensures r.ops[k] == ops[|ops| - |r.ops| + k] {
      assert ops[1..][m + k] == ops[m + 1 + k];
    }
    assert ops[..m + 1][1..] == ops[1..][..m];
    assert ops[..m + 1] == [ops[0]] + ops[1..][..m];
    assert Singles(ops[..m + 1]) == [[ops[0]]] + Singles(ops[1..][..m]);
    forall k | 0 <= k < m + 1 ensures PopsBefore(ops[k], c) {
      if k > 0 {
        assert ops[k] == ops[1..][k - 1];
      }
    }
  }

  /**
   * The loop for `)`: pop to the output until `(` is popped; `None` when
   * the stack runs out first.
   */
  function PopToParen(out: seq<string>, ops: seq<char>): (r: Option<Stacks>)
    ensures r.None? <==> '(' !in ops
    ensures r.Some? ==> |r.value.ops| < |ops| && ops[|ops| - |r.value.ops| - 1] == '('
    ensures r.Some? ==> '(' !in ops[..|ops| - |r.value.ops| - 1]
    ensures r.Some? ==> r.value.ops == ops[|ops| - |r.value.ops|..]
    ensures r.Some? ==> r.value.out == out + Singles(ops[..|ops| - |r.value.ops| - 1])
    decreases |ops|
  {
    if ops == [] then None
    else if ops[0] == '(' then
      PopToParenHere(out, ops);
      Some(Stacks(out, ops[1..]))
    else
      var r := PopToParen(out + [[ops[0]]], ops[1..]);
      if r.None? then
        NotInCons(ops, '(');
        r
      else
        PopToParenStep(out, ops, r.value);
        r
  }

  /** A character is missing from a sequence when it is missing from its head and its tail. */
  lemma {:induction false} NotInCons(cs: seq<char>, c: char)
    requires cs != [] && cs[0] != c && c !in cs[1..]
    ensures c !in cs
  {
    assert cs == [cs[0]] + cs[1..];
  }

  /** A `(` on top: nothing is popped but the `(` itself. */
  lemma {:induction false} PopToParenHere(out: seq<string>, ops: seq<char>)
    requires ops != [] && ops[0] == '('
    ensures var n := |ops| - |ops[1..]| - 1;
      n == 0 && ops[n] == '(' && '(' !in ops[..n] && ops[1..] == ops[n + 1..] && out == out + Singles(ops[..n])
    ensures '(' in ops
  {
    assert ops[..0] == [] && Singles([]) == [] && out + [] == out;
  }

  /** One more pop in front of a run that ends at `(` keeps the run's shape. */
  lemma {:induction false} PopToParenStep(out: seq<string>, ops: seq<char>, st: Stacks)
    requires ops != [] && ops[0] != '('
    requires |st.ops| < |ops[1..]| && ops[1..][|ops[1..]| - |st.ops| - 1] == '('
    requires '(' !in ops[1..][..|ops[1..]| - |st.ops| - 1]
    requires st.ops == ops[1..][|ops[1..]| - |st.ops|..]
    requires st.out == out + [[ops[0]]] + Singles(ops[1..][..|ops[1..]| - |st.ops| - 1])
    ensures |st.ops| < |ops| && ops[|ops| - |st.ops| - 1] == '(' && '(' !in ops[..|ops| - |st.ops| - 1]
    ensures st.ops == ops[|ops| - |st.ops|..]
    ensures st.out == out + Singles(ops[..|ops| - |st.ops| - 1])
    ensures '(' in ops
  {
    var n := |ops| - |st.ops| - 1;
    assert |ops[1..]| == |ops| - 1;
    assert ops[n] == ops[1..][n - 1];
    assert ops[|ops| - |st.ops|..] == ops[1..][n..];
    assert ops[..n][1..] == ops[1..][..n - 1];
    assert ops[..n] == [ops[0]] + ops[1..][..n - 1];
    assert Singles(ops[..n]) == [[ops[0]]] + Singles(ops[1..][..n - 1]);
  }

  /** The loop after the scan: move what is left to the output; a `(` is an error. */
  function Drain(out: seq<string>, ops: seq<char>): (r: Result<seq<string>>)
    ensures r.Ok? <==> '(' !in ops && ')' !in ops
    ensures r.Ok? ==> r.value == out + Singles(ops)
    ensures r.Err? ==> r.error == MismatchedParen
    decreases |ops|
  {
    if ops == [] then Ok(out)
    else if ops[0] == '(' || ops[0] == ')' then Err(MismatchedParen)
    else Drain(out + [[ops[0]]], ops[1..])
  }

  /** The pass over one token. */
  function Step(t: Token, out: seq<string>, ops: seq<char>): (r: Result<Stacks>)
    ensures r.Err? ==> r.error == MismatchedParen || (t.TBad? && r.error == UnexpectedChar(t.ch))
  {
    match t
    case TNum(s) => Ok(Stacks(out + [s], ops))
    case TOp(c, unary) =>
      var st := PopHigher(if unary then out + ["0"] else out, ops, c);
      Ok(Stacks(st.out, [c] + st.ops))
    case TLParen => Ok(Stacks(out, ['('] + ops))
    case TRParen =>
      (match PopToParen(out, ops)
       case None => Err(MismatchedParen)
       case Some(st) => Ok(st))
    case TBad(c) => Err(UnexpectedChar(c))
  }

  /** The shunting-yard pass over the tokens, from the given output and stack. */
  function Shunt(toks: seq<Token>, out: seq<string>, ops: seq<char>): (r: Result<seq<string>>)
    ensures r.Err? ==> r.error == MismatchedParen || (r.error.UnexpectedChar? && TBad(r.error.ch) in toks)
    decreases |toks|
  {
    if toks == [] then Drain(out, ops)
    else
      match Step(toks[0], out, ops)
      case Err(e) => Err(e)
      case Ok(st) => Shunt(toks[1..], st.out, st.ops)
  }

  /** The RPN sequence `eval_expression` builds for `expr`, or its scan error. */
  function RpnOf(expr: string): Result<seq<string>>
  {
    Shunt(Lex(expr), [], [])
  }

  /** The token the scanner reads at a one-character token position. */
  function SingleToken(expr: string, i: nat): Token
    requires i < |expr|
  {
    if IsOpChar(expr[i]) then TOp(expr[i], UnaryAt(expr, i))
    else if expr[i] == '(' then TLParen
    else TRParen
  }

  lemma {:induction false} LexSpace(expr: string, i: nat)
    requires i < |expr| && IsSpace(expr[i])
    ensures LexFrom(expr, i) == LexFrom(expr, i + 1)
  {
  }

  lemma {:induction false} LexNumber(expr: string, i: nat)
    requires i < |expr| && IsNumStart(expr[i])
    ensures LexFrom(expr, i) == [TNum(expr[i..NumberEnd(expr, i, i)])] + LexFrom(expr, NumberEnd(expr, i, i))
  {
  }

  lemma {:induction false} LexSingle(expr: string, i: nat)
    requires i < |expr| && !IsSpace(expr[i]) && !IsNumStart(expr[i])
    requires IsOpChar(expr[i]) || expr[i] == '(' || expr[i] == ')'
    ensures LexFrom(expr, i) == [SingleToken(expr, i)] + LexFrom(expr, i + 1)
  {
  }

  lemma {:induction false} LexBad(expr: string, i: nat)
    requires i < |expr| && !IsTokenStart(expr[i])
    ensures LexFrom(expr, i) == [TBad(expr[i])] + []
  {
  }

  lemma {:induction false} StepOp(c: char, unary: bool, out: seq<string>, ops: seq<char>)
    ensures Step(TOp(c, unary), out, ops)
      == Ok(Stacks(PopHigher(if unary then out + ["0"] else out, ops, c).out,
                   [c] + PopHigher(if unary then out + ["0"] else out, ops, c).ops))
  {
  }

  /** The pass at a number token. */
  lemma {:induction false} ShuntAtNumber(expr: string, i: nat, out: seq<string>, ops: seq<char>)
    requires i < |expr| && IsNumStart(expr[i])
    ensures Shunt(LexFrom(expr, i), out, ops)
      == Shunt(LexFrom(expr, NumberEnd(expr, i, i)), out + [expr[i..NumberEnd(expr, i, i)]], ops)
  {
    LexNumber(expr, i);
    ShuntCons(TNum(expr[i..NumberEnd(expr, i, i)]), LexFrom(expr, NumberEnd(expr, i, i)), out, ops);
  }

  /** The pass at an operator or a parenthesis. */
  lemma {:induction false} ShuntAtSingle(expr: string, i: nat, out: seq<string>, ops: seq<char>)
    requires i < |expr| && !IsSpace(expr[i]) && !IsNumStart(expr[i])
    requires IsOpChar(expr[i]) || expr[i] == '(' || expr[i] == ')'
    ensures Step(SingleToken(expr, i), out, ops).Err? ==>
      Shunt(LexFrom(expr, i), out, ops) == Err(Step(SingleToken(expr, i), out, ops).error)
    ensures Step(SingleToken(expr, i), out, ops).Ok? ==>
      Shunt(LexFrom(expr, i), out, ops)
      == Shunt(LexFrom(expr, i + 1), Step(SingleToken(expr, i), out, ops).value.out,
               Step(SingleToken(expr, i), out, ops).value.ops)
  {
    LexSingle(expr, i);
    ShuntCons(SingleToken(expr, i), LexFrom(expr, i + 1), out, ops);
  }

  /** The pass at a character that cannot begin a token. */
  lemma {:induction false} ShuntAtBad(expr: string, i: nat, out: seq<string>, ops: seq<char>)
    requires i < |expr| && !IsTokenStart(expr[i])
    ensures Shunt(LexFrom(expr, i), out, ops) == Err(UnexpectedChar(expr[i]))
  {
    LexBad(expr, i);
    ShuntCons(TBad(expr[i]), [], out, ops);
  }

  /** The pass over a token and the tokens after it. */
  lemma {:induction false} ShuntCons(t: Token, rest: seq<Token>, out: seq<string>, ops: seq<char>)
    ensures Step(t, out, ops).Err? ==> Shunt([t] + rest, out, ops) == Err(Step(t, out, ops).error)
    ensures Step(t, out, ops).Ok? ==>
      Shunt([t] + rest, out, ops) == Shunt(rest, Step(t, out, ops).value.out, Step(t, out, ops).value.ops)
  {
    assert ([t] + rest)[1..] == rest;
  }

  /** The inner loop that reads a number token starting at `start`. */
  method ScanNumber(expr: string, start: nat) returns (num: string, i: nat)
    requires start < |expr| && IsNumStart(expr[start])
    ensures i == NumberEnd(expr, start, start) && num == expr[start..i]
  {
    i := start;
    num := [];
    while i < |expr| && (IsDigit(expr[i]) || expr[i] == '.' || expr[i] == 'e' || expr[i] == 'E'
        || ((expr[i] == '+' || expr[i] == '-') && num != [] && (num[|num| - 1] == 'e' || num[|num| - 1] == 'E')))
      invariant start <= i <= |expr|
      invariant num == expr[start..i]
      invariant NumberEnd(expr, start, i) == NumberEnd(expr, start, start)
      decreases |expr| - i
    {
      num := num + [expr[i]];
      i := i + 1;
    }
  }

  /**
   * The branch for an operator character at `i`: the `"0"` operand of a unary
   * minus, the loop that pops operators binding at least as tight, and the push.
   */
  method PushOperator(expr: string, i: nat, output0: seq<string>, ops0: seq<char>)
    returns (output: seq<string>, ops: seq<char>)
    requires i < |expr| && IsOpChar(expr[i])
    ensures Step(TOp(expr[i], UnaryAt(expr, i)), output0, ops0) == Ok(Stacks(output, ops))
  {
    var c := expr[i];
    output, ops := output0, ops0;
    if c == '-' && output == [] && ops == [] && (i == 0 || expr[i - 1] == '(') {
      output := output + ["0"];
    } else if c == '-' && (i == 0 || expr[i - 1] == '(' || IsOpChar(expr[i - 1])) {
      output := output + ["0"];
    }
    assert output == if UnaryAt(expr, i) then output0 + ["0"] else output0;
    StepOp(c, UnaryAt(expr, i), output0, ops0);
    output, ops := PopOperators(output, ops, c);
    ops := [c] + ops;
  }

  /** The inner loop that runs before an operator `c` is pushed. */
  method PopOperators(output0: seq<string>, ops0: seq<char>, c: char) returns (output: seq<string>, ops: seq<char>)
    ensures Stacks(output, ops) == PopHigher(output0, ops0, c)
  {
    output, ops := output0, ops0;
    while ops != [] && IsOpChar(ops[0]) && (Prec(ops[0]) > Prec(c) || (Prec(ops[0]) == Prec(c) && c != '^'))
      invariant PopHigher(output, ops, c) == PopHigher(output0, ops0, c)
      decreases |ops|
    {
      output := output + [[ops[0]]];
      ops := ops[1..];
    }
  }

  /** The inner loop for `)`: `found` tells whether a `(` was popped. */
  method PopUntilParen(output0: seq<string>, ops0: seq<char>) returns (found: bool, output: seq<string>, ops: seq<char>)
    ensures found ==> PopToParen(output0, ops0) == Some(Stacks(output, ops))
    ensures !found ==> PopToParen(output0, ops0).None?
  {
    output, ops := output0, ops0;
    found := false;
    while ops != []
      invariant PopToParen(output, ops) == PopToParen(output0, ops0)
      decreases |ops|
    {
      var t := ops[0];
      ops := ops[1..];
      if t == '(' {
        found := true;
        break;
      }
      output := output + [[t]];
    }
  }

  /**
   * One pass of the scan loop of `eval_expression` at index `i`: skip a blank,
   * read a number, push an operator or `(`, or unwind to `(` at `)`; `err`
   * when the character is unexpected or `)` has no partner.
   */
  method ScanToken(expr: string, i: nat, output0: seq<string>, ops0: seq<char>)
    returns (next: nat, output: seq<string>, ops: seq<char>, err: Option<CalcError>)
    requires i < |expr|
    ensures err.None? ==> i < next <= |expr|
    ensures err.None? ==> Shunt(LexFrom(expr, next), output, ops) == Shunt(LexFrom(expr, i), output0, ops0)
    ensures err.Some? ==> Shunt(LexFrom(expr, i), output0, ops0) == Err(err.value)
  {
    var c := expr[i];
    output, ops, err := output0, ops0, None;
    if IsSpace(c) {
      LexSpace(expr, i);
      next := i + 1;
    } else if IsNumStart(c) {
      ShuntAtNumber(expr, i, output, ops);
      var num;
      num, next := ScanNumber(expr, i);
      output := output + [num];
    } else if IsOpChar(c) {
      ShuntAtSingle(expr, i, output, ops);
      output, ops := PushOperator(expr, i, output, ops);
      next := i + 1;
    } else if c == '(' {
      ShuntAtSingle(expr, i, output, ops);
      ops := ['('] + ops;
      next := i + 1;
    } else if c == ')' {
      ShuntAtSingle(expr, i, output, ops);
      var found;
      found, output, ops := PopUntilParen(output, ops);
      if !found {
        err := Some(MismatchedParen);
      }
      next := i + 1;
    } else {
      ShuntAtBad(expr, i, output, ops);
      err := Some(UnexpectedChar(c));
      next := i + 1;
    }
  }

  /** The scan and shunting-yard loop of `eval_expression`. */
  method ToRpn(expr: string) returns (r: Result<seq<string>>)
    ensures r == RpnOf(expr)
  {
    var output: seq<string> := [];
    var ops: seq<char> := [];
    var i := 0;
    while i < |expr|
      invariant i <= |expr|
      invariant Shunt(LexFrom(expr, i), output, ops) == RpnOf(expr)
      decreases |expr| - i
    {
      var err;
      i, output, ops, err := ScanToken(expr, i, output, ops);
      if err.Some? {
        return Err(err.value);
      }
    }
    assert LexFrom(expr, i) == [];
    r := DrainOperators(output, ops);
  }

  /** The loop after the scan that empties the operator stack. */
  method DrainOperators(output0: seq<string>, ops0: seq<char>) returns (r: Result<seq<string>>)
    ensures r == Drain(output0, ops0)
  {
    var output, ops := output0, ops0;
    while ops != []
      invariant Drain(output, ops) == Drain(output0, ops0)
      decreases |ops|
    {
      var t := ops[0];
      ops := ops[1..];
      if t == '(' || t == ')' {
        return Err(MismatchedParen);
      }
      output := output + [[t]];
    }
    return Ok(output);
  }

  // ---------------------------------------------------------------------
  // Evaluating the RPN sequence
  // ---------------------------------------------------------------------

  /** An output token the evaluator treats as an operator. */
  predicate IsOpToken(tk: string) { |tk| == 1 && IsOpChar(tk[0]) }

  /**
   * The value of the RPN tokens `toks` from stack `st`. `parse` stands for
   * `std::stod` (`None` when it converts nothing or throws), `isZero` for the
   * divisor test `b == 0.0` and `arith` for the operation of an operator.
   */
  function RpnValue<V>(toks: seq<string>, st: seq<V>, parse: string -> Option<V>,
                       isZero: V -> bool, arith: (char, V, V) -> V): (r: Result<V>)
    ensures r.Err? ==> r.error in {SyntaxError, DivisionByZero} || r.error.BadNumber?
    ensures r.Err? && r.error.BadNumber? ==> r.error.token in toks && parse(r.error.token).None?
    ensures r.Err? && r.error == DivisionByZero ==> "/" in toks
    decreases |toks|
  {
    if toks == [] then
      if |st| != 1 then Err(SyntaxError) else Ok(st[0])
    else
      var tk := toks[0];
      if tk == [] then RpnValue(toks[1..], st, parse, isZero, arith)
      else if IsOpToken(tk) then
        if |st| < 2 then Err(SyntaxError)
        else if tk[0] == '/' && isZero(st[0]) then
          assert tk == "/" && tk in toks;
          Err(DivisionByZero)
        else RpnValue(toks[1..], [arith(tk[0], st[1], st[0])] + st[2..], parse, isZero, arith)
      else
        match parse(tk)
        case None => Err(BadNumber(tk))
        case Some(v) => RpnValue(toks[1..], [v] + st, parse, isZero, arith)
  }

  /** The evaluation loop of `eval_expression` over the output tokens. */
  method EvalRpn<V>(toks: seq<string>, parse: string -> Option<V>, isZero: V -> bool,
                    arith: (char, V, V) -> V) returns (r: Result<V>)
    ensures r == RpnValue(toks, [], parse, isZero, arith)
  {
    var st: seq<V> := [];
    for k := 0 to |toks|
      invariant RpnValue(toks[k..], st, parse, isZero, arith) == RpnValue(toks, [], parse, isZero, arith)
    {
      var tk := toks[k];
      assert toks[k..][1..] == toks[k + 1..];
      if tk == [] {
        continue;
      }
      if |tk| == 1 && IsOpChar(tk[0]) {
        if |st| < 2 {
          return Err(SyntaxError);
        }
        var b := st[0];
        st := st[1..];
        var a := st[0];
        st := st[1..];
        if tk[0] == '/' && isZero(b) {
          return Err(DivisionByZero);
        }
        st := [arith(tk[0], a, b)] + st;
      } else {
        match parse(tk)
        case None =>
          return Err(BadNumber(tk));
        case Some(v) =>
          st := [v] + st;
      }
    }
    if |st| != 1 {
      return Err(SyntaxError);
    }
    return Ok(st[0]);
  }

  /** What `eval_expression` computes for `expr`. */
  function Evaluate<V>(expr: string, parse: string -> Option<V>, isZero: V -> bool,
                       arith: (char, V, V) -> V): Result<V>
  {
    match RpnOf(expr)
    case Err(e) => Err(e)
    case Ok(out) => RpnValue(out, [], parse, isZero, arith)
  }

  /**
   * `eval_expression` with its out-parameters: the value (`zero` on an
   * error), the `ok` flag and the `err` text.
   */
  method EvalExpression<V>(expr: string, zero: V, parse: string -> Option<V>, isZero: V -> bool,
                           arith: (char, V, V) -> V) returns (value: V, ok: bool, err: string)
    ensures ok <==> Evaluate(expr, parse, isZero, arith).Ok?
    ensures ok ==> value == Evaluate(expr, parse, isZero, arith).value && err == []
    ensures !ok ==> value == zero && err == Message(Evaluate(expr, parse, isZero, arith).error)
  {
    var rpn := ToRpn(expr);
    if rpn.Err? {
      return zero, false, Message(rpn.error);
    }
    var r := EvalRpn(rpn.value, parse, isZero, arith);
    if r.Err? {
      return zero, false, Message(r.error);
    }
    return r.value, true, [];
  }

  // ---------------------------------------------------------------------
  // Trimming the printed result
  // ---------------------------------------------------------------------

  /** `s` without its trailing `'0'`s. */
  function DropZeros(s: string): (u: string)
    ensures |u| <= |s| && u == s[..|u|]
    ensures forall k :: |u| <= k < |s| ==> s[k] == '0'
    ensures u == [] || u[|u| - 1] != '0'
  {
    if s != [] && s[|s| - 1] == '0' then DropZeros(s[..|s| - 1]) else s
  }

  /**
   * The result text after trimming: only when it contains a `.`, the
   * trailing zeros and then one trailing `.` are removed.
   */
  function Trimmed(s: string): (t: string)
    ensures |t| <= |s| && t == s[..|t|]
    ensures forall k :: |t| < k < |s| ==> s[k] == '0'
    ensures |t| < |s| ==> s[|t|] == '0' || s[|t|] == '.'
    ensures '.' !in s ==> t == s
  {
    if '.' !in s then s
    else
      var u := DropZeros(s);
      if u != [] && u[|u| - 1] == '.' then u[..|u| - 1] else u
  }

  /** The trimming loop of the `=` button and the Enter key. */
  method TrimZeros(s: string) returns (t: string)
    ensures t == Trimmed(s)
  {
    t := s;
    if '.' in t {
      while t != [] && t[|t| - 1] == '0'
        invariant DropZeros(t) == DropZeros(s)
        decreases |t|
      {
        t := t[..|t| - 1];
      }
      if t != [] && t[|t| - 1] == '.' {
        t := t[..|t| - 1];
      }
    }
  }

  // ---------------------------------------------------------------------
  // What the shunting-yard pass guarantees
  // ---------------------------------------------------------------------

  /** The operator stack holds only operator characters and `(`. */
  predicate StackChars(ops: seq<char>)
  {
    forall k :: 0 <= k < |ops| ==> IsOpChar(ops[k]) || ops[k] == '('
  }

  /**
   * The tokens contain no bad character, every `)` closes an open `(`, and
   * none is left open at the end (`depth` are open already).
   */
  predicate ScanOk(toks: seq<Token>, depth: nat)
    decreases |toks|
  {
    if toks == [] then depth == 0
    else
      match toks[0]
      case TLParen => ScanOk(toks[1..], depth + 1)
      case TRParen => depth > 0 && ScanOk(toks[1..], depth - 1)
      case TBad(_) => false
      case _ => ScanOk(toks[1..], depth)
  }

  lemma {:induction false} CountOpenSplit(ops: seq<char>, n: nat)
    requires n <= |ops|
    ensures multiset(ops)['('] == multiset(ops[..n])['('] + multiset(ops[n..])['(']
  {
    assert ops == ops[..n] + ops[n..];
  }

  /** Pushing an operator keeps the open parentheses on the stack. */
  lemma {:induction false} OpStepCount(out: seq<string>, ops: seq<char>, c: char)
    requires IsOpChar(c) && StackChars(ops)
    ensures StackChars([c] + PopHigher(out, ops, c).ops)
    ensures multiset([c] + PopHigher(out, ops, c).ops)['('] == multiset(ops)['(']
  {
    var st := PopHigher(out, ops, c);
    var n := |ops| - |st.ops|;
    PopHigherRest(out, ops, c);
    CountOpenSplit(ops, n);
    PoppedHoldNoParen(out, ops, c);
    StackCharsSuffix(ops, n);
    StackCharsPush(c, st.ops);
    CountOpenPush(c, st.ops);
  }

  /** The operators PopHigher pops are no `(`. */
  lemma {:induction false} PoppedHoldNoParen(out: seq<string>, ops: seq<char>, c: char)
    ensures multiset(ops[..|ops| - |PopHigher(out, ops, c).ops|])['('] == 0
  {
    var n := |ops| - |PopHigher(out, ops, c).ops|;
    PopHigherShape(out, ops, c);
    forall k | 0 <= k < n
      ensures ops[..n][k] != '('
    {
      assert PopsBefore(ops[k], c);
    }
    assert '(' !in ops[..n];
  }

  /** Pushing something other than `(` keeps the count of `(`. */
  lemma {:induction false} CountOpenPush(c: char, s: seq<char>)
    requires c != '('
    ensures multiset([c] + s)['('] == multiset(s)['(']
  {
    assert multiset([c] + s) == multiset{c} + multiset(s);
  }

  /** Closing a parenthesis removes exactly one `(` from the stack. */
  lemma {:induction false} ParenStepCount(out: seq<string>, ops: seq<char>)
    requires StackChars(ops) && PopToParen(out, ops).Some?
    ensures StackChars(PopToParen(out, ops).value.ops)
    ensures multiset(PopToParen(out, ops).value.ops)['('] + 1 == multiset(ops)['(']
  {
    var st := PopToParen(out, ops).value;
    var n := |ops| - |st.ops| - 1;
    StackCharsSuffix(ops, n + 1);
    CountOpenSplit(ops, n);
    assert multiset(ops[..n])['('] == 0;
    assert ops[n..] == ['('] + st.ops;
    assert multiset(ops[n..]) == multiset{'('} + multiset(st.ops);
  }

  lemma {:induction false} StepOk(t: Token, out: seq<string>, ops: seq<char>)
    requires (t.TOp? ==> IsOpChar(t.op)) && StackChars(ops)
    ensures Step(t, out, ops).Ok? <==> !t.TBad? && (t.TRParen? ==> multiset(ops)['('] > 0)
    ensures Step(t, out, ops).Ok? ==> StackChars(Step(t, out, ops).value.ops)
    ensures Step(t, out, ops).Ok? ==>
      multiset(Step(t, out, ops).value.ops)['('] == multiset(ops)['('] + OpenDelta(t)
  {
    match t
    case TOp(c, unary) =>
      OpStepCount(if unary then out + ["0"] else out, ops, c);
    case TLParen =>
      StackCharsPush('(', ops);
      assert multiset(['('] + ops) == multiset{'('} + multiset(ops);
    case TRParen =>
      if PopToParen(out, ops).Some? {
        ParenStepCount(out, ops);
      }
    case _ =>
  }

  lemma {:induction false} StackCharsSuffix(ops: seq<char>, n: nat)
    requires StackChars(ops) && n <= |ops|
    ensures StackChars(ops[n..])
  {
    forall k | 0 <= k < |ops| - n ensures IsOpChar(ops[n..][k]) || ops[n..][k] == '(' {
      assert ops[n..][k] == ops[n + k];
    }
  }

  lemma {:induction false} StackCharsPush(c: char, ops: seq<char>)
    requires StackChars(ops) && (IsOpChar(c) || c == '(')
    ensures StackChars([c] + ops)
  {
    forall k | 0 <= k < |ops| + 1 ensures IsOpChar(([c] + ops)[k]) || ([c] + ops)[k] == '(' {
      if k > 0 {
        assert ([c] + ops)[k] == ops[k - 1];
      }
    }
  }

  /** How a token changes the number of open parentheses. */
  function OpenDelta(t: Token): int
  {
    if t.TLParen? then 1 else if t.TRParen? then -1 else 0
  }

  lemma {:induction false} WellLexedTail(toks: seq<Token>)
    requires toks != [] && WellLexed(toks)
    ensures WellLexed(toks[1..])
    ensures toks[0].TNum? ==> toks[0].text != [] && IsNumStart(toks[0].text[0])
    ensures toks[0].TOp? ==> IsOpChar(toks[0].op)
  {
    assert toks[0] in toks;
    forall t | t in toks[1..] ensures t in toks { }
  }

  /** The pass succeeds exactly when the scan found no bad character and the parentheses balance. */
  lemma {:induction false} ShuntOk(toks: seq<Token>, out: seq<string>, ops: seq<char>)
    requires WellLexed(toks) && StackChars(ops)
    ensures Shunt(toks, out, ops).Ok? <==> ScanOk(toks, multiset(ops)['('])
    decreases |toks|
  {
    if toks != [] {
      WellLexedTail(toks);
      StepOk(toks[0], out, ops);
      var r := Step(toks[0], out, ops);
      if r.Ok? {
        ShuntOk(toks[1..], r.value.out, r.value.ops);
      }
    }
  }

  /** An output token the evaluator reads as an operator or a number. */
  predicate GoodToken(tk: string)
  {
    IsOpToken(tk) || (tk != [] && IsNumStart(tk[0]))
  }

  predicate AllGood(out: seq<string>) { forall tk :: tk in out ==> GoodToken(tk) }

  lemma {:induction false} SinglesGood(cs: seq<char>)
    requires forall k :: 0 <= k < |cs| ==> IsOpChar(cs[k])
    ensures AllGood(Singles(cs))
    decreases |cs|
  {
    if cs != [] {
      SinglesGood(cs[1..]);
      assert Singles(cs) == [[cs[0]]] + Singles(cs[1..]);
    }
  }

  lemma {:induction false} AllGoodAppend(a: seq<string>, b: seq<string>)
    requires AllGood(a) && AllGood(b)
    ensures AllGood(a + b)
  {
  }

  /** The operators that PopHigher moves to the output. */
  lemma {:induction false} PoppedAreOps(out: seq<string>, ops: seq<char>, c: char)
    ensures var n := |ops| - |PopHigher(out, ops, c).ops|;
      forall k :: 0 <= k < n ==> IsOpChar(ops[..n][k])
  {
    var n := |ops| - |PopHigher(out, ops, c).ops|;
    PopHigherShape(out, ops, c);
    forall k | 0 <= k < n ensures IsOpChar(ops[..n][k]) {
      assert PopsBefore(ops[k], c);
    }
  }

  /** The operators that PopToParen moves to the output. */
  lemma {:induction false} PoppedToParenAreOps(out: seq<string>, ops: seq<char>)
    requires StackChars(ops) && PopToParen(out, ops).Some?
    ensures var n := |ops| - |PopToParen(out, ops).value.ops| - 1;
      forall k :: 0 <= k < n ==> IsOpChar(ops[..n][k])
  {
    var n := |ops| - |PopToParen(out, ops).value.ops| - 1;
    forall k | 0 <= k < n ensures IsOpChar(ops[..n][k]) {
      assert ops[..n][k] in ops[..n];
    }
  }

  lemma {:induction false} StepGood(t: Token, out: seq<string>, ops: seq<char>)
    requires (t.TNum? ==> t.text != [] && IsNumStart(t.text[0])) && (t.TOp? ==> IsOpChar(t.op))
    requires AllGood(out) && StackChars(ops) && Step(t, out, ops).Ok?
    ensures AllGood(Step(t, out, ops).value.out)
  {
    match t
    case TNum(s) =>
      assert Step(t, out, ops).value.out == out + [s];
      AllGoodAppend(out, [s]);
    case TOp(c, unary) =>
      OpStepGood(c, unary, out, ops);
    case TLParen =>
      assert Step(t, out, ops).value.out == out;
    case TRParen =>
      RParenStepGood(out, ops);
  }

  lemma {:induction false} OpStepGood(c: char, unary: bool, out: seq<string>, ops: seq<char>)
    requires IsOpChar(c) && AllGood(out)
    ensures AllGood(Step(TOp(c, unary), out, ops).value.out)
  {
    var out1 := if unary then out + ["0"] else out;
    AllGoodAppend(out, ["0"]);
    assert AllGood(out1);
    var st := PopHigher(out1, ops, c);
    assert Step(TOp(c, unary), out, ops).value.out == st.out;
    var n := |ops| - |st.ops|;
    PoppedAreOps(out1, ops, c);
    PopHigherShape(out1, ops, c);
    SinglesGood(ops[..n]);
    AllGoodAppend(out1, Singles(ops[..n]));
  }

  lemma {:induction false} RParenStepGood(out: seq<string>, ops: seq<char>)
    requires AllGood(out) && StackChars(ops) && Step(TRParen, out, ops).Ok?
    ensures AllGood(Step(TRParen, out, ops).value.out)
  {
    var st := PopToParen(out, ops).value;
    assert Step(TRParen, out, ops).value == st;
    var n := |ops| - |st.ops| - 1;
    PoppedToParenAreOps(out, ops);
    SinglesGood(ops[..n]);
    AllGoodAppend(out, Singles(ops[..n]));
  }

  /** The output holds only operator and number tokens: never a parenthesis. */
  lemma {:induction false} ShuntTokensGood(toks: seq<Token>, out: seq<string>, ops: seq<char>)
    requires WellLexed(toks) && AllGood(out) && StackChars(ops)
    requires Shunt(toks, out, ops).Ok?
    ensures AllGood(Shunt(toks, out, ops).value)
    decreases |toks|
  {
    if toks == [] {
      SinglesGood(ops);
      AllGoodAppend(out, Singles(ops));
    } else {
      WellLexedTail(toks);
      StepOk(toks[0], out, ops);
      StepGood(toks[0], out, ops);
      var st := Step(toks[0], out, ops).value;
      ShuntTokensGood(toks[1..], st.out, st.ops);
    }
  }

  /** The operator characters among the output tokens. */
  function OpTokens(out: seq<string>): multiset<char>
  {
    if out == [] then multiset{}
    else OpTokens(out[..|out| - 1]) + (if IsOpToken(out[|out| - 1]) then multiset{out[|out| - 1][0]} else multiset{})
  }

  /** The operand tokens of the output, in order. */
  function NumTokens(out: seq<string>): seq<string>
  {
    if out == [] then []
    else NumTokens(out[..|out| - 1]) + (if IsOpToken(out[|out| - 1]) then [] else [out[|out| - 1]])
  }

  /** The operator characters on the stack (`(` excluded). */
  function StackOps(ops: seq<char>): multiset<char>
  {
    if ops == [] then multiset{}
    else (if IsOpChar(ops[0]) then multiset{ops[0]} else multiset{}) + StackOps(ops[1..])
  }

  /** The operator a token contributes. */
  function TokenOps(t: Token): multiset<char>
  {
    if t.TOp? then multiset{t.op} else multiset{}
  }

  /** The operands a token makes the pass emit: its number, or `"0"` for a unary minus. */
  function TokenOperands(t: Token): seq<string>
  {
    match t
    case TNum(s) => [s]
    case TOp(_, unary) => if unary then ["0"] else []
    case _ => []
  }

  /** The operators the scanner found. */
  function OpsOf(toks: seq<Token>): multiset<char>
  {
    if toks == [] then multiset{} else TokenOps(toks[0]) + OpsOf(toks[1..])
  }

  /** The operands the pass emits for the tokens, in order. */
  function Operands(toks: seq<Token>): seq<string>
  {
    if toks == [] then [] else TokenOperands(toks[0]) + Operands(toks[1..])
  }

  lemma {:induction false} TokensAppend(a: seq<string>, b: seq<string>)
    ensures OpTokens(a + b) == OpTokens(a) + OpTokens(b)
    ensures NumTokens(a + b) == NumTokens(a) + NumTokens(b)
    decreases |b|
  {
    if b != [] {
      var b' := b[..|b| - 1];
      assert (a + b)[..|a + b| - 1] == a + b';
      TokensAppend(a, b');
    } else {
      assert a + b == a;
    }
  }

  lemma {:induction false} SinglesTokens(cs: seq<char>)
    requires forall k :: 0 <= k < |cs| ==> IsOpChar(cs[k])
    ensures OpTokens(Singles(cs)) == multiset(cs) == StackOps(cs)
    ensures NumTokens(Singles(cs)) == []
    decreases |cs|
  {
    if cs != [] {
      SinglesTokens(cs[1..]);
      assert Singles(cs) == [[cs[0]]] + Singles(cs[1..]);
      TokensAppend([[cs[0]]], Singles(cs[1..]));
      assert [[cs[0]]][..0] == [];
      assert cs == [cs[0]] + cs[1..];
    }
  }

  lemma {:induction false} StackOpsSplit(ops: seq<char>, n: nat)
    requires n <= |ops|
    ensures StackOps(ops) == StackOps(ops[..n]) + StackOps(ops[n..])
    decreases n
  {
    if n > 0 {
      StackOpsSplit(ops[1..], n - 1);
      assert ops[1..][..n - 1] == ops[..n][1..];
      assert ops[1..][n - 1..] == ops[n..];
    } else {
      assert ops[..n] == [];
    }
  }

  lemma {:induction false} AppendOperand(out: seq<string>, s: string)
    requires !IsOpToken(s)
    ensures OpTokens(out + [s]) == OpTokens(out)
    ensures NumTokens(out + [s]) == NumTokens(out) + [s]
  {
    assert (out + [s])[..|out|] == out;
  }

  /** Moving popped operators to the output keeps the count of operators. */
  lemma {:induction false} PopTokens(out: seq<string>, ops: seq<char>, n: nat)
    requires n <= |ops| && forall k :: 0 <= k < n ==> IsOpChar(ops[..n][k])
    ensures OpTokens(out + Singles(ops[..n])) + StackOps(ops[n..]) == OpTokens(out) + StackOps(ops)
    ensures NumTokens(out + Singles(ops[..n])) == NumTokens(out)
  {
    SinglesTokens(ops[..n]);
    TokensAppend(out, Singles(ops[..n]));
    StackOpsSplit(ops, n);
  }

  lemma {:induction false} PopHigherTokens(out: seq<string>, ops: seq<char>, c: char)
    ensures OpTokens(PopHigher(out, ops, c).out) + StackOps(PopHigher(out, ops, c).ops)
      == OpTokens(out) + StackOps(ops)
    ensures NumTokens(PopHigher(out, ops, c).out) == NumTokens(out)
  {
    PoppedAreOps(out, ops, c);
    PopHigherRest(out, ops, c);
    PopHigherShape(out, ops, c);
    PopTokens(out, ops, |ops| - |PopHigher(out, ops, c).ops|);
  }

  lemma {:induction false} StackOpsPush(c: char, ops: seq<char>)
    ensures StackOps([c] + ops) == (if IsOpChar(c) then multiset{c} else multiset{}) + StackOps(ops)
  {
    assert ([c] + ops)[1..] == ops;
  }

  lemma {:induction false} OpStepTokens(out: seq<string>, ops: seq<char>, c: char)
    requires IsOpChar(c)
    ensures OpTokens(PopHigher(out, ops, c).out) + StackOps([c] + PopHigher(out, ops, c).ops)
      == OpTokens(out) + multiset{c} + StackOps(ops)
    ensures NumTokens(PopHigher(out, ops, c).out) == NumTokens(out)
  {
    var st := PopHigher(out, ops, c);
    PopHigherTokens(out, ops, c);
    StackOpsPush(c, st.ops);
    MultisetInsert(OpTokens(st.out), StackOps(st.ops), OpTokens(out), StackOps(ops), multiset{c});
  }

  /** Adding the same operators to both sides of a balance keeps it. */
  lemma {:induction false} MultisetInsert(a: multiset<char>, b: multiset<char>, x: multiset<char>, y: multiset<char>,
                                          m: multiset<char>)
    requires a + b == x + y
    ensures a + (m + b) == x + m + y
  {
    forall z ensures (a + (m + b))[z] == (x + m + y)[z] {
      assert (a + b)[z] == (x + y)[z];
    }
  }

  lemma {:induction false} ParenStepTokens(out: seq<string>, ops: seq<char>)
    requires StackChars(ops) && PopToParen(out, ops).Some?
    ensures OpTokens(PopToParen(out, ops).value.out) + StackOps(PopToParen(out, ops).value.ops)
      == OpTokens(out) + StackOps(ops)
    ensures NumTokens(PopToParen(out, ops).value.out) == NumTokens(out)
  {
    var st := PopToParen(out, ops).value;
    var n := |ops| - |st.ops| - 1;
    PoppedToParenAreOps(out, ops);
    PopTokens(out, ops, n);
    assert ops[n..][1..] == st.ops;
  }

  lemma {:induction false} StepPreserves(t: Token, out: seq<string>, ops: seq<char>)
    requires (t.TNum? ==> t.text != [] && IsNumStart(t.text[0])) && (t.TOp? ==> IsOpChar(t.op))
    requires StackChars(ops) && Step(t, out, ops).Ok?
    ensures OpTokens(Step(t, out, ops).value.out) + StackOps(Step(t, out, ops).value.ops)
      == OpTokens(out) + TokenOps(t) + StackOps(ops)
    ensures NumTokens(Step(t, out, ops).value.out) == NumTokens(out) + TokenOperands(t)
  {
    match t
    case TNum(s) =>
      NumStepPreserves(s, out, ops);
    case TOp(c, unary) =>
      OpStepPreserves(c, unary, out, ops);
    case TLParen =>
      LParenStepPreserves(out, ops);
    case TRParen =>
      RParenStepPreserves(out, ops);
  }

  lemma {:induction false} NumStepPreserves(s: string, out: seq<string>, ops: seq<char>)
    requires s != [] && IsNumStart(s[0])
    ensures OpTokens(Step(TNum(s), out, ops).value.out) + StackOps(Step(TNum(s), out, ops).value.ops)
      == OpTokens(out) + TokenOps(TNum(s)) + StackOps(ops)
    ensures NumTokens(Step(TNum(s), out, ops).value.out) == NumTokens(out) + TokenOperands(TNum(s))
  {
    assert Step(TNum(s), out, ops).value == Stacks(out + [s], ops);
    AppendOperand(out, s);
  }

  lemma {:induction false} OpStepPreserves(c: char, unary: bool, out: seq<string>, ops: seq<char>)
    requires IsOpChar(c)
    ensures OpTokens(Step(TOp(c, unary), out, ops).value.out) + StackOps(Step(TOp(c, unary), out, ops).value.ops)
      == OpTokens(out) + TokenOps(TOp(c, unary)) + StackOps(ops)
    ensures NumTokens(Step(TOp(c, unary), out, ops).value.out) == NumTokens(out) + TokenOperands(TOp(c, unary))
  {
    if unary {
      var st := PopHigher(out + ["0"], ops, c);
      assert Step(TOp(c, unary), out, ops).value == Stacks(st.out, [c] + st.ops);
      AppendOperand(out, "0");
      OpStepTokens(out + ["0"], ops, c);
    } else {
      var st := PopHigher(out, ops, c);
      assert Step(TOp(c, unary), out, ops).value == Stacks(st.out, [c] + st.ops);
      assert NumTokens(out) + [] == NumTokens(out);
      OpStepTokens(out, ops, c);
    }
  }

  lemma {:induction false} LParenStepPreserves(out: seq<string>, ops: seq<char>)
    ensures OpTokens(Step(TLParen, out, ops).value.out) + StackOps(Step(TLParen, out, ops).value.ops)
      == OpTokens(out) + TokenOps(TLParen) + StackOps(ops)
    ensures NumTokens(Step(TLParen, out, ops).value.out) == NumTokens(out) + TokenOperands(TLParen)
  {
    assert Step(TLParen, out, ops).value == Stacks(out, ['('] + ops);
    assert (['('] + ops)[1..] == ops;
    assert NumTokens(out) + [] == NumTokens(out);
  }

  lemma {:induction false} RParenStepPreserves(out: seq<string>, ops: seq<char>)
    requires StackChars(ops) && Step(TRParen, out, ops).Ok?
    ensures OpTokens(Step(TRParen, out, ops).value.out) + StackOps(Step(TRParen, out, ops).value.ops)
      == OpTokens(out) + TokenOps(TRParen) + StackOps(ops)
    ensures NumTokens(Step(TRParen, out, ops).value.out) == NumTokens(out) + TokenOperands(TRParen)
  {
    assert Step(TRParen, out, ops).value == PopToParen(out, ops).value;
    ParenStepTokens(out, ops);
    assert NumTokens(out) + [] == NumTokens(out);
  }

  lemma {:induction false} ShuntUnfold(toks: seq<Token>, out: seq<string>, ops: seq<char>)
    requires toks != [] && Step(toks[0], out, ops).Ok?
    ensures Shunt(toks, out, ops)
      == Shunt(toks[1..], Step(toks[0], out, ops).value.out, Step(toks[0], out, ops).value.ops)
  {
  }

  lemma {:induction false} MultisetRegroup(o: multiset<char>, t: multiset<char>, s: multiset<char>, rest: multiset<char>,
                        o': multiset<char>, s': multiset<char>)
    requires o' + s' == o + t + s
    ensures o' + rest + s' == o + (t + rest) + s
  {
    forall x ensures (o' + rest + s')[x] == (o + (t + rest) + s)[x] {
      assert (o' + s')[x] == (o + t + s)[x];
    }
  }

  lemma {:induction false} SeqRegroup(a: seq<string>, b: seq<string>, c: seq<string>, ab: seq<string>)
    requires ab == a + b
    ensures ab + c == a + (b + c)
  {
  }

  lemma {:induction false} DrainTokens(out: seq<string>, ops: seq<char>)
    requires StackChars(ops) && Drain(out, ops).Ok?
    ensures OpTokens(Drain(out, ops).value) == OpTokens(out) + StackOps(ops)
    ensures NumTokens(Drain(out, ops).value) == NumTokens(out)
  {
    assert ops[..|ops|] == ops && ops[|ops|..] == [];
    assert forall k :: 0 <= k < |ops| ==> IsOpChar(ops[..|ops|][k]) by {
      forall k | 0 <= k < |ops| ensures IsOpChar(ops[k]) {
        assert ops[k] in ops;
      }
    }
    PopTokens(out, ops, |ops|);
  }

  /** On success every operator the scanner found reaches the output, once. */
  lemma {:induction false} ShuntKeepsOperators(toks: seq<Token>, out: seq<string>, ops: seq<char>)
    requires WellLexed(toks) && StackChars(ops)
    requires Shunt(toks, out, ops).Ok?
    ensures OpTokens(Shunt(toks, out, ops).value) == OpTokens(out) + OpsOf(toks) + StackOps(ops)
    decreases |toks|
  {
    if toks == [] {
      DrainTokens(out, ops);
    } else {
      WellLexedTail(toks);
      StepOk(toks[0], out, ops);
      StepPreserves(toks[0], out, ops);
      var st := Step(toks[0], out, ops).value;
      ShuntUnfold(toks, out, ops);
      ShuntKeepsOperators(toks[1..], st.out, st.ops);
      MultisetRegroup(OpTokens(out), TokenOps(toks[0]), StackOps(ops), OpsOf(toks[1..]),
                      OpTokens(st.out), StackOps(st.ops));
    }
  }

  /** On success the operands reach the output in the order of the text. */
  lemma {:induction false} ShuntKeepsOperands(toks: seq<Token>, out: seq<string>, ops: seq<char>)
    requires WellLexed(toks) && StackChars(ops)
    requires Shunt(toks, out, ops).Ok?
    ensures NumTokens(Shunt(toks, out, ops).value) == NumTokens(out) + Operands(toks)
    decreases |toks|
  {
    if toks == [] {
      DrainTokens(out, ops);
    } else {
      WellLexedTail(toks);
      StepOk(toks[0], out, ops);
      StepPreserves(toks[0], out, ops);
      var st := Step(toks[0], out, ops).value;
      ShuntUnfold(toks, out, ops);
      ShuntKeepsOperands(toks[1..], st.out, st.ops);
      SeqRegroup(NumTokens(out), TokenOperands(toks[0]), Operands(toks[1..]), NumTokens(st.out));
    }
  }

  /**
   * What the pass of `eval_expression` guarantees for any expression: it
   * succeeds exactly when the text has no unexpected character and balanced
   * parentheses; its output has no parenthesis, holds each operator of the
   * text once, and keeps the operands in order.
   */
  lemma {:induction false} RpnOfProperties(expr: string)
    ensures RpnOf(expr).Ok? <==> ScanOk(Lex(expr), 0)
    ensures RpnOf(expr).Ok? ==>
      var out := RpnOf(expr).value;
      AllGood(out) && "(" !in out && ")" !in out
      && OpTokens(out) == OpsOf(Lex(expr)) && NumTokens(out) == Operands(Lex(expr))
    ensures RpnOf(expr).Err? && RpnOf(expr).error.UnexpectedChar? ==>
      RpnOf(expr).error.ch in expr && !IsTokenStart(RpnOf(expr).error.ch)
  {
    LexFacts(expr, 0);
    ShuntOk(Lex(expr), [], []);
    if RpnOf(expr).Ok? {
      ShuntTokensGood(Lex(expr), [], []);
      ShuntKeepsOperators(Lex(expr), [], []);
      ShuntKeepsOperands(Lex(expr), [], []);
      var out := RpnOf(expr).value;
      assert !GoodToken("(") && !GoodToken(")");
      assert OpTokens([]) == multiset{} && NumTokens([]) == [];
    }
  }

  // ---------------------------------------------------------------------
  // What evaluation guarantees
  // ---------------------------------------------------------------------

  /**
   * The RPN tokens are well formed from a stack of `depth` values: every
   * operator finds two operands and exactly one value is left at the end.
   */
  predicate Shaped(toks: seq<string>, depth: nat)
    decreases |toks|
  {
    if toks == [] then depth == 1
    else if toks[0] == [] then Shaped(toks[1..], depth)
    else if IsOpToken(toks[0]) then depth >= 2 && Shaped(toks[1..], depth - 1)
    else Shaped(toks[1..], depth + 1)
  }

  /**
   * Evaluation succeeds only on a well-formed sequence, and it reports a
   * syntax error only on a malformed one.
   */
  lemma {:induction false} RpnShape<V>(toks: seq<string>, st: seq<V>, parse: string -> Option<V>,
                                      isZero: V -> bool, arith: (char, V, V) -> V)
    ensures RpnValue(toks, st, parse, isZero, arith).Ok? ==> Shaped(toks, |st|)
    ensures RpnValue(toks, st, parse, isZero, arith) == Err(SyntaxError) ==> !Shaped(toks, |st|)
    decreases |toks|
  {
    if toks != [] {
      var tk := toks[0];
      if tk == [] {
        RpnShape(toks[1..], st, parse, isZero, arith);
      } else if IsOpToken(tk) {
        if |st| >= 2 && !(tk[0] == '/' && isZero(st[0])) {
          RpnShape(toks[1..], [arith(tk[0], st[1], st[0])] + st[2..], parse, isZero, arith);
        }
      } else if parse(tk).Some? {
        RpnShape(toks[1..], [parse(tk).value] + st, parse, isZero, arith);
      }
    }
  }

  /**
   * What `eval_expression` guarantees: `ok` only for a text with balanced
   * parentheses, no unexpected character and a well-formed RPN sequence;
   * each error names its cause.
   */
  lemma {:induction false} EvaluateProperties<V>(expr: string, parse: string -> Option<V>, isZero: V -> bool,
                              arith: (char, V, V) -> V)
    ensures Evaluate(expr, parse, isZero, arith).Ok? ==>
      ScanOk(Lex(expr), 0) && RpnOf(expr).Ok? && Shaped(RpnOf(expr).value, 0)
    ensures Evaluate(expr, parse, isZero, arith).Err? ==>
      var e := Evaluate(expr, parse, isZero, arith).error;
      (e.UnexpectedChar? ==> e.ch in expr && !IsTokenStart(e.ch))
      && (e == MismatchedParen ==> RpnOf(expr).Err? && !ScanOk(Lex(expr), 0))
      && (e == SyntaxError ==> RpnOf(expr).Ok? && !Shaped(RpnOf(expr).value, 0))
      && (e == DivisionByZero ==> RpnOf(expr).Ok? && "/" in RpnOf(expr).value)
      && (e.BadNumber? ==> RpnOf(expr).Ok? && e.token in RpnOf(expr).value && parse(e.token).None?)
  {
    RpnOfProperties(expr);
    if RpnOf(expr).Ok? {
      RpnShape(RpnOf(expr).value, [], parse, isZero, arith);
    }
  }

  // ---------------------------------------------------------------------
  // Trimming
  // ---------------------------------------------------------------------

  /** A formatted number holds at most one decimal point. */
  predicate AtMostOneDot(s: string)
  {
    forall i, j :: 0 <= i < j < |s| && s[i] == '.' ==> s[j] != '.'
  }

  /**
   * On a text with one decimal point, trimming leaves neither a trailing
   * `.` nor, while the `.` stays, a trailing zero.
   */
  lemma {:induction false} TrimmedEnds(s: string)
    requires AtMostOneDot(s)
    ensures '.' in s && Trimmed(s) != [] ==> Trimmed(s)[|Trimmed(s)| - 1] != '.'
    ensures '.' in Trimmed(s) ==> Trimmed(s)[|Trimmed(s)| - 1] != '0'
  {
    if '.' in s {
      var u := DropZeros(s);
      if u != [] && u[|u| - 1] == '.' {
        var t := u[..|u| - 1];
        assert s[|u| - 1] == '.';
        forall k | 0 <= k < |t|
          ensures t[k] != '.'
        {
          assert t[k] == s[k];
        }
      }
    }
  }

  /** Trimming a trimmed number changes nothing. */
  lemma {:induction false} TrimmedIdempotent(s: string)
    requires AtMostOneDot(s)
    ensures Trimmed(Trimmed(s)) == Trimmed(s)
  {
    TrimmedEnds(s);
    var t := Trimmed(s);
    if '.' in t {
      assert DropZeros(t) == t;
    }
  }

  // ---------------------------------------------------------------------
  // Worked examples
  // ---------------------------------------------------------------------

  // One step of the scan, for stepping through the examples.

  lemma {:induction false} LexDigit(e: string, i: nat)
    requires i < |e| && IsDigit(e[i]) && (i + 1 == |e| || !InNumber(e, i, i + 1))
    ensures LexFrom(e, i) == [TNum([e[i]])] + LexFrom(e, i + 1)
  {
    assert InNumber(e, i, i);
    assert NumberEnd(e, i, i + 1) == i + 1;
    assert NumberEnd(e, i, i) == i + 1;
    assert |e[i..i + 1]| == 1 && e[i..i + 1][0] == e[i];
    assert e[i..i + 1] == [e[i]];
    LexNumber(e, i);
    assert LexFrom(e, i) == [TNum(e[i..i + 1])] + LexFrom(e, i + 1);
  }

  lemma {:induction false} LexOperator(e: string, i: nat)
    requires i < |e| && IsOpChar(e[i])
    ensures LexFrom(e, i) == [TOp(e[i], UnaryAt(e, i))] + LexFrom(e, i + 1)
  {
    LexSingle(e, i);
  }

  /** A one-digit number followed by an operator, which is then binary. */
  lemma {:induction false} LexDigitOperator(e: string, i: nat)
    requires i + 1 < |e| && IsDigit(e[i]) && IsOpChar(e[i + 1])
    ensures LexFrom(e, i) == [TNum([e[i]]), TOp(e[i + 1], false)] + LexFrom(e, i + 2)
  {
    assert !InNumber(e, i, i + 1);
    assert !UnaryAt(e, i + 1);
    LexOperator(e, i + 1);
    LexDigit(e, i);
  }

  /** The scan of `x p y q z` for digits `x`, `y`, `z`: no minus there is unary. */
  lemma {:induction false} LexDigitsAndOperators(x: char, p: char, y: char, q: char, z: char)
    requires IsDigit(x) && IsDigit(y) && IsDigit(z) && IsOpChar(p) && IsOpChar(q)
    ensures Lex([x, p, y, q, z]) == [TNum([x]), TOp(p, false), TNum([y]), TOp(q, false), TNum([z])]
  {
    var e := [x, p, y, q, z];
    assert LexFrom(e, 5) == [];
    LexDigit(e, 4);
    LexDigitOperator(e, 2);
    LexDigitOperator(e, 0);
  }

  // One unfolding of each pass, for stepping through the examples.

  lemma {:induction false} PopHigherStops(out: seq<string>, ops: seq<char>, c: char)
    requires ops == [] || !PopsBefore(ops[0], c)
    ensures PopHigher(out, ops, c) == Stacks(out, ops)
  {
  }

  lemma {:induction false} PopHigherPops(out: seq<string>, ops: seq<char>, c: char)
    requires ops != [] && PopsBefore(ops[0], c)
    ensures PopHigher(out, ops, c) == PopHigher(out + [[ops[0]]], ops[1..], c)
  {
  }

  lemma {:induction false} DrainStep(out: seq<string>, ops: seq<char>)
    ensures ops == [] ==> Drain(out, ops) == Ok(out)
    ensures ops != [] && ops[0] != '(' && ops[0] != ')' ==> Drain(out, ops) == Drain(out + [[ops[0]]], ops[1..])
  {
  }

  lemma {:induction false} ShuntNum(s: string, rest: seq<Token>, out: seq<string>, ops: seq<char>)
    ensures Shunt([TNum(s)] + rest, out, ops) == Shunt(rest, out + [s], ops)
  {
    ShuntCons(TNum(s), rest, out, ops);
  }

  lemma {:induction false} ShuntOp(c: char, rest: seq<Token>, out: seq<string>, ops: seq<char>)
    ensures Shunt([TOp(c, false)] + rest, out, ops)
      == Shunt(rest, PopHigher(out, ops, c).out, [c] + PopHigher(out, ops, c).ops)
  {
    ShuntCons(TOp(c, false), rest, out, ops);
  }

  lemma {:induction false} ShuntUnary(rest: seq<Token>, out: seq<string>, ops: seq<char>)
    ensures Shunt([TOp('-', true)] + rest, out, ops)
      == Shunt(rest, PopHigher(out + ["0"], ops, '-').out, ['-'] + PopHigher(out + ["0"], ops, '-').ops)
  {
    ShuntCons(TOp('-', true), rest, out, ops);
  }

  lemma {:induction false} ShuntLastNum(s: string, out: seq<string>, ops: seq<char>)
    requires '(' !in ops && ')' !in ops
    ensures Shunt([TNum(s)], out, ops) == Ok(out + [s] + Singles(ops))
  {
    ShuntNum(s, [], out, ops);
    assert [TNum(s)] + [] == [TNum(s)];
  }

  lemma {:induction false} FiveStrings(s0: string, s1: string, s2: string, s3: string, s4: string)
    ensures [s0, s1] + [s2] + [s3] + [s4] == [s0, s1, s2, s3, s4]
  {
  }

  /**
   * How `a p b q c` is grouped: the first operator is emitted before the
   * last operand exactly when it pops before the second one (higher
   * precedence, or equal and not `^`).
   */
  lemma {:induction false} TwoOperatorsPrefix(a: string, p: char, b: string, q: char, c: string)
    ensures Shunt([TNum(a), TOp(p, false), TNum(b), TOp(q, false), TNum(c)], [], [])
      == Shunt([TOp(q, false), TNum(c)], [a, b], [p])
  {
    var t3 := [TOp(q, false), TNum(c)];
    var t2 := [TNum(b)] + t3;
    var t1 := [TOp(p, false)] + t2;
    assert [TNum(a), TOp(p, false), TNum(b), TOp(q, false), TNum(c)] == [TNum(a)] + t1;
    ShuntNum(a, t1, [], []);
    assert [] + [a] == [a];
    ShuntOp(p, t2, [a], []);
    PopHigherStops([a], [], p);
    assert [p] + [] == [p];
    ShuntNum(b, t3, [a], [p]);
    assert [a] + [b] == [a, b];
  }

  lemma {:induction false} TwoOperators(a: string, p: char, b: string, q: char, c: string)
    requires IsOpChar(p) && IsOpChar(q)
    ensures PopsBefore(p, q) ==>
      Shunt([TNum(a), TOp(p, false), TNum(b), TOp(q, false), TNum(c)], [], []) == Ok([a, b, [p], c, [q]])
    ensures !PopsBefore(p, q) ==>
      Shunt([TNum(a), TOp(p, false), TNum(b), TOp(q, false), TNum(c)], [], []) == Ok([a, b, c, [q], [p]])
  {
    TwoOperatorsPrefix(a, p, b, q, c);
    if PopsBefore(p, q) {
      SecondOperatorPops(a, p, b, q, c);
      ShuntLastNum(c, [a, b, [p]], [q]);
      assert Singles([q]) == [[q]];
      assert [a, b, [p]] + [c] + [[q]] == [a, b, [p], c, [q]];
    } else {
      SecondOperatorWaits(a, p, b, q, c);
      ShuntLastNum(c, [a, b], [q, p]);
      SinglesTwo(q, p);
      assert [a, b] + [c] + [[q], [p]] == [a, b, c, [q], [p]];
    }
  }

  /** `p` pops before `q`: it is emitted before `c`. */
  lemma {:induction false} SecondOperatorPops(a: string, p: char, b: string, q: char, c: string)
    requires PopsBefore(p, q)
    ensures Shunt([TOp(q, false), TNum(c)], [a, b], [p]) == Shunt([TNum(c)], [a, b, [p]], [q])
  {
    assert [TOp(q, false), TNum(c)] == [TOp(q, false)] + [TNum(c)];
    ShuntOp(q, [TNum(c)], [a, b], [p]);
    PopHigherOnlyPops([a, b], p, q);
    assert [a, b] + [[p]] == [a, b, [p]] && [q] + [] == [q];
  }

  /** `p` does not pop before `q`: both wait on the stack until the end. */
  lemma {:induction false} SecondOperatorWaits(a: string, p: char, b: string, q: char, c: string)
    requires !PopsBefore(p, q)
    ensures Shunt([TOp(q, false), TNum(c)], [a, b], [p]) == Shunt([TNum(c)], [a, b], [q, p])
  {
    assert [TOp(q, false), TNum(c)] == [TOp(q, false)] + [TNum(c)];
    ShuntOp(q, [TNum(c)], [a, b], [p]);
    PopHigherStops([a, b], [p], q);
    assert [q] + [p] == [q, p];
  }

  /** A one-operator stack whose operator pops. */
  lemma {:induction false} PopHigherOnlyPops(out: seq<string>, p: char, q: char)
    requires PopsBefore(p, q)
    ensures PopHigher(out, [p], q) == Stacks(out + [[p]], [])
  {
    PopHigherPops(out, [p], q);
    assert [p][1..] == [];
    PopHigherStops(out + [[p]], [], q);
  }

  lemma {:induction false} SinglesTwo(q: char, p: char)
    ensures Singles([q, p]) == [[q], [p]]
  {
    assert [q, p][1..] == [p] && [p][1..] == [];
  }

  /** `*` binds tighter than `+`. */
  lemma {:induction false} ProductFirstExample()
    ensures RpnOf("1+2*3") == Ok(["1", "2", "3", "*", "+"])
  {
    LexDigitsAndOperators('1', '+', '2', '*', '3');
    TwoOperators("1", '+', "2", '*', "3");
  }

  /** `-` groups to the left. */
  lemma {:induction false} LeftAssociativeExample()
    ensures RpnOf("8-3-2") == Ok(["8", "3", "-", "2", "-"])
  {
    LexDigitsAndOperators('8', '-', '3', '-', '2');
    assert PopsBefore('-', '-');
    TwoOperators("8", '-', "3", '-', "2");
  }

  /** `^` groups to the right. */
  lemma {:induction false} RightAssociativeExample()
    ensures RpnOf("2^3^2") == Ok(["2", "3", "2", "^", "^"])
  {
    LexDigitsAndOperators('2', '^', '3', '^', '2');
    TwoOperators("2", '^', "3", '^', "2");
  }

  /** The scan of `x p -y`: the minus follows an operator, so it is unary. */
  lemma {:induction false} LexMinusAfterOperator(x: char, p: char, y: char)
    requires IsDigit(x) && IsDigit(y) && IsOpChar(p)
    ensures Lex([x, p, '-', y]) == [TNum([x]), TOp(p, false), TOp('-', true), TNum([y])]
  {
    var e := [x, p, '-', y];
    assert LexFrom(e, 4) == [];
    LexDigit(e, 3);
    LexOperator(e, 2);
    LexOperator(e, 1);
    LexDigit(e, 0);
  }

  lemma {:induction false} MinusAfterOperatorPrefix(x: char, p: char, y: char)
    requires IsOpChar(p)
    ensures Shunt([TNum([x]), TOp(p, false), TOp('-', true), TNum([y])], [], [])
      == Shunt([TOp('-', true), TNum([y])], [[x]], [p])
  {
    var t2 := [TOp('-', true), TNum([y])];
    var t1 := [TOp(p, false)] + t2;
    assert [TNum([x]), TOp(p, false), TOp('-', true), TNum([y])] == [TNum([x])] + t1;
    ShuntNum([x], t1, [], []);
    assert [] + [[x]] == [[x]];
    ShuntOp(p, t2, [[x]], []);
    PopHigherStops([[x]], [], p);
    assert [p] + [] == [p];
  }

  lemma {:induction false} UnaryMinusAfterOperator(x: char, p: char, y: char)
    requires IsOpChar(p)
    ensures Shunt([TOp('-', true), TNum([y])], [[x]], [p]) == Shunt([TNum([y])], [[x], "0", [p]], ['-'])
  {
    calc {
      Shunt([TOp('-', true), TNum([y])], [[x]], [p]);
      { assert [TOp('-', true), TNum([y])] == [TOp('-', true)] + [TNum([y])]; }
      Shunt([TOp('-', true)] + [TNum([y])], [[x]], [p]);
      { ShuntUnary([TNum([y])], [[x]], [p]);
        assert [[x]] + ["0"] == [[x], "0"]; }
      Shunt([TNum([y])], PopHigher([[x], "0"], [p], '-').out, ['-'] + PopHigher([[x], "0"], [p], '-').ops);
      { assert PopsBefore(p, '-');
        PopHigherPops([[x], "0"], [p], '-');
        assert [p][1..] == [];
        PopHigherStops([[x], "0"] + [[p]], [], '-');
        assert [[x], "0"] + [[p]] == [[x], "0", [p]];
        assert ['-'] + [] == ['-']; }
      Shunt([TNum([y])], [[x], "0", [p]], ['-']);
    }
  }

  /**
   * A unary minus after an operator pushes `0` and then, like a binary
   * minus, first pops that operator: `x p -y` is read as `(x p 0) - y`.
   */
  lemma {:induction false} MinusAfterOperator(x: char, p: char, y: char)
    requires IsDigit(x) && IsDigit(y) && IsOpChar(p)
    ensures RpnOf([x, p, '-', y]) == Ok([[x], "0", [p], [y], "-"])
  {
    calc {
      RpnOf([x, p, '-', y]);
      { LexMinusAfterOperator(x, p, y); }
      Shunt([TNum([x]), TOp(p, false), TOp('-', true), TNum([y])], [], []);
      { MinusAfterOperatorPrefix(x, p, y); }
      Shunt([TOp('-', true), TNum([y])], [[x]], [p]);
      { UnaryMinusAfterOperator(x, p, y); }
      Shunt([TNum([y])], [[x], "0", [p]], ['-']);
      { ShuntLastNum([y], [[x], "0", [p]], ['-']);
        assert Singles(['-']) == ["-"]; }
      Ok([[x], "0", [p]] + [[y]] + ["-"]);
      { assert [[x], "0", [p]] + [[y]] + ["-"] == [[x], "0", [p], [y], "-"]; }
      Ok([[x], "0", [p], [y], "-"]);
    }
  }

  /**
   * So a division by a negated number divides by the pushed zero: `6/-2`
   * reports a division by zero.
   */
  lemma {:induction false} DivideByNegatedExample<V>(x: char, y: char, parse: string -> Option<V>, isZero: V -> bool,
                                  arith: (char, V, V) -> V)
    requires IsDigit(x) && IsDigit(y)
    requires parse([x]).Some? && parse("0").Some? && isZero(parse("0").value)
    ensures Evaluate([x, '/', '-', y], parse, isZero, arith) == Err(DivisionByZero)
  {
    MinusAfterOperator(x, '/', y);
    var toks := [[x], "0", "/", [y], "-"];
    assert !IsOpToken([x]) && !IsOpToken("0") && IsOpToken("/");
    var vx, z := parse([x]).value, parse("0").value;
    assert toks[1..] == ["0", "/", [y], "-"] && toks[1..][1..] == ["/", [y], "-"];
    assert RpnValue(["/", [y], "-"], [z, vx], parse, isZero, arith) == Err(DivisionByZero);
    assert [z] + [vx] == [z, vx];
    assert RpnValue(toks[1..], [vx], parse, isZero, arith) == Err(DivisionByZero);
    assert [vx] + [] == [vx];
    assert RpnValue(toks, [], parse, isZero, arith) == Err(DivisionByZero);
  }

  lemma {:induction false} LexLeadingMinus(x: char)
    requires IsDigit(x)
    ensures Lex(['-', x]) == [TOp('-', true)] + [TNum([x])]
  {
    var e := ['-', x];
    assert LexFrom(e, 2) == [];
    LexDigit(e, 1);
    LexOperator(e, 0);
  }

  /** A leading minus is unary: `-x` is read as `0 - x`. */
  lemma {:induction false} LeadingMinus(x: char)
    requires IsDigit(x)
    ensures RpnOf(['-', x]) == Ok(["0", [x], "-"])
  {
    calc {
      RpnOf(['-', x]);
      { LexLeadingMinus(x); }
      Shunt([TOp('-', true)] + [TNum([x])], [], []);
      { ShuntUnary([TNum([x])], [], []);
        assert [] + ["0"] == ["0"];
        PopHigherStops(["0"], [], '-');
        assert ['-'] + [] == ['-']; }
      Shunt([TNum([x])], ["0"], ['-']);
      { ShuntLastNum([x], ["0"], ['-']);
        assert Singles(['-']) == ["-"]; }
      Ok(["0"] + [[x]] + ["-"]);
      { assert ["0"] + [[x]] + ["-"] == ["0", [x], "-"]; }
      Ok(["0", [x], "-"]);
    }
  }

  /** After a space the minus is binary: only the character just before it is looked at. */
  lemma {:induction false} SpacedMinusScan(x: char)
    requires IsDigit(x)
    ensures RpnOf([' ', '-', x]) == Ok([[x], "-"])
  {
    calc {
      RpnOf([' ', '-', x]);
      { LexSpacedMinus(x); }
      Shunt([TOp('-', false)] + [TNum([x])], [], []);
      { ShuntOp('-', [TNum([x])], [], []);
        PopHigherStops([], [], '-');
        assert ['-'] + [] == ['-']; }
      Shunt([TNum([x])], [], ['-']);
      { ShuntLastNum([x], [], ['-']);
        assert Singles(['-']) == ["-"]; }
      Ok([] + [[x]] + ["-"]);
      { assert [] + [[x]] + ["-"] == [[x], "-"]; }
      Ok([[x], "-"]);
    }
  }

  lemma {:induction false} LexSpacedMinus(x: char)
    requires IsDigit(x)
    ensures Lex([' ', '-', x]) == [TOp('-', false)] + [TNum([x])]
  {
    var e := [' ', '-', x];
    assert LexFrom(e, 3) == [];
    LexDigit(e, 2);
    LexOperator(e, 1);
    LexSpace(e, 0);
  }

  /** So ` -x` has too few operands for its minus. */
  lemma {:induction false} SpacedMinus<V>(x: char, parse: string -> Option<V>, isZero: V -> bool, arith: (char, V, V) -> V)
    requires IsDigit(x) && parse([x]).Some?
    ensures Evaluate([' ', '-', x], parse, isZero, arith) == Err(SyntaxError)
  {
    SpacedMinusScan(x);
    assert !IsOpToken([x]) && IsOpToken("-");
    assert [[x], "-"][1..] == ["-"];
    assert RpnValue(["-"], [parse([x]).value], parse, isZero, arith) == Err(SyntaxError);
    assert [parse([x]).value] + [] == [parse([x]).value];
    assert RpnValue([[x], "-"], [], parse, isZero, arith) == Err(SyntaxError);
  }

  /** An unclosed `(` is left on the stack at the end. */
  lemma {:induction false} UnclosedParenExample()
    ensures RpnOf("(1") == Err(MismatchedParen)
  {
    var a := "(1";
    assert LexFrom(a, 2) == [];
    LexDigit(a, 1);
    LexSingle(a, 0);
    assert Lex(a) == [TLParen] + [TNum("1")];
    ShuntCons(TLParen, [TNum("1")], [], []);
    ShuntNum("1", [], [], ['('] + []);
    assert [TNum("1")] + [] == [TNum("1")];
  }

  /** A `)` with no `(` below it on the stack. */
  lemma {:induction false} UnopenedParenExample()
    ensures RpnOf("1)") == Err(MismatchedParen)
  {
    var b := "1)";
    assert LexFrom(b, 2) == [];
    LexSingle(b, 1);
    LexDigit(b, 0);
    assert Lex(b) == [TNum("1")] + [TRParen];
    ShuntNum("1", [TRParen], [], []);
    ShuntCons(TRParen, [], [] + ["1"], []);
    assert [TRParen] + [] == [TRParen];
  }

  /** A character outside the grammar stops the scan. */
  lemma {:induction false} UnexpectedCharExample()
    ensures RpnOf("1$") == Err(UnexpectedChar('$'))
  {
    var c := "1$";
    ShuntAtBad(c, 1, ["1"], []);
    assert NumberEnd(c, 0, 0) == 1;
    assert c[0..1] == "1";
    ShuntAtNumber(c, 0, [], []);
  }
}
