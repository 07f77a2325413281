/**
 * From parse trees to expressions (src/ast/parser.rs). The grammar itself
 * (a pest grammar) is not part of this model: a parse tree is a value of
 * `Pair`, and the grammar is a function from text to its tree.
 */
module Parser {
  import opened Wrappers
  import Json
  import opened Ast

  /** The grammar rules the conversion distinguishes; every other rule is `OtherRule`. */
  datatype Rule =
    | ExpressionRule
    | OrExpressionRule
    | AndExpressionRule
    | PrimaryExpressionRule
    | ValueRule
    | NumberRule
    | StringRule
    | VariableRule
    | OtherRule(ruleName: string)

  /** A node of the parse tree: its rule, the text it spans, and its children. */
  datatype Pair = Pair(rule: Rule, text: string, inner: seq<Pair>)

  /** Which binary node a chain of operands folds into. */
  datatype Connective = OrOp | AndOp

  function Join(op: Connective, left: Expression, right: Expression): Expression {
    match op
    case OrOp => Or(left, right)
    case AndOp => And(left, right)
  }

  /** Operands folded from the left: `a op b op c` is `(a op b) op c`. */
  function FoldLeft(op: Connective, es: seq<Expression>): Expression
    requires |es| >= 1
  {
    if |es| == 1 then es[0] else Join(op, FoldLeft(op, es[..|es| - 1]), es[|es| - 1])
  }

  // ---------------------------------------------------------------------
  // Splitting the predicate path.
  // ---------------------------------------------------------------------

  /** `str::split`: the pieces between the separators, empty ones included. */
  function Split(s: string, sep: char): (r: seq<string>)
    ensures |r| >= 1
    ensures forall i :: 0 <= i < |r| ==> sep !in r[i]
    decreases |s|
  {
    var k := Json.IndexOf(s, sep);
    if k == |s| then [s] else [s[..k]] + Split(s[k + 1..], sep)
  }

  /** The pieces put back together with the separator between them. */
  function JoinWith(parts: seq<string>, sep: char): string
    requires |parts| >= 1
  {
    if |parts| == 1 then parts[0] else parts[0] + [sep] + JoinWith(parts[1..], sep)
  }

  /** Splitting loses nothing: joining the pieces restores the text. */
  lemma {:induction false} SplitJoin(s: string, sep: char)
    ensures JoinWith(Split(s, sep), sep) == s
    decreases |s|
  {
    var k := Json.IndexOf(s, sep);
    if k < |s| {
      var rest := Split(s[k + 1..], sep);
      assert Split(s, sep) == [s[..k]] + rest;
      assert ([s[..k]] + rest)[1..] == rest;
      SplitJoin(s[k + 1..], sep);
      assert JoinWith(Split(s, sep), sep) == s[..k] + [sep] + s[k + 1..];
      assert s == s[..k] + [sep] + s[k + 1..];
    } else {
      assert Split(s, sep) == [s];
    }
  }

  /** A text without the separator is one piece. */
  lemma SplitWithoutSeparator(s: string, sep: char)
    requires sep !in s
    ensures Split(s, sep) == [s]
  {
    assert Json.IndexOf(s, sep) == |s|;
  }

  // ---------------------------------------------------------------------
  // What the conversion computes.
  // ---------------------------------------------------------------------

  /** `parse_number`: the literal's text read as a decimal number. */
  function NumberLiteral(p: Pair): Option<Expression> {
    match Json.ParseNumber(p.text)
    case Some(n) => Some(Number(n))
    case None => None
  }

  /** `parse_string`: the text of the literal's first child, the quotes left out. */
  function StringLiteral(p: Pair): Option<Expression> {
    if |p.inner| == 0 then None else Some(Str(p.inner[0].text))
  }

  /** `parse_variable`: the whole text of the node, as a variable that is not a path. */
  function VariableLiteral(p: Pair): Option<Expression> {
    Some(Variable(p.text, false))
  }

  /** `parse_value`: the literal held by the first child. */
  function ParseValue(pair: Pair): Option<Expression> {
    if |pair.inner| == 0 then None
    else
      var p := pair.inner[0];
      match p.rule
      case NumberRule => NumberLiteral(p)
      case StringRule => StringLiteral(p)
      case VariableRule => VariableLiteral(p)
      case _ => None
  }

  /** `parse_expression`: dispatch on the rule of the node. */
  function Parse(pair: Pair): Outcome<Option<Expression>>
    decreases pair, 2
  {
    match pair.rule
    case PrimaryExpressionRule => ParsePrimary(pair)
    case AndExpressionRule => ParseChain(pair, AndOp)
    case OrExpressionRule => ParseChain(pair, OrOp)
    // `into_inner().next().unwrap()`
    case ExpressionRule => if |pair.inner| == 0 then Panic else Parse(pair.inner[0])
    case ValueRule => Ok(ParseValue(pair))
    case _ => Ok(None)
  }

  /** The children `from .. k - 1` parsed in order, stopping at the first that fails. */
  function ParseRange(pair: Pair, from: nat, k: nat): Outcome<Option<seq<Expression>>>
    requires from <= k <= |pair.inner|
    decreases pair, 0, k
  {
    if k == from then Ok(Some([]))
    else
      match ParseRange(pair, from, k - 1)
      case Panic => Panic
      case Ok(None) => Ok(None)
      case Ok(Some(es)) =>
        match Parse(pair.inner[k - 1])
        case Panic => Panic
        case Ok(None) => Ok(None)
        case Ok(Some(e)) => Ok(Some(es + [e]))
  }

  /** `parse_or_expression` / `parse_and_expression`. */
  function ParseChain(pair: Pair, op: Connective): Outcome<Option<Expression>>
    decreases pair, 1
  {
    if |pair.inner| == 1 then Parse(pair.inner[0])
    // `pairs[0]` of an empty list
    else if |pair.inner| == 0 then Panic
    else
      match ParseRange(pair, 0, |pair.inner|)
      case Panic => Panic
      case Ok(None) => Ok(None)
      case Ok(Some(es)) => Ok(Some(FoldLeft(op, es)))
  }

  /** `parse_primary_expression`: a parenthesised expression, or a predicate call. */
  function ParsePrimary(pair: Pair): Outcome<Option<Expression>>
    decreases pair, 1
  {
    if |pair.inner| == 1 then Parse(pair.inner[0])
    // `pairs[0]` of an empty list
    else if |pair.inner| == 0 then Panic
    else
      match ParseRange(pair, 1, |pair.inner|)
      case Panic => Panic
      case Ok(None) => Ok(None)
      case Ok(Some(es)) => Ok(Some(Primary(Split(pair.inner[0].text, '.'), es)))
  }

  /** `parsestring_expression`: no tree for the text means no expression. */
  function ParseText(grammar: string -> Option<Pair>, s: string): Outcome<Option<Expression>> {
    match grammar(s)
    case None => Ok(None)
    case Some(pair) => Parse(pair)
  }

  // ---------------------------------------------------------------------
  // What the conversion promises.
  // ---------------------------------------------------------------------

  /** Children that all parse give their expressions, in order. */
  lemma {:induction false} RangeAllParsed(pair: Pair, from: nat, k: nat, es: seq<Expression>)
    requires from <= k <= |pair.inner| && |es| == k - from
    requires forall i :: from <= i < k ==> Parse(pair.inner[i]) == Ok(Some(es[i - from]))
    ensures ParseRange(pair, from, k) == Ok(Some(es))
    decreases k
  {
    if k > from {
      RangeAllParsed(pair, from, k - 1, es[..|es| - 1]);
      assert es[..|es| - 1] + [es[|es| - 1]] == es;
    }
  }

  /**
   * A child that does not parse, with no child panicking, leaves no
   * expression at all: never a partial list.
   */
  lemma {:induction false} RangeChildFails(pair: Pair, from: nat, k: nat, bad: nat)
    requires from <= bad < k <= |pair.inner|
    requires Parse(pair.inner[bad]) == Ok(None)
    requires forall i :: from <= i < k ==> Parse(pair.inner[i]).Ok?
    ensures ParseRange(pair, from, k) == Ok(None)
    decreases k
  {
    if k - 1 > bad {
      RangeChildFails(pair, from, k - 1, bad);
    } else {
      RangeNeverPanics(pair, from, k - 1);
    }
  }

  lemma {:induction false} RangeNeverPanics(pair: Pair, from: nat, k: nat)
    requires from <= k <= |pair.inner|
    requires forall i :: from <= i < k ==> Parse(pair.inner[i]).Ok?
    ensures ParseRange(pair, from, k).Ok?
    decreases k
  {
    if k > from {
      RangeNeverPanics(pair, from, k - 1);
    }
  }

  /**
   * Two or more operands whose children all parse fold from the left into
   * one node per operator.
   */
  lemma ChainFoldsLeft(pair: Pair, op: Connective, es: seq<Expression>)
    requires |pair.inner| >= 2 && |es| == |pair.inner|
    requires forall i :: 0 <= i < |es| ==> Parse(pair.inner[i]) == Ok(Some(es[i]))
    ensures ParseChain(pair, op) == Ok(Some(FoldLeft(op, es)))
  {
    RangeAllParsed(pair, 0, |es|, es);
  }

  /** `a && b && c` is `And(And(a, b), c)`, and likewise for `||`. */
  lemma ChainOfThree(pair: Pair, op: Connective, a: Expression, b: Expression, c: Expression)
    requires |pair.inner| == 3
    requires Parse(pair.inner[0]) == Ok(Some(a)) && Parse(pair.inner[1]) == Ok(Some(b)) && Parse(pair.inner[2]) == Ok(Some(c))
    ensures ParseChain(pair, op) == Ok(Some(Join(op, Join(op, a, b), c)))
  {
    var es := [a, b, c];
    ChainFoldsLeft(pair, op, es);
    assert es[..2] == [a, b] && [a, b][..1] == [a];
    assert FoldLeft(op, [a, b]) == Join(op, a, b);
    assert FoldLeft(op, es) == Join(op, FoldLeft(op, [a, b]), c);
  }

  /** An operand that does not parse (and none panics) leaves no expression. */
  lemma ChainChildFails(pair: Pair, op: Connective, bad: nat)
    requires 2 <= |pair.inner| && bad < |pair.inner|
    requires Parse(pair.inner[bad]) == Ok(None)
    requires forall i :: 0 <= i < |pair.inner| ==> Parse(pair.inner[i]).Ok?
    ensures ParseChain(pair, op) == Ok(None)
  {
    RangeChildFails(pair, 0, |pair.inner|, bad);
  }

  /**
   * A predicate call: the first child's text split on '.' names the
   * predicate, the other children are the arguments in source order.
   */
  lemma PrimaryCall(pair: Pair, es: seq<Expression>)
    requires |pair.inner| >= 2 && |es| == |pair.inner| - 1
    requires forall i :: 1 <= i < |pair.inner| ==> Parse(pair.inner[i]) == Ok(Some(es[i - 1]))
    ensures ParsePrimary(pair) == Ok(Some(Primary(Split(pair.inner[0].text, '.'), es)))
    ensures JoinWith(ParsePrimary(pair).value.value.predicatePath, '.') == pair.inner[0].text
  {
    RangeAllParsed(pair, 1, |pair.inner|, es);
    SplitJoin(pair.inner[0].text, '.');
  }

  /** An argument that does not parse (and none panics) leaves no predicate call. */
  lemma PrimaryArgFails(pair: Pair, bad: nat)
    requires 1 <= bad < |pair.inner|
    requires Parse(pair.inner[bad]) == Ok(None)
    requires forall i :: 1 <= i < |pair.inner| ==> Parse(pair.inner[i]).Ok?
    ensures ParsePrimary(pair) == Ok(None)
  {
    RangeChildFails(pair, 1, |pair.inner|, bad);
  }

  /** A number literal written as an integer reads as that integer. */
  lemma IntegerLiteral(pair: Pair, i: int)
    requires pair.rule == ValueRule && |pair.inner| >= 1
    requires pair.inner[0].rule == NumberRule && pair.inner[0].text == Json.IntText(i)
    ensures Parse(pair) == Ok(Some(Number(Json.Num(i * Json.Million))))
  {
    Json.ParseIntText(i);
  }

  /**
   * A value node parses to a variable exactly when its literal is a
   * variable; the variable is named by the literal's whole text and is not
   * a path.
   */
  lemma VariableValue(pair: Pair)
    requires pair.rule == ValueRule && |pair.inner| >= 1
    ensures (Parse(pair).Ok? && Parse(pair).value.Some? && Parse(pair).value.value.IsVar()) <==>
      pair.inner[0].rule == VariableRule
    ensures pair.inner[0].rule == VariableRule ==>
      Parse(pair).value.value.GetVarName() == Some(pair.inner[0].text) && !Parse(pair).value.value.isPath
  {
    var p := pair.inner[0];
    match p.rule
    case NumberRule =>
      assert Parse(pair) == Ok(NumberLiteral(p));
    case StringRule =>
      assert Parse(pair) == Ok(StringLiteral(p));
    case VariableRule =>
      assert Parse(pair) == Ok(Some(Variable(p.text, false)));
    case _ =>
      assert Parse(pair) == Ok(None);
  }

  /** A chain or primary node with one child is that child's parse, unchanged. */
  lemma SingleChildPassesThrough(pair: Pair, op: Connective)
    requires |pair.inner| == 1
    ensures ParseChain(pair, op) == Parse(pair.inner[0])
    ensures ParsePrimary(pair) == Parse(pair.inner[0])
  {
  }

  /** A rule the conversion does not know, or a value whose child is not a literal, gives no expression. */
  lemma UnknownRulesGiveNothing(pair: Pair)
    ensures pair.rule.OtherRule? ==> Parse(pair) == Ok(None)
    ensures pair.rule == ValueRule && |pair.inner| >= 1 && pair.inner[0].rule !in {NumberRule, StringRule, VariableRule} ==>
      Parse(pair) == Ok(None)
  {
  }

  /** Text the grammar rejects gives no expression. */
  lemma RejectedTextGivesNothing(grammar: string -> Option<Pair>, s: string)
    requires grammar(s).None?
    ensures ParseText(grammar, s) == Ok(None)
  {
  }

  // ---------------------------------------------------------------------
  // The conversion as the source runs it.
  // ---------------------------------------------------------------------

  /** `parse_expression`. */
  method ParseExpression(pair: Pair) returns (r: Outcome<Option<Expression>>)
    ensures r == Parse(pair)
    decreases pair, 3
  {
    match pair.rule
    case PrimaryExpressionRule =>
      r := ParsePrimaryExpression(pair);
    case AndExpressionRule =>
      r := ParseAndExpression(pair);
    case OrExpressionRule =>
      r := ParseOrExpression(pair);
    case ExpressionRule =>
      if |pair.inner| == 0 {
        return Panic;
      }
      r := ParseExpression(pair.inner[0]);
    case ValueRule =>
      r := Ok(ParseValue(pair));
    case _ =>
      r := Ok(None);
  }

  /** `parse_or_expression`. */
  method ParseOrExpression(pair: Pair) returns (r: Outcome<Option<Expression>>)
    ensures r == ParseChain(pair, OrOp)
    decreases pair, 2
  {
    r := FoldChain(pair, OrOp);
  }

  /** `parse_and_expression`. */
  method ParseAndExpression(pair: Pair) returns (r: Outcome<Option<Expression>>)
    ensures r == ParseChain(pair, AndOp)
    decreases pair, 2
  {
    r := FoldChain(pair, AndOp);
  }

  /** Once a child fails, parsing more children does not change the outcome. */
  lemma {:induction false} RangeStops(pair: Pair, from: nat, k: nat, n: nat)
    requires from <= k <= n <= |pair.inner|
    requires !ParseRange(pair, from, k).Ok? || ParseRange(pair, from, k).value.None?
    ensures ParseRange(pair, from, n) == ParseRange(pair, from, k)
    decreases n
  {
    if n > k {
      RangeStops(pair, from, k, n - 1);
    }
  }

  /** The loop shared by `parse_or_expression` and `parse_and_expression`. */
  method FoldChain(pair: Pair, op: Connective) returns (r: Outcome<Option<Expression>>)
    ensures r == ParseChain(pair, op)
    decreases pair, 1
  {
    var pairs := pair.inner;
    if |pairs| == 1 {
      r := ParseExpression(pairs[0]);
      return;
    }
    if |pairs| == 0 {
      return Panic;
    }
    var left := ParseExpression(pairs[0]);
    assert ParseRange(pair, 0, 0) == Ok(Some([]));
    if left.Panic? || left.value.None? {
      RangeStops(pair, 0, 1, |pairs|);
      return if left.Panic? then Panic else Ok(None);
    }
    assert [] + [left.value.value] == [left.value.value];
    assert ParseRange(pair, 0, 1) == Ok(Some([left.value.value]));
    var right := ParseExpression(pairs[1]);
    if right.Panic? || right.value.None? {
      RangeStops(pair, 0, 2, |pairs|);
      return if right.Panic? then Panic else Ok(None);
    }
    ghost var es := [left.value.value, right.value.value];
    assert [left.value.value] + [right.value.value] == es;
    assert Parse(pair.inner[1]) == right;
    assert ParseRange(pair, 0, 2) == Ok(Some(es));
    var ast := Join(op, left.value.value, right.value.value);
    assert es[..1] == [es[0]];
    for i := 2 to |pairs|
      invariant ParseRange(pair, 0, i) == Ok(Some(es)) && |es| == i && ast == FoldLeft(op, es)
    {
      var expression := ParseExpression(pairs[i]);
      if expression.Panic? || expression.value.None? {
        RangeStops(pair, 0, i + 1, |pairs|);
        return if expression.Panic? then Panic else Ok(None);
      }
      ast := Join(op, ast, expression.value.value);
      es := es + [expression.value.value];
      assert es[..|es| - 1] == es[..i];
    }
    return Ok(Some(ast));
  }

  /** `parse_primary_expression`. */
  method ParsePrimaryExpression(pair: Pair) returns (r: Outcome<Option<Expression>>)
    ensures r == ParsePrimary(pair)
    decreases pair, 2
  {
    var pairs := pair.inner;
    if |pairs| == 1 {
      r := ParseExpression(pairs[0]);
      return;
    }
    if |pairs| == 0 {
      return Panic;
    }
    var predicatePath := Split(pairs[0].text, '.');
    var args: seq<Expression> := [];
    for i := 1 to |pairs|
      invariant ParseRange(pair, 1, i) == Ok(Some(args))
    {
      var expr := ParseExpression(pairs[i]);
      if expr.Panic? || expr.value.None? {
        RangeStops(pair, 1, i + 1, |pairs|);
        return if expr.Panic? then Panic else Ok(None);
      }
      args := args + [expr.value.value];
    }
    return Ok(Some(Primary(predicatePath, args)));
  }

  /** `parsestring_expression`. */
  method ParseStringExpression(grammar: string -> Option<Pair>, s: string) returns (r: Outcome<Option<Expression>>)
    ensures r == ParseText(grammar, s)
  {
    var pair := grammar(s);
    if pair.None? {
      return Ok(None);
    }
    r := ParseExpression(pair.value);
  }
}
