/**
 * Expressions of the query language (src/ast/node/ast_expression.rs).
 * The source keeps sub-expressions behind shared, mutable cells, but no node
 * changes after it is built, so a plain tree carries the same meaning; the
 * `from_*` constructors are the constructors of the datatype.
 */
module Ast {
  import opened Wrappers
  import Json
  import Values

  datatype Expression =
    | Number(num: Json.Num)
    | Variable(name: string, isPath: bool)
    | Str(text: string)
    | Primary(predicatePath: seq<string>, args: seq<Expression>)
    | And(left: Expression, right: Expression)
    | Or(left: Expression, right: Expression)
  {
    /** `as_string`: the text of a string literal. */
    function AsString(): (r: Option<string>)
      ensures r.Some? <==> Str?
      ensures r.Some? ==> r.value == text
    {
      match this
      case Str(s) => Some(s)
      case _ => None
    }

    /** `as_loose_string`: a string literal's text, or a number literal's decimal text. */
    function AsLooseString(): (r: Option<string>)
      ensures r.Some? <==> Str? || Number?
      ensures AsString().Some? ==> r == AsString()
    {
      match this
      case Str(s) => Some(s)
      case Number(n) => Some(Json.NumText(n))
      case _ => None
    }

    /** `is_var`: the node is a variable, whatever its name and whether it is a path. */
    predicate IsVar()
      ensures IsVar() <==> exists x, p :: this == Variable(x, p)
    {
      Variable?
    }

    /** `get_var_name`. */
    function GetVarName(): (r: Option<string>)
      ensures r.Some? <==> IsVar()
      ensures r.Some? ==> this == Variable(r.value, isPath)
    {
      match this
      case Variable(x, _) => Some(x)
      case _ => None
    }

    /**
     * `try_to_value`: the runtime value of a literal. It agrees with the
     * literal on both string readings.
     */
    function TryToValue(): (r: Option<Values.Value>)
      ensures r.Some? <==> Str? || Number?
      ensures r.Some? ==> r.value.AsString() == AsString() && r.value.AsLooseString() == AsLooseString()
    {
      match this
      case Number(n) => Some(Values.FromNumber(n))
      case Str(s) => Some(Values.FromString(s))
      case _ => None
    }
  }

  /** A string literal becomes exactly the value `from_string` builds. */
  lemma StringLiteralValue(s: string)
    ensures Str(s).TryToValue() == Some(Values.FromString(s))
    ensures Str(s).TryToValue().value.GetSerdeValue() == Json.Str(s)
  {
  }

  /** An integral number literal reads loosely as its integer text. */
  lemma IntegralLiteralText(i: int)
    ensures Number(Json.Num(i * Json.Million)).AsLooseString() == Some(Json.IntText(i))
  {
    Json.IntegralNumText(i);
  }
}
