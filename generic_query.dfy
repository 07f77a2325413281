/**
 * Argument descriptors of the built-in predicates and the registry of
 * built-ins (src/query/generic_query.rs).
 */
module GenericQuery {
  import opened Wrappers
  import Values
  import opened Frames

  /** A positional argument of a built-in: a free variable or a bound value. */
  datatype VarOrValue = Var(name: string) | Value(value: Values.Value) {

    /** `is_var`: the argument is still free, whatever its name. */
    predicate IsVar()
      ensures IsVar() <==> exists x :: this == Var(x)
    {
      Var?
    }

    /** `as_value`: the value of a bound argument. */
    function AsValue(): (r: Option<Values.Value>)
      ensures r.Some? <==> !IsVar()
      ensures r.Some? ==> this == Value(r.value)
    {
      match this
      case Value(v) => Some(v)
      case Var(_) => None
    }

    /** `get_var_name`: the name of a free argument. */
    function GetVarName(): (r: Option<string>)
      ensures r.Some? <==> IsVar()
      ensures r.Some? ==> this == Var(r.value)
    {
      match this
      case Value(_) => None
      case Var(x) => Some(x)
    }

    /** `match_in_frame`: a variable the frame binds becomes that value. */
    function MatchInFrame(frame: Frame): (r: VarOrValue)
      ensures IsVar() && frame.Get(name).Some? ==> r == Value(frame.Get(name).value)
      ensures !(IsVar() && frame.Get(name).Some?) ==> r == this
      ensures r.IsVar() ==> this == r && frame.Get(name) == None
    {
      match this
      case Var(x) => (
        match frame.Get(x)
        case Some(y) => Value(y)
        case None => this)
      case Value(_) => this
    }
  }

  /** Every argument looked up in the frame, as `query` does before dispatch. */
  function MatchAllInFrame(args: seq<VarOrValue>, frame: Frame): (r: seq<VarOrValue>)
    ensures |r| == |args|
    ensures forall i :: 0 <= i < |args| ==> r[i] == args[i].MatchInFrame(frame)
  {
    seq(|args|, i requires 0 <= i < |args| => args[i].MatchInFrame(frame))
  }

  /** How many arguments are still free. */
  function VarCount(args: seq<VarOrValue>): nat {
    if args == [] then 0 else VarCount(args[..|args| - 1]) + if args[|args| - 1].IsVar() then 1 else 0
  }

  /** Looking up twice changes nothing more than looking up once. */
  lemma MatchInFrameIdempotent(a: VarOrValue, frame: Frame)
    ensures a.MatchInFrame(frame).MatchInFrame(frame) == a.MatchInFrame(frame)
  {
  }

  /** Looking up never creates a free argument. */
  lemma {:induction false} MatchAllNeverAddsVars(args: seq<VarOrValue>, frame: Frame)
    ensures VarCount(MatchAllInFrame(args, frame)) <= VarCount(args)
    ensures VarCount(MatchAllInFrame(args, frame)) == VarCount(args) <==>
      forall i :: 0 <= i < |args| && args[i].IsVar() ==> frame.Get(args[i].name) == None
  {
    if args != [] {
      var n := |args|;
      var r := MatchAllInFrame(args, frame);
      assert MatchAllInFrame(args[..n - 1], frame) == r[..n - 1];
      MatchAllNeverAddsVars(args[..n - 1], frame);
      assert forall i :: 0 <= i < n - 1 ==> args[i] == args[..n - 1][i];
    }
  }

  /** The built-ins there are. */
  datatype Builtin = SplitBy

  /** The name to built-in table. */
  datatype GenericQueries = GenericQueries(entries: map<string, Builtin>) {

    /** `GenericQueries::new`: the empty table. */
    static function New(): (r: GenericQueries)
      ensures forall name :: r.Get(name) == None
    {
      GenericQueries(map[])
    }

    /** `default`: the table holding `split_by` alone. */
    static function Default(): (r: GenericQueries)
      ensures r.Get("split_by") == Some(SplitBy)
      ensures forall name :: name != "split_by" ==> r.Get(name) == None
    {
      GenericQueries(map["split_by" := SplitBy])
    }

    /** `get`: the built-in registered under `name`. */
    function Get(name: string): (r: Option<Builtin>)
      ensures r.Some? <==> name in entries
      ensures r.Some? ==> r.value == entries[name]
    {
      if name in entries then Some(entries[name]) else None
    }
  }
}
