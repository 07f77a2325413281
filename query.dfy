/**
 * The evaluator (src/query/query.rs): unification of a predicate call's
 * arguments against a tuple of values, the walk along a record's field
 * path, the three ways a predicate call is resolved (dataset files, locale
 * text maps, built-ins) and the threading of frame lists through `&&` and
 * `||`.
 *
 * Each imperative routine of the source is a method proved equal to a
 * specification function; the properties are lemmas about those functions.
 */
module Queries {
  import opened Wrappers
  import Json
  import Values
  import opened Frames
  import opened GenericQuery
  import Builtins = SplitBy
  import opened Ast
  import opened FileSystems
  import CachedFs
  import Parser

  // ---------------------------------------------------------------------
  // Unification (`is_match_n`).
  // ---------------------------------------------------------------------

  /**
   * One argument accepts one value: a variable unless the ORIGINAL frame
   * binds it to a value of another hash, a literal when its own value has
   * the same hash. Anything else (a nested call, `&&`, `||`) accepts nothing.
   */
  predicate ArgAgrees(f1: Frame, a: Expression, x: Values.Value) {
    match a
    case Variable(name, _) => f1.Get(name).None? || f1.Get(name).value.hash == x.hash
    case _ => a.TryToValue().Some? && a.TryToValue().value.hash == x.hash
  }

  /** `f1` with each variable argument bound to its value, left to right. */
  function BindArgs(f1: Frame, args: seq<Expression>, v: seq<Values.Value>): Frame
    requires |args| == |v|
  {
    if args == [] then f1
    else
      var g := BindArgs(f1, args[..|args| - 1], v[..|v| - 1]);
      match args[|args| - 1]
      case Variable(name, _) => g.Add(name, v[|v| - 1])
      case _ => g
  }

  /** What `is_match_n(f1, args, v)` returns. */
  function IsMatch(f1: Frame, args: seq<Expression>, v: seq<Values.Value>): Option<Frame>
    requires |args| == |v|
  {
    if forall i :: 0 <= i < |args| ==> ArgAgrees(f1, args[i], v[i]) then Some(BindArgs(f1, args, v)) else None
  }

  /** `is_match_n`: checks each argument and binds the variables in a clone of `f1`. */
  method IsMatchN(f1: Frame, args: seq<Expression>, v: seq<Values.Value>) returns (r: Option<Frame>)
    requires |args| == |v|
    ensures r == IsMatch(f1, args, v)
  {
    var newFrame := new MutableFrame.Clone(f1);
    for i := 0 to |args|
      invariant newFrame.Snapshot() == BindArgs(f1, args[..i], v[..i])
      invariant forall j :: 0 <= j < i ==> ArgAgrees(f1, args[j], v[j])
    {
      var ok := MatchArg(f1, args[i], v[i], newFrame);
      if !ok {
        return None;
      }
      BindArgsStep(f1, args, v, i);
      AgreeStep(f1, args, v, i);
    }
    assert args[..|args|] == args && v[..|v|] == v;
    r := Some(newFrame.Snapshot());
  }

  lemma AgreeStep(f1: Frame, args: seq<Expression>, v: seq<Values.Value>, i: nat)
    requires |args| == |v| && i < |args|
    requires forall j :: 0 <= j < i ==> ArgAgrees(f1, args[j], v[j])
    requires ArgAgrees(f1, args[i], v[i])
    ensures forall j :: 0 <= j < i + 1 ==> ArgAgrees(f1, args[j], v[j])
  {
  }

  /** The body of the loop of `is_match_n` for one argument `handle` and its value `x`. */
  method MatchArg(f1: Frame, handle: Expression, x: Values.Value, newFrame: MutableFrame) returns (ok: bool)
    modifies newFrame
    ensures ok <==> ArgAgrees(f1, handle, x)
    ensures ok && handle.Variable? ==> newFrame.Snapshot() == old(newFrame.Snapshot()).Add(handle.name, x)
    ensures ok && !handle.Variable? ==> newFrame.Snapshot() == old(newFrame.Snapshot())
  {
    if handle.IsVar() {
      var varName := handle.name;
      var y := f1.Get(varName);
      if y.Some? && y.value.hash != x.hash {
        return false;
      }
      newFrame.Add(varName, x);
    } else {
      var v2 := handle.TryToValue();
      if v2.None? || v2.value.hash != x.hash {
        return false;
      }
    }
    return true;
  }

  /** Binding one more argument: a variable is added, anything else leaves the frame. */
  lemma BindArgsStep(f1: Frame, args: seq<Expression>, v: seq<Values.Value>, i: nat)
    requires |args| == |v| && i < |args|
    ensures args[i].Variable? ==> BindArgs(f1, args[..i + 1], v[..i + 1]) == BindArgs(f1, args[..i], v[..i]).Add(args[i].name, v[i])
    ensures !args[i].Variable? ==> BindArgs(f1, args[..i + 1], v[..i + 1]) == BindArgs(f1, args[..i], v[..i])
  {
    assert args[..i + 1][..i] == args[..i] && v[..i + 1][..i] == v[..i];
  }

  /** A name that no variable argument carries keeps its entry of `f1`. */
  lemma {:induction false} BindArgsKeeps(f1: Frame, args: seq<Expression>, v: seq<Values.Value>, name: string)
    requires |args| == |v|
    requires forall i :: 0 <= i < |args| ==> !(args[i].Variable? && args[i].name == name)
    ensures BindArgs(f1, args, v).Get(name) == f1.Get(name)
    ensures BindArgs(f1, args, v).Contains(name) == f1.Contains(name)
  {
    if args != [] {
      var n := |args|;
      assert forall i :: 0 <= i < n - 1 ==> args[..n - 1][i] == args[i];
      BindArgsKeeps(f1, args[..n - 1], v[..n - 1], name);
    }
  }

  /** Of several variable arguments with one name, the last decides its binding. */
  lemma {:induction false} BindArgsLast(f1: Frame, args: seq<Expression>, v: seq<Values.Value>, i: nat)
    requires |args| == |v| && i < |args| && args[i].Variable?
    requires forall j :: i < j < |args| ==> !(args[j].Variable? && args[j].name == args[i].name)
    ensures BindArgs(f1, args, v).Get(args[i].name) == Some(v[i])
  {
    var n := |args|;
    var g := BindArgs(f1, args[..n - 1], v[..n - 1]);
    if i < n - 1 {
      assert args[..n - 1][i] == args[i];
      assert forall j :: i < j < n - 1 ==> args[..n - 1][j] == args[j];
      BindArgsLast(f1, args[..n - 1], v[..n - 1], i);
      assert g.Get(args[i].name) == Some(v[i]);
      assert !(args[n - 1].Variable? && args[n - 1].name == args[i].name);
    } else {
      assert BindArgs(f1, args, v) == g.Add(args[i].name, v[i]);
    }
  }

  /** When every argument agrees, a name `f1` binds keeps a value of the same hash. */
  lemma {:induction false} BindArgsKeepsHash(f1: Frame, args: seq<Expression>, v: seq<Values.Value>, name: string)
    requires |args| == |v| && f1.Get(name).Some?
    requires forall i :: 0 <= i < |args| ==> ArgAgrees(f1, args[i], v[i])
    ensures BindArgs(f1, args, v).Get(name).Some?
    ensures BindArgs(f1, args, v).Get(name).value.hash == f1.Get(name).value.hash
  {
    if args != [] {
      var n := |args|;
      assert forall i :: 0 <= i < n - 1 ==> args[..n - 1][i] == args[i] && v[..n - 1][i] == v[i];
      BindArgsKeepsHash(f1, args[..n - 1], v[..n - 1], name);
      LastBindKeepsHash(f1, args, v, name);
    }
  }

  /** The last argument rebinds `name` only to a value of the hash `f1` already gives it. */
  lemma LastBindKeepsHash(f1: Frame, args: seq<Expression>, v: seq<Values.Value>, name: string)
    requires |args| == |v| && args != [] && f1.Get(name).Some?
    requires ArgAgrees(f1, args[|args| - 1], v[|v| - 1])
    requires BindArgs(f1, args[..|args| - 1], v[..|v| - 1]).Get(name).Some?
    requires BindArgs(f1, args[..|args| - 1], v[..|v| - 1]).Get(name).value.hash == f1.Get(name).value.hash
    ensures BindArgs(f1, args, v).Get(name).Some?
    ensures BindArgs(f1, args, v).Get(name).value.hash == f1.Get(name).value.hash
  {
    var n := |args|;
    var g := BindArgs(f1, args[..n - 1], v[..n - 1]);
    match args[n - 1]
    case Variable(x, _) =>
      assert BindArgs(f1, args, v) == g.Add(x, v[n - 1]);
    case _ =>
      assert BindArgs(f1, args, v) == g;
  }

  /** Every variable argument ends up bound. */
  lemma {:induction false} BindArgsBinds(f1: Frame, args: seq<Expression>, v: seq<Values.Value>, i: nat)
    requires |args| == |v| && i < |args| && args[i].Variable?
    ensures BindArgs(f1, args, v).Get(args[i].name).Some?
  {
    var n := |args|;
    if i < n - 1 {
      assert args[..n - 1][i] == args[i];
      BindArgsBinds(f1, args[..n - 1], v[..n - 1], i);
    }
  }

  /**
   * A successful match is consistent with `f1`: every name `f1` binds keeps
   * a value of the same hash, every variable argument is bound, and every
   * literal argument has the hash of its value.
   */
  lemma IsMatchConsistent(f1: Frame, args: seq<Expression>, v: seq<Values.Value>, g: Frame)
    requires |args| == |v| && IsMatch(f1, args, v) == Some(g)
    ensures forall name :: f1.Get(name).Some? ==> g.Get(name).Some? && g.Get(name).value.hash == f1.Get(name).value.hash
    ensures forall i :: 0 <= i < |args| && args[i].Variable? ==> g.Get(args[i].name).Some?
    ensures forall i :: 0 <= i < |args| && !args[i].Variable? ==>
      args[i].TryToValue().Some? && args[i].TryToValue().value.hash == v[i].hash
  {
    forall name | f1.Get(name).Some?
      ensures g.Get(name).Some? && g.Get(name).value.hash == f1.Get(name).value.hash
    {
      BindArgsKeepsHash(f1, args, v, name);
    }
    forall i | 0 <= i < |args| && args[i].Variable?
      ensures g.Get(args[i].name).Some?
    {
      BindArgsBinds(f1, args, v, i);
    }
  }

  /** A variable bound in `f1` to another hash, or a literal of another hash, rejects the tuple. */
  lemma IsMatchRejects(f1: Frame, args: seq<Expression>, v: seq<Values.Value>, i: nat)
    requires |args| == |v| && i < |args|
    requires args[i].Variable? ==> f1.Get(args[i].name).Some? && f1.Get(args[i].name).value.hash != v[i].hash
    requires !args[i].Variable? ==> args[i].TryToValue().None? || args[i].TryToValue().value.hash != v[i].hash
    ensures IsMatch(f1, args, v) == None
  {
    assert !ArgAgrees(f1, args[i], v[i]);
  }

  /** `?x ?x` against "a", "b": the repetition is not cross-checked and x ends up "b". */
  lemma RepeatedVariableLastWins()
    ensures IsMatch(Frame.New(), [Expression.Variable("x", false), Expression.Variable("x", false)], [Values.FromString("a"), Values.FromString("b")])
      == Some(Frame.New().Add("x", Values.FromString("a")).Add("x", Values.FromString("b")))
    ensures Frame.New().Add("x", Values.FromString("a")).Add("x", Values.FromString("b")).Get("x") == Some(Values.FromString("b"))
  {
    TwoVariablesBind(Frame.New(), "x", "x", Values.FromString("a"), Values.FromString("b"));
  }

  /** The number literal 500 unifies with the text "500": the hash joins them. */
  lemma NumberLiteralMatchesDigits()
    ensures IsMatch(Frame.New(), [Number(Json.Num(500 * Json.Million))], [Values.FromString("500")]) == Some(Frame.New())
  {
    Values.IntegralNumberLikeString(500);
    assert Json.IntText(500) == "500" by {
      assert Json.NatText(5) == "5";
      assert Json.NatText(50) == "50";
      assert Json.NatText(500) == "500";
    }
    var args := [Number(Json.Num(500 * Json.Million))];
    var v := [Values.FromString("500")];
    assert ArgAgrees(Frame.New(), args[0], v[0]);
    assert args[..0] == [] && v[..0] == [];
    assert BindArgs(Frame.New(), args, v) == Frame.New();
    assert IsMatch(Frame.New(), args, v) == Some(Frame.New());
  }

  // ---------------------------------------------------------------------
  // Field paths (`access_serde`).
  // ---------------------------------------------------------------------

  /** The value at the end of `path`, stepping through object entries. */
  function Access(v: Json.Json, path: seq<string>): Option<Json.Json>
    decreases |path|
  {
    if path == [] then Some(v)
    else if !v.Object? then None
    else
      match Json.Get(v.fields, path[0])
      case None => None
      case Some(t) => Access(t, path[1..])
  }

  /** The empty path reaches the record itself; a step into a non-object, or a missing key, reaches nothing. */
  lemma AccessSteps(v: Json.Json, path: seq<string>)
    ensures path == [] ==> Access(v, path) == Some(v)
    ensures path != [] && !v.Object? ==> Access(v, path) == None
    ensures path != [] && v.Object? && path[0] !in Json.Keys(v.fields) ==> Access(v, path) == None
  {
  }

  /** A path followed in two stages reaches what the whole path reaches. */
  lemma {:induction false} AccessAppend(v: Json.Json, p: seq<string>, q: seq<string>)
    ensures Access(v, p + q) == match Access(v, p) case None => None case Some(t) => Access(t, q)
    decreases |p|
  {
    if p == [] {
      assert p + q == q;
    } else {
      assert p + q != [];
      assert (p + q)[0] == p[0] && (p + q)[1..] == p[1..] + q;
      if !v.Object? {
        assert Access(v, p) == None && Access(v, p + q) == None;
      } else {
        match Json.Get(v.fields, p[0])
        case None =>
          assert Access(v, p) == None && Access(v, p + q) == None;
        case Some(t) =>
          assert Access(v, p) == Access(t, p[1..]);
          assert Access(v, p + q) == Access(t, p[1..] + q);
          AccessAppend(t, p[1..], q);
      }
    }
  }

  /** `access_serde`: moves a cursor along the path, then wraps what it reaches. */
  method AccessSerde(v: Json.Json, accessor: seq<string>) returns (r: Option<Values.Value>)
    ensures r.Some? <==> Access(v, accessor).Some?
    ensures r.Some? ==> r.value == Wrap(Access(v, accessor).value)
  {
    var temp := v;
    for i := 0 to |accessor|
      invariant Access(v, accessor) == Access(temp, accessor[i..])
    {
      assert accessor[i..][1..] == accessor[i + 1..];
      if !temp.Object? {
        return None;
      }
      var t := Json.Get(temp.fields, accessor[i]);
      if t.None? {
        return None;
      }
      temp := t.value;
    }
    r := Some(Wrap(temp));
  }

  // ---------------------------------------------------------------------
  // Enumerations of frames.
  // ---------------------------------------------------------------------

  /** `NonVariableValue::from_serde(j).to_value()`. */
  function Wrap(j: Json.Json): (r: Values.Value)
    ensures r.GetSerdeValue() == j
  {
    Values.ToValue(Values.NonVariableValue(j))
  }

  /**
   * `is_match_n` against a tuple for the arguments `args`. The tuples the
   * evaluator builds always hold one value per argument; a tuple of another
   * size would match nothing.
   */
  function Matcher(args: seq<Expression>): (Frame, seq<Values.Value>) -> Option<Frame> {
    (f: Frame, t: seq<Values.Value>) => if |t| == |args| then IsMatch(f, args, t) else None
  }

  /** The frame of a successful match, or nothing. */
  function Found(r: Option<Frame>): seq<Frame> {
    if r.Some? then [r.value] else []
  }

  /** One input frame against each tuple in turn. */
  function MatchTuples(f: Frame, m: (Frame, seq<Values.Value>) -> Option<Frame>, tuples: seq<seq<Values.Value>>): seq<Frame> {
    if tuples == [] then []
    else MatchTuples(f, m, tuples[..|tuples| - 1]) + Found(m(f, tuples[|tuples| - 1]))
  }

  /** Frame-major order: for each input frame, each tuple. */
  function FrameMajor(input: seq<Frame>, m: (Frame, seq<Values.Value>) -> Option<Frame>, tuples: seq<seq<Values.Value>>): seq<Frame> {
    if input == [] then []
    else FrameMajor(input[..|input| - 1], m, tuples) + MatchTuples(input[|input| - 1], m, tuples)
  }

  /** Each input frame in turn against one tuple. */
  function MatchFrames(input: seq<Frame>, m: (Frame, seq<Values.Value>) -> Option<Frame>, t: seq<Values.Value>): seq<Frame> {
    if input == [] then []
    else MatchFrames(input[..|input| - 1], m, t) + Found(m(input[|input| - 1], t))
  }

  /** Tuple-major order: for each tuple, each input frame. */
  function TupleMajor(input: seq<Frame>, m: (Frame, seq<Values.Value>) -> Option<Frame>, tuples: seq<seq<Values.Value>>): seq<Frame> {
    if tuples == [] then []
    else TupleMajor(input, m, tuples[..|tuples| - 1]) + MatchFrames(input, m, tuples[|tuples| - 1])
  }

  /** The frames one input frame yields are exactly its successful matches. */
  lemma {:induction false} MatchTuplesMember(f: Frame, m: (Frame, seq<Values.Value>) -> Option<Frame>, tuples: seq<seq<Values.Value>>, g: Frame)
    ensures g in MatchTuples(f, m, tuples) <==> exists j :: 0 <= j < |tuples| && m(f, tuples[j]) == Some(g)
  {
    if g in MatchTuples(f, m, tuples) {
      var j := MatchTuplesSound(f, m, tuples, g);
    }
    forall j | 0 <= j < |tuples| && m(f, tuples[j]) == Some(g)
      ensures g in MatchTuples(f, m, tuples)
    {
      MatchTuplesComplete(f, m, tuples, j);
    }
  }

  lemma {:induction false} MatchTuplesSound(f: Frame, m: (Frame, seq<Values.Value>) -> Option<Frame>, tuples: seq<seq<Values.Value>>, g: Frame)
    returns (j: nat)
    requires g in MatchTuples(f, m, tuples)
    ensures j < |tuples| && m(f, tuples[j]) == Some(g)
  {
    var n := |tuples|;
    if g in Found(m(f, tuples[n - 1])) {
      j := n - 1;
    } else {
      j := MatchTuplesSound(f, m, tuples[..n - 1], g);
    }
  }

  lemma {:induction false} MatchTuplesComplete(f: Frame, m: (Frame, seq<Values.Value>) -> Option<Frame>, tuples: seq<seq<Values.Value>>, j: nat)
    requires j < |tuples| && m(f, tuples[j]).Some?
    ensures m(f, tuples[j]).value in MatchTuples(f, m, tuples)
  {
    var n := |tuples|;
    if j < n - 1 {
      assert tuples[..n - 1][j] == tuples[j];
      MatchTuplesComplete(f, m, tuples[..n - 1], j);
    }
  }

  /** Frame-major enumeration yields exactly the successful (frame, tuple) matches. */
  lemma FrameMajorMember(input: seq<Frame>, m: (Frame, seq<Values.Value>) -> Option<Frame>, tuples: seq<seq<Values.Value>>, g: Frame)
    ensures g in FrameMajor(input, m, tuples) <==>
      exists i, j :: 0 <= i < |input| && 0 <= j < |tuples| && m(input[i], tuples[j]) == Some(g)
  {
    if g in FrameMajor(input, m, tuples) {
      var i, j := FrameMajorSound(input, m, tuples, g);
    }
    forall i, j | 0 <= i < |input| && 0 <= j < |tuples| && m(input[i], tuples[j]) == Some(g)
      ensures g in FrameMajor(input, m, tuples)
    {
      FrameMajorComplete(input, m, tuples, i, j);
    }
  }

  lemma {:induction false} FrameMajorSound(input: seq<Frame>, m: (Frame, seq<Values.Value>) -> Option<Frame>, tuples: seq<seq<Values.Value>>, g: Frame)
    returns (i: nat, j: nat)
    requires g in FrameMajor(input, m, tuples)
    ensures i < |input| && j < |tuples| && m(input[i], tuples[j]) == Some(g)
  {
    var n := |input|;
    if g in MatchTuples(input[n - 1], m, tuples) {
      i := n - 1;
      j := MatchTuplesSound(input[n - 1], m, tuples, g);
    } else {
      i, j := FrameMajorSound(input[..n - 1], m, tuples, g);
    }
  }

  lemma {:induction false} FrameMajorComplete(input: seq<Frame>, m: (Frame, seq<Values.Value>) -> Option<Frame>, tuples: seq<seq<Values.Value>>, i: nat, j: nat)
    requires i < |input| && j < |tuples| && m(input[i], tuples[j]).Some?
    ensures m(input[i], tuples[j]).value in FrameMajor(input, m, tuples)
  {
    var n := |input|;
    if i < n - 1 {
      assert input[..n - 1][i] == input[i];
      FrameMajorComplete(input[..n - 1], m, tuples, i, j);
    } else {
      MatchTuplesComplete(input[i], m, tuples, j);
    }
  }

  /** One tuple against the input frames yields exactly its successful matches. */
  lemma MatchFramesMember(input: seq<Frame>, m: (Frame, seq<Values.Value>) -> Option<Frame>, t: seq<Values.Value>, g: Frame)
    ensures g in MatchFrames(input, m, t) <==> exists i :: 0 <= i < |input| && m(input[i], t) == Some(g)
  {
    if g in MatchFrames(input, m, t) {
      var i := MatchFramesSound(input, m, t, g);
    }
    forall i | 0 <= i < |input| && m(input[i], t) == Some(g)
      ensures g in MatchFrames(input, m, t)
    {
      MatchFramesComplete(input, m, t, i);
    }
  }

  lemma {:induction false} MatchFramesSound(input: seq<Frame>, m: (Frame, seq<Values.Value>) -> Option<Frame>, t: seq<Values.Value>, g: Frame)
    returns (i: nat)
    requires g in MatchFrames(input, m, t)
    ensures i < |input| && m(input[i], t) == Some(g)
  {
    var n := |input|;
    if g in Found(m(input[n - 1], t)) {
      i := n - 1;
    } else {
      i := MatchFramesSound(input[..n - 1], m, t, g);
    }
  }

  lemma {:induction false} MatchFramesComplete(input: seq<Frame>, m: (Frame, seq<Values.Value>) -> Option<Frame>, t: seq<Values.Value>, i: nat)
    requires i < |input| && m(input[i], t).Some?
    ensures m(input[i], t).value in MatchFrames(input, m, t)
  {
    var n := |input|;
    if i < n - 1 {
      assert input[..n - 1][i] == input[i];
      MatchFramesComplete(input[..n - 1], m, t, i);
    }
  }

  /** Tuple-major enumeration yields the same frames as frame-major, in another order. */
  lemma TupleMajorMember(input: seq<Frame>, m: (Frame, seq<Values.Value>) -> Option<Frame>, tuples: seq<seq<Values.Value>>, g: Frame)
    ensures g in TupleMajor(input, m, tuples) <==> g in FrameMajor(input, m, tuples)
  {
    FrameMajorMember(input, m, tuples, g);
    TupleMajorExists(input, m, tuples, g);
  }

  lemma TupleMajorExists(input: seq<Frame>, m: (Frame, seq<Values.Value>) -> Option<Frame>, tuples: seq<seq<Values.Value>>, g: Frame)
    ensures g in TupleMajor(input, m, tuples) <==>
      exists i, j :: 0 <= i < |input| && 0 <= j < |tuples| && m(input[i], tuples[j]) == Some(g)
  {
    if g in TupleMajor(input, m, tuples) {
      var i, j := TupleMajorSound(input, m, tuples, g);
    }
    forall i, j | 0 <= i < |input| && 0 <= j < |tuples| && m(input[i], tuples[j]) == Some(g)
      ensures g in TupleMajor(input, m, tuples)
    {
      TupleMajorComplete(input, m, tuples, i, j);
    }
  }

  lemma {:induction false} TupleMajorSound(input: seq<Frame>, m: (Frame, seq<Values.Value>) -> Option<Frame>, tuples: seq<seq<Values.Value>>, g: Frame)
    returns (i: nat, j: nat)
    requires g in TupleMajor(input, m, tuples)
    ensures i < |input| && j < |tuples| && m(input[i], tuples[j]) == Some(g)
  {
    var n := |tuples|;
    if g in MatchFrames(input, m, tuples[n - 1]) {
      j := n - 1;
      i := MatchFramesSound(input, m, tuples[n - 1], g);
    } else {
      i, j := TupleMajorSound(input, m, tuples[..n - 1], g);
    }
  }

  lemma {:induction false} TupleMajorComplete(input: seq<Frame>, m: (Frame, seq<Values.Value>) -> Option<Frame>, tuples: seq<seq<Values.Value>>, i: nat, j: nat)
    requires i < |input| && j < |tuples| && m(input[i], tuples[j]).Some?
    ensures m(input[i], tuples[j]).value in TupleMajor(input, m, tuples)
  {
    var n := |tuples|;
    if j < n - 1 {
      assert tuples[..n - 1][j] == tuples[j];
      TupleMajorComplete(input, m, tuples[..n - 1], i, j);
    } else {
      MatchFramesComplete(input, m, tuples[j], i);
    }
  }

  /** Frame-major enumeration with no tuples yields nothing. */
  lemma {:induction false} FrameMajorNoTuples(input: seq<Frame>, m: (Frame, seq<Values.Value>) -> Option<Frame>)
    ensures FrameMajor(input, m, []) == []
  {
    if input != [] {
      FrameMajorNoTuples(input[..|input| - 1], m);
    }
  }

  /** One more tuple adds, to frame-major output, the matches of every input frame against it. */
  lemma {:induction false} FrameMajorSnoc(input: seq<Frame>, m: (Frame, seq<Values.Value>) -> Option<Frame>,
                                          tuples: seq<seq<Values.Value>>, t: seq<Values.Value>)
    ensures multiset(FrameMajor(input, m, tuples + [t])) == multiset(FrameMajor(input, m, tuples)) + multiset(MatchFrames(input, m, t))
  {
    if input != [] {
      var n := |input|;
      var pre, f := input[..n - 1], input[n - 1];
      var all := tuples + [t];
      assert all[..|all| - 1] == tuples && all[|all| - 1] == t;
      assert MatchTuples(f, m, all) == MatchTuples(f, m, tuples) + Found(m(f, t));
      FrameMajorSnoc(pre, m, tuples, t);
      assert FrameMajor(input, m, all) == FrameMajor(pre, m, all) + MatchTuples(f, m, all);
      assert FrameMajor(input, m, tuples) == FrameMajor(pre, m, tuples) + MatchTuples(f, m, tuples);
      assert MatchFrames(input, m, t) == MatchFrames(pre, m, t) + Found(m(f, t));
    }
  }

  /**
   * Tuple-major enumeration is a reordering of frame-major enumeration:
   * every frame occurs in both the same number of times.
   */
  lemma {:induction false} TupleMajorPermutes(input: seq<Frame>, m: (Frame, seq<Values.Value>) -> Option<Frame>, tuples: seq<seq<Values.Value>>)
    ensures multiset(TupleMajor(input, m, tuples)) == multiset(FrameMajor(input, m, tuples))
  {
    if tuples == [] {
      FrameMajorNoTuples(input, m);
    } else {
      var n := |tuples|;
      var pre, t := tuples[..n - 1], tuples[n - 1];
      assert pre + [t] == tuples;
      assert TupleMajor(input, m, tuples) == TupleMajor(input, m, pre) + MatchFrames(input, m, t);
      TupleMajorPermutes(input, m, pre);
      FrameMajorSnoc(input, m, pre, t);
    }
  }

  /** Both enumerations yield the same number of frames. */
  lemma TupleMajorCount(input: seq<Frame>, m: (Frame, seq<Values.Value>) -> Option<Frame>, tuples: seq<seq<Values.Value>>)
    ensures |TupleMajor(input, m, tuples)| == |FrameMajor(input, m, tuples)|
  {
    TupleMajorPermutes(input, m, tuples);
    assert |multiset(TupleMajor(input, m, tuples))| == |TupleMajor(input, m, tuples)|;
    assert |multiset(FrameMajor(input, m, tuples))| == |FrameMajor(input, m, tuples)|;
  }

  /** Frame-major output is grouped by input frame, in input order. */
  lemma {:induction false} FrameMajorAppend(a: seq<Frame>, b: seq<Frame>, m: (Frame, seq<Values.Value>) -> Option<Frame>, tuples: seq<seq<Values.Value>>)
    ensures FrameMajor(a + b, m, tuples) == FrameMajor(a, m, tuples) + FrameMajor(b, m, tuples)
    decreases |b|
  {
    if b == [] {
      assert a + b == a;
    } else {
      var n := |b|;
      var pre, f := b[..n - 1], b[n - 1];
      assert a + b == (a + pre) + [f];
      assert b == pre + [f];
      FrameMajorAppend(a, pre, m, tuples);
      FrameMajorLast(a + pre, f, m, tuples);
      FrameMajorLast(pre, f, m, tuples);
      Regroup(FrameMajor(a, m, tuples), FrameMajor(pre, m, tuples), MatchTuples(f, m, tuples));
    }
  }

  lemma Regroup(x: seq<Frame>, y: seq<Frame>, z: seq<Frame>)
    ensures (x + y) + z == x + (y + z)
  {
  }

  /** A last input frame adds its own matches at the end. */
  lemma FrameMajorLast(input: seq<Frame>, f: Frame, m: (Frame, seq<Values.Value>) -> Option<Frame>, tuples: seq<seq<Values.Value>>)
    ensures FrameMajor(input + [f], m, tuples) == FrameMajor(input, m, tuples) + MatchTuples(f, m, tuples)
  {
    var all := input + [f];
    assert all[..|all| - 1] == input && all[|all| - 1] == f;
  }

  // ---------------------------------------------------------------------
  // Tuples gathered from a list, where one bad element aborts the lot.
  // ---------------------------------------------------------------------

  /**
   * The tuples `step` gives for each element, in order; `None` as soon as
   * one element gives `None` (the `?` inside the source's loops).
   */
  function Collect<T>(xs: seq<T>, step: T -> Option<seq<seq<Values.Value>>>): (r: Option<seq<seq<Values.Value>>>) {
    if xs == [] then Some([])
    else
      match Collect(xs[..|xs| - 1], step)
      case None => None
      case Some(acc) =>
        match step(xs[|xs| - 1])
        case None => None
        case Some(ts) => Some(acc + ts)
  }

  /** Gathering succeeds exactly when every element succeeds. */
  lemma {:induction false} CollectSome<T>(xs: seq<T>, step: T -> Option<seq<seq<Values.Value>>>)
    ensures Collect(xs, step).Some? <==> forall i :: 0 <= i < |xs| ==> step(xs[i]).Some?
  {
    if xs != [] {
      var n := |xs|;
      assert forall i :: 0 <= i < n - 1 ==> xs[..n - 1][i] == xs[i];
      CollectSome(xs[..n - 1], step);
    }
  }

  /** The gathered tuples are exactly the tuples of the elements. */
  lemma {:induction false} CollectMember<T>(xs: seq<T>, step: T -> Option<seq<seq<Values.Value>>>, t: seq<Values.Value>)
    requires Collect(xs, step).Some?
    ensures t in Collect(xs, step).value <==> exists i :: 0 <= i < |xs| && step(xs[i]).Some? && t in step(xs[i]).value
  {
    if xs != [] {
      var n := |xs|;
      assert forall i :: 0 <= i < n - 1 ==> xs[..n - 1][i] == xs[i];
      CollectSome(xs, step);
      CollectMember(xs[..n - 1], step, t);
    }
  }

  // ---------------------------------------------------------------------
  // Where the data lives.
  // ---------------------------------------------------------------------

  /** The predicate names answered from a locale's text map. */
  const Locales: seq<string> := ["CHS", "CHT", "DE", "EN", "ES", "FR", "ID", "JP", "KR", "PT", "RU", "TH", "VI"]

  /** The file of dataset `name`. */
  function DataPath(name: string): string {
    "ExcelBinOutput/" + name + ".json"
  }

  /** The text map of `locale`. */
  function LocalePath(locale: string): string {
    "TextMap/TextMap" + locale + ".json"
  }

  /** A record and the value at the end of `accessor`; a record without it aborts. */
  function RecordTuple(accessor: seq<string>): Json.Json -> Option<seq<seq<Values.Value>>> {
    item =>
      match Access(item, accessor)
      case None => None
      case Some(x) => Some([[Wrap(item), Wrap(x)]])
  }

  /** A text-map entry as (key, text), skipped when its text is empty; a non-text value aborts. */
  function EntryTuple(e: (string, Json.Json)): Option<seq<seq<Values.Value>>> {
    if !e.1.Str? then None
    else if e.1.s == "" then Some([])
    else Some([[Values.FromString(e.0), Wrap(e.1)]])
  }

  /** A text-map entry as (key, `text`) when its text is exactly `text` and not empty. */
  function TextTuple(text: string): ((string, Json.Json)) -> Option<seq<seq<Values.Value>>> {
    (e: (string, Json.Json)) =>
      if !e.1.Str? then None
      else if e.1.s == "" || e.1.s != text then Some([])
      else Some([[Values.FromString(e.0), Values.FromString(text)]])
  }

  /** Each record as a tuple of one value. */
  function SingleTuples(items: seq<Json.Json>): (r: seq<seq<Values.Value>>)
    ensures |r| == |items|
    ensures forall i :: 0 <= i < |items| ==> r[i] == [Wrap(items[i])]
  {
    if items == [] then [] else SingleTuples(items[..|items| - 1]) + [[Wrap(items[|items| - 1])]]
  }

  /** `list` with `None` read as the empty list (`unwrap_or(Vec::new())`). */
  function OrEmpty(r: Option<seq<Frame>>): seq<Frame> {
    if r.Some? then r.value else []
  }

  /** `None` for an empty list, as `query_or` and `query_simple` return. */
  function NonEmpty(l: seq<Frame>): (r: Option<seq<Frame>>)
    ensures r.None? <==> l == []
    ensures OrEmpty(r) == l
  {
    if l == [] then None else Some(l)
  }

  /** The built-in's arguments: variables by name, literals by value; anything else panics. */
  function GlobalArgs(args: seq<Expression>): (r: Outcome<seq<VarOrValue>>)
    ensures r.Ok? <==> forall i :: 0 <= i < |args| ==> args[i].Variable? || args[i].TryToValue().Some?
    ensures r.Ok? ==> |r.value| == |args| && forall i :: 0 <= i < |args| ==>
      (args[i].Variable? ==> r.value[i] == Var(args[i].name)) &&
      (!args[i].Variable? ==> r.value[i] == VarOrValue.Value(args[i].TryToValue().value))
  {
    if args == [] then Ok([])
    else
      var last := args[|args| - 1];
      match GlobalArgs(args[..|args| - 1])
      case Panic => Panic
      case Ok(init) =>
        if last.Variable? then Ok(init + [Var(last.name)])
        // query.rs:283, `unwrap` of a value that is not there
        else if last.TryToValue().None? then Panic
        else Ok(init + [VarOrValue.Value(last.TryToValue().value)])
  }

  /**
   * A query program: the registry of built-ins, the file system it reads
   * and `serde_json::from_str`, which the model takes as given.
   */
  datatype QueryProgram = QueryProgram(
    genericQuery: GenericQueries,
    fileSystem: FileSystem,
    parseJson: string -> Option<Json.Json>)
  {
    /** The records of dataset `name`: its file parsed, when that is an array. */
    function Records(name: string): Option<seq<Json.Json>> {
      match fileSystem.read(DataPath(name))
      case None => None
      case Some(text) =>
        match parseJson(text)
        case None => None
        case Some(j) => if j.Array? then Some(j.items) else None
    }

    /** What `query_file_data_1` returns: one frame per matching (input frame, record). */
    function FileData1(input: seq<Frame>, path: seq<string>, args: seq<Expression>): Option<seq<Frame>>
      requires |path| > 0
    {
      if |args| != 1 then None
      else
        match Records(path[0])
        case None => None
        case Some(items) => Some(FrameMajor(input, Matcher(args), SingleTuples(items)))
    }

    /**
     * What `query_file_data_other` returns: one frame per matching (input
     * frame, (record, value at the rest of the path)); a record without that
     * value discards everything once there is an input frame to try it on.
     */
    function FileDataOther(input: seq<Frame>, path: seq<string>, args: seq<Expression>): Option<seq<Frame>>
      requires |path| > 0
    {
      if |args| != 2 then None
      else
        match Records(path[0])
        case None => None
        case Some(items) =>
          if input == [] then Some([])
          else
            match Collect(items, RecordTuple(path[1..]))
            case None => None
            case Some(ts) => Some(FrameMajor(input, Matcher(args), ts))
    }

    /** The entries of `locale`'s text map, when it is an object. */
    function LocaleTable(locale: string): Option<seq<(string, Json.Json)>> {
      match fileSystem.readSerde(LocalePath(locale))
      case None => None
      case Some(j) => if j.Object? then Some(j.fields) else None
    }

    /** What `query_locale` returns. */
    function Locale(input: seq<Frame>, path: seq<string>, args: seq<Expression>): Outcome<Option<seq<Frame>>>
      requires |path| > 0
    {
      match LocaleTable(path[0])
      case None => Ok(None)
      case Some(entries) =>
        if |args| != 2 then Ok(None)
        else if !args[0].IsVar() then
          match args[0].AsLooseString()
          case None => Ok(None)
          case Some(key) =>
            match Json.Get(entries, key)
            // query.rs:223, `unwrap` of a missing key
            case None => Panic
            case Some(x) => Ok(Some(MatchFrames(input, Matcher(args), [Values.FromString(key), Wrap(x)])))
        else if !args[1].IsVar() then
          match args[1].AsLooseString()
          case None => Ok(None)
          case Some(text) =>
            match Collect(entries, TextTuple(text))
            case None => Ok(None)
            case Some(ts) => Ok(Some(TupleMajor(input, Matcher(args), ts)))
        else if input == [] then Ok(Some([]))
        else
          match Collect(entries, EntryTuple)
          case None => Ok(None)
          case Some(ts) => Ok(Some(FrameMajor(input, Matcher(args), ts)))
    }

    /** What `query_global_function` returns. */
    function GlobalFunction(input: seq<Frame>, path: seq<string>, args: seq<Expression>): Outcome<Option<seq<Frame>>>
      requires |path| > 0
    {
      match genericQuery.Get(path[0])
      case None => Ok(None)
      case Some(_) =>
        match GlobalArgs(args)
        case Panic => Panic
        case Ok(vs) => Builtins.QuerySpec(input, vs)
    }

    /** What `query_simple` returns: the three strategies' frames in order, `None` when there are none. */
    function Simple(input: seq<Frame>, path: seq<string>, args: seq<Expression>): Outcome<Option<seq<Frame>>>
      requires |path| > 0
    {
      match GlobalFunction(input, path, args)
      case Panic => Panic
      case Ok(g) =>
        Ok(NonEmpty(OrEmpty(FileData1(input, path, args)) + OrEmpty(FileDataOther(input, path, args)) + OrEmpty(g)))
    }

    /** What `query_internal` returns for `ast` evaluated from the frames `input`. */
    function Eval(input: seq<Frame>, ast: Expression): Outcome<Option<seq<Frame>>>
      decreases ast
    {
      match ast
      case Primary(path, args) =>
        // `p.predicate[0]`
        if |path| == 0 then Panic
        else if path[0] in Locales then Locale(input, path, args)
        else Simple(input, path, args)
      case And(left, right) => (
        match Eval(input, left)
        case Panic => Panic
        case Ok(None) => Ok(None)
        case Ok(Some(frames)) => Eval(frames, right))
      case Or(left, right) => (
        match Eval(input, left)
        case Panic => Panic
        case Ok(x) =>
          match Eval(input, right)
          case Panic => Panic
          case Ok(y) => Ok(NonEmpty(OrEmpty(x) + OrEmpty(y))))
      case _ => Ok(None)
    }

    /** What `query` returns for the text `q`: its expression evaluated from one empty frame. */
    function Run(grammar: string -> Option<Parser.Pair>, q: string): Outcome<Option<seq<Frame>>> {
      match Parser.ParseText(grammar, q)
      case Panic => Panic
      case Ok(None) => Ok(None)
      case Ok(Some(ast)) => Eval([Frame.New()], ast)
    }

    // -------------------------------------------------------------------
    // The routines of `QueryProgram`.
    // -------------------------------------------------------------------

    /** `query`: parses the text and evaluates it from one empty frame. */
    method Query(grammar: string -> Option<Parser.Pair>, q: string) returns (r: Outcome<Option<seq<Frame>>>)
      ensures r == Run(grammar, q)
    {
      var ast := Parser.ParseStringExpression(grammar, q);
      if ast.Panic? {
        return Panic;
      }
      if ast.value.None? {
        return Ok(None);
      }
      r := QueryInternal([Frame.New()], ast.value.value);
    }

    /** `query_internal`: dispatch on the kind of expression. */
    method QueryInternal(input: seq<Frame>, ast: Expression) returns (r: Outcome<Option<seq<Frame>>>)
      ensures r == Eval(input, ast)
      decreases ast, 1
    {
      match ast
      case Primary(path, args) =>
        if |path| == 0 {
          return Panic;
        }
        if path[0] in Locales {
          r := QueryLocale(input, path, args);
        } else {
          r := QuerySimple(input, path, args);
        }
      case And(_, _) =>
        r := QueryAnd(input, ast);
      case Or(_, _) =>
        r := QueryOr(input, ast);
      case _ =>
        r := Ok(None);
    }

    /** `query_and`: the right side runs on the left side's frames. */
    method QueryAnd(input: seq<Frame>, ast: Expression) returns (r: Outcome<Option<seq<Frame>>>)
      requires ast.And?
      ensures r == Eval(input, ast)
      decreases ast, 0
    {
      var r1 := QueryInternal(input, ast.left);
      if r1.Panic? {
        return Panic;
      }
      if r1.value.None? {
        return Ok(None);
      }
      r := QueryInternal(r1.value.value, ast.right);
    }

    /** `query_or`: both sides from the same frames, left results first. */
    method QueryOr(input: seq<Frame>, ast: Expression) returns (r: Outcome<Option<seq<Frame>>>)
      requires ast.Or?
      ensures r == Eval(input, ast)
      decreases ast, 0
    {
      var left := QueryInternal(input, ast.left);
      if left.Panic? {
        return Panic;
      }
      var r1 := if left.value.Some? then left.value.value else [];
      var right := QueryInternal(input, ast.right);
      if right.Panic? {
        return Panic;
      }
      var r2 := if right.value.Some? then right.value.value else [];
      r1 := r1 + r2;
      if |r1| == 0 {
        return Ok(None);
      }
      r := Ok(Some(r1));
    }

    /** `query_simple`: appends what each strategy finds. */
    method QuerySimple(input: seq<Frame>, path: seq<string>, args: seq<Expression>) returns (r: Outcome<Option<seq<Frame>>>)
      requires |path| > 0
      ensures r == Simple(input, path, args)
    {
      var result: seq<Frame> := [];
      var x := QueryFileData1(input, path, args);
      if x.Some? {
        result := result + x.value;
      }
      assert result == OrEmpty(FileData1(input, path, args));
      x := QueryFileDataOther(input, path, args);
      if x.Some? {
        result := result + x.value;
      }
      assert result == OrEmpty(FileData1(input, path, args)) + OrEmpty(FileDataOther(input, path, args));
      var g := QueryGlobalFunction(input, path, args);
      if g.Panic? {
        return Panic;
      }
      if g.value.Some? {
        result := result + g.value.value;
      }
      assert result == OrEmpty(FileData1(input, path, args)) + OrEmpty(FileDataOther(input, path, args)) + OrEmpty(g.value);
      if |result| == 0 {
        return Ok(None);
      }
      r := Ok(Some(result));
    }

    /** `query_file_data_1`. */
    method QueryFileData1(input: seq<Frame>, path: seq<string>, args: seq<Expression>) returns (r: Option<seq<Frame>>)
      requires |path| > 0
      ensures r == FileData1(input, path, args)
    {
      var filename := path[0];
      var fileContent := fileSystem.read(DataPath(filename));
      if fileContent.None? {
        return None;
      }
      if |args| != 1 {
        return None;
      }
      var jsonValue := parseJson(fileContent.value);
      if jsonValue.None? || !jsonValue.value.Array? {
        return None;
      }
      var arr := jsonValue.value.items;
      var result: seq<Frame> := [];
      for fi := 0 to |input|
        invariant result == FrameMajor(input[..fi], Matcher(args), SingleTuples(arr))
      {
        assert input[..fi + 1][..fi] == input[..fi];
        var found := MatchRecords(input[fi], args, arr);
        result := result + found;
      }
      assert input[..|input|] == input;
      r := Some(result);
    }

    /** `query_file_data_other`. */
    method QueryFileDataOther(input: seq<Frame>, path: seq<string>, args: seq<Expression>) returns (r: Option<seq<Frame>>)
      requires |path| > 0
      ensures r == FileDataOther(input, path, args)
    {
      var filename := path[0];
      var fileContent := fileSystem.read(DataPath(filename));
      if fileContent.None? {
        return None;
      }
      if |args| != 2 {
        return None;
      }
      var jsonValue := parseJson(fileContent.value);
      if jsonValue.None? || !jsonValue.value.Array? {
        return None;
      }
      var arr := jsonValue.value.items;
      var result: seq<Frame> := [];
      for fi := 0 to |input|
        invariant fi == 0 ==> result == []
        invariant fi > 0 ==> Collect(arr, RecordTuple(path[1..])).Some?
        invariant fi > 0 ==> result == FrameMajor(input[..fi], Matcher(args), Collect(arr, RecordTuple(path[1..])).value)
      {
        assert input[..fi + 1][..fi] == input[..fi];
        var found := MatchRecordsAt(input[fi], args, arr, path[1..]);
        if found.None? {
          return None;
        }
        result := result + found.value;
      }
      if |input| == 0 {
        return Some([]);
      }
      assert input[..|input|] == input;
      r := Some(result);
    }

    /** `query_locale`. */
    method QueryLocale(input: seq<Frame>, path: seq<string>, args: seq<Expression>) returns (r: Outcome<Option<seq<Frame>>>)
      requires |path| > 0
      ensures r == Locale(input, path, args)
    {
      var locale := path[0];
      var content := fileSystem.readSerde(LocalePath(locale));
      if content.None? || !content.value.Object? {
        return Ok(None);
      }
      var obj := content.value.fields;
      if |args| != 2 {
        return Ok(None);
      }
      var result: seq<Frame> := [];
      if !args[0].IsVar() {
        // the key is given
        var key := args[0].AsLooseString();
        if key.None? {
          return Ok(None);
        }
        var k := Values.FromString(key.value);
        var found := Json.Get(obj, key.value);
        if found.None? {
          return Panic;
        }
        var v := Wrap(found.value);
        result := MatchEachFrame(input, args, [k, v]);
      } else if !args[1].IsVar() {
        // the text is given
        var text := args[1].AsLooseString();
        if text.None? {
          return Ok(None);
        }
        var scanned := ScanForText(input, args, obj, text.value);
        if scanned.None? {
          return Ok(None);
        }
        result := scanned.value;
      } else {
        // both free
        if |input| == 0 {
          return Ok(Some([]));
        }
        var scanned := ScanAll(input, args, obj);
        if scanned.None? {
          return Ok(None);
        }
        result := scanned.value;
      }
      r := Ok(Some(result));
    }

    /** `query_global_function`: the registered built-in over the call's arguments. */
    method QueryGlobalFunction(input: seq<Frame>, path: seq<string>, args: seq<Expression>) returns (r: Outcome<Option<seq<Frame>>>)
      requires |path| > 0
      ensures r == GlobalFunction(input, path, args)
    {
      var name := path[0];
      var genericQuery := genericQuery.Get(name);
      if genericQuery.None? {
        return Ok(None);
      }
      var built := BuildGlobalArgs(args);
      if built.Panic? {
        return Panic;
      }
      r := Builtins.Query(input, built.value);
    }
  }

  // ---------------------------------------------------------------------
  // The loops of `query_locale`.
  // ---------------------------------------------------------------------

  /** Each input frame against one tuple, keeping the matches. */
  method MatchEachFrame(input: seq<Frame>, args: seq<Expression>, t: seq<Values.Value>) returns (result: seq<Frame>)
    requires |t| == |args|
    ensures result == MatchFrames(input, Matcher(args), t)
  {
    result := [];
    for i := 0 to |input|
      invariant result == MatchFrames(input[..i], Matcher(args), t)
    {
      assert input[..i + 1][..i] == input[..i];
      var x := IsMatchN(input[i], args, t);
      assert Matcher(args)(input[i], t) == x;
      if x.Some? {
        result := result + [x.value];
      }
    }
    assert input[..|input|] == input;
  }

  /**
   * The given-text case: for each key whose text is `text` (empty texts
   * skipped), every input frame; a value that is not text aborts the scan.
   */
  method ScanForText(input: seq<Frame>, args: seq<Expression>, obj: seq<(string, Json.Json)>, text: string)
    returns (r: Option<seq<Frame>>)
    requires |args| == 2
    ensures r.None? <==> Collect(obj, TextTuple(text)).None?
    ensures r.Some? ==> r.value == TupleMajor(input, Matcher(args), Collect(obj, TextTuple(text)).value)
  {
    ghost var step := TextTuple(text);
    var v := Values.FromString(text);
    var result: seq<Frame> := [];
    for j := 0 to |obj|
      invariant Collect(obj[..j], step).Some?
      invariant result == TupleMajor(input, Matcher(args), Collect(obj[..j], step).value)
    {
      assert obj[..j + 1][..j] == obj[..j];
      ghost var acc := Collect(obj[..j], step).value;
      var (key, value) := obj[j];
      if !value.Str? {
        CollectSome(obj[..j + 1], step);
        CollectSome(obj, step);
        assert obj[..j + 1][j] == obj[j];
        return None;
      }
      if value.s == "" {
        assert acc + [] == acc;
        continue;
      }
      if value.s == text {
        var k := Values.FromString(key);
        var found := MatchEachFrame(input, args, [k, v]);
        assert Collect(obj[..j + 1], step).value == acc + [[k, v]];
        assert (acc + [[k, v]])[..|acc|] == acc;
        result := result + found;
      } else {
        assert acc + [] == acc;
      }
    }
    assert obj[..|obj|] == obj;
    r := Some(result);
  }

  /**
   * The both-free case: for each input frame, every entry with non-empty
   * text; a value that is not text aborts the scan.
   */
  method ScanAll(input: seq<Frame>, args: seq<Expression>, obj: seq<(string, Json.Json)>) returns (r: Option<seq<Frame>>)
    requires |args| == 2 && |input| > 0
    ensures r.None? <==> Collect(obj, EntryTuple).None?
    ensures r.Some? ==> r.value == FrameMajor(input, Matcher(args), Collect(obj, EntryTuple).value)
  {
    var result: seq<Frame> := [];
    for fi := 0 to |input|
      invariant fi == 0 ==> result == []
      invariant fi > 0 ==> Collect(obj, EntryTuple).Some? && result == FrameMajor(input[..fi], Matcher(args), Collect(obj, EntryTuple).value)
    {
      assert input[..fi + 1][..fi] == input[..fi];
      var found := ScanEntries(input[fi], args, obj);
      if found.None? {
        return None;
      }
      result := result + found.value;
    }
    assert input[..|input|] == input;
    r := Some(result);
  }

  /** The inner loop of the both-free text-map case: one input frame against every entry. */
  method ScanEntries(frame: Frame, args: seq<Expression>, obj: seq<(string, Json.Json)>) returns (found: Option<seq<Frame>>)
    requires |args| == 2
    ensures found.None? <==> Collect(obj, EntryTuple).None?
    ensures found.Some? ==> found.value == MatchTuples(frame, Matcher(args), Collect(obj, EntryTuple).value)
  {
    var result: seq<Frame> := [];
    for j := 0 to |obj|
      invariant Collect(obj[..j], EntryTuple).Some?
      invariant result == MatchTuples(frame, Matcher(args), Collect(obj[..j], EntryTuple).value)
    {
      assert obj[..j + 1][..j] == obj[..j];
      ghost var acc := Collect(obj[..j], EntryTuple).value;
      var (key, value) := obj[j];
      if !value.Str? {
        CollectSome(obj[..j + 1], EntryTuple);
        CollectSome(obj, EntryTuple);
        assert obj[..j + 1][j] == obj[j];
        return None;
      }
      if value.s == "" {
        assert acc + [] == acc;
        continue;
      }
      var tuple := [Values.FromString(key), Wrap(value)];
      assert Collect(obj[..j + 1], EntryTuple).value == acc + [tuple];
      assert (acc + [tuple])[..|acc|] == acc;
      var x := IsMatchN(frame, args, tuple);
      assert Matcher(args)(frame, tuple) == x;
      if x.Some? {
        result := result + [x.value];
      }
    }
    assert obj[..|obj|] == obj;
    found := Some(result);
  }

  // ---------------------------------------------------------------------
  // The inner loops of the dataset strategies.
  // ---------------------------------------------------------------------

  /** One input frame against each record of a dataset. */
  method MatchRecords(frame: Frame, args: seq<Expression>, arr: seq<Json.Json>) returns (result: seq<Frame>)
    requires |args| == 1
    ensures result == MatchTuples(frame, Matcher(args), SingleTuples(arr))
  {
    ghost var tuples := SingleTuples(arr);
    result := [];
    for ii := 0 to |arr|
      invariant result == MatchTuples(frame, Matcher(args), tuples[..ii])
    {
      assert tuples[..ii + 1][..ii] == tuples[..ii];
      var wrappedValue := Wrap(arr[ii]);
      var x := IsMatchN(frame, args, [wrappedValue]);
      assert Matcher(args)(frame, tuples[ii]) == x;
      if x.Some? {
        result := result + [x.value];
      }
    }
    assert tuples[..|arr|] == tuples;
  }

  /**
   * One input frame against each (record, value at `accessor`); a record
   * without that value aborts.
   */
  method MatchRecordsAt(frame: Frame, args: seq<Expression>, arr: seq<Json.Json>, accessor: seq<string>)
    returns (r: Option<seq<Frame>>)
    requires |args| == 2
    ensures r.None? <==> Collect(arr, RecordTuple(accessor)).None?
    ensures r.Some? ==> r.value == MatchTuples(frame, Matcher(args), Collect(arr, RecordTuple(accessor)).value)
  {
    ghost var step := RecordTuple(accessor);
    var result: seq<Frame> := [];
    for ii := 0 to |arr|
      invariant Collect(arr[..ii], step).Some?
      invariant result == MatchTuples(frame, Matcher(args), Collect(arr[..ii], step).value)
    {
      assert arr[..ii + 1][..ii] == arr[..ii];
      var item := arr[ii];
      var finalValue := AccessSerde(item, accessor);
      if finalValue.None? {
        CollectSome(arr[..ii + 1], step);
        CollectSome(arr, step);
        assert arr[..ii + 1][ii] == arr[ii];
        return None;
      }
      var wrappedItem := Wrap(item);
      var tuple := [wrappedItem, finalValue.value];
      assert step(item) == Some([tuple]);
      ghost var acc := Collect(arr[..ii], step).value;
      assert Collect(arr[..ii + 1], step).value == acc + [tuple];
      assert (acc + [tuple])[..|acc|] == acc;
      var x := IsMatchN(frame, args, tuple);
      assert Matcher(args)(frame, tuple) == x;
      if x.Some? {
        result := result + [x.value];
      }
    }
    assert arr[..|arr|] == arr;
    r := Some(result);
  }

  /** The arguments handed to the built-in, built one by one as `query_global_function` does. */
  method BuildGlobalArgs(args: seq<Expression>) returns (r: Outcome<seq<VarOrValue>>)
    ensures r == GlobalArgs(args)
  {
    var built: seq<VarOrValue> := [];
    for index := 0 to |args|
      invariant GlobalArgs(args[..index]) == Ok(built)
    {
      GlobalArgsStep(args, index, built);
      var arg := args[index];
      if arg.IsVar() {
        built := built + [Var(arg.name)];
      } else {
        var value := arg.TryToValue();
        if value.None? {
          return Panic;
        }
        built := built + [VarOrValue.Value(value.value)];
      }
    }
    assert args[..|args|] == args;
    r := Ok(built);
  }

  /** One more argument of `BuildGlobalArgs`: appended, or a panic of the whole list. */
  lemma GlobalArgsStep(args: seq<Expression>, i: nat, built: seq<VarOrValue>)
    requires i < |args| && GlobalArgs(args[..i]) == Ok(built)
    ensures args[i].Variable? ==> GlobalArgs(args[..i + 1]) == Ok(built + [Var(args[i].name)])
    ensures !args[i].Variable? && args[i].TryToValue().Some? ==>
      GlobalArgs(args[..i + 1]) == Ok(built + [VarOrValue.Value(args[i].TryToValue().value)])
    ensures !args[i].Variable? && args[i].TryToValue().None? ==> GlobalArgs(args).Panic?
  {
    assert args[..i + 1][..i] == args[..i];
    if !args[i].Variable? && args[i].TryToValue().None? {
      GlobalArgsPrefix(args, i + 1);
    }
  }

  /** An argument that panics in a prefix panics for the whole list. */
  lemma GlobalArgsPrefix(args: seq<Expression>, k: nat)
    requires k <= |args| && GlobalArgs(args[..k]).Panic?
    ensures GlobalArgs(args).Panic?
  {
    var i :| 0 <= i < k && !(args[..k][i].Variable? || args[..k][i].TryToValue().Some?);
    assert args[..k][i] == args[i];
  }

  // ---------------------------------------------------------------------
  // What evaluation promises.
  // ---------------------------------------------------------------------

  /** Literals and variables evaluated as goals give nothing. */
  lemma NonCallGoals(prog: QueryProgram, input: seq<Frame>, ast: Expression)
    requires ast.Number? || ast.Str? || ast.Variable?
    ensures prog.Eval(input, ast) == Ok(None)
  {
  }

  /** A locale code as first path segment is answered by the text map alone. */
  lemma LocaleRoutesExclusively(prog: QueryProgram, input: seq<Frame>, path: seq<string>, args: seq<Expression>)
    requires |path| > 0 && path[0] in Locales
    ensures prog.Eval(input, Primary(path, args)) == prog.Locale(input, path, args)
  {
  }

  /** Any other first path segment is answered by `query_simple`. */
  lemma OtherPathsAreSimple(prog: QueryProgram, input: seq<Frame>, path: seq<string>, args: seq<Expression>)
    requires |path| > 0 && path[0] !in Locales
    ensures prog.Eval(input, Primary(path, args)) == prog.Simple(input, path, args)
  {
  }

  /** `&&` stops at a left side without frames: the right side is never evaluated. */
  lemma AndShortCircuits(prog: QueryProgram, input: seq<Frame>, left: Expression, right: Expression)
    requires prog.Eval(input, left) == Ok(None)
    ensures prog.Eval(input, And(left, right)) == Ok(None)
  {
  }

  /** `&&` hands the frames of its left side to its right side. */
  lemma AndThreads(prog: QueryProgram, input: seq<Frame>, left: Expression, right: Expression, mid: seq<Frame>)
    requires prog.Eval(input, left) == Ok(Some(mid))
    ensures prog.Eval(input, And(left, right)) == prog.Eval(mid, right)
  {
  }

  /** `&&` threads frames left to right, so grouping does not matter. */
  lemma AndAssociative(prog: QueryProgram, input: seq<Frame>, a: Expression, b: Expression, c: Expression)
    ensures prog.Eval(input, And(And(a, b), c)) == prog.Eval(input, And(a, And(b, c)))
  {
    match prog.Eval(input, a)
    case Panic =>
    case Ok(None) =>
    case Ok(Some(fa)) =>
      assert prog.Eval(input, And(a, b)) == prog.Eval(fa, b);
      assert prog.Eval(input, And(a, And(b, c))) == prog.Eval(fa, And(b, c));
  }

  /** How `||` combines the outcomes of its two sides. */
  function OrCombine(x: Outcome<Option<seq<Frame>>>, y: Outcome<Option<seq<Frame>>>): Outcome<Option<seq<Frame>>> {
    if x.Panic? || y.Panic? then Panic else Ok(NonEmpty(OrEmpty(x.value) + OrEmpty(y.value)))
  }

  /** An `||` node evaluates both sides from the same frames and combines them. */
  lemma EvalOr(prog: QueryProgram, input: seq<Frame>, left: Expression, right: Expression)
    ensures prog.Eval(input, Or(left, right)) == OrCombine(prog.Eval(input, left), prog.Eval(input, right))
  {
  }

  /** `||` concatenates in order, so grouping does not matter. */
  lemma OrAssociative(prog: QueryProgram, input: seq<Frame>, a: Expression, b: Expression, c: Expression)
    ensures prog.Eval(input, Or(Or(a, b), c)) == prog.Eval(input, Or(a, Or(b, c)))
  {
    EvalOr(prog, input, Or(a, b), c);
    EvalOr(prog, input, a, b);
    EvalOr(prog, input, a, Or(b, c));
    EvalOr(prog, input, b, c);
    OrCombineAssociative(prog.Eval(input, a), prog.Eval(input, b), prog.Eval(input, c));
  }

  lemma OrCombineAssociative(x: Outcome<Option<seq<Frame>>>, y: Outcome<Option<seq<Frame>>>, z: Outcome<Option<seq<Frame>>>)
    ensures OrCombine(OrCombine(x, y), z) == OrCombine(x, OrCombine(y, z))
  {
    if x.Ok? && y.Ok? && z.Ok? {
      assert OrEmpty(x.value) + OrEmpty(y.value) + OrEmpty(z.value) == OrEmpty(x.value) + (OrEmpty(y.value) + OrEmpty(z.value));
    }
  }

  /**
   * `||` yields exactly the frames of either side, the left side's first,
   * and nothing rather than an empty list.
   */
  lemma OrUnion(prog: QueryProgram, input: seq<Frame>, left: Expression, right: Expression, g: Frame)
    requires prog.Eval(input, left).Ok? && prog.Eval(input, right).Ok?
    ensures prog.Eval(input, Or(left, right)).Ok?
    ensures prog.Eval(input, Or(left, right)).value != Some([])
    ensures OrEmpty(prog.Eval(input, Or(left, right)).value)
      == OrEmpty(prog.Eval(input, left).value) + OrEmpty(prog.Eval(input, right).value)
    ensures g in OrEmpty(prog.Eval(input, Or(left, right)).value) <==>
      g in OrEmpty(prog.Eval(input, left).value) || g in OrEmpty(prog.Eval(input, right).value)
  {
  }

  /** `query_simple` finds nothing exactly when no strategy finds a frame. */
  lemma SimpleNoneIff(prog: QueryProgram, input: seq<Frame>, path: seq<string>, args: seq<Expression>)
    requires |path| > 0 && prog.GlobalFunction(input, path, args).Ok?
    ensures prog.Simple(input, path, args) == Ok(None) <==>
      OrEmpty(prog.FileData1(input, path, args)) == [] &&
      OrEmpty(prog.FileDataOther(input, path, args)) == [] &&
      OrEmpty(prog.GlobalFunction(input, path, args).value) == []
  {
  }

  /** A one-argument dataset call yields exactly the (input frame, record) pairs that unify. */
  lemma FileData1Members(prog: QueryProgram, input: seq<Frame>, path: seq<string>, args: seq<Expression>, items: seq<Json.Json>, g: Frame)
    requires |path| > 0 && |args| == 1 && prog.Records(path[0]) == Some(items)
    ensures prog.FileData1(input, path, args).Some?
    ensures g in prog.FileData1(input, path, args).value <==>
      exists i, j :: 0 <= i < |input| && 0 <= j < |items| && IsMatch(input[i], args, [Wrap(items[j])]) == Some(g)
  {
    var ts := SingleTuples(items);
    FrameMajorMember(input, Matcher(args), ts, g);
    if g in prog.FileData1(input, path, args).value {
      var i, j :| 0 <= i < |input| && 0 <= j < |ts| && Matcher(args)(input[i], ts[j]) == Some(g);
      assert IsMatch(input[i], args, [Wrap(items[j])]) == Some(g);
    }
    if exists i, j :: 0 <= i < |input| && 0 <= j < |items| && IsMatch(input[i], args, [Wrap(items[j])]) == Some(g) {
      var i, j :| 0 <= i < |input| && 0 <= j < |items| && IsMatch(input[i], args, [Wrap(items[j])]) == Some(g);
      assert Matcher(args)(input[i], ts[j]) == Some(g);
    }
  }

  /**
   * A dataset with one record lacking the accessed field answers nothing
   * at all to a two-argument call, once there is an input frame.
   */
  lemma FileDataOtherAborts(prog: QueryProgram, input: seq<Frame>, path: seq<string>, args: seq<Expression>, items: seq<Json.Json>, j: nat)
    requires |path| > 0 && |args| == 2 && prog.Records(path[0]) == Some(items)
    requires input != [] && j < |items| && Access(items[j], path[1..]) == None
    ensures prog.FileDataOther(input, path, args) == None
  {
    CollectSome(items, RecordTuple(path[1..]));
    assert RecordTuple(path[1..])(items[j]) == None;
  }

  /** With every record holding the field, a two-argument call pairs each record with that field's value. */
  lemma FileDataOtherMembers(prog: QueryProgram, input: seq<Frame>, path: seq<string>, args: seq<Expression>, items: seq<Json.Json>, g: Frame)
    requires |path| > 0 && |args| == 2 && prog.Records(path[0]) == Some(items) && input != []
    requires forall j :: 0 <= j < |items| ==> Access(items[j], path[1..]).Some?
    ensures prog.FileDataOther(input, path, args).Some?
    ensures g in prog.FileDataOther(input, path, args).value <==>
      exists i, j :: 0 <= i < |input| && 0 <= j < |items| && IsMatch(input[i], args, RecordPair(items[j], path[1..])) == Some(g)
  {
    var ts := FileDataOtherTuples(prog, input, path, args, items);
    if g in prog.FileDataOther(input, path, args).value {
      var i, j := FileDataOtherSound(prog, input, path, args, items, g);
    }
    forall i, j | 0 <= i < |input| && 0 <= j < |items| && IsMatch(input[i], args, RecordPair(items[j], path[1..])) == Some(g)
      ensures g in prog.FileDataOther(input, path, args).value
    {
      FileDataOtherComplete(prog, input, path, args, items, i, j);
    }
  }

  /** With every record holding the field, the two-argument strategy matches the record tuples frame-major. */
  lemma FileDataOtherTuples(prog: QueryProgram, input: seq<Frame>, path: seq<string>, args: seq<Expression>, items: seq<Json.Json>)
    returns (ts: seq<seq<Values.Value>>)
    requires |path| > 0 && |args| == 2 && prog.Records(path[0]) == Some(items) && input != []
    requires forall j :: 0 <= j < |items| ==> Access(items[j], path[1..]).Some?
    ensures Collect(items, RecordTuple(path[1..])) == Some(ts)
    ensures prog.FileDataOther(input, path, args) == Some(FrameMajor(input, Matcher(args), ts))
  {
    CollectSome(items, RecordTuple(path[1..]));
    ts := Collect(items, RecordTuple(path[1..])).value;
  }

  /** Every frame of the two-argument strategy matches one input frame with one record pair. */
  lemma FileDataOtherSound(prog: QueryProgram, input: seq<Frame>, path: seq<string>, args: seq<Expression>, items: seq<Json.Json>, g: Frame)
    returns (i: nat, j: nat)
    requires |path| > 0 && |args| == 2 && prog.Records(path[0]) == Some(items) && input != []
    requires forall j :: 0 <= j < |items| ==> Access(items[j], path[1..]).Some?
    requires prog.FileDataOther(input, path, args).Some? && g in prog.FileDataOther(input, path, args).value
    ensures i < |input| && j < |items| && IsMatch(input[i], args, RecordPair(items[j], path[1..])) == Some(g)
  {
    var ts := FileDataOtherTuples(prog, input, path, args, items);
    var k;
    i, k := FrameMajorSound(input, Matcher(args), ts, g);
    RecordTuplesExact(items, path[1..], ts[k]);
    j :| 0 <= j < |items| && ts[k] == RecordPair(items[j], path[1..]);
  }

  /** Every match of an input frame with a record pair is a frame of the two-argument strategy. */
  lemma FileDataOtherComplete(prog: QueryProgram, input: seq<Frame>, path: seq<string>, args: seq<Expression>, items: seq<Json.Json>, i: nat, j: nat)
    requires |path| > 0 && |args| == 2 && prog.Records(path[0]) == Some(items) && input != []
    requires forall j :: 0 <= j < |items| ==> Access(items[j], path[1..]).Some?
    requires i < |input| && j < |items| && IsMatch(input[i], args, RecordPair(items[j], path[1..])).Some?
    ensures prog.FileDataOther(input, path, args).Some?
    ensures IsMatch(input[i], args, RecordPair(items[j], path[1..])).value in prog.FileDataOther(input, path, args).value
  {
    var ts := FileDataOtherTuples(prog, input, path, args, items);
    var t := RecordPair(items[j], path[1..]);
    RecordTuplesExact(items, path[1..], t);
    var k :| 0 <= k < |ts| && ts[k] == t;
    assert Matcher(args)(input[i], ts[k]) == IsMatch(input[i], args, t);
    FrameMajorComplete(input, Matcher(args), ts, i, k);
  }

  /** A record and the value at `accessor` in it, as the dataset strategy pairs them. */
  function RecordPair(item: Json.Json, accessor: seq<string>): seq<Values.Value>
    requires Access(item, accessor).Some?
  {
    [Wrap(item), Wrap(Access(item, accessor).value)]
  }

  /** The tuples gathered from records that all hold the field are exactly their pairs. */
  lemma RecordTuplesExact(items: seq<Json.Json>, accessor: seq<string>, t: seq<Values.Value>)
    requires forall j :: 0 <= j < |items| ==> Access(items[j], accessor).Some?
    ensures Collect(items, RecordTuple(accessor)).Some?
    ensures t in Collect(items, RecordTuple(accessor)).value <==>
      exists j :: 0 <= j < |items| && t == RecordPair(items[j], accessor)
  {
    CollectSome(items, RecordTuple(accessor));
    CollectMember(items, RecordTuple(accessor), t);
  }

  /** A given key missing from the text map is a panic, not an empty answer. */
  lemma LocaleMissingKeyPanics(prog: QueryProgram, input: seq<Frame>, path: seq<string>, key: string, arg1: Expression, entries: seq<(string, Json.Json)>)
    requires |path| > 0 && prog.LocaleTable(path[0]) == Some(entries)
    requires key !in Json.Keys(entries)
    ensures prog.Locale(input, path, [Str(key), arg1]) == Panic
  {
    var ks := Json.Keys(entries);
    forall i | 0 <= i < |entries|
      ensures entries[i].0 != key
    {
      assert ks[i] == entries[i].0;
    }
  }

  /** The text-map entries the both-free scan visits: those holding non-empty text. */
  lemma EntryTuplesExact(entries: seq<(string, Json.Json)>, t: seq<Values.Value>)
    requires Collect(entries, EntryTuple).Some?
    ensures t in Collect(entries, EntryTuple).value <==>
      exists j :: 0 <= j < |entries| && entries[j].1.Str? && entries[j].1.s != "" &&
        t == [Values.FromString(entries[j].0), Values.FromString(entries[j].1.s)]
  {
    CollectMember(entries, EntryTuple, t);
    if t in Collect(entries, EntryTuple).value {
      var j :| 0 <= j < |entries| && EntryTuple(entries[j]).Some? && t in EntryTuple(entries[j]).value;
      assert entries[j].1.Str? && entries[j].1.s != "";
    }
    forall j | 0 <= j < |entries| && entries[j].1.Str? && entries[j].1.s != "" &&
        t == [Values.FromString(entries[j].0), Values.FromString(entries[j].1.s)]
      ensures t in Collect(entries, EntryTuple).value
    {
      assert EntryTuple(entries[j]) == Some([t]);
    }
  }

  /** The keys the given-text scan reports: exactly those whose text is the given, non-empty text. */
  lemma TextTuplesExact(entries: seq<(string, Json.Json)>, text: string, t: seq<Values.Value>)
    requires Collect(entries, TextTuple(text)).Some?
    ensures t in Collect(entries, TextTuple(text)).value <==>
      exists j :: 0 <= j < |entries| && entries[j].1 == Json.Str(text) && text != "" &&
        t == [Values.FromString(entries[j].0), Values.FromString(text)]
  {
    CollectMember(entries, TextTuple(text), t);
  }

  /** A value that is not text anywhere in the map makes a given-text call answer nothing. */
  lemma TextScanAborts(entries: seq<(string, Json.Json)>, text: string, j: nat)
    requires j < |entries| && !entries[j].1.Str?
    ensures Collect(entries, TextTuple(text)) == None
    ensures Collect(entries, EntryTuple) == None
  {
    CollectSome(entries, TextTuple(text));
    CollectSome(entries, EntryTuple);
    assert TextTuple(text)(entries[j]) == None;
  }

  /** A non-literal, non-variable argument to a registered built-in panics whatever the arity. */
  lemma GlobalBadArgPanics(prog: QueryProgram, input: seq<Frame>, path: seq<string>, args: seq<Expression>, i: nat)
    requires |path| > 0 && prog.genericQuery.Get(path[0]).Some?
    requires i < |args| && (args[i].Primary? || args[i].And? || args[i].Or?)
    ensures prog.GlobalFunction(input, path, args) == Panic
  {
  }

  /** An unregistered name contributes nothing through the built-in strategy. */
  lemma GlobalUnregistered(prog: QueryProgram, input: seq<Frame>, path: seq<string>, args: seq<Expression>)
    requires |path| > 0 && prog.genericQuery.Get(path[0]).None?
    ensures prog.GlobalFunction(input, path, args) == Ok(None)
  {
  }

  /**
   * The program `QueryProgram::default` builds, over a given data directory:
   * `split_by` registered, and the directory read through the cache.
   */
  function DefaultProgram(upper: FileSystem, parseJson: string -> Option<Json.Json>): (p: QueryProgram)
    ensures forall name :: p.genericQuery.Get(name).Some? <==> name == "split_by"
    ensures forall path :: p.fileSystem.read(path) == upper.read(path)
    ensures forall path :: p.fileSystem.readSerde(path) == CachedFs.ReadSerdeThrough(upper, parseJson, path)
  {
    QueryProgram(GenericQueries.Default(), CachedFs.Cached(upper, parseJson), parseJson)
  }

  // ---------------------------------------------------------------------
  // Worked cases.
  // ---------------------------------------------------------------------

  /** A text map in which "K2" holds the empty text. */
  function TextMapWithEmpty(): Json.Json {
    Json.Object([("K1", Json.Str("Hello")), ("K2", Json.Str(""))])
  }

  /** `CHS "K2" ?v`. */
  function AskK2(): Expression {
    Primary(["CHS"], [Str("K2"), Expression.Variable("v", false)])
  }

  /** A file system that serves `TextMapWithEmpty` as the CHS text map, read directly. */
  function RawTextMaps(): FileSystem {
    FileSystem(
      (path: string) => path == LocalePath("CHS"),
      (path: string) => if path == LocalePath("CHS") then Some("chs") else None,
      (path: string) => if path == LocalePath("CHS") then Some(TextMapWithEmpty()) else None)
  }

  /** Read directly, the given key's empty text is bound: v = "". */
  lemma GivenKeyWithEmptyTextRaw(parseJson: string -> Option<Json.Json>)
    ensures QueryProgram(GenericQueries.Default(), RawTextMaps(), parseJson).Eval([Frame.New()], AskK2())
      == Ok(Some([Frame.New().Add("v", Values.FromString(""))]))
  {
    var prog := QueryProgram(GenericQueries.Default(), RawTextMaps(), parseJson);
    var args := [Str("K2"), Expression.Variable("v", false)];
    var t: seq<Values.Value> := [Values.FromString("K2"), Wrap(Json.Str(""))];
    var entries := [("K1", Json.Str("Hello")), ("K2", Json.Str(""))];
    RawTableKeepsK2(parseJson);
    assert Json.Get(entries, "K2") == Some(Json.Str(""));
    EmptyTextFrames();
    LocaleRoutesExclusively(prog, [Frame.New()], ["CHS"], args);
  }

  /** Read directly, the CHS text map keeps both of its entries. */
  lemma RawTableKeepsK2(parseJson: string -> Option<Json.Json>)
    ensures QueryProgram(GenericQueries.Default(), RawTextMaps(), parseJson).LocaleTable("CHS")
      == Some([("K1", Json.Str("Hello")), ("K2", Json.Str(""))])
  {
  }

  /** The one input frame against the tuple ("K2", "") gives the frame with `v` bound to "". */
  lemma EmptyTextFrames()
    ensures MatchFrames([Frame.New()], Matcher([Str("K2"), Expression.Variable("v", false)]), [Values.FromString("K2"), Wrap(Json.Str(""))])
      == [Frame.New().Add("v", Values.FromString(""))]
  {
    EmptyTextMatches();
    assert [Frame.New()][..0] == [];
  }

  /** The tuple ("K2", "") against `"K2" ?v` binds `v` to the empty text. */
  lemma EmptyTextMatches()
    ensures IsMatch(Frame.New(), [Str("K2"), Expression.Variable("v", false)], [Values.FromString("K2"), Wrap(Json.Str(""))])
      == Some(Frame.New().Add("v", Values.FromString("")))
  {
    assert ArgAgrees(Frame.New(), Str("K2"), Values.FromString("K2"));
    assert ArgAgrees(Frame.New(), Expression.Variable("v", false), Wrap(Json.Str("")));
    ValueThenVariableBinds(Frame.New(), Str("K2"), "v", Values.FromString("K2"), Wrap(Json.Str("")));
    assert Wrap(Json.Str("")) == Values.FromString("");
  }

  /** A literal that agrees, then a variable: the match binds the variable alone. */
  lemma ValueThenVariableBinds(f: Frame, e: Expression, b: string, x: Values.Value, y: Values.Value)
    requires !e.Variable? && ArgAgrees(f, e, x) && ArgAgrees(f, Expression.Variable(b, false), y)
    ensures IsMatch(f, [e, Expression.Variable(b, false)], [x, y]) == Some(f.Add(b, y))
  {
    var args := [e, Expression.Variable(b, false)];
    var t := [x, y];
    assert args[..1] == [args[0]] && t[..1] == [t[0]] && args[..1][..0] == [] && t[..1][..0] == [];
    assert forall i :: 0 <= i < 2 ==> ArgAgrees(f, args[i], t[i]);
    assert BindArgs(f, args[..1], t[..1]) == f;
  }

  /**
   * Read through the cache, "K2" has been dropped from the map, and the
   * same query panics at the `unwrap` of the missing key.
   */
  lemma GivenKeyWithEmptyTextCached(upper: FileSystem, parseJson: string -> Option<Json.Json>)
    requires upper.read(LocalePath("CHS")) == Some("chs") && parseJson("chs") == Some(TextMapWithEmpty())
    ensures DefaultProgram(upper, parseJson).Eval([Frame.New()], AskK2()) == Panic
  {
    var prog := DefaultProgram(upper, parseJson);
    var entries := [("K1", Json.Str("Hello"))];
    CachedTableDropsK2(upper, parseJson);
    assert Json.Keys(entries) == ["K1"];
    LocaleRoutesExclusively(prog, [Frame.New()], ["CHS"], AskK2().args);
    LocaleMissingKeyPanics(prog, [Frame.New()], ["CHS"], "K2", Expression.Variable("v", false), entries);
  }

  /** Through the cache, the CHS text map keeps "K1" and has lost "K2". */
  lemma CachedTableDropsK2(upper: FileSystem, parseJson: string -> Option<Json.Json>)
    requires upper.read(LocalePath("CHS")) == Some("chs") && parseJson("chs") == Some(TextMapWithEmpty())
    ensures DefaultProgram(upper, parseJson).LocaleTable("CHS") == Some([("K1", Json.Str("Hello"))])
  {
    var fields := [("K1", Json.Str("Hello")), ("K2", Json.Str(""))];
    assert CachedFs.AllStrings(fields);
    assert fields[..1] == [("K1", Json.Str("Hello"))] && fields[..1][..0] == [];
    assert CachedFs.NonEmptyEntries(fields) == [("K1", Json.Str("Hello"))];
  }

  /** A record of the `Avatar` dataset. */
  function AvatarRecord(): Json.Json {
    Json.Object([("id", Json.Number(Json.Num(1 * Json.Million))), ("nameTextMapHash", Json.Number(Json.Num(500 * Json.Million)))])
  }

  /** A data directory with one avatar and a CHS text map naming hash 500 "Amber". */
  function AvatarData(): FileSystem {
    FileSystem(
      (path: string) => path == DataPath("Avatar") || path == LocalePath("CHS"),
      (path: string) => if path == DataPath("Avatar") then Some("avatars") else None,
      (path: string) => if path == LocalePath("CHS") then Some(Json.Object([("500", Json.Str("Amber"))])) else None)
  }

  /** `Avatar.nameTextMapHash ?a ?h`. */
  function AskHash(): Expression {
    Primary(["Avatar", "nameTextMapHash"], [Expression.Variable("a", false), Expression.Variable("h", false)])
  }

  /** `CHS ?h ?name`. */
  function AskName(): Expression {
    Primary(["CHS"], [Expression.Variable("h", false), Expression.Variable("name", false)])
  }

  /** The frame after the dataset step: a is the record, h its hash field. */
  function AfterHash(): Frame {
    Frame.New().Add("a", Wrap(AvatarRecord())).Add("h", Wrap(Json.Number(Json.Num(500 * Json.Million))))
  }

  /** The dataset step binds the record and its numeric hash field. */
  lemma AvatarHashStep(parseJson: string -> Option<Json.Json>)
    requires parseJson("avatars") == Some(Json.Array([AvatarRecord()]))
    ensures QueryProgram(GenericQueries.Default(), AvatarData(), parseJson).Eval([Frame.New()], AskHash()) == Ok(Some([AfterHash()]))
  {
    var prog := QueryProgram(GenericQueries.Default(), AvatarData(), parseJson);
    var path, args := AskHash().predicatePath, AskHash().args;
    assert AskHash() == Primary(path, args) && path == ["Avatar", "nameTextMapHash"];
    assert path[0] !in Locales;
    OtherPathsAreSimple(prog, [Frame.New()], path, args);
    AvatarSimple(parseJson);
  }

  /** Of the three strategies only the two-argument one answers `Avatar.nameTextMapHash ?a ?h`. */
  lemma AvatarSimple(parseJson: string -> Option<Json.Json>)
    requires parseJson("avatars") == Some(Json.Array([AvatarRecord()]))
    ensures QueryProgram(GenericQueries.Default(), AvatarData(), parseJson).Simple([Frame.New()], AskHash().predicatePath, AskHash().args)
      == Ok(Some([AfterHash()]))
  {
    var prog := QueryProgram(GenericQueries.Default(), AvatarData(), parseJson);
    var path := AskHash().predicatePath;
    var args := AskHash().args;
    AvatarRecordPaired(parseJson);
    assert prog.genericQuery.Get("Avatar") == None;
    OnlyFileDataOther(prog, [Frame.New()], path, args);
  }

  /** With two arguments and no built-in of that name, `query_simple` is the two-argument strategy. */
  lemma OnlyFileDataOther(prog: QueryProgram, input: seq<Frame>, path: seq<string>, args: seq<Expression>)
    requires |path| > 0 && |args| == 2 && prog.genericQuery.Get(path[0]) == None
    ensures prog.Simple(input, path, args) == Ok(NonEmpty(OrEmpty(prog.FileDataOther(input, path, args))))
  {
    assert prog.FileData1(input, path, args) == None;
    assert prog.GlobalFunction(input, path, args) == Ok(None);
    var other := OrEmpty(prog.FileDataOther(input, path, args));
    assert [] + other + [] == other;
  }

  /** The two-argument strategy pairs the one record with its hash field. */
  lemma AvatarRecordPaired(parseJson: string -> Option<Json.Json>)
    requires parseJson("avatars") == Some(Json.Array([AvatarRecord()]))
    ensures QueryProgram(GenericQueries.Default(), AvatarData(), parseJson).FileDataOther([Frame.New()], AskHash().predicatePath, AskHash().args)
      == Some([AfterHash()])
  {
    var prog := QueryProgram(GenericQueries.Default(), AvatarData(), parseJson);
    var path := AskHash().predicatePath;
    assert prog.Records("Avatar") == Some([AvatarRecord()]);
    assert path[1..] == ["nameTextMapHash"];
    AvatarHashTuples();
    AvatarTupleMatches();
    OneFrameOneTuple(Frame.New(), Matcher(AskHash().args), AvatarHashTuple());
  }

  /** The record of the avatar paired with its hash field. */
  function AvatarHashTuple(): seq<Values.Value> {
    [Wrap(AvatarRecord()), Wrap(Json.Number(Json.Num(500 * Json.Million)))]
  }

  /** Gathering over the one record yields the one (record, hash) tuple. */
  lemma AvatarHashTuples()
    ensures Collect([AvatarRecord()], RecordTuple(["nameTextMapHash"])) == Some([AvatarHashTuple()])
  {
    var rec := AvatarRecord();
    AvatarHashField();
    var items := [rec];
    assert items[..0] == [];
    assert RecordTuple(["nameTextMapHash"])(rec) == Some([AvatarHashTuple()]);
    assert [] + [AvatarHashTuple()] == [AvatarHashTuple()];
  }

  /** The hash field of the avatar's record. */
  lemma AvatarHashField()
    ensures Access(AvatarRecord(), ["nameTextMapHash"]) == Some(Json.Number(Json.Num(500 * Json.Million)))
  {
    var rec := AvatarRecord();
    var hash := Json.Number(Json.Num(500 * Json.Million));
    assert Json.Get(rec.fields, "nameTextMapHash") == Some(hash);
    assert ["nameTextMapHash"][1..] == [];
  }

  /** One input frame against one tuple yields the frame of that match, if any. */
  lemma OneFrameOneTuple(f: Frame, m: (Frame, seq<Values.Value>) -> Option<Frame>, t: seq<Values.Value>)
    ensures FrameMajor([f], m, [t]) == Found(m(f, t))
  {
    var ts: seq<seq<Values.Value>> := [t];
    var fs: seq<Frame> := [f];
    assert ts[..0] == [] && fs[..0] == [];
    assert MatchTuples(f, m, ts) == [] + Found(m(f, t));
    assert FrameMajor(fs, m, ts) == [] + MatchTuples(f, m, ts);
  }

  /** Two variable arguments bind their values left to right when both agree with the frame. */
  lemma TwoVariablesBind(f: Frame, a: string, b: string, x: Values.Value, y: Values.Value)
    requires ArgAgrees(f, Expression.Variable(a, false), x) && ArgAgrees(f, Expression.Variable(b, false), y)
    ensures IsMatch(f, [Expression.Variable(a, false), Expression.Variable(b, false)], [x, y]) == Some(f.Add(a, x).Add(b, y))
  {
    var args := [Expression.Variable(a, false), Expression.Variable(b, false)];
    var t := [x, y];
    assert args[..1] == [args[0]] && t[..1] == [t[0]] && args[..1][..0] == [] && t[..1][..0] == [];
    assert forall i :: 0 <= i < 2 ==> ArgAgrees(f, args[i], t[i]);
    assert BindArgs(f, args[..1], t[..1]) == f.Add(a, x);
  }

  /** `?a ?h` against (record, 500) from the empty frame. */
  lemma AvatarTupleMatches()
    ensures IsMatch(Frame.New(), AskHash().args, [Wrap(AvatarRecord()), Wrap(Json.Number(Json.Num(500 * Json.Million)))]) == Some(AfterHash())
  {
    TwoVariablesBind(Frame.New(), "a", "h", Wrap(AvatarRecord()), Wrap(Json.Number(Json.Num(500 * Json.Million))));
  }

  /** The tuple the CHS text map of `AvatarData` gives: ("500", "Amber"). */
  function AmberTuple(): seq<Values.Value> {
    [Values.FromString("500"), Values.FromString("Amber")]
  }

  /** The frame after the text-map step. */
  function AfterName(): Frame {
    AfterHash().Add("h", Values.FromString("500")).Add("name", Values.FromString("Amber"))
  }

  /** Both arguments of `CHS ?h ?name` are variables; the one entry gives one tuple. */
  lemma AvatarNameTuples(parseJson: string -> Option<Json.Json>)
    ensures QueryProgram(GenericQueries.Default(), AvatarData(), parseJson).LocaleTable("CHS") == Some([("500", Json.Str("Amber"))])
    ensures Collect([("500", Json.Str("Amber"))], EntryTuple) == Some([AmberTuple()])
  {
    var entries := [("500", Json.Str("Amber"))];
    var t := AmberTuple();
    assert entries[..0] == [];
    assert Collect(entries[..0], EntryTuple) == Some([]);
    assert EntryTuple(entries[0]) == Some([t]);
    assert [] + [t] == [t];
  }

  /**
   * The number 500 bound to h agrees with the key "500" (their hashes are
   * equal), so h is rebound to the text and name is bound.
   */
  lemma AvatarNameMatches()
    ensures IsMatch(AfterHash(), AskName().args, AmberTuple()) == Some(AfterName())
  {
    FiveHundredLikeText();
    assert AfterHash().Get("h") == Some(Values.FromNumber(Json.Num(500 * Json.Million)));
    assert AfterHash().Get("name") == None;
    TwoVariablesBind(AfterHash(), "h", "name", Values.FromString("500"), Values.FromString("Amber"));
  }

  /** The number 500 hashes like the text "500". */
  lemma FiveHundredLikeText()
    ensures Values.FromNumber(Json.Num(500 * Json.Million)).hash == Values.FromString("500").hash
  {
    Values.IntegralNumberLikeString(500);
    assert Json.NatText(5) == "5";
    assert Json.NatText(50) == "50";
    assert Json.NatText(500) == "500";
  }

  /** The text-map step, evaluated from the frame the dataset step produced. */
  lemma AvatarNameStep(parseJson: string -> Option<Json.Json>)
    ensures QueryProgram(GenericQueries.Default(), AvatarData(), parseJson).Eval([AfterHash()], AskName()) == Ok(Some([AfterName()]))
  {
    AvatarNameLocale(parseJson);
  }

  /** The text-map lookup of the `CHS` table from the frame the dataset step produced. */
  lemma AvatarNameLocale(parseJson: string -> Option<Json.Json>)
    ensures QueryProgram(GenericQueries.Default(), AvatarData(), parseJson).Locale([AfterHash()], ["CHS"], AskName().args)
      == Ok(Some([AfterName()]))
  {
    AvatarNameTuples(parseJson);
    AvatarNameFrames();
  }

  /** The one frame against the one `CHS` tuple gives the named frame. */
  lemma AvatarNameFrames()
    ensures FrameMajor([AfterHash()], Matcher(AskName().args), [AmberTuple()]) == [AfterName()]
  {
    AvatarNameMatches();
    OneFrameOneTuple(AfterHash(), Matcher(AskName().args), AmberTuple());
  }

  /** `Avatar.nameTextMapHash ?a ?h && CHS ?h ?name` names the avatar "Amber". */
  lemma AvatarJoin(parseJson: string -> Option<Json.Json>)
    requires parseJson("avatars") == Some(Json.Array([AvatarRecord()]))
    ensures QueryProgram(GenericQueries.Default(), AvatarData(), parseJson).Eval([Frame.New()], And(AskHash(), AskName()))
      == Ok(Some([AfterName()]))
    ensures AfterName().Get("name") == Some(Values.FromString("Amber"))
  {
    var prog := QueryProgram(GenericQueries.Default(), AvatarData(), parseJson);
    AvatarHashStep(parseJson);
    AvatarNameStep(parseJson);
    AndThreads(prog, [Frame.New()], AskHash(), AskName(), [AfterHash()]);
  }
}
