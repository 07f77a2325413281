/**
 * The `split_by` built-in (src/query/generic_queries/split_by.rs): the
 * relation `a + b + c == d` over the loose texts of four arguments. For each
 * input frame it counts the arguments still free after looking them up in
 * the frame and runs one algorithm per count.
 *
 * Strings are sequences of characters, so the byte-index slicing of the
 * source never meets a character boundary here.
 */
module SplitBy {
  import opened Wrappers
  import opened Json
  import Values
  import opened Frames
  import opened GenericQuery

  // ---------------------------------------------------------------------
  // Helpers shared by the modes.
  // ---------------------------------------------------------------------

  /** `args[i].as_value()?.as_loose_string()?`. */
  function Loose(a: VarOrValue): (r: Option<string>)
    ensures r.Some? ==> !a.IsVar()
  {
    match a
    case Value(v) => v.AsLooseString()
    case Var(_) => None
  }

  predicate StartsWith(s: string, prefix: string) {
    |prefix| <= |s| && s[..|prefix|] == prefix
  }

  predicate EndsWith(s: string, suffix: string) {
    |suffix| <= |s| && s[|s| - |suffix|..] == suffix
  }

  /** The first free argument at or after `from`; 0 when there is none. */
  function FirstVar(args: seq<VarOrValue>, from: nat): (k: nat)
    ensures (k == 0 && forall i :: from <= i < |args| ==> !args[i].IsVar()) ||
            (from <= k < |args| && args[k].IsVar() && forall i :: from <= i < k ==> !args[i].IsVar())
    decreases |args| - from
  {
    if from >= |args| then 0
    else if args[from].IsVar() then from
    else FirstVar(args, from + 1)
  }

  /** `needle` occurs in `hay` starting at `i`. */
  predicate OccursAt(hay: string, needle: string, i: nat) {
    i + |needle| <= |hay| && hay[i..i + |needle|] == needle
  }

  /**
   * `match_indices`: the start of every match of `needle` in `hay` at or after
   * `from`, leftmost first and not overlapping; an empty needle matches at
   * every position, the end included.
   */
  function MatchIndices(hay: string, needle: string, from: nat): (r: seq<nat>)
    ensures forall k :: 0 <= k < |r| ==> from <= r[k] && OccursAt(hay, needle, r[k])
    decreases |hay| + 1 - from
  {
    if from + |needle| > |hay| then []
    else if hay[from..from + |needle|] == needle then
      [from] + MatchIndices(hay, needle, from + if needle == [] then 1 else |needle|)
    else MatchIndices(hay, needle, from + 1)
  }

  /** Each index lies at least `width` past the one before it. */
  predicate Ascending(r: seq<nat>, width: nat) {
    forall k :: 0 <= k < |r| - 1 ==> r[k] + width <= r[k + 1] && r[k] < r[k + 1]
  }

  /** Putting a small enough index in front keeps the indices ascending. */
  lemma AscendingCons(x: nat, rest: seq<nat>, width: nat)
    requires Ascending(rest, width)
    requires rest != [] ==> x + width <= rest[0] && x < rest[0]
    ensures Ascending([x] + rest, width)
  {
    var r := [x] + rest;
    forall k | 0 <= k < |r| - 1
      ensures r[k] + width <= r[k + 1] && r[k] < r[k + 1]
    {
      assert r[k + 1] == rest[k];
      if k > 0 {
        assert r[k] == rest[k - 1];
      }
    }
  }

  /** The indices ascend, and the occurrences they start never overlap. */
  lemma {:induction false} MatchIndicesAscend(hay: string, needle: string, from: nat)
    ensures Ascending(MatchIndices(hay, needle, from), |needle|)
    decreases |hay| + 1 - from
  {
    if from + |needle| > |hay| {
      assert MatchIndices(hay, needle, from) == [];
    } else if hay[from..from + |needle|] == needle {
      var next := from + if needle == [] then 1 else |needle|;
      MatchIndicesAscend(hay, needle, next);
      var rest := MatchIndices(hay, needle, next);
      AscendingCons(from, rest, |needle|);
      assert MatchIndices(hay, needle, from) == [from] + rest;
    } else {
      MatchIndicesAscend(hay, needle, from + 1);
      assert MatchIndices(hay, needle, from) == MatchIndices(hay, needle, from + 1);
    }
  }

  /** How far the search moves past a match. */
  function Stride(needle: string): nat {
    if needle == [] then 1 else |needle|
  }

  /** No index of `r` before `i` reaches into the match at `i`. */
  predicate Uncovered(r: seq<nat>, i: nat, step: nat) {
    forall j :: j in r && j < i ==> j + step <= i
  }

  /** Dropping the first index keeps `i` uncovered, and the first index lies a stride before `i`. */
  lemma UncoveredTail(x: nat, rest: seq<nat>, i: nat, step: nat)
    requires Uncovered([x] + rest, i, step) && x < i
    ensures x + step <= i && Uncovered(rest, i, step)
  {
    assert x in [x] + rest;
    forall j | j in rest && j < i
      ensures j + step <= i
    {
      assert j in [x] + rest;
    }
  }

  /**
   * No occurrence is skipped unless an earlier reported one covers it: an
   * occurrence at `i` that no reported index before it reaches into is
   * reported itself.
   */
  lemma {:induction false} MatchIndicesComplete(hay: string, needle: string, from: nat, i: nat)
    requires from <= i && OccursAt(hay, needle, i)
    requires Uncovered(MatchIndices(hay, needle, from), i, Stride(needle))
    ensures i in MatchIndices(hay, needle, from)
    decreases |hay| + 1 - from
  {
    if i == from {
      MatchAtFrom(hay, needle, from);
      InHead(from, MatchIndices(hay, needle, from + Stride(needle)));
    } else if OccursAt(hay, needle, from) {
      SkipMatch(hay, needle, from, i);
      MatchIndicesComplete(hay, needle, from + Stride(needle), i);
      TailReported(hay, needle, from, i);
    } else {
      NoMatchAtFrom(hay, needle, from, i);
      MatchIndicesComplete(hay, needle, from + 1, i);
      SkipReported(hay, needle, from, i);
    }
  }

  /** A reported index of the search a stride past a match is reported from the match on. */
  lemma TailReported(hay: string, needle: string, from: nat, i: nat)
    requires OccursAt(hay, needle, from) && i in MatchIndices(hay, needle, from + Stride(needle))
    ensures i in MatchIndices(hay, needle, from)
  {
    MatchAtFrom(hay, needle, from);
    InTail(from, MatchIndices(hay, needle, from + Stride(needle)), i);
  }

  /** A reported index of the search one step on is reported from a position without a match. */
  lemma SkipReported(hay: string, needle: string, from: nat, i: nat)
    requires from < i && OccursAt(hay, needle, i) && !OccursAt(hay, needle, from)
    requires i in MatchIndices(hay, needle, from + 1)
    ensures i in MatchIndices(hay, needle, from)
  {
    NoMatchAtFrom(hay, needle, from, i);
  }

  /** Past a match at `from` before `i`, the search resumes at or before `i`, with `i` still uncovered. */
  lemma SkipMatch(hay: string, needle: string, from: nat, i: nat)
    requires from < i && OccursAt(hay, needle, from)
    requires Uncovered(MatchIndices(hay, needle, from), i, Stride(needle))
    ensures from + Stride(needle) <= i
    ensures Uncovered(MatchIndices(hay, needle, from + Stride(needle)), i, Stride(needle))
    ensures MatchIndices(hay, needle, from) == [from] + MatchIndices(hay, needle, from + Stride(needle))
  {
    MatchAtFrom(hay, needle, from);
    UncoveredTail(from, MatchIndices(hay, needle, from + Stride(needle)), i, Stride(needle));
  }

  lemma InHead(x: nat, rest: seq<nat>)
    ensures x in [x] + rest
  {
    assert ([x] + rest)[0] == x;
  }

  lemma InTail(x: nat, rest: seq<nat>, i: nat)
    requires i in rest
    ensures i in [x] + rest
  {
  }

  /** An occurrence at `from` is reported first, followed by the search a stride on. */
  lemma MatchAtFrom(hay: string, needle: string, from: nat)
    requires OccursAt(hay, needle, from)
    ensures MatchIndices(hay, needle, from) == [from] + MatchIndices(hay, needle, from + Stride(needle))
  {
  }

  /** Without an occurrence at `from`, but with one further on, the search moves one step. */
  lemma NoMatchAtFrom(hay: string, needle: string, from: nat, i: nat)
    requires from < i && OccursAt(hay, needle, i) && !OccursAt(hay, needle, from)
    ensures MatchIndices(hay, needle, from) == MatchIndices(hay, needle, from + 1)
    ensures forall step :: Uncovered(MatchIndices(hay, needle, from), i, step) ==> Uncovered(MatchIndices(hay, needle, from + 1), i, step)
  {
  }

  /** The first occurrence at or after `from` is always reported. */
  lemma FirstOccurrenceReported(hay: string, needle: string, from: nat, i: nat)
    requires from <= i && OccursAt(hay, needle, i)
    requires forall j :: from <= j < i ==> !OccursAt(hay, needle, j)
    ensures i in MatchIndices(hay, needle, from)
  {
    var r := MatchIndices(hay, needle, from);
    forall k | 0 <= k < |r|
      ensures i <= r[k]
    {
      assert from <= r[k] && OccursAt(hay, needle, r[k]);
    }
    MatchIndicesComplete(hay, needle, from, i);
  }

  /** `frame.clone()` with `n1 := left`, then `n2 := right`. */
  function Bind2(frame: Frame, n1: string, left: string, n2: string, right: string): Frame {
    frame.Add(n1, Values.FromString(left)).Add(n2, Values.FromString(right))
  }

  /** One frame per split point of `remain`, in increasing order of the point. */
  function SplitFrames(frame: Frame, n1: string, n2: string, remain: string): (r: seq<Frame>)
    ensures |r| == |remain| + 1
  {
    seq(|remain| + 1, k requires 0 <= k <= |remain| => Bind2(frame, n1, remain[..k], n2, remain[k..]))
  }

  /** One frame per match of `middle` in `all`, binding what lies before and after it. */
  function OccurrenceFrames(frame: Frame, n1: string, n2: string, all: string, middle: string): (r: seq<Frame>)
    ensures |r| == |MatchIndices(all, middle, 0)|
  {
    var idx := MatchIndices(all, middle, 0);
    seq(|idx|, k requires 0 <= k < |idx| => Bind2(frame, n1, all[..idx[k]], n2, all[idx[k] + |middle|..]))
  }

  /** The frame for the split indices `i1 <= i2` of `all`. */
  function Bind3(frame: Frame, names: (string, string, string), all: string, i1: nat, i2: nat): Frame
    requires i1 <= i2 <= |all|
  {
    frame.Add(names.0, Values.FromString(all[..i1]))
         .Add(names.1, Values.FromString(all[i1..i2]))
         .Add(names.2, Values.FromString(all[i2..]))
  }

  /** The frames for first index `i1` and every second index `i1 <= i2 <= |all|`. */
  function Row(frame: Frame, names: (string, string, string), all: string, i1: nat): (r: seq<Frame>)
    requires i1 <= |all|
    ensures |r| == |all| - i1 + 1
  {
    seq(|all| - i1 + 1, j requires 0 <= j <= |all| - i1 => Bind3(frame, names, all, i1, i1 + j))
  }

  /** The rows for first indices `0 .. rows - 1`, in that order. */
  function Rows(frame: Frame, names: (string, string, string), all: string, rows: nat): seq<Frame>
    requires rows <= |all| + 1
  {
    if rows == 0 then [] else Rows(frame, names, all, rows - 1) + Row(frame, names, all, rows - 1)
  }

  // ---------------------------------------------------------------------
  // The four modes.
  // ---------------------------------------------------------------------

  /** `query_var0`: every argument bound; the frame survives iff `a + b + c == d`. */
  function QueryVar0(frame: Frame, args: seq<VarOrValue>): (r: Option<seq<Frame>>)
    requires |args| == 4
    ensures r.Some? <==>
      Loose(args[0]).Some? && Loose(args[1]).Some? && Loose(args[2]).Some? && Loose(args[3]).Some? &&
      Loose(args[0]).value + Loose(args[1]).value + Loose(args[2]).value == Loose(args[3]).value
    ensures r.Some? ==> r.value == [frame]
  {
    match (Loose(args[0]), Loose(args[1]), Loose(args[2]), Loose(args[3]))
    case (Some(a), Some(b), Some(c), Some(d)) => if a + b + c == d then Some([frame]) else None
    case _ => None
  }

  /** What `query_var1` computes: the one free argument solved in closed form. */
  function Var1(frame: Frame, args: seq<VarOrValue>): Outcome<Option<seq<Frame>>>
    requires |args| == 4
  {
    var vi := FirstVar(args, 0);
    match args[vi].GetVarName()
    case None => Ok(None)
    case Some(name) =>
      if vi == 0 then
        match (Loose(args[1]), Loose(args[2]), Loose(args[3]))
        case (Some(b), Some(c), Some(all)) => SolveFirst(frame, name, b + c, all)
        case _ => Ok(None)
      else if vi == 1 then
        match (Loose(args[0]), Loose(args[2]), Loose(args[3]))
        case (Some(leading), Some(trailing), Some(all)) => SolveMiddle(frame, name, leading, trailing, all)
        case _ => Ok(None)
      else if vi == 2 then
        match (Loose(args[0]), Loose(args[1]), Loose(args[3]))
        case (Some(a), Some(b), Some(all)) => SolveLast(frame, name, a + b, all)
        case _ => Ok(None)
      else
        match (Loose(args[0]), Loose(args[1]), Loose(args[2]))
        case (Some(a), Some(b), Some(c)) => Ok(Some([frame.Add(name, Values.FromString(a + b + c))]))
        case _ => Ok(None)
  }

  /** `a` free: what precedes `trailing` (`b + c`) at the end of `all`. */
  function SolveFirst(frame: Frame, name: string, trailing: string, all: string): Outcome<Option<seq<Frame>>> {
    if !EndsWith(all, trailing) then Ok(None)
    else Ok(Some([frame.Add(name, Values.FromString(all[..|all| - |trailing|]))]))
  }

  /** `b` free: what lies between `leading` and `trailing` in `all`. */
  function SolveMiddle(frame: Frame, name: string, leading: string, trailing: string, all: string): Outcome<Option<seq<Frame>>> {
    if !StartsWith(all, leading) then Ok(None)
    else if !EndsWith(all, trailing) then Ok(None)
    // the slice `all[leading.len()..all.len() - trailing.len()]` with start > end
    else if |leading| > |all| - |trailing| then Panic
    else Ok(Some([frame.Add(name, Values.FromString(all[|leading|..|all| - |trailing|]))]))
  }

  /** `c` free: what follows `leading` (`a + b`) at the start of `all`. */
  function SolveLast(frame: Frame, name: string, leading: string, all: string): Outcome<Option<seq<Frame>>> {
    if !StartsWith(all, leading) then Ok(None)
    else Ok(Some([frame.Add(name, Values.FromString(all[|leading|..]))]))
  }

  /** What `query_var2` computes: two free arguments, enumerated. */
  function Var2(frame: Frame, args: seq<VarOrValue>): Outcome<Option<seq<Frame>>>
    requires |args| == 4
  {
    var i1 := FirstVar(args, 0);
    var i2 := if args[i1].IsVar() then FirstVar(args, i1 + 1) else 0;
    match (args[i1].GetVarName(), args[i2].GetVarName())
    case (Some(n1), Some(n2)) =>
      // split_by.rs:142, the whole `d` among the free arguments
      if i2 == 3 then Panic
      else (
        match Loose(args[3])
        case None => Ok(None)
        case Some(all) =>
          if i1 == 0 && i2 == 1 then
            match Loose(args[2])
            case None => Ok(None)
            case Some(end) =>
              if !EndsWith(all, end) then Ok(None)
              else Ok(Some(SplitFrames(frame, n1, n2, all[..|all| - |end|])))
          else if i1 == 0 && i2 == 2 then
            match Loose(args[1])
            case None => Ok(None)
            case Some(middle) => Ok(Some(OccurrenceFrames(frame, n1, n2, all, middle)))
          else if i1 == 1 && i2 == 2 then
            match Loose(args[0])
            case None => Ok(None)
            case Some(start) =>
              if !StartsWith(all, start) then Ok(None)
              else Ok(Some(SplitFrames(frame, n1, n2, all[|start|..])))
          else Ok(Some([])))
    case _ => Ok(None)
  }

  /** What `query_var3` computes: `a`, `b`, `c` free, every pair of split indices. */
  function Var3(frame: Frame, args: seq<VarOrValue>): Outcome<Option<seq<Frame>>>
    requires |args| == 4
  {
    // split_by.rs:150
    if args[3].IsVar() then Panic
    else
      match (args[0].GetVarName(), args[1].GetVarName(), args[2].GetVarName(), Loose(args[3]))
      case (Some(n1), Some(n2), Some(n3), Some(all)) => Ok(Some(Rows(frame, (n1, n2, n3), all, |all| + 1)))
      case _ => Ok(None)
  }

  /** What the loop body of `query` contributes for one input frame. */
  function PerFrame(frame: Frame, args: seq<VarOrValue>): Outcome<seq<Frame>>
    requires |args| == 4
  {
    var newArgs := MatchAllInFrame(args, frame);
    var count := VarCount(newArgs);
    var r :=
      if count == 0 then Ok(QueryVar0(frame, newArgs))
      else if count == 1 then Var1(frame, newArgs)
      else if count == 2 then Var2(frame, newArgs)
      else if count == 3 then Var3(frame, newArgs)
      // split_by.rs:201, all four free
      else Panic;
    match r
    case Panic => Panic
    case Ok(o) => Ok(if o.Some? then o.value else [])
  }

  /** Combines the outcomes of two runs over consecutive input frames. */
  function Concat(x: Outcome<seq<Frame>>, y: Outcome<seq<Frame>>): Outcome<seq<Frame>> {
    match (x, y)
    case (Ok(l1), Ok(l2)) => Ok(l1 + l2)
    case _ => Panic
  }

  /** The runs of `g` over the input frames, combined in input order. */
  function ConcatMap(input: seq<Frame>, g: Frame -> Outcome<seq<Frame>>): Outcome<seq<Frame>> {
    if input == [] then Ok([]) else Concat(ConcatMap(input[..|input| - 1], g), g(input[|input| - 1]))
  }

  /** The per-frame step of `query` as a function. */
  function Contribution(args: seq<VarOrValue>): Frame -> Outcome<seq<Frame>>
    requires |args| == 4
  {
    f => PerFrame(f, args)
  }

  /** The frames of all input frames, each frame's results in turn. */
  function QueryFrames(input: seq<Frame>, args: seq<VarOrValue>): Outcome<seq<Frame>>
    requires |args| == 4
  {
    ConcatMap(input, Contribution(args))
  }

  /** What `query` computes: `None` exactly when the arity is not 4. */
  function QuerySpec(input: seq<Frame>, args: seq<VarOrValue>): (r: Outcome<Option<seq<Frame>>>)
    ensures r == Ok(None) <==> |args| != 4
  {
    if |args| != 4 then Ok(None)
    else
      match QueryFrames(input, args)
      case Ok(l) => Ok(Some(l))
      case Panic => Panic
  }

  lemma ConcatAssociative(x: Outcome<seq<Frame>>, y: Outcome<seq<Frame>>, z: Outcome<seq<Frame>>)
    ensures Concat(Concat(x, y), z) == Concat(x, Concat(y, z))
  {
    if x.Ok? && y.Ok? && z.Ok? {
      assert x.value + y.value + z.value == x.value + (y.value + z.value);
    }
  }

  lemma ConcatEmpty(x: Outcome<seq<Frame>>)
    ensures Concat(x, Ok([])) == x && Concat(Ok([]), x) == x
  {
    if x.Ok? {
      assert x.value + [] == x.value;
      assert [] + x.value == x.value;
    }
  }

  lemma {:induction false} ConcatMapAppend(a: seq<Frame>, b: seq<Frame>, g: Frame -> Outcome<seq<Frame>>)
    ensures ConcatMap(a + b, g) == Concat(ConcatMap(a, g), ConcatMap(b, g))
    decreases |b|
  {
    if b == [] {
      assert a + b == a;
      ConcatEmpty(ConcatMap(a, g));
    } else {
      var n := |b|;
      assert (a + b)[..|a + b| - 1] == a + b[..n - 1];
      assert (a + b)[|a + b| - 1] == b[n - 1];
      ConcatMapAppend(a, b[..n - 1], g);
      ConcatAssociative(ConcatMap(a, g), ConcatMap(b[..n - 1], g), g(b[n - 1]));
    }
  }

  /**
   * The output is grouped by input frame, in input order: running over
   * `a + b` is running over `a`, then over `b`; a panic anywhere is a panic.
   */
  lemma QueryFramesAppend(a: seq<Frame>, b: seq<Frame>, args: seq<VarOrValue>)
    requires |args| == 4
    ensures QueryFrames(a + b, args) == Concat(QueryFrames(a, args), QueryFrames(b, args))
  {
    ConcatMapAppend(a, b, Contribution(args));
  }

  /** One more input frame: its results are appended, or its panic is the panic of the whole run. */
  lemma QueryFramesStep(input: seq<Frame>, args: seq<VarOrValue>, i: nat, result: seq<Frame>)
    requires |args| == 4 && i < |input| && QueryFrames(input[..i], args) == Ok(result)
    ensures PerFrame(input[i], args).Ok? ==> QueryFrames(input[..i + 1], args) == Ok(result + PerFrame(input[i], args).value)
    ensures PerFrame(input[i], args).Panic? ==> QueryFrames(input, args) == Panic
  {
    assert input[..i + 1] == input[..i] + [input[i]];
    QueryFramesAppend(input[..i], [input[i]], args);
    QueryFramesSingle(input[i], args);
    if PerFrame(input[i], args).Panic? {
      QueryFramesPanicPrefix(input, args, i + 1);
    }
  }

  /** A panic over a prefix of the input is a panic over all of it. */
  lemma QueryFramesPanicPrefix(input: seq<Frame>, args: seq<VarOrValue>, k: nat)
    requires |args| == 4 && k <= |input| && QueryFrames(input[..k], args) == Panic
    ensures QueryFrames(input, args) == Panic
  {
    assert input == input[..k] + input[k..];
    QueryFramesAppend(input[..k], input[k..], args);
  }

  /** One input frame contributes exactly its own results. */
  lemma QueryFramesSingle(f: Frame, args: seq<VarOrValue>)
    requires |args| == 4
    ensures QueryFrames([f], args) == PerFrame(f, args)
  {
    var g := Contribution(args);
    assert [f][..0] == [] && [f][0] == f;
    assert ConcatMap([f], g) == Concat(ConcatMap([], g), g(f));
    assert ConcatMap([], g) == Ok([]);
    assert g(f) == PerFrame(f, args);
    ConcatEmpty(PerFrame(f, args));
  }

  // ---------------------------------------------------------------------
  // What the modes promise.
  // ---------------------------------------------------------------------

  /** The arguments, looked up in `g`, all have loose texts with `a + b + c == d`. */
  predicate Satisfied(args: seq<VarOrValue>, g: Frame)
    requires |args| == 4
  {
    var na := MatchAllInFrame(args, g);
    Loose(na[0]).Some? && Loose(na[1]).Some? && Loose(na[2]).Some? && Loose(na[3]).Some? &&
    Loose(na[0]).value + Loose(na[1]).value + Loose(na[2]).value == Loose(na[3]).value
  }

  /** `g` keeps every binding of `f`. */
  ghost predicate Extends(g: Frame, f: Frame) {
    forall n :: f.Get(n).Some? ==> g.Get(n) == f.Get(n)
  }

  /** No variable name occurs at two positions. */
  predicate DistinctVars(args: seq<VarOrValue>) {
    forall i, j :: 0 <= i < j < |args| && args[i].IsVar() && args[j].IsVar() ==> args[i].name != args[j].name
  }

  /** A free argument bound in `g` to `piece`, or a bound one whose text is `piece`. */
  ghost predicate PieceOk(g: Frame, a: VarOrValue, piece: string) {
    if a.IsVar() then g.Get(a.name) == Some(Values.FromString(piece)) else Loose(a) == Some(piece)
  }

  /**
   * `g` keeps the bindings of `f`, gives every argument of `na` the matching
   * text of `pieces`, and those texts satisfy the relation.
   */
  ghost predicate Solves(g: Frame, f: Frame, na: seq<VarOrValue>, pieces: seq<string>)
    requires |na| == 4 && |pieces| == 4
  {
    Extends(g, f) &&
    PieceOk(g, na[0], pieces[0]) && PieceOk(g, na[1], pieces[1]) &&
    PieceOk(g, na[2], pieces[2]) && PieceOk(g, na[3], pieces[3]) &&
    pieces[0] + pieces[1] + pieces[2] == pieces[3]
  }

  lemma PieceLookup(a: VarOrValue, f: Frame, g: Frame, piece: string)
    requires Extends(g, f) && PieceOk(g, a.MatchInFrame(f), piece)
    ensures Loose(a.MatchInFrame(g)) == Some(piece)
  {
    if a.IsVar() && f.Get(a.name).Some? {
      assert g.Get(a.name) == f.Get(a.name);
    }
  }

  lemma SolvesSatisfies(args: seq<VarOrValue>, f: Frame, g: Frame, pieces: seq<string>)
    requires |args| == 4 && |pieces| == 4
    requires Solves(g, f, MatchAllInFrame(args, f), pieces)
    ensures Extends(g, f) && Satisfied(args, g)
  {
    PieceLookup(args[0], f, g, pieces[0]);
    PieceLookup(args[1], f, g, pieces[1]);
    PieceLookup(args[2], f, g, pieces[2]);
    PieceLookup(args[3], f, g, pieces[3]);
  }

  /** The count of free arguments among four, position by position. */
  lemma VarCountOfFour(s: seq<VarOrValue>)
    requires |s| == 4
    ensures VarCount(s) == (if s[0].IsVar() then 1 else 0) + (if s[1].IsVar() then 1 else 0) +
                           (if s[2].IsVar() then 1 else 0) + (if s[3].IsVar() then 1 else 0)
  {
    assert s[..1][..0] == [];
    assert VarCount(s[..1]) == (if s[0].IsVar() then 1 else 0);
    assert s[..2][..1] == s[..1];
    assert VarCount(s[..2]) == VarCount(s[..1]) + (if s[1].IsVar() then 1 else 0);
    assert s[..3][..2] == s[..2];
    assert VarCount(s[..3]) == VarCount(s[..2]) + (if s[2].IsVar() then 1 else 0);
    assert s[..3] == s[..|s| - 1];
  }

  /** With one free argument among four, every other position is bound. */
  lemma OnlyFree(na: seq<VarOrValue>, vi: nat)
    requires |na| == 4 && VarCount(na) == 1 && vi < 4 && na[vi].IsVar()
    ensures forall i :: 0 <= i < 4 && i != vi ==> !na[i].IsVar()
  {
    VarCountOfFour(na);
  }

  /** Free arguments are unbound in `f`, under distinct names. */
  ghost predicate FreeIn(f: Frame, na: seq<VarOrValue>) {
    DistinctVars(na) && forall i :: 0 <= i < |na| && na[i].IsVar() ==> f.Get(na[i].name) == None
  }

  /** Free arguments after lookup are the original ones, unbound in the frame. */
  lemma FreeAfterLookup(args: seq<VarOrValue>, f: Frame)
    requires DistinctVars(args)
    ensures FreeIn(f, MatchAllInFrame(args, f))
  {
  }

  lemma Var1Solves(f: Frame, na: seq<VarOrValue>, g: Frame) returns (pieces: seq<string>)
    requires |na| == 4 && VarCount(na) == 1 && FreeIn(f, na)
    requires Var1(f, na).Ok? && Var1(f, na).value.Some? && g in Var1(f, na).value.value
    ensures |pieces| == 4 && Solves(g, f, na, pieces)
  {
    VarCountOfFour(na);
    var vi := FirstVar(na, 0);
    pieces := Var1Pieces(f, na, vi, g);
    OneBindSolves(f, na, vi, pieces);
  }

  /** The one frame of the one-free mode binds the free argument to the piece the others leave. */
  lemma Var1Pieces(f: Frame, na: seq<VarOrValue>, vi: nat, g: Frame) returns (pieces: seq<string>)
    requires |na| == 4 && vi < 4 && FirstVar(na, 0) == vi && na[vi].IsVar()
    requires forall i :: 0 <= i < 4 && i != vi ==> !na[i].IsVar()
    requires Var1(f, na).Ok? && Var1(f, na).value.Some? && g in Var1(f, na).value.value
    ensures |pieces| == 4 && g == f.Add(na[vi].name, Values.FromString(pieces[vi]))
    ensures forall i :: 0 <= i < 4 && i != vi ==> Loose(na[i]) == Some(pieces[i])
    ensures pieces[0] + pieces[1] + pieces[2] == pieces[3]
  {
    if vi == 0 {
      pieces := PrefixPiece(f, na, g);
    } else if vi == 1 {
      pieces := MiddlePiece(f, na, g);
    } else if vi == 2 {
      pieces := SuffixPiece(f, na, g);
    } else {
      pieces := WholePiece(f, na, g);
    }
  }

  /** `a` free: it is what precedes `b + c` in `d`. */
  lemma PrefixPiece(f: Frame, na: seq<VarOrValue>, g: Frame) returns (pieces: seq<string>)
    requires |na| == 4 && FirstVar(na, 0) == 0 && na[0].IsVar()
    requires forall i :: 0 <= i < 4 && i != 0 ==> !na[i].IsVar()
    requires Var1(f, na).Ok? && Var1(f, na).value.Some? && g in Var1(f, na).value.value
    ensures |pieces| == 4 && g == f.Add(na[0].name, Values.FromString(pieces[0]))
    ensures forall i :: 0 <= i < 4 && i != 0 ==> Loose(na[i]) == Some(pieces[i])
    ensures pieces[0] + pieces[1] + pieces[2] == pieces[3]
  {
    var b, c, all := Loose(na[1]).value, Loose(na[2]).value, Loose(na[3]).value;
    assert Var1(f, na) == SolveFirst(f, na[0].name, b + c, all);
    SolveFirstMember(f, na[0].name, b + c, all, g);
    var x := all[..|all| - |b + c|];
    StripSuffix(all, b + c);
    assert x + b + c == x + (b + c);
    pieces := [x, b, c, all];
  }

  /** The frame `SolveFirst` gives binds `name` to the front of `all`. */
  lemma SolveFirstMember(frame: Frame, name: string, trailing: string, all: string, g: Frame)
    requires SolveFirst(frame, name, trailing, all).Ok? && SolveFirst(frame, name, trailing, all).value.Some?
    requires g in SolveFirst(frame, name, trailing, all).value.value
    ensures EndsWith(all, trailing) && g == frame.Add(name, Values.FromString(all[..|all| - |trailing|]))
  {
  }

  /** The frame `SolveMiddle` gives binds `name` to the middle of `all`. */
  lemma SolveMiddleMember(frame: Frame, name: string, leading: string, trailing: string, all: string, g: Frame)
    requires SolveMiddle(frame, name, leading, trailing, all).Ok? && SolveMiddle(frame, name, leading, trailing, all).value.Some?
    requires g in SolveMiddle(frame, name, leading, trailing, all).value.value
    ensures StartsWith(all, leading) && EndsWith(all, trailing) && |leading| <= |all| - |trailing|
    ensures g == frame.Add(name, Values.FromString(all[|leading|..|all| - |trailing|]))
  {
  }

  /** A text ending in `t` is its front followed by `t`. */
  lemma StripSuffix(all: string, t: string)
    requires EndsWith(all, t)
    ensures all[..|all| - |t|] + t == all
  {
    assert all == all[..|all| - |t|] + all[|all| - |t|..];
  }

  /** A text starting with `a` and ending in `c`, long enough for both, is `a`, the middle, then `c`. */
  lemma StripBoth(all: string, a: string, c: string)
    requires StartsWith(all, a) && EndsWith(all, c) && |a| <= |all| - |c|
    ensures a + all[|a|..|all| - |c|] + c == all
  {
    assert all == all[..|a|] + all[|a|..|all| - |c|] + all[|all| - |c|..];
  }

  /** `b` free: it is what lies between `a` and `c` in `d`. */
  lemma MiddlePiece(f: Frame, na: seq<VarOrValue>, g: Frame) returns (pieces: seq<string>)
    requires |na| == 4 && FirstVar(na, 0) == 1 && na[1].IsVar()
    requires forall i :: 0 <= i < 4 && i != 1 ==> !na[i].IsVar()
    requires Var1(f, na).Ok? && Var1(f, na).value.Some? && g in Var1(f, na).value.value
    ensures |pieces| == 4 && g == f.Add(na[1].name, Values.FromString(pieces[1]))
    ensures forall i :: 0 <= i < 4 && i != 1 ==> Loose(na[i]) == Some(pieces[i])
    ensures pieces[0] + pieces[1] + pieces[2] == pieces[3]
  {
    var a, c, all := Loose(na[0]).value, Loose(na[2]).value, Loose(na[3]).value;
    assert Var1(f, na) == SolveMiddle(f, na[1].name, a, c, all);
    SolveMiddleMember(f, na[1].name, a, c, all, g);
    var x := all[|a|..|all| - |c|];
    StripBoth(all, a, c);
    pieces := [a, x, c, all];
  }

  /** `c` free: it is what follows `a + b` in `d`. */
  lemma SuffixPiece(f: Frame, na: seq<VarOrValue>, g: Frame) returns (pieces: seq<string>)
    requires |na| == 4 && FirstVar(na, 0) == 2 && na[2].IsVar()
    requires forall i :: 0 <= i < 4 && i != 2 ==> !na[i].IsVar()
    requires Var1(f, na).Ok? && Var1(f, na).value.Some? && g in Var1(f, na).value.value
    ensures |pieces| == 4 && g == f.Add(na[2].name, Values.FromString(pieces[2]))
    ensures forall i :: 0 <= i < 4 && i != 2 ==> Loose(na[i]) == Some(pieces[i])
    ensures pieces[0] + pieces[1] + pieces[2] == pieces[3]
  {
    var a, b, all := Loose(na[0]).value, Loose(na[1]).value, Loose(na[3]).value;
    assert Var1(f, na) == SolveLast(f, na[2].name, a + b, all);
    SolveLastMember(f, na[2].name, a + b, all, g);
    var x := all[|a + b|..];
    StripPrefix(all, a + b);
    pieces := [a, b, x, all];
  }

  /** The frame `SolveLast` gives binds `name` to the back of `all`. */
  lemma SolveLastMember(frame: Frame, name: string, leading: string, all: string, g: Frame)
    requires SolveLast(frame, name, leading, all).Ok? && SolveLast(frame, name, leading, all).value.Some?
    requires g in SolveLast(frame, name, leading, all).value.value
    ensures StartsWith(all, leading) && g == frame.Add(name, Values.FromString(all[|leading|..]))
  {
  }

  /** A text starting with `t` is `t` followed by its back. */
  lemma StripPrefix(all: string, t: string)
    requires StartsWith(all, t)
    ensures t + all[|t|..] == all
  {
    assert all == all[..|t|] + all[|t|..];
  }

  /** `d` free: it is `a + b + c`. */
  lemma WholePiece(f: Frame, na: seq<VarOrValue>, g: Frame) returns (pieces: seq<string>)
    requires |na| == 4 && FirstVar(na, 0) == 3 && na[3].IsVar()
    requires forall i :: 0 <= i < 4 && i != 3 ==> !na[i].IsVar()
    requires Var1(f, na).Ok? && Var1(f, na).value.Some? && g in Var1(f, na).value.value
    ensures |pieces| == 4 && g == f.Add(na[3].name, Values.FromString(pieces[3]))
    ensures forall i :: 0 <= i < 4 && i != 3 ==> Loose(na[i]) == Some(pieces[i])
    ensures pieces[0] + pieces[1] + pieces[2] == pieces[3]
  {
    var a, b, c := Loose(na[0]).value, Loose(na[1]).value, Loose(na[2]).value;
    pieces := [a, b, c, a + b + c];
  }

  /** Binding the one free argument to its piece solves the relation. */
  lemma OneBindSolves(f: Frame, na: seq<VarOrValue>, vi: nat, pieces: seq<string>)
    requires |na| == 4 && |pieces| == 4 && vi < 4 && na[vi].IsVar() && f.Get(na[vi].name) == None
    requires forall i :: 0 <= i < 4 && i != vi ==> !na[i].IsVar() && Loose(na[i]) == Some(pieces[i])
    requires pieces[0] + pieces[1] + pieces[2] == pieces[3]
    ensures Solves(f.Add(na[vi].name, Values.FromString(pieces[vi])), f, na, pieces)
  {
  }

  /** The frame of `Bind2` keeps `f` and binds both names. */
  lemma Bind2Binds(f: Frame, n1: string, x: string, n2: string, y: string)
    requires n1 != n2 && f.Get(n1) == None && f.Get(n2) == None
    ensures Extends(Bind2(f, n1, x, n2, y), f)
    ensures Bind2(f, n1, x, n2, y).Get(n1) == Some(Values.FromString(x))
    ensures Bind2(f, n1, x, n2, y).Get(n2) == Some(Values.FromString(y))
  {
  }

  lemma Var2Solves(f: Frame, na: seq<VarOrValue>, g: Frame) returns (pieces: seq<string>)
    requires |na| == 4 && VarCount(na) == 2 && FreeIn(f, na)
    requires Var2(f, na).Ok? && Var2(f, na).value.Some? && g in Var2(f, na).value.value
    ensures |pieces| == 4 && Solves(g, f, na, pieces)
  {
    VarCountOfFour(na);
    if na[0].IsVar() && na[1].IsVar() {
      pieces := PrefixMiddleSolves(f, na, g);
    } else if na[0].IsVar() && na[2].IsVar() {
      pieces := PrefixSuffixSolves(f, na, g);
    } else {
      pieces := MiddleSuffixSolves(f, na, g);
    }
  }

  lemma PrefixMiddleSolves(f: Frame, na: seq<VarOrValue>, g: Frame) returns (pieces: seq<string>)
    requires |na| == 4 && FreeIn(f, na)
    requires na[0].IsVar() && na[1].IsVar() && !na[2].IsVar() && !na[3].IsVar()
    requires Var2(f, na).Ok? && Var2(f, na).value.Some? && g in Var2(f, na).value.value
    ensures |pieces| == 4 && Solves(g, f, na, pieces)
  {
    assert FirstVar(na, 0) == 0 && FirstVar(na, 1) == 1;
    var all, c := Loose(na[3]).value, Loose(na[2]).value;
    var remain := all[..|all| - |c|];
    var frames := SplitFrames(f, na[0].name, na[1].name, remain);
    assert EndsWith(all, c) && Var2(f, na) == Ok(Some(frames));
    var k :| 0 <= k <= |remain| && g == frames[k];
    pieces := PrefixMiddlePieces(f, na, all, c, k);
  }

  lemma PrefixMiddlePieces(f: Frame, na: seq<VarOrValue>, all: string, c: string, k: nat) returns (pieces: seq<string>)
    requires |na| == 4 && FreeIn(f, na)
    requires na[0].IsVar() && na[1].IsVar() && !na[2].IsVar() && !na[3].IsVar()
    requires Loose(na[2]) == Some(c) && Loose(na[3]) == Some(all) && EndsWith(all, c) && k <= |all| - |c|
    ensures |pieces| == 4 && Solves(SplitFrames(f, na[0].name, na[1].name, all[..|all| - |c|])[k], f, na, pieces)
  {
    var remain := all[..|all| - |c|];
    BeforeSuffix(all, c, k);
    pieces := [remain[..k], remain[k..], c, all];
    assert na[0].name != na[1].name && f.Get(na[0].name) == None && f.Get(na[1].name) == None;
    Bind2Binds(f, na[0].name, pieces[0], na[1].name, pieces[1]);
    assert SplitFrames(f, na[0].name, na[1].name, remain)[k] == Bind2(f, na[0].name, pieces[0], na[1].name, pieces[1]);
  }

  /** A text with suffix `c` is its front cut anywhere, then `c`. */
  lemma BeforeSuffix(all: string, c: string, k: nat)
    requires EndsWith(all, c) && k <= |all| - |c|
    ensures all[..|all| - |c|][..k] + all[..|all| - |c|][k..] + c == all
  {
    var remain := all[..|all| - |c|];
    assert remain[..k] + remain[k..] == remain;
    assert all == remain + all[|all| - |c|..];
  }

  lemma PrefixSuffixSolves(f: Frame, na: seq<VarOrValue>, g: Frame) returns (pieces: seq<string>)
    requires |na| == 4 && FreeIn(f, na)
    requires na[0].IsVar() && !na[1].IsVar() && na[2].IsVar() && !na[3].IsVar()
    requires Var2(f, na).Ok? && Var2(f, na).value.Some? && g in Var2(f, na).value.value
    ensures |pieces| == 4 && Solves(g, f, na, pieces)
  {
    assert FirstVar(na, 0) == 0 && FirstVar(na, 1) == 2;
    var all, b := Loose(na[3]).value, Loose(na[1]).value;
    var frames := OccurrenceFrames(f, na[0].name, na[2].name, all, b);
    assert Var2(f, na) == Ok(Some(frames));
    var k :| 0 <= k < |frames| && g == frames[k];
    pieces := PrefixSuffixPieces(f, na, all, b, k);
  }

  lemma PrefixSuffixPieces(f: Frame, na: seq<VarOrValue>, all: string, b: string, k: nat) returns (pieces: seq<string>)
    requires |na| == 4 && FreeIn(f, na)
    requires na[0].IsVar() && !na[1].IsVar() && na[2].IsVar() && !na[3].IsVar()
    requires Loose(na[1]) == Some(b) && Loose(na[3]) == Some(all) && k < |MatchIndices(all, b, 0)|
    ensures |pieces| == 4 && Solves(OccurrenceFrames(f, na[0].name, na[2].name, all, b)[k], f, na, pieces)
  {
    var i := MatchIndices(all, b, 0)[k];
    pieces := [all[..i], b, all[i + |b|..], all];
    Around(all, i, b);
    var g := OccurrenceFrames(f, na[0].name, na[2].name, all, b)[k];
    assert g == Bind2(f, na[0].name, pieces[0], na[2].name, pieces[2]);
    Bind2Binds(f, na[0].name, pieces[0], na[2].name, pieces[2]);
  }

  /** A string is what precedes an occurrence, the occurrence, and what follows. */
  lemma Around(all: string, i: nat, b: string)
    requires i + |b| <= |all| && all[i..i + |b|] == b
    ensures all[..i] + b + all[i + |b|..] == all
  {
    assert all == all[..i] + all[i..i + |b|] + all[i + |b|..];
  }

  lemma MiddleSuffixSolves(f: Frame, na: seq<VarOrValue>, g: Frame) returns (pieces: seq<string>)
    requires |na| == 4 && FreeIn(f, na)
    requires !na[0].IsVar() && na[1].IsVar() && na[2].IsVar() && !na[3].IsVar()
    requires Var2(f, na).Ok? && Var2(f, na).value.Some? && g in Var2(f, na).value.value
    ensures |pieces| == 4 && Solves(g, f, na, pieces)
  {
    assert FirstVar(na, 0) == 1 && FirstVar(na, 2) == 2;
    var all, a := Loose(na[3]).value, Loose(na[0]).value;
    var remain := all[|a|..];
    var frames := SplitFrames(f, na[1].name, na[2].name, remain);
    assert Var2(f, na) == Ok(Some(frames));
    var k :| 0 <= k <= |remain| && g == frames[k];
    pieces := MiddleSuffixPieces(f, na, all, a, k);
  }

  lemma MiddleSuffixPieces(f: Frame, na: seq<VarOrValue>, all: string, a: string, k: nat) returns (pieces: seq<string>)
    requires |na| == 4 && FreeIn(f, na)
    requires !na[0].IsVar() && na[1].IsVar() && na[2].IsVar() && !na[3].IsVar()
    requires Loose(na[0]) == Some(a) && Loose(na[3]) == Some(all) && StartsWith(all, a) && k <= |all| - |a|
    ensures |pieces| == 4 && Solves(SplitFrames(f, na[1].name, na[2].name, all[|a|..])[k], f, na, pieces)
  {
    var remain := all[|a|..];
    AfterPrefix(all, a, k);
    pieces := [a, remain[..k], remain[k..], all];
    assert na[1].name != na[2].name && f.Get(na[1].name) == None && f.Get(na[2].name) == None;
    Bind2Binds(f, na[1].name, pieces[1], na[2].name, pieces[2]);
    assert SplitFrames(f, na[1].name, na[2].name, remain)[k] == Bind2(f, na[1].name, pieces[1], na[2].name, pieces[2]);
  }

  /** A text with prefix `a` is `a`, then its rest cut anywhere. */
  lemma AfterPrefix(all: string, a: string, k: nat)
    requires StartsWith(all, a) && k <= |all| - |a|
    ensures a + all[|a|..][..k] + all[|a|..][k..] == all
  {
    var remain := all[|a|..];
    assert remain[..k] + remain[k..] == remain;
    assert all == a + remain;
  }

  /** Every frame of the first `rows` rows is the frame of a pair of indices. */
  lemma {:induction false} RowsSound(f: Frame, names: (string, string, string), all: string, rows: nat, g: Frame)
    returns (i1: nat, i2: nat)
    requires rows <= |all| + 1 && g in Rows(f, names, all, rows)
    ensures i1 <= i2 <= |all| && i1 < rows && g == Bind3(f, names, all, i1, i2)
  {
    var row := Row(f, names, all, rows - 1);
    assert Rows(f, names, all, rows) == Rows(f, names, all, rows - 1) + row;
    if g in row {
      var j :| 0 <= j < |row| && row[j] == g;
      i1, i2 := rows - 1, rows - 1 + j;
    } else {
      i1, i2 := RowsSound(f, names, all, rows - 1, g);
    }
  }

  /** The frame of every pair of indices with `i1 < rows` is among the first `rows` rows. */
  lemma {:induction false} RowsComplete(f: Frame, names: (string, string, string), all: string, rows: nat, i1: nat, i2: nat)
    requires rows <= |all| + 1 && i1 <= i2 <= |all| && i1 < rows
    ensures Bind3(f, names, all, i1, i2) in Rows(f, names, all, rows)
  {
    var row := Row(f, names, all, rows - 1);
    assert Rows(f, names, all, rows) == Rows(f, names, all, rows - 1) + row;
    if i1 == rows - 1 {
      assert row[i2 - i1] == Bind3(f, names, all, i1, i2);
    } else {
      RowsComplete(f, names, all, rows - 1, i1, i2);
    }
  }

  /** `Rows` holds exactly the frames of the index pairs `i1 <= i2` with `i1 < rows`. */
  lemma RowsMembers(f: Frame, names: (string, string, string), all: string, rows: nat, g: Frame)
    requires rows <= |all| + 1
    ensures g in Rows(f, names, all, rows) <==>
      exists i1, i2 :: 0 <= i1 <= i2 <= |all| && i1 < rows && g == Bind3(f, names, all, i1, i2)
  {
    if g in Rows(f, names, all, rows) {
      var i1, i2 := RowsSound(f, names, all, rows, g);
    }
    forall i1, i2 | 0 <= i1 <= i2 <= |all| && i1 < rows && g == Bind3(f, names, all, i1, i2)
      ensures g in Rows(f, names, all, rows)
    {
      RowsComplete(f, names, all, rows, i1, i2);
    }
  }

  /** The number of frames in the first `rows` rows. */
  lemma {:induction false} RowsCount(f: Frame, names: (string, string, string), all: string, rows: nat)
    requires rows <= |all| + 1
    ensures 2 * |Rows(f, names, all, rows)| == rows * (2 * |all| + 3 - rows)
  {
    if rows > 0 {
      RowsCount(f, names, all, rows - 1);
      var n, k := |all|, rows;
      assert 2 * |Rows(f, names, all, k)| == (k - 1) * (2 * n + 3 - (k - 1)) + 2 * (n - (k - 1) + 1);
      assert (k - 1) * (2 * n + 3 - (k - 1)) == k * (2 * n + 3 - k) - 2 * n - 4 + 2 * k;
    }
  }

  lemma Var3Solves(f: Frame, na: seq<VarOrValue>, g: Frame) returns (pieces: seq<string>)
    requires |na| == 4 && VarCount(na) == 3 && FreeIn(f, na)
    requires Var3(f, na).Ok? && Var3(f, na).value.Some? && g in Var3(f, na).value.value
    ensures |pieces| == 4 && Solves(g, f, na, pieces)
  {
    VarCountOfFour(na);
    var names := (na[0].name, na[1].name, na[2].name);
    var all := Loose(na[3]).value;
    assert Var3(f, na) == Ok(Some(Rows(f, names, all, |all| + 1)));
    var i1, i2 := RowsSound(f, names, all, |all| + 1, g);
    pieces := Bind3Solves(f, na, all, i1, i2);
  }

  /** The frame of two cut points solves the relation with the three pieces. */
  lemma Bind3Solves(f: Frame, na: seq<VarOrValue>, all: string, i1: nat, i2: nat) returns (pieces: seq<string>)
    requires |na| == 4 && FreeIn(f, na)
    requires na[0].IsVar() && na[1].IsVar() && na[2].IsVar() && Loose(na[3]) == Some(all)
    requires i1 <= i2 <= |all|
    ensures |pieces| == 4 && Solves(Bind3(f, (na[0].name, na[1].name, na[2].name), all, i1, i2), f, na, pieces)
  {
    var names := (na[0].name, na[1].name, na[2].name);
    assert names.0 != names.1 && names.0 != names.2 && names.1 != names.2;
    Bind3Binds(f, names, all, i1, i2);
    ThreePieces(all, i1, i2);
    pieces := [all[..i1], all[i1..i2], all[i2..], all];
  }

  /** Cutting a text at two points and gluing the three pieces gives it back. */
  lemma ThreePieces(all: string, i1: nat, i2: nat)
    requires i1 <= i2 <= |all|
    ensures all[..i1] + all[i1..i2] + all[i2..] == all
  {
    assert all[..i2] == all[..i1] + all[i1..i2];
    assert all == all[..i2] + all[i2..];
  }

  /** The frame of `Bind3` keeps `f` and binds the three names to the three pieces. */
  lemma Bind3Binds(f: Frame, names: (string, string, string), all: string, i1: nat, i2: nat)
    requires i1 <= i2 <= |all|
    requires names.0 != names.1 && names.0 != names.2 && names.1 != names.2
    requires f.Get(names.0) == None && f.Get(names.1) == None && f.Get(names.2) == None
    ensures Extends(Bind3(f, names, all, i1, i2), f)
    ensures Bind3(f, names, all, i1, i2).Get(names.0) == Some(Values.FromString(all[..i1]))
    ensures Bind3(f, names, all, i1, i2).Get(names.1) == Some(Values.FromString(all[i1..i2]))
    ensures Bind3(f, names, all, i1, i2).Get(names.2) == Some(Values.FromString(all[i2..]))
  {
  }

  /**
   * Soundness: every frame one input frame contributes keeps that frame's
   * bindings, and its arguments concatenate as the relation says, provided
   * no variable is repeated among the arguments.
   */
  lemma PerFrameSound(f: Frame, args: seq<VarOrValue>, g: Frame)
    requires |args| == 4 && DistinctVars(args)
    requires PerFrame(f, args).Ok? && g in PerFrame(f, args).value
    ensures Extends(g, f) && Satisfied(args, g)
  {
    var na := MatchAllInFrame(args, f);
    var count := VarCount(na);
    FreeAfterLookup(args, f);
    if count == 0 {
      VarCountOfFour(na);
      assert g == f;
      assert MatchAllInFrame(args, g) == na;
    } else {
      var pieces;
      if count == 1 {
        pieces := Var1Solves(f, na, g);
      } else if count == 2 {
        pieces := Var2Solves(f, na, g);
      } else {
        pieces := Var3Solves(f, na, g);
      }
      SolvesSatisfies(args, f, g, pieces);
    }
  }

  lemma {:induction false} ConcatMapMember(input: seq<Frame>, h: Frame -> Outcome<seq<Frame>>, out: seq<Frame>, g: Frame)
    requires ConcatMap(input, h) == Ok(out) && g in out
    ensures exists i :: 0 <= i < |input| && h(input[i]).Ok? && g in h(input[i]).value
  {
    var n := |input|;
    var before := ConcatMap(input[..n - 1], h);
    if g in before.value {
      ConcatMapMember(input[..n - 1], h, before.value, g);
      var i :| 0 <= i < n - 1 && h(input[..n - 1][i]).Ok? && g in h(input[..n - 1][i]).value;
      assert input[..n - 1][i] == input[i];
    } else {
      assert h(input[n - 1]).Ok? && g in h(input[n - 1]).value;
    }
  }

  /**
   * Soundness of a whole run: every frame of the output extends one of the
   * input frames, and its arguments concatenate as the relation says.
   */
  lemma QuerySound(input: seq<Frame>, args: seq<VarOrValue>, out: seq<Frame>, g: Frame)
    requires |args| == 4 && DistinctVars(args)
    requires QuerySpec(input, args) == Ok(Some(out)) && g in out
    ensures exists i :: 0 <= i < |input| && Extends(g, input[i]) && Satisfied(args, g)
  {
    ConcatMapMember(input, Contribution(args), out, g);
    var i :| 0 <= i < |input| && Contribution(args)(input[i]).Ok? && g in Contribution(args)(input[i]).value;
    PerFrameSound(input[i], args, g);
  }

  /** Nothing free: the frame survives, unchanged, exactly when the relation holds. */
  lemma ZeroFree(f: Frame, args: seq<VarOrValue>)
    requires |args| == 4 && VarCount(MatchAllInFrame(args, f)) == 0
    ensures PerFrame(f, args) == if Satisfied(args, f) then Ok([f]) else Ok([])
  {
  }

  /** The whole `d` free together with another argument is a usage error. */
  lemma WholeFreePanics(f: Frame, args: seq<VarOrValue>)
    requires |args| == 4
    requires MatchAllInFrame(args, f)[3].IsVar() && VarCount(MatchAllInFrame(args, f)) >= 2
    ensures PerFrame(f, args) == Panic
  {
    var na := MatchAllInFrame(args, f);
    VarCountOfFour(na);
    if VarCount(na) == 2 {
      var i1 := FirstVar(na, 0);
      assert i1 < 3 && FirstVar(na, i1 + 1) == 3;
      assert Var2(f, na) == Panic;
    }
  }

  /**
   * One free argument, when the relation has a solution: the output is the
   * frame binding that argument to its one solution.
   */
  lemma OneFreeSolved(f: Frame, args: seq<VarOrValue>, vi: nat, pieces: seq<string>)
    requires |args| == 4 && |pieces| == 4 && VarCount(MatchAllInFrame(args, f)) == 1
    requires vi < 4 && MatchAllInFrame(args, f)[vi].IsVar()
    requires forall i :: 0 <= i < 4 && !MatchAllInFrame(args, f)[i].IsVar() ==>
      Loose(MatchAllInFrame(args, f)[i]) == Some(pieces[i])
    requires pieces[0] + pieces[1] + pieces[2] == pieces[3]
    ensures PerFrame(f, args) == Ok([f.Add(MatchAllInFrame(args, f)[vi].name, Values.FromString(pieces[vi]))])
  {
    var na := MatchAllInFrame(args, f);
    OnlyFree(na, vi);
    assert PerFrame(f, args) == (match Var1(f, na) case Panic => Panic case Ok(o) => Ok(if o.Some? then o.value else []));
    Var1Solved(f, na, vi, pieces);
  }

  lemma Var1Solved(f: Frame, na: seq<VarOrValue>, vi: nat, pieces: seq<string>)
    requires |na| == 4 && |pieces| == 4 && vi < 4 && na[vi].IsVar()
    requires forall i :: 0 <= i < 4 && i != vi ==> !na[i].IsVar() && Loose(na[i]) == Some(pieces[i])
    requires pieces[0] + pieces[1] + pieces[2] == pieces[3]
    ensures Var1(f, na) == Ok(Some([f.Add(na[vi].name, Values.FromString(pieces[vi]))]))
  {
    if vi == 0 {
      PrefixFromPieces(f, na, pieces);
    } else if vi == 1 {
      MiddleFromPieces(f, na, pieces);
    } else if vi == 2 {
      SuffixFromPieces(f, na, pieces);
    } else {
      WholeFromPieces(f, na, pieces);
    }
  }

  lemma PrefixFromPieces(f: Frame, na: seq<VarOrValue>, pieces: seq<string>)
    requires |na| == 4 && |pieces| == 4 && na[0].IsVar()
    requires forall i :: 0 <= i < 4 && i != 0 ==> !na[i].IsVar() && Loose(na[i]) == Some(pieces[i])
    requires pieces[0] + pieces[1] + pieces[2] == pieces[3]
    ensures Var1(f, na) == Ok(Some([f.Add(na[0].name, Values.FromString(pieces[0]))]))
  {
    assert FirstVar(na, 0) == 0;
    LeadingPiece(pieces[0], pieces[1], pieces[2]);
  }

  /** In `a + b + c`, the text before the last `|b + c|` characters is `a`. */
  lemma LeadingPiece(a: string, b: string, c: string)
    ensures EndsWith(a + b + c, b + c) && (a + b + c)[..|a + b + c| - |b + c|] == a
  {
    assert a + b + c == a + (b + c);
  }

  lemma MiddleFromPieces(f: Frame, na: seq<VarOrValue>, pieces: seq<string>)
    requires |na| == 4 && |pieces| == 4 && na[1].IsVar()
    requires forall i :: 0 <= i < 4 && i != 1 ==> !na[i].IsVar() && Loose(na[i]) == Some(pieces[i])
    requires pieces[0] + pieces[1] + pieces[2] == pieces[3]
    ensures Var1(f, na) == Ok(Some([f.Add(na[1].name, Values.FromString(pieces[1]))]))
  {
    assert FirstVar(na, 0) == 1;
    var a, b, c, d := pieces[0], pieces[1], pieces[2], pieces[3];
    assert d == a + b + c;
    assert d[..|a|] == a && d[|d| - |c|..] == c && d[|a|..|d| - |c|] == b;
  }

  lemma SuffixFromPieces(f: Frame, na: seq<VarOrValue>, pieces: seq<string>)
    requires |na| == 4 && |pieces| == 4 && na[2].IsVar()
    requires forall i :: 0 <= i < 4 && i != 2 ==> !na[i].IsVar() && Loose(na[i]) == Some(pieces[i])
    requires pieces[0] + pieces[1] + pieces[2] == pieces[3]
    ensures Var1(f, na) == Ok(Some([f.Add(na[2].name, Values.FromString(pieces[2]))]))
  {
    assert FirstVar(na, 0) == 2;
    var a, b, c, d := pieces[0], pieces[1], pieces[2], pieces[3];
    assert d == (a + b) + c;
    assert StartsWith(d, a + b) && d[|a + b|..] == c;
  }

  lemma WholeFromPieces(f: Frame, na: seq<VarOrValue>, pieces: seq<string>)
    requires |na| == 4 && |pieces| == 4 && na[3].IsVar()
    requires forall i :: 0 <= i < 4 && i != 3 ==> !na[i].IsVar() && Loose(na[i]) == Some(pieces[i])
    requires pieces[0] + pieces[1] + pieces[2] == pieces[3]
    ensures Var1(f, na) == Ok(Some([f.Add(na[3].name, Values.FromString(pieces[3]))]))
  {
    assert FirstVar(na, 0) == 3;
  }

  /**
   * Only `b` free, with `a` a prefix and `c` a suffix of `d` that overlap:
   * the slice between them runs backwards and the source panics.
   */
  lemma MiddleOverlapPanics(f: Frame, args: seq<VarOrValue>, a: string, c: string, d: string)
    requires |args| == 4
    requires var na := MatchAllInFrame(args, f);
      !na[0].IsVar() && na[1].IsVar() && !na[2].IsVar() && !na[3].IsVar() &&
      Loose(na[0]) == Some(a) && Loose(na[2]) == Some(c) && Loose(na[3]) == Some(d)
    requires StartsWith(d, a) && EndsWith(d, c) && |a| + |c| > |d|
    ensures PerFrame(f, args) == Panic
  {
    VarCountOfFour(MatchAllInFrame(args, f));
  }

  /** `a`, `b` free: one frame per split point of what precedes the suffix `c`. */
  lemma PrefixMiddleCount(f: Frame, args: seq<VarOrValue>, c: string, d: string)
    requires |args| == 4
    requires var na := MatchAllInFrame(args, f);
      na[0].IsVar() && na[1].IsVar() && !na[2].IsVar() && !na[3].IsVar() &&
      Loose(na[2]) == Some(c) && Loose(na[3]) == Some(d)
    ensures PerFrame(f, args).Ok?
    ensures EndsWith(d, c) ==> |PerFrame(f, args).value| == |d| - |c| + 1
    ensures !EndsWith(d, c) ==> PerFrame(f, args).value == []
  {
    var na := MatchAllInFrame(args, f);
    VarCountOfFour(na);
    assert FirstVar(na, 0) == 0 && FirstVar(na, 1) == 1;
  }

  /** `b`, `c` free: one frame per split point of what follows the prefix `a`. */
  lemma MiddleSuffixCount(f: Frame, args: seq<VarOrValue>, a: string, d: string)
    requires |args| == 4
    requires var na := MatchAllInFrame(args, f);
      !na[0].IsVar() && na[1].IsVar() && na[2].IsVar() && !na[3].IsVar() &&
      Loose(na[0]) == Some(a) && Loose(na[3]) == Some(d)
    ensures PerFrame(f, args).Ok?
    ensures StartsWith(d, a) ==> |PerFrame(f, args).value| == |d| - |a| + 1
    ensures !StartsWith(d, a) ==> PerFrame(f, args).value == []
  {
    var na := MatchAllInFrame(args, f);
    VarCountOfFour(na);
    assert FirstVar(na, 0) == 1 && FirstVar(na, 2) == 2;
  }

  /** An empty needle matches at every position from `from` to the end. */
  lemma {:induction false} MatchIndicesEmpty(hay: string, from: nat)
    requires from <= |hay| + 1
    ensures |MatchIndices(hay, [], from)| == |hay| + 1 - from
    decreases |hay| + 1 - from
  {
    if from <= |hay| {
      MatchIndicesEmpty(hay, from + 1);
    }
  }

  /**
   * `a`, `c` free: one frame per non-overlapping occurrence of `b` in `d`;
   * an empty `b` gives one frame per split point.
   */
  lemma PrefixSuffixCount(f: Frame, args: seq<VarOrValue>, b: string, d: string)
    requires |args| == 4
    requires var na := MatchAllInFrame(args, f);
      na[0].IsVar() && !na[1].IsVar() && na[2].IsVar() && !na[3].IsVar() &&
      Loose(na[1]) == Some(b) && Loose(na[3]) == Some(d)
    ensures PerFrame(f, args).Ok?
    ensures |PerFrame(f, args).value| == |MatchIndices(d, b, 0)|
    ensures b == [] ==> |PerFrame(f, args).value| == |d| + 1
  {
    var na := MatchAllInFrame(args, f);
    VarCountOfFour(na);
    assert FirstVar(na, 0) == 0 && FirstVar(na, 1) == 2;
    if b == [] {
      MatchIndicesEmpty(d, 0);
    }
  }

  /**
   * `a`, `b`, `c` free with `d` of length n: one frame per pair of split
   * indices `i1 <= i2`, (n + 1) * (n + 2) / 2 in all.
   */
  lemma ThreeFreeCount(f: Frame, args: seq<VarOrValue>, d: string)
    requires |args| == 4
    requires var na := MatchAllInFrame(args, f);
      na[0].IsVar() && na[1].IsVar() && na[2].IsVar() && !na[3].IsVar() && Loose(na[3]) == Some(d)
    ensures PerFrame(f, args).Ok?
    ensures |PerFrame(f, args).value| == (|d| + 1) * (|d| + 2) / 2
    ensures var na := MatchAllInFrame(args, f);
      forall i1, i2 :: 0 <= i1 <= i2 <= |d| ==>
        Bind3(f, (na[0].name, na[1].name, na[2].name), d, i1, i2) in PerFrame(f, args).value
  {
    var na := MatchAllInFrame(args, f);
    var names := (na[0].name, na[1].name, na[2].name);
    ThreeFreeRows(f, args, d);
    RowsCount(f, names, d, |d| + 1);
    forall i1, i2 | 0 <= i1 <= i2 <= |d|
      ensures Bind3(f, names, d, i1, i2) in Rows(f, names, d, |d| + 1)
    {
      RowsComplete(f, names, d, |d| + 1, i1, i2);
    }
  }

  /** Three free arguments before `d`: the frame contributes all the rows over `d`. */
  lemma ThreeFreeRows(f: Frame, args: seq<VarOrValue>, d: string)
    requires |args| == 4
    requires var na := MatchAllInFrame(args, f);
      na[0].IsVar() && na[1].IsVar() && na[2].IsVar() && !na[3].IsVar() && Loose(na[3]) == Some(d)
    ensures var na := MatchAllInFrame(args, f);
      PerFrame(f, args) == Ok(Rows(f, (na[0].name, na[1].name, na[2].name), d, |d| + 1))
  {
    VarCountOfFour(MatchAllInFrame(args, f));
  }

  // ---------------------------------------------------------------------
  // Worked cases.
  // ---------------------------------------------------------------------

  /** A bound text argument. */
  function Text(s: string): (r: VarOrValue)
    ensures Loose(r) == Some(s)
  {
    Value(Values.FromString(s))
  }

  /** Everything bound and consistent: the one input frame comes back unchanged. */
  lemma AllBoundMatches()
    ensures QuerySpec([Frame.New()], [Text("UI_"), Text("Equip"), Text("Icon"), Text("UI_EquipIcon")])
      == Ok(Some([Frame.New()]))
  {
    var args := [Text("UI_"), Text("Equip"), Text("Icon"), Text("UI_EquipIcon")];
    assert MatchAllInFrame(args, Frame.New()) == args;
    VarCountOfFour(args);
    QueryFramesSingle(Frame.New(), args);
  }

  /** Everything bound and inconsistent: no frames, and no error. */
  lemma AllBoundMismatch()
    ensures QuerySpec([Frame.New()], [Text("a"), Text("b"), Text("c"), Text("xyz")]) == Ok(Some([]))
  {
    var args := [Text("a"), Text("b"), Text("c"), Text("xyz")];
    assert MatchAllInFrame(args, Frame.New()) == args;
    assert ("a" + "b" + "c")[0] != "xyz"[0];
    VarCountOfFour(args);
    QueryFramesSingle(Frame.New(), args);
  }

  /** The prefix free: it is solved as `UI_`. */
  lemma PrefixSolved()
    ensures QuerySpec([Frame.New()], [Var("p"), Text("Equip"), Text("Icon"), Text("UI_EquipIcon")])
      == Ok(Some([Frame.New().Add("p", Values.FromString("UI_"))]))
  {
    var args := [Var("p"), Text("Equip"), Text("Icon"), Text("UI_EquipIcon")];
    assert MatchAllInFrame(args, Frame.New()) == args;
    VarCountOfFour(args);
    OneFreeSolved(Frame.New(), args, 0, ["UI_", "Equip", "Icon", "UI_EquipIcon"]);
    QueryFramesSingle(Frame.New(), args);
  }

  /** Three free over "abc": ten frames. */
  lemma ThreeFreeOverAbc()
    ensures QuerySpec([Frame.New()], [Var("a"), Var("b"), Var("c"), Text("abc")]).Ok?
    ensures QuerySpec([Frame.New()], [Var("a"), Var("b"), Var("c"), Text("abc")]).value.Some?
    ensures |QuerySpec([Frame.New()], [Var("a"), Var("b"), Var("c"), Text("abc")]).value.value| == 10
  {
    var args := [Var("a"), Var("b"), Var("c"), Text("abc")];
    assert MatchAllInFrame(args, Frame.New()) == args;
    ThreeFreeCount(Frame.New(), args, "abc");
    QueryFramesSingle(Frame.New(), args);
  }

  /** All four free: the usage error, not an empty result. */
  lemma AllFreePanics()
    ensures QuerySpec([Frame.New()], [Var("a"), Var("b"), Var("c"), Var("d")]) == Panic
  {
    var args := [Var("a"), Var("b"), Var("c"), Var("d")];
    assert MatchAllInFrame(args, Frame.New()) == args;
    VarCountOfFour(args);
    WholeFreePanics(Frame.New(), args);
    QueryFramesSingle(Frame.New(), args);
  }

  /** Only `b` free, prefix "ab" and suffix "bc" of "abc" overlap: a panic. */
  lemma OverlapExample()
    ensures QuerySpec([Frame.New()], [Text("ab"), Var("b"), Text("bc"), Text("abc")]) == Panic
  {
    var args := [Text("ab"), Var("b"), Text("bc"), Text("abc")];
    assert MatchAllInFrame(args, Frame.New()) == args;
    MiddleOverlapPanics(Frame.New(), args, "ab", "bc", "abc");
    QueryFramesSingle(Frame.New(), args);
  }

  /**
   * Occurrences are taken without overlap, so `?a "aa" ?c "aaa"` yields only
   * a = "", c = "a", although a = "a", c = "" satisfies the relation too.
   */
  lemma OverlappingOccurrenceMissed()
    ensures var args := [Var("a"), Text("aa"), Var("c"), Text("aaa")];
      PerFrame(Frame.New(), args) == Ok([Bind2(Frame.New(), "a", "", "c", "a")]) &&
      Satisfied(args, Bind2(Frame.New(), "a", "a", "c", ""))
  {
    SolutionAtOnlyOccurrence();
    OtherSolutionOfAa();
  }

  lemma SolutionAtOnlyOccurrence()
    ensures PerFrame(Frame.New(), [Var("a"), Text("aa"), Var("c"), Text("aaa")])
      == Ok([Bind2(Frame.New(), "a", "", "c", "a")])
  {
    var args := [Var("a"), Text("aa"), Var("c"), Text("aaa")];
    assert MatchAllInFrame(args, Frame.New()) == args;
    VarCountOfFour(args);
    assert FirstVar(args, 0) == 0 && FirstVar(args, 1) == 2;
    OnlyOccurrenceOfAa();
    assert OccurrenceFrames(Frame.New(), "a", "c", "aaa", "aa") == [Bind2(Frame.New(), "a", "", "c", "a")];
  }

  lemma OnlyOccurrenceOfAa()
    ensures MatchIndices("aaa", "aa", 0) == [0]
  {
    assert "aaa"[0..2] == "aa";
    assert MatchIndices("aaa", "aa", 2) == [];
  }

  lemma OtherSolutionOfAa()
    ensures Satisfied([Var("a"), Text("aa"), Var("c"), Text("aaa")], Bind2(Frame.New(), "a", "a", "c", ""))
  {
    var g := Bind2(Frame.New(), "a", "a", "c", "");
    var args := [Var("a"), Text("aa"), Var("c"), Text("aaa")];
    assert MatchAllInFrame(args, g) == [Text("a"), Text("aa"), Text(""), Text("aaa")];
  }

  /**
   * A variable repeated among the arguments is bound twice, the later
   * binding winning: `?x ?x "" "ab"` yields x = "ab", which does not satisfy
   * x + x + "" == "ab".
   */
  lemma RepeatedVariableUnsound()
    ensures var args := [Var("x"), Var("x"), Text(""), Text("ab")];
      var g := Bind2(Frame.New(), "x", "", "x", "ab");
      PerFrame(Frame.New(), args).Ok? && g in PerFrame(Frame.New(), args).value && !Satisfied(args, g)
  {
    var args := [Var("x"), Var("x"), Text(""), Text("ab")];
    var g := Bind2(Frame.New(), "x", "", "x", "ab");
    RepeatedVariableSplits();
    assert "ab"[..0] == "" && "ab"[0..] == "ab";
    assert SplitFrames(Frame.New(), "x", "x", "ab")[0] == g;
    assert MatchAllInFrame(args, g) == [Text("ab"), Text("ab"), Text(""), Text("ab")];
  }

  /** `?x ?x "" "ab"` splits "ab" between the two positions of `x`. */
  lemma RepeatedVariableSplits()
    ensures PerFrame(Frame.New(), [Var("x"), Var("x"), Text(""), Text("ab")]) == Ok(SplitFrames(Frame.New(), "x", "x", "ab"))
  {
    var args := [Var("x"), Var("x"), Text(""), Text("ab")];
    assert MatchAllInFrame(args, Frame.New()) == args;
    VarCountOfFour(args);
    RepeatedVariableVar2();
  }

  /** The two-free strategy on `?x ?x "" "ab"` splits "ab" at every point. */
  lemma RepeatedVariableVar2()
    ensures Var2(Frame.New(), [Var("x"), Var("x"), Text(""), Text("ab")]) == Ok(Some(SplitFrames(Frame.New(), "x", "x", "ab")))
  {
    var args := [Var("x"), Var("x"), Text(""), Text("ab")];
    assert FirstVar(args, 0) == 0 && FirstVar(args, 1) == 1;
    assert Loose(args[2]) == Some("") && Loose(args[3]) == Some("ab");
    assert "ab"[..2 - 0] == "ab";
  }

  // ---------------------------------------------------------------------
  // The algorithms as the source runs them.
  // ---------------------------------------------------------------------

  /** Shared by `query_var1` and `query_var2`: the first free argument, if any. */
  method LocateVar(args: seq<VarOrValue>, from: nat) returns (varIndex: nat)
    ensures varIndex == FirstVar(args, from)
  {
    varIndex := 0;
    var index := from;
    while index < |args|
      invariant from <= index
      invariant forall i :: from <= i < index && i < |args| ==> !args[i].IsVar()
    {
      if args[index].IsVar() {
        varIndex := index;
        break;
      }
      index := index + 1;
    }
  }

  /** `query_var1`. */
  method QueryVar1(frame: Frame, args: seq<VarOrValue>) returns (r: Outcome<Option<seq<Frame>>>)
    requires |args| == 4
    ensures r == Var1(frame, args)
  {
    var varIndex := LocateVar(args, 0);
    var varName := args[varIndex].GetVarName();
    if varName.None? {
      return Ok(None);
    }
    if varIndex == 0 {
      match (Loose(args[1]), Loose(args[2]), Loose(args[3]))
      case (Some(b), Some(c), Some(all)) =>
        r := QueryFirst(frame, varName.value, b + c, all);
        return;
      case _ =>
        return Ok(None);
    } else if varIndex == 1 {
      match (Loose(args[0]), Loose(args[2]), Loose(args[3]))
      case (Some(leading), Some(trailing), Some(all)) =>
        r := QueryMiddle(frame, varName.value, leading, trailing, all);
        return;
      case _ =>
        return Ok(None);
    } else if varIndex == 2 {
      match (Loose(args[0]), Loose(args[1]), Loose(args[3]))
      case (Some(a), Some(b), Some(all)) =>
        r := QueryLast(frame, varName.value, a + b, all);
        return;
      case _ =>
        return Ok(None);
    } else {
      var newFrame := new MutableFrame.Clone(frame);
      match (Loose(args[0]), Loose(args[1]), Loose(args[2]))
      case (Some(a), Some(b), Some(c)) =>
        newFrame.Add(varName.value, Values.FromString(a + b + c));
        return Ok(Some([newFrame.Snapshot()]));
      case _ =>
        return Ok(None);
    }
  }

  /** The `var_index == 0` arm of `query_var1`. */
  method QueryFirst(frame: Frame, name: string, trailing: string, all: string) returns (r: Outcome<Option<seq<Frame>>>)
    ensures r == SolveFirst(frame, name, trailing, all)
  {
    if !EndsWith(all, trailing) {
      return Ok(None);
    }
    var newFrame := new MutableFrame.Clone(frame);
    newFrame.Add(name, Values.FromString(all[..|all| - |trailing|]));
    return Ok(Some([newFrame.Snapshot()]));
  }

  /** The `var_index == 1` arm of `query_var1`. */
  method QueryMiddle(frame: Frame, name: string, leading: string, trailing: string, all: string)
    returns (r: Outcome<Option<seq<Frame>>>)
    ensures r == SolveMiddle(frame, name, leading, trailing, all)
  {
    if !StartsWith(all, leading) {
      return Ok(None);
    }
    if !EndsWith(all, trailing) {
      return Ok(None);
    }
    if |leading| > |all| - |trailing| {
      return Panic;
    }
    var newFrame := new MutableFrame.Clone(frame);
    newFrame.Add(name, Values.FromString(all[|leading|..|all| - |trailing|]));
    return Ok(Some([newFrame.Snapshot()]));
  }

  /** The `var_index == 2` arm of `query_var1`. */
  method QueryLast(frame: Frame, name: string, leading: string, all: string) returns (r: Outcome<Option<seq<Frame>>>)
    ensures r == SolveLast(frame, name, leading, all)
  {
    if !StartsWith(all, leading) {
      return Ok(None);
    }
    var newFrame := new MutableFrame.Clone(frame);
    newFrame.Add(name, Values.FromString(all[|leading|..]));
    return Ok(Some([newFrame.Snapshot()]));
  }

  /** The `for split_index in 0..=remain.len()` loop of `query_var2`. */
  method PushSplits(frame: Frame, n1: string, n2: string, remain: string) returns (result: seq<Frame>)
    ensures result == SplitFrames(frame, n1, n2, remain)
  {
    result := [];
    var splitIndex := 0;
    while splitIndex <= |remain|
      invariant splitIndex <= |remain| + 1
      invariant result == SplitFrames(frame, n1, n2, remain)[..splitIndex]
    {
      var newFrame := new MutableFrame.Clone(frame);
      newFrame.Add(n1, Values.FromString(remain[..splitIndex]));
      newFrame.Add(n2, Values.FromString(remain[splitIndex..]));
      result := result + [newFrame.Snapshot()];
      splitIndex := splitIndex + 1;
    }
  }

  /** The `for (i, _) in all.match_indices(middle)` loop of `query_var2`. */
  method PushOccurrences(frame: Frame, n1: string, n2: string, all: string, middle: string)
    returns (result: seq<Frame>)
    ensures result == OccurrenceFrames(frame, n1, n2, all, middle)
  {
    var indices := MatchIndices(all, middle, 0);
    ghost var expected := OccurrenceFrames(frame, n1, n2, all, middle);
    result := [];
    var j := 0;
    while j < |indices|
      invariant j <= |indices|
      invariant result == expected[..j]
    {
      var i := indices[j];
      var newFrame := new MutableFrame.Clone(frame);
      newFrame.Add(n1, Values.FromString(all[..i]));
      newFrame.Add(n2, Values.FromString(all[i + |middle|..]));
      TakeOneMore(expected, j);
      assert newFrame.Snapshot() == expected[j];
      result := result + [newFrame.Snapshot()];
      j := j + 1;
    }
    assert expected[..j] == expected;
  }

  /** `query_var2`. */
  method QueryVar2(frame: Frame, args: seq<VarOrValue>) returns (r: Outcome<Option<seq<Frame>>>)
    requires |args| == 4
    ensures r == Var2(frame, args)
  {
    var varIndex1 := LocateVar(args, 0);
    var varIndex2 := 0;
    if args[varIndex1].IsVar() {
      varIndex2 := LocateVar(args, varIndex1 + 1);
    }
    var varName1 := args[varIndex1].GetVarName();
    var varName2 := args[varIndex2].GetVarName();
    if varName1.None? || varName2.None? {
      return Ok(None);
    }
    var result: seq<Frame> := [];
    if varIndex2 != 3 {
      var all := Loose(args[3]);
      if all.None? {
        return Ok(None);
      }
      if varIndex1 == 0 && varIndex2 == 1 {
        var end := Loose(args[2]);
        if end.None? {
          return Ok(None);
        }
        if !EndsWith(all.value, end.value) {
          return Ok(None);
        }
        result := PushSplits(frame, varName1.value, varName2.value, all.value[..|all.value| - |end.value|]);
      } else if varIndex1 == 0 && varIndex2 == 2 {
        var middle := Loose(args[1]);
        if middle.None? {
          return Ok(None);
        }
        result := PushOccurrences(frame, varName1.value, varName2.value, all.value, middle.value);
      } else if varIndex1 == 1 && varIndex2 == 2 {
        var start := Loose(args[0]);
        if start.None? {
          return Ok(None);
        }
        if !StartsWith(all.value, start.value) {
          return Ok(None);
        }
        result := PushSplits(frame, varName1.value, varName2.value, all.value[|start.value|..]);
      }
    } else {
      return Panic;
    }
    return Ok(Some(result));
  }

  /** The frame at position `i2 - i1` of row `i1`. */
  lemma RowAt(frame: Frame, names: (string, string, string), all: string, i1: nat, i2: nat)
    requires i1 <= i2 <= |all|
    ensures Row(frame, names, all, i1)[i2 - i1] == Bind3(frame, names, all, i1, i2)
  {
  }

  lemma TakeOneMore<T>(s: seq<T>, k: nat)
    requires k < |s|
    ensures s[..k + 1] == s[..k] + [s[k]]
  {
  }

  /** The body of the inner loop of `query_var3`: the cloned frame with the three pieces added. */
  method NewFrame3(frame: Frame, names: (string, string, string), all: string, i1: nat, i2: nat) returns (g: Frame)
    requires i1 <= i2 <= |all|
    ensures g == Bind3(frame, names, all, i1, i2)
  {
    var newFrame := new MutableFrame.Clone(frame);
    newFrame.Add(names.0, Values.FromString(all[..i1]));
    newFrame.Add(names.1, Values.FromString(all[i1..i2]));
    newFrame.Add(names.2, Values.FromString(all[i2..]));
    g := newFrame.Snapshot();
  }

  /** The inner loop of `query_var3`: the frames of the split points `i1 <= i2`, pushed in order. */
  method PushRow(acc: seq<Frame>, frame: Frame, names: (string, string, string), all: string, i1: nat)
    returns (result: seq<Frame>)
    requires i1 <= |all|
    ensures result == acc + Row(frame, names, all, i1)
  {
    ghost var row := Row(frame, names, all, i1);
    result := acc;
    var i2 := i1;
    while i2 <= |all|
      invariant i1 <= i2 <= |all| + 1
      invariant result == acc + row[..i2 - i1]
    {
      var g := NewFrame3(frame, names, all, i1, i2);
      RowAt(frame, names, all, i1, i2);
      TakeOneMore(row, i2 - i1);
      result := result + [g];
      i2 := i2 + 1;
    }
    assert row[..|all| + 1 - i1] == row;
  }

  /** `query_var3`. */
  method QueryVar3(frame: Frame, args: seq<VarOrValue>) returns (r: Outcome<Option<seq<Frame>>>)
    requires |args| == 4
    ensures r == Var3(frame, args)
  {
    if args[3].IsVar() {
      return Panic;
    }
    var vname1 := args[0].GetVarName();
    var vname2 := args[1].GetVarName();
    var vname3 := args[2].GetVarName();
    if vname1.None? || vname2.None? || vname3.None? {
      return Ok(None);
    }
    var names := (vname1.value, vname2.value, vname3.value);
    var result: seq<Frame> := [];
    var loose := Loose(args[3]);
    if loose.None? {
      return Ok(None);
    }
    var all := loose.value;
    var i1 := 0;
    while i1 <= |all|
      invariant i1 <= |all| + 1
      invariant result == Rows(frame, names, all, i1)
    {
      result := PushRow(result, frame, names, all, i1);
      i1 := i1 + 1;
    }
    assert Var3(frame, args) == Ok(Some(Rows(frame, names, all, |all| + 1)));
    return Ok(Some(result));
  }

  /** The `var_count` loop of `query`. */
  method CountVars(newArgs: seq<VarOrValue>) returns (varCount: nat)
    ensures varCount == VarCount(newArgs)
  {
    varCount := 0;
    var k := 0;
    while k < |newArgs|
      invariant k <= |newArgs|
      invariant varCount == VarCount(newArgs[..k])
    {
      assert newArgs[..k + 1][..k] == newArgs[..k];
      if newArgs[k].IsVar() {
        varCount := varCount + 1;
      }
      k := k + 1;
    }
    assert newArgs[..k] == newArgs;
  }

  /** One pass of the loop of `query`: the frames one input frame contributes. */
  method QueryOneFrame(frame: Frame, args: seq<VarOrValue>) returns (r: Outcome<seq<Frame>>)
    requires |args| == 4
    ensures r == PerFrame(frame, args)
  {
    var newArgs := MatchAllInFrame(args, frame);
    var varCount := CountVars(newArgs);
    var found: Outcome<Option<seq<Frame>>>;
    if varCount == 0 {
      found := Ok(QueryVar0(frame, newArgs));
    } else if varCount == 1 {
      found := QueryVar1(frame, newArgs);
    } else if varCount == 2 {
      found := QueryVar2(frame, newArgs);
    } else if varCount == 3 {
      found := QueryVar3(frame, newArgs);
    } else {
      return Panic;
    }
    match found
    case Panic =>
      return Panic;
    case Ok(o) =>
      return Ok(if o.Some? then o.value else []);
  }

  /** `SplitBy::query`. */
  method Query(input: seq<Frame>, args: seq<VarOrValue>) returns (r: Outcome<Option<seq<Frame>>>)
    ensures r == QuerySpec(input, args)
  {
    if |args| != 4 {
      return Ok(None);
    }
    var result: seq<Frame> := [];
    var i := 0;
    while i < |input|
      invariant i <= |input|
      invariant QueryFrames(input[..i], args) == Ok(result)
    {
      var found := QueryOneFrame(input[i], args);
      QueryFramesStep(input, args, i, result);
      if found.Panic? {
        return Panic;
      }
      result := result + found.value;
      i := i + 1;
    }
    assert input[..i] == input;
    return Ok(Some(result));
  }
}
