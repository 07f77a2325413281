# gdp query interpreter, modelled in Dafny

gdp answers Datalog-style queries over a game-data directory. A query such
as `Avatar.nameTextMapHash ?a ?h && CHS ?h ?name` is parsed into an
expression tree. The tree is then evaluated against a list of frames: the
candidate solutions, each a map from variable name to value. Evaluation
starts from one empty frame. Each predicate call is answered by one of
these strategies:

- a dataset (`ExcelBinOutput/<name>.json`, an array of records);
- a locale text map (`TextMap/TextMap<locale>.json`, key to text);
- a registered built-in. The only built-in is `split_by`, the relation
  `a + b + c == d` over strings.

Values carry a structural hash, and the hash is the only equality the
interpreter uses. The data directory is read through a cache that also
prunes empty translations.

The model has one module per core source file, plus two support modules:

- `Wrappers` in wrappers.dfy: `Option`, and `Outcome` = `Ok(x)` or `Panic` for a Rust panic
- `Json` in json.dfy: `serde_json::Value`, number text (`f64::to_string`, `parse::<f64>`)
- `Values` in value.dfy: src/runtime/value.rs
- `Frames` in frame.dfy: src/runtime/frame.rs
- `GenericQuery` in generic_query.dfy: src/query/generic_query.rs
- `SplitBy` in split_by.dfy: src/query/generic_queries/split_by.rs
- `Ast` in ast_expression.dfy: src/ast/node/ast_expression.rs
- `Parser` in parser.dfy: src/ast/parser.rs
- `FileSystems` in file_system.dfy: src/file_system/file_system.rs
- `CachedFs` in cached_file_system.dfy: src/file_system/cached_file_system.rs
- `Queries` in query.dfy: src/query/query.rs

The code is modelled in the form it takes in Rust:

- The loops of the source are methods with loops. Each method is proved
  equal to a specification function, for example
  `ensures r == Simple(input, path, args)`. The properties of the source
  are then lemmas about those functions.
- A panic is the `Panic` outcome, which is distinct from `None` and from an
  empty list. The modelled panic sites are:
  - split_by.rs:53, a slice whose start exceeds its end;
  - split_by.rs:142, 150 and 201;
  - query.rs:223 and query.rs:283;
  - parser.rs:32, 45 and 117 on an empty child list.
- A hash is the sequence of tokens fed to the hasher (`Values.Tokens`).
  Two values are "equal" exactly when their token sequences are equal.
  This is stricter than the program's byte-level equality; see "## Left out".
- Numbers are kept as millionths (`Json.Num`). That is the precision the
  hash observes. A fractional number feeds its millionths through the
  saturating `as i64` cast (`Values.SaturateI64`).
- The file system is a record of three functions (`FileSystems.FileSystem`).
  `serde_json::from_str` and the pest grammar are function parameters.

The behaviour the system is meant to have differs from the code in the
cases below. In each case the model follows the code:

- `CHS "K2" ?v` with `K2` mapped to `""` is meant to give no frames, since
  empty translations count as missing.
  - The code looks the key up directly, without the empty-text filter.
    Read straight from a file system, it binds `v = ""`
    (`Queries.GivenKeyWithEmptyTextRaw`).
  - Through the caching file system `QueryProgram::default` installs,
    pruning has removed `K2`, so the `unwrap` at query.rs:223 panics
    (`Queries.GivenKeyWithEmptyTextCached`).
- A dataset record without the accessed field is meant to be skipped.
  In the code, the `?` at query.rs:191 makes the whole two-argument
  strategy answer `None`, which discards the frames already found
  (`Queries.FileDataOtherAborts`).
- `split_by` with nothing free is meant to compare hashes. The code
  compares the loose texts (numbers as decimal text) by string equality
  (`SplitBy.QueryVar0`).
- `split_by` with `d` free is meant to be always an error. In the code,
  `d` alone free is solved as `a + b + c` (split_by.rs:64-68). Only `d`
  free together with another argument panics (`SplitBy.WholeFreePanics`).
- Malformed input is meant never to crash. The conversion panics on a
  node without children (parser.rs:32, 45, 117). A tree the grammar
  produces never has such a node.
- Output frames are meant to come in input order. The given-text
  locale case iterates keys in the outer loop and frames in the inner loop
  (query.rs:236-249). Its output is key-major (`Queries.TupleMajor`).
  `Queries.TupleMajorMember` proves that it holds the same frames as the
  frame-major order.

## Model

| member | source | states |
|---|---|---|
| `Json.Get` | src/query/query.rs:42 | the lookup gives `None` exactly when no entry has the key, and otherwise an entry's value under that key |
| `Json.PlusSignIgnored` | src/ast/parser.rs:105-108 | a leading '+' reads as the unsigned text |
| `Json.TrailingPointIgnored` | src/ast/parser.rs:105-108 | `5.` reads as `5` |
| `Json.PointFirst` | src/ast/parser.rs:105-108 | `.d` reads as `d` tenths |
| `Json.IntegralNumText` | src/runtime/value.rs:44-49 | a whole number is integral, and its text is its integer's decimal text |
| `Json.ParseIntText` | src/ast/parser.rs:105-108 | reading the decimal text of an integer gives back that integer |
| `Values.SortByKey` | src/runtime/value.rs:30-31 | sorting the keys yields a permutation of the entries, and a strictly ascending one for a map |
| `Values.StrictlySortedUnique` | src/runtime/value.rs:30-31 | two strictly sorted entry lists holding the same entries are equal, so the sort fixes the hashing order |
| `Values.HashSerdeValue` | src/runtime/value.rs:27-59 | the hasher receives exactly the tokens of the value, after what it held before |
| `Values.HashEntries` | src/runtime/value.rs:29-37 | the loop writes each key, then the tokens of its value, in the sorted order |
| `Values.HashItems` | src/runtime/value.rs:38-42 | the loop writes the tokens of each item in turn, with no delimiter |
| `Values.KeyOrderIrrelevant` | src/runtime/value.rs:29-37 | objects whose entries are permutations of one another hash equally |
| `Values.NestedArrayFlattens` | src/runtime/value.rs:38-42 | arrays feed no delimiter: `[["a"],"b"]` hashes like `["a","b"]` |
| `Values.EmptyArrayLikeEmptyObject` | src/runtime/value.rs:29-42 | `[]` and `{}` feed no token at all and hash equally |
| `Values.SingleEntryLikePair` | src/runtime/value.rs:29-43 | `{"k": v}` hashes like `["k", v]` |
| `Values.IntegralNumberLikeString` | src/runtime/value.rs:43-49 | an integral number hashes like the string of its decimal text, and reads loosely as that text |
| `Values.SaturateI64` | src/runtime/value.rs:52 | the cast stays within the i64 range, keeps values inside it, and clamps values outside it to the nearer end |
| `Values.FractionalNumberUnlikeString` | src/runtime/value.rs:50-54 | a number that is not integral never gives the token sequence of a string |
| `Values.SaturatedFractionsCollide` | src/runtime/value.rs:50-54 | two fractional numbers whose millionths are both above, or both below, the i64 range hash alike |
| `Values.FractionsInRangeDistinct` | src/runtime/value.rs:50-54 | two fractional numbers whose millionths fit in i64 hash alike exactly when they are equal |
| `Values.ToValue` | src/runtime/value.rs:16-24 | the value keeps the JSON it wraps, and its hash is that JSON's tokens |
| `Values.FromString` | src/runtime/value.rs:79-82 | the value reads back as the string, strictly and loosely |
| `Values.FromNumber` | src/runtime/value.rs:74-77 | the value is no string, and reads loosely as the number's decimal text |
| `Values.HashedValue.AsString` | src/runtime/value.rs:88-93 | a string exactly for a JSON string, and then its text |
| `Values.HashedValue.AsLooseString` | src/runtime/value.rs:95-103 | a text exactly for strings and numbers, agreeing with `AsString` on strings |
| `Frames.Frame.New` | src/runtime/frame.rs:16-20 | no name is bound or present, and the frame is resolved |
| `Frames.Frame.Get` | src/runtime/frame.rs:22-28 | a value exactly for a `NonVariable` entry |
| `Frames.Frame.Contains` | src/runtime/frame.rs:30-32 | true exactly when the name has an entry of either kind: a bound value or a `Variable` placeholder |
| `Frames.Frame.Add` | src/runtime/frame.rs:34-36 | the name is bound to the value and every other name keeps its entry; resolved frames stay resolved |
| `Frames.Frame.AddSerde` | src/runtime/frame.rs:38-42 | `add` of the hashed JSON, which reads back as that JSON |
| `Frames.Frame.IsResolved` | src/runtime/frame.rs:44-51 | true exactly when no entry is a `Variable` placeholder |
| `Frames.Frame.ToSerdeMap` | src/runtime/frame.rs:53-63 | an object with distinct keys: exactly the bound names, each with its bound JSON |
| `Frames.MutableFrame.Clone` | src/query/query.rs:12 | the clone holds the frame's entries |
| `Frames.MutableFrame.Add` | src/runtime/frame.rs:34-36 | the frame in place becomes `add` of the old frame |
| `Frames.MutableFrame.AddSerde` | src/runtime/frame.rs:38-42 | the frame in place becomes `add_serde` of the old frame |
| `Frames.VariableEntryIsUnbound` | src/runtime/frame.rs:22-32 | a `Variable` entry is present for `contains`, unbound for `get`, and leaves the frame unresolved |
| `Frames.BuiltFramesResolved` | src/runtime/frame.rs:34-51 | any frame built from `new` by `add_serde` is resolved |
| `GenericQuery.VarOrValue.IsVar` | src/query/generic_query.rs:13-18 | true exactly for the `Var` arm, whatever its name |
| `GenericQuery.VarOrValue.AsValue` | src/query/generic_query.rs:20-25 | a value exactly for a bound argument |
| `GenericQuery.VarOrValue.GetVarName` | src/query/generic_query.rs:27-32 | a name exactly for a free argument |
| `GenericQuery.VarOrValue.MatchInFrame` | src/query/generic_query.rs:34-44 | a free argument the frame binds becomes the bound value; anything else is unchanged; what stays free is unbound |
| `GenericQuery.MatchAllInFrame` | src/query/generic_queries/split_by.rs:185 | every argument is looked up in the frame, position by position |
| `GenericQuery.MatchInFrameIdempotent` | src/query/generic_query.rs:34-44 | looking up twice is looking up once |
| `GenericQuery.MatchAllNeverAddsVars` | src/query/generic_queries/split_by.rs:184-190 | lookup never raises the count of free arguments, and keeps it exactly when no free argument is bound in the frame |
| `GenericQuery.GenericQueries.New` | src/query/generic_query.rs:56-60 | no name is registered |
| `GenericQuery.GenericQueries.Default` | src/query/generic_query.rs:67-76 | `split_by` is registered, and no other name |
| `GenericQuery.GenericQueries.Get` | src/query/generic_query.rs:62-64 | a built-in exactly for a registered name |
| `SplitBy.MatchIndices` | src/query/generic_queries/split_by.rs:117 | every index starts an occurrence of the needle |
| `SplitBy.MatchIndicesComplete` | src/query/generic_queries/split_by.rs:117 | every occurrence that no earlier reported match overlaps is reported |
| `SplitBy.FirstOccurrenceReported` | src/query/generic_queries/split_by.rs:117 | the leftmost occurrence at or after the start is always reported |
| `SplitBy.MatchIndicesAscend` | src/query/generic_queries/split_by.rs:117 | the indices strictly ascend, each at least the needle's length past the one before, so occurrences never overlap |
| `SplitBy.SplitFrames` | src/query/generic_queries/split_by.rs:107-114 | one frame per split point: `\|remain\| + 1` frames |
| `SplitBy.OccurrenceFrames` | src/query/generic_queries/split_by.rs:117-124 | one frame per occurrence found |
| `SplitBy.QueryVar0` | src/query/generic_queries/split_by.rs:8-18 | the frame, unchanged, exactly when all four loose texts exist and `a + b + c == d` |
| `SplitBy.QuerySpec` | src/query/generic_queries/split_by.rs:177-207 | `None` exactly when the arity is not 4 |
| `SplitBy.QueryFramesAppend` | src/query/generic_queries/split_by.rs:183-203 | output is grouped by input frame in input order; a panic anywhere is a panic |
| `SplitBy.QueryFramesSingle` | src/query/generic_queries/split_by.rs:183-203 | one input frame contributes exactly its own results |
| `SplitBy.Var1Solves` | src/query/generic_queries/split_by.rs:20-72 | every frame of the one-free mode keeps the input bindings and satisfies `a + b + c == d` |
| `SplitBy.Var2Solves` | src/query/generic_queries/split_by.rs:74-146 | every frame of the two-free mode keeps the input bindings and satisfies the relation |
| `SplitBy.PrefixMiddleSolves` | src/query/generic_queries/split_by.rs:100-114 | `a`, `b` free: each frame solves the relation |
| `SplitBy.PrefixSuffixSolves` | src/query/generic_queries/split_by.rs:115-124 | `a`, `c` free: each frame solves the relation |
| `SplitBy.MiddleSuffixSolves` | src/query/generic_queries/split_by.rs:125-139 | `b`, `c` free: each frame solves the relation |
| `SplitBy.RowsMembers` | src/query/generic_queries/split_by.rs:159-170 | the three-free enumeration holds exactly the frames of the index pairs `i1 <= i2` |
| `SplitBy.RowsCount` | src/query/generic_queries/split_by.rs:159-170 | the number of frames in the first rows of that enumeration |
| `SplitBy.Var3Solves` | src/query/generic_queries/split_by.rs:148-173 | every frame of the three-free mode keeps the input bindings and satisfies the relation |
| `SplitBy.PerFrameSound` | src/query/generic_queries/split_by.rs:183-203 | with no variable repeated, every frame one input frame contributes extends it and satisfies the relation |
| `SplitBy.QuerySound` | src/query/generic_queries/split_by.rs:177-207 | with no variable repeated, every output frame extends some input frame and satisfies the relation |
| `SplitBy.ZeroFree` | src/query/generic_queries/split_by.rs:192-193 | nothing free: the frame survives, unchanged, exactly when the relation holds |
| `SplitBy.WholeFreePanics` | src/query/generic_queries/split_by.rs:177-207 | `d` free together with another argument panics (lines 142, 150, 201) |
| `SplitBy.OneFreeSolved` | src/query/generic_queries/split_by.rs:194-195 | one free argument of a solvable relation: exactly one frame, binding it to its solution |
| `SplitBy.Var1Solved` | src/query/generic_queries/split_by.rs:20-72 | the closed form gives exactly the solution, whichever position is free |
| `SplitBy.MiddleOverlapPanics` | src/query/generic_queries/split_by.rs:42-54 | `b` free with overlapping prefix and suffix panics on the backwards slice |
| `SplitBy.PrefixMiddleCount` | src/query/generic_queries/split_by.rs:100-114 | `a`, `b` free: `\|d\| - \|c\| + 1` frames when `c` ends `d`, none otherwise |
| `SplitBy.MiddleSuffixCount` | src/query/generic_queries/split_by.rs:125-139 | `b`, `c` free: `\|d\| - \|a\| + 1` frames when `a` starts `d`, none otherwise |
| `SplitBy.MatchIndicesEmpty` | src/query/generic_queries/split_by.rs:117 | an empty needle matches at every position, the end included |
| `SplitBy.PrefixSuffixCount` | src/query/generic_queries/split_by.rs:115-124 | `a`, `c` free: one frame per occurrence of `b`; `\|d\| + 1` for an empty `b` |
| `SplitBy.ThreeFreeCount` | src/query/generic_queries/split_by.rs:158-170 | three free: `(n + 1)(n + 2) / 2` frames, and the frame of every pair `i1 <= i2` among them |
| `SplitBy.AllBoundMatches` | src/query/generic_queries/split_by.rs:8-18 | `"UI_" "Equip" "Icon" "UI_EquipIcon"` keeps the one frame |
| `SplitBy.AllBoundMismatch` | src/query/generic_queries/split_by.rs:8-18 | `"a" "b" "c" "xyz"` gives no frames and no error |
| `SplitBy.PrefixSolved` | src/query/generic_queries/split_by.rs:32-41 | `?p "Equip" "Icon" "UI_EquipIcon"` binds `p = "UI_"` |
| `SplitBy.ThreeFreeOverAbc` | src/query/generic_queries/split_by.rs:158-170 | `?a ?b ?c "abc"` gives ten frames |
| `SplitBy.AllFreePanics` | src/query/generic_queries/split_by.rs:200-202 | four free arguments panic rather than give nothing |
| `SplitBy.OverlapExample` | src/query/generic_queries/split_by.rs:42-54 | `"ab" ?b "bc" "abc"` panics |
| `SplitBy.OverlappingOccurrenceMissed` | src/query/generic_queries/split_by.rs:115-124 | `?a "aa" ?c "aaa"` yields only `a = ""`, although `a = "a"`, `c = ""` also solves it |
| `SplitBy.RepeatedVariableUnsound` | src/query/generic_queries/split_by.rs:100-114 | `?x ?x "" "ab"` emits a frame that does not satisfy the relation |
| `SplitBy.LocateVar` | src/query/generic_queries/split_by.rs:21-27 | the loop finds the first free argument, or 0 when there is none |
| `SplitBy.SolveFirstMember` | src/query/generic_queries/split_by.rs:32-41 | `a` free: the only frame exists exactly when `d` ends with `b + c`, and binds `a` to the rest of `d` |
| `SplitBy.SolveMiddleMember` | src/query/generic_queries/split_by.rs:42-54 | `b` free: the only frame needs `d` to start with `a`, end with `c`, and the two not to overlap; it binds `b` to what lies between |
| `SplitBy.SolveLastMember` | src/query/generic_queries/split_by.rs:55-63 | `c` free: the only frame exists exactly when `d` starts with `a + b`, and binds `c` to the rest of `d` |
| `SplitBy.QueryFirst` | src/query/generic_queries/split_by.rs:32-41 | the method computes the `a`-free arm on a cloned frame |
| `SplitBy.QueryMiddle` | src/query/generic_queries/split_by.rs:42-54 | the method computes the `b`-free arm, the panic on a backwards slice included |
| `SplitBy.QueryLast` | src/query/generic_queries/split_by.rs:55-63 | the method computes the `c`-free arm on a cloned frame |
| `SplitBy.QueryVar1` | src/query/generic_queries/split_by.rs:20-72 | the method computes the one-free mode |
| `SplitBy.PushSplits` | src/query/generic_queries/split_by.rs:107-114 | the loop pushes one frame per split point, in order |
| `SplitBy.PushOccurrences` | src/query/generic_queries/split_by.rs:117-124 | the loop pushes one frame per occurrence, in order |
| `SplitBy.QueryVar2` | src/query/generic_queries/split_by.rs:74-146 | the method computes the two-free mode |
| `SplitBy.NewFrame3` | src/query/generic_queries/split_by.rs:161-167 | the cloned frame with the three pieces of `d` at `i1 <= i2` added in order |
| `SplitBy.PushRow` | src/query/generic_queries/split_by.rs:160-169 | the inner loop appends the frames of every `i2` from `i1` to `\|d\|`, in order |
| `SplitBy.QueryVar3` | src/query/generic_queries/split_by.rs:148-173 | the nested loops compute the three-free mode |
| `SplitBy.CountVars` | src/query/generic_queries/split_by.rs:186-190 | the loop counts the free arguments |
| `SplitBy.QueryOneFrame` | src/query/generic_queries/split_by.rs:184-202 | one pass of the loop gives what one input frame contributes |
| `SplitBy.Query` | src/query/generic_queries/split_by.rs:177-207 | the method computes the built-in over all input frames |
| `Ast.Expression.IsVar` | src/ast/node/ast_expression.rs:39-44 | true exactly for a `Variable` node, whatever its name and path flag |
| `Ast.Expression.AsString` | src/ast/node/ast_expression.rs:24-29 | a text exactly for a string literal, its text |
| `Ast.Expression.AsLooseString` | src/ast/node/ast_expression.rs:31-37 | a text exactly for string and number literals, agreeing with `AsString` on strings |
| `Ast.Expression.GetVarName` | src/ast/node/ast_expression.rs:46-51 | a name exactly for a variable, its name |
| `Ast.Expression.TryToValue` | src/ast/node/ast_expression.rs:53-64 | a value exactly for number and string literals, reading as the literal does |
| `Ast.StringLiteralValue` | src/ast/node/ast_expression.rs:59-61 | `try_to_value(from_str(s))` is `Value::from_string(s)` |
| `Ast.IntegralLiteralText` | src/ast/node/ast_expression.rs:31-37 | an integral number literal reads loosely as its integer text |
| `Parser.Split` | src/ast/parser.rs:118 | at least one segment, none holding the separator |
| `Parser.SplitJoin` | src/ast/parser.rs:117-118 | joining the segments with '.' restores the predicate text |
| `Parser.SplitWithoutSeparator` | src/ast/parser.rs:118 | a text without '.' is one segment |
| `Parser.VariableValue` | src/ast/parser.rs:78-96 | a value node parses to a variable exactly when its literal is a variable, and the variable is named by the literal's whole text and is not a path |
| `Parser.RangeAllParsed` | src/ast/parser.rs:120-124 | children that all parse give their expressions in order |
| `Parser.RangeChildFails` | src/ast/parser.rs:120-124 | a child that does not parse leaves no list at all, never a partial one |
| `Parser.RangeNeverPanics` | src/ast/parser.rs:120-124 | children that do not panic never make the range panic |
| `Parser.ChainFoldsLeft` | src/ast/parser.rs:44-55 | two or more operands fold from the left into one node per operator |
| `Parser.ChainOfThree` | src/ast/parser.rs:59-75 | `a && b && c` is `And(And(a, b), c)`, likewise for `\|\|` |
| `Parser.ChainChildFails` | src/ast/parser.rs:44-56 | an operand that does not parse leaves no expression |
| `Parser.PrimaryCall` | src/ast/parser.rs:110-132 | a call's path is the first child's text split on '.', and its arguments are the other children in order |
| `Parser.PrimaryArgFails` | src/ast/parser.rs:120-124 | an argument that does not parse leaves no call |
| `Parser.IntegerLiteral` | src/ast/parser.rs:78-108 | a number literal written as an integer reads as that integer |
| `Parser.SingleChildPassesThrough` | src/ast/parser.rs:40-43 | a chain or primary node with one child is that child's parse |
| `Parser.UnknownRulesGiveNothing` | src/ast/parser.rs:24-38 | an unknown rule, or a value whose child is no literal, gives no expression |
| `Parser.RejectedTextGivesNothing` | src/ast/parser.rs:135-138 | text the grammar rejects gives no expression |
| `Parser.ParseExpression` | src/ast/parser.rs:24-38 | the method computes the conversion of a node |
| `Parser.ParseOrExpression` | src/ast/parser.rs:40-57 | the method computes the `\|\|` chain |
| `Parser.ParseAndExpression` | src/ast/parser.rs:59-76 | the method computes the `&&` chain |
| `Parser.FoldChain` | src/ast/parser.rs:44-55 | the loop with its accumulator computes the left fold |
| `Parser.ParsePrimaryExpression` | src/ast/parser.rs:110-133 | the method computes the conversion of a primary node |
| `Parser.ParseStringExpression` | src/ast/parser.rs:135-138 | the method computes the conversion of the grammar's tree for the text |
| `CachedFs.NonEmptyEntries` | src/file_system/cached_file_system.rs:52-62 | exactly the entries whose value is not the empty string |
| `CachedFs.Prune` | src/file_system/cached_file_system.rs:49-66 | the loop with its flag and `break` computes the clean-up |
| `CachedFs.Cached` | src/file_system/cached_file_system.rs:22-72 | the cache answers `exists` and `read` as the upper file system does, and `read_serde` with the cleaned-up parse |
| `CachedFs.CachedFileSystem.constructor` | src/file_system/cached_file_system.rs:13-19 | both caches start empty and agree with the upper file system |
| `CachedFs.CachedFileSystem.Exists` | src/file_system/cached_file_system.rs:23-25 | the upper file system's answer |
| `CachedFs.CachedFileSystem.Read` | src/file_system/cached_file_system.rs:27-37 | the upper text, cached when there is one; the other cache is unchanged |
| `CachedFs.CachedFileSystem.ReadSerde` | src/file_system/cached_file_system.rs:39-72 | the cleaned-up parse of the text, cached when there is one |
| `CachedFs.PrunedIdempotent` | src/file_system/cached_file_system.rs:49-66 | cleaning up twice is cleaning up once |
| `CachedFs.NonEmptyLookup` | src/file_system/cached_file_system.rs:52-62 | a key keeps its value unless the value is empty, and then it is gone |
| `CachedFs.MixedObjectUntouched` | src/file_system/cached_file_system.rs:51-65 | an object with a non-string value is kept as it is |
| `CachedFs.NoEmptyAfterPruning` | src/file_system/cached_file_system.rs:49-66 | an all-string object keeps exactly its non-empty entries |
| `Queries.IsMatchN` | src/query/query.rs:11-34 | the loop over a cloned frame computes the unifier |
| `Queries.MatchArg` | src/query/query.rs:16-29 | the loop body accepts exactly an argument that agrees with the original frame, and binds a variable argument in the clone |
| `Queries.BindArgsKeeps` | src/query/query.rs:12-33 | a name no variable argument carries keeps its entry |
| `Queries.BindArgsLast` | src/query/query.rs:15-24 | among variable arguments of one name the last decides its binding |
| `Queries.BindArgsKeepsHash` | src/query/query.rs:17-24 | when every argument agrees, a bound name keeps a value of the same hash |
| `Queries.BindArgsBinds` | src/query/query.rs:17-24 | every variable argument ends up bound |
| `Queries.IsMatchConsistent` | src/query/query.rs:11-34 | a match keeps every binding's hash, binds every variable, and gives each literal a value of its hash |
| `Queries.IsMatchRejects` | src/query/query.rs:17-29 | a variable bound to another hash, or a literal of another hash, rejects the tuple |
| `Queries.RepeatedVariableLastWins` | src/query/query.rs:19-24 | `?x ?x` against "a", "b" matches, and x ends up "b" |
| `Queries.NumberLiteralMatchesDigits` | src/query/query.rs:25-29 | the literal 500 unifies with the text "500" |
| `Queries.TwoVariablesBind` | src/query/query.rs:11-34 | two variables that agree with the frame bind their values left to right |
| `Queries.AccessSteps` | src/query/query.rs:36-48 | the empty path reaches the record; a non-object or a missing key reaches nothing |
| `Queries.AccessAppend` | src/query/query.rs:37-44 | following `p + q` is following `p`, then `q` |
| `Queries.AccessSerde` | src/query/query.rs:36-48 | the cursor loop succeeds exactly when the path reaches a value, and wraps that value |
| `Queries.Wrap` | src/runtime/value.rs:10-24 | the wrapped value reads back as the JSON |
| `Queries.MatchTuplesMember` | src/query/query.rs:155-162 | one frame against tuples yields exactly its successful matches |
| `Queries.FrameMajorMember` | src/query/query.rs:155-162 | frame-major enumeration yields exactly the successful (frame, tuple) matches |
| `Queries.MatchFramesMember` | src/query/query.rs:225-229 | one tuple against the frames yields exactly its successful matches |
| `Queries.TupleMajorMember` | src/query/query.rs:236-250 | key-major enumeration holds the same frames as frame-major, as a set |
| `Queries.TupleMajorPermutes` | src/query/query.rs:236-250 | key-major enumeration is a reordering of frame-major: each frame occurs in both equally often |
| `Queries.TupleMajorCount` | src/query/query.rs:236-250 | both enumerations yield the same number of frames |
| `Queries.TupleMajorExists` | src/query/query.rs:236-250 | key-major enumeration yields exactly the successful (frame, tuple) matches |
| `Queries.FrameMajorAppend` | src/query/query.rs:188-197 | frame-major output is grouped by input frame, in input order |
| `Queries.CollectSome` | src/query/query.rs:188-191 | gathering succeeds exactly when every element does (the `?` in the loops) |
| `Queries.CollectMember` | src/query/query.rs:188-197 | the gathered tuples are exactly the elements' tuples |
| `Queries.SingleTuples` | src/query/query.rs:156-158 | one tuple per record, holding the wrapped record |
| `Queries.NonEmpty` | src/query/query.rs:130-134 | `None` exactly for the empty list, and the list otherwise |
| `Queries.GlobalArgs` | src/query/query.rs:274-285 | no panic exactly when every argument is a variable or a literal, and then one descriptor per argument |
| `Queries.QueryProgram.Query` | src/query/query.rs:70-78 | parses the text and evaluates it from one empty frame |
| `Queries.QueryProgram.QueryInternal` | src/query/query.rs:80-96 | the dispatch computes the evaluation of any expression |
| `Queries.QueryProgram.QueryAnd` | src/query/query.rs:98-102 | the method computes the evaluation of `&&` |
| `Queries.QueryProgram.QueryOr` | src/query/query.rs:104-113 | the method computes the evaluation of `\|\|` |
| `Queries.QueryProgram.QuerySimple` | src/query/query.rs:115-135 | the method computes the three strategies' concatenation |
| `Queries.QueryProgram.QueryFileData1` | src/query/query.rs:137-167 | the method computes the one-argument dataset strategy |
| `Queries.QueryProgram.QueryFileDataOther` | src/query/query.rs:169-201 | the method computes the two-argument dataset strategy |
| `Queries.QueryProgram.QueryLocale` | src/query/query.rs:203-268 | the method computes the text-map strategy |
| `Queries.QueryProgram.QueryGlobalFunction` | src/query/query.rs:270-288 | the method computes the built-in strategy |
| `Queries.MatchEachFrame` | src/query/query.rs:225-229 | the loop matches each input frame against the one tuple |
| `Queries.ScanForText` | src/query/query.rs:236-250 | the given-text scan aborts exactly when some value is not text, and otherwise yields the key-major matches |
| `Queries.ScanAll` | src/query/query.rs:253-264 | the both-free scan aborts exactly when some value is not text, and otherwise yields the frame-major matches |
| `Queries.ScanEntries` | src/query/query.rs:254-263 | the inner both-free loop aborts exactly when some value is not text, and otherwise matches the one frame against each non-empty entry |
| `Queries.MatchRecords` | src/query/query.rs:156-161 | the inner loop matches one frame against each record |
| `Queries.MatchRecordsAt` | src/query/query.rs:189-196 | the inner loop aborts exactly when a record lacks the field, and otherwise matches each (record, field) |
| `Queries.BuildGlobalArgs` | src/query/query.rs:277-285 | the loop builds the built-in's arguments |
| `Queries.GlobalArgsPrefix` | src/query/query.rs:278-284 | an argument that panics panics for the whole list |
| `Queries.NonCallGoals` | src/query/query.rs:80-96 | literals and variables evaluated as goals give nothing |
| `Queries.OtherPathsAreSimple` | src/query/query.rs:83-94 | any other first segment is answered by `query_simple` |
| `Queries.LocaleRoutesExclusively` | src/query/query.rs:83-90 | a locale code as first segment is answered by the text map alone |
| `Queries.AndShortCircuits` | src/query/query.rs:98-102 | a left side without frames makes `&&` give nothing |
| `Queries.AndThreads` | src/query/query.rs:98-102 | `&&` evaluates its right side from the frames its left side gives |
| `Queries.AndAssociative` | src/query/query.rs:98-102 | `(a && b) && c` evaluates as `a && (b && c)` |
| `Queries.EvalOr` | src/query/query.rs:104-113 | `\|\|` combines the two sides' outcomes, both from the same input |
| `Queries.OrCombineAssociative` | src/query/query.rs:104-113 | combining outcomes is associative |
| `Queries.OrAssociative` | src/query/query.rs:104-113 | `(a \|\| b) \|\| c` evaluates as `a \|\| (b \|\| c)` |
| `Queries.OrUnion` | src/query/query.rs:104-113 | `\|\|` yields the left frames then the right frames, never an empty list |
| `Queries.SimpleNoneIff` | src/query/query.rs:115-135 | a call gives nothing exactly when no strategy finds a frame |
| `Queries.OnlyFileDataOther` | src/query/query.rs:115-135 | with two arguments and no built-in of that name, only the two-argument dataset strategy answers |
| `Queries.FileData1Members` | src/query/query.rs:137-167 | one frame per unifying (input frame, record) pair |
| `Queries.FileDataOtherAborts` | src/query/query.rs:188-191 | one record lacking the field discards every frame of the strategy |
| `Queries.FileDataOtherMembers` | src/query/query.rs:169-201 | with every record holding the field, one frame per unifying (frame, (record, field)) |
| `Queries.RecordTuplesExact` | src/query/query.rs:189-193 | the gathered tuples are exactly the (record, field) pairs |
| `Queries.LocaleMissingKeyPanics` | src/query/query.rs:218-223 | a given key missing from the text map panics |
| `Queries.EntryTuplesExact` | src/query/query.rs:253-262 | the both-free scan visits exactly the entries with non-empty text |
| `Queries.TextTuplesExact` | src/query/query.rs:236-249 | the given-text scan reports exactly the keys whose text is the given, non-empty text |
| `Queries.TextScanAborts` | src/query/query.rs:236-258 | a value that is not text aborts both scans |
| `Queries.GlobalBadArgPanics` | src/query/query.rs:278-284 | a nested call or connective as a built-in's argument panics |
| `Queries.GlobalUnregistered` | src/query/query.rs:270-272 | an unregistered name gives nothing through the built-in strategy |
| `Queries.DefaultProgram` | src/query/query.rs:55-65 | `split_by` alone registered, and reads going through the cache |
| `Queries.GivenKeyWithEmptyTextRaw` | src/query/query.rs:218-229 | `CHS "K2" ?v`, read directly with `K2` empty, binds `v = ""` |
| `Queries.GivenKeyWithEmptyTextCached` | src/query/query.rs:218-223 | the same query through the cache panics |
| `Queries.AvatarRecordPaired` | src/query/query.rs:169-201 | the record is paired with its hash field |
| `Queries.AvatarTupleMatches` | src/query/query.rs:11-34 | `?a ?h` binds the record and 500 |
| `Queries.AvatarSimple` | src/query/query.rs:115-135 | only the two-argument strategy answers the dataset call |
| `Queries.AvatarHashStep` | src/query/query.rs:80-96 | `Avatar.nameTextMapHash ?a ?h` gives one frame, with the record and 500 |
| `Queries.AvatarNameTuples` | src/query/query.rs:251-265 | the text map gives the tuple ("500", "Amber") |
| `Queries.AvatarNameMatches` | src/query/query.rs:17-24 | 500 agrees with the key "500", so h is rebound and name bound |
| `Queries.AvatarNameStep` | src/query/query.rs:251-265 | `CHS ?h ?name` from that frame binds `name = "Amber"` |
| `Queries.AvatarJoin` | src/query/query.rs:98-102 | the conjunction of the two calls names the avatar "Amber" |

## Left out

- src/bin/gdp.rs is not part of this model. It holds the interactive loop,
  argument parsing and printing, which are I/O.
- src/file_system/naive_file_system.rs and src/file_system/http_file_system.rs
  are not part of this model. They read disks and the network. The file
  system is a deterministic oracle (`FileSystems.FileSystem`).
- `QueryProgram::default` hard-codes a Windows data directory
  (query.rs:57). `Queries.DefaultProgram` takes the upper file system as a
  parameter instead.
- The `println!` at split_by.rs:128 is not modelled, because it is output
  only.
- The pest grammar is not modelled. The parser's input is a parse tree,
  and the grammar is a function from text to tree.
- `serde_json::from_str` is not modelled. It is a function parameter
  `parseJson`.
- Floating point is not modelled.
  - Numbers are exact millionths, which is what the hash distinguishes
    (value.rs:44-54). The `(f * 1e6) as i64` cast (value.rs:52) is
    modelled on the millionths, saturating at the i64 ends.
  - `f64::to_string` of a fractional number is modelled as its millionths
    with trailing zeros stripped.
  - `-0.0` and rounding in `parse::<f64>` are not modelled.
- Json.ParseNumber: exponent forms, `inf`, `infinity` and `NaN` are not
  modelled, so a number literal written that way gives no expression,
  where `parse::<f64>` (parser.rs:106) accepts it. A sign, and decimals
  with an empty whole or fraction part, are modelled.
- `DefaultHasher` and its 64-bit collisions are not modelled. Equality of
  hashes is equality of token sequences.
- Values.Tokens: the untagged byte stream the hasher receives is not
  modelled, so token equality is stricter than the program's hash
  equality. `Null` writes `0.hash()` of an `i32`, four zero bytes
  (value.rs:58). A bool writes one byte. A string writes its bytes and
  then `0xff`. A fractional number writes eight little-endian bytes. So
  the program hashes these pairs alike where the model keeps them apart:
  `null` and `[false,false,false,false]`; `0.0000011` and
  `[true,false,false,false,null]`; a fractional number near `-7.2e10`,
  whose i64 has top byte `0xff`, and a string of seven one-byte characters.
- Strings are sequences of characters. The UTF-8 char-boundary panics of
  byte slicing in split_by are not modelled.
- Map iteration order is not modelled.
  - `HashMap` and `serde_json::Map` iteration (`obj.keys()`, `to_serde_map`)
    follows the order of the entries in `Json.Object`, and keys are assumed
    distinct where that matters.
  - `Frames.Frame.ToSerdeMap` leaves the order open.
- `Rc<RefCell<_>>` sharing of AST nodes is not modelled. No node is mutated
  after it is built, so a tree datatype carries the same meaning.
- Frames are values with `Add` returning the new frame. The in-place
  updates of `is_match_n` use `Frames.MutableFrame`.
- Queries.IsMatchN: requires one value per argument. Every caller passes
  a tuple of the arity it has just checked (query.rs:145, 177, 212), and
  `Queries.Matcher` rejects a tuple of another size.
- SplitBy.QueryVar1: requires four arguments, as do `QueryVar2`,
  `QueryVar3` and `QueryOneFrame`. `SplitBy::query` checks the arity before
  it dispatches (split_by.rs:178).
- SplitBy.PerFrameSound: holds only when no variable is repeated, and so
  does `SplitBy.QuerySound`. With a repeated variable the source emits
  frames that break the relation (`SplitBy.RepeatedVariableUnsound`).
