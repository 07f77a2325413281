/**
 * Values of the runtime (src/runtime/value.rs): a JSON value paired with
 * its structural hash. The hash is modelled as the sequence of tokens that
 * `hash_serde_value` feeds to the hasher; two values are "equal" for the
 * query engine exactly when these sequences are equal.
 */
module Values {
  import opened Wrappers
  import opened Json

  /** One write into the hasher: a `str`, an `i64`, a `bool`, or the `0` written for null. */
  datatype Token = StrTok(s: string) | IntTok(i: int) | BoolTok(b: bool) | NullTok

  // ---------------------------------------------------------------------
  // The order `keys.sort()` uses: lexicographic order of strings.
  // ---------------------------------------------------------------------

  predicate StrLt(a: string, b: string)
    decreases |a|
  {
    if a == [] then b != []
    else if b == [] then false
    else if a[0] != b[0] then a[0] < b[0]
    else StrLt(a[1..], b[1..])
  }

  lemma {:induction false} StrLtIrreflexive(a: string)
    ensures !StrLt(a, a)
    decreases |a|
  {
    if a != [] {
      StrLtIrreflexive(a[1..]);
    }
  }

  lemma {:induction false} StrLtTransitive(a: string, b: string, c: string)
    requires StrLt(a, b) && StrLt(b, c)
    ensures StrLt(a, c)
    decreases |a|
  {
    if a != [] && a[0] == b[0] && b[0] == c[0] {
      StrLtTransitive(a[1..], b[1..], c[1..]);
    }
  }

  lemma {:induction false} StrLtTotal(a: string, b: string)
    requires a != b
    ensures StrLt(a, b) || StrLt(b, a)
    decreases |a|
  {
    if a != [] && b != [] && a[0] == b[0] {
      assert a == [a[0]] + a[1..] && b == [b[0]] + b[1..];
      StrLtTotal(a[1..], b[1..]);
    }
  }

  lemma StrLtAsymmetric(a: string, b: string)
    requires StrLt(a, b)
    ensures !StrLt(b, a)
  {
    if StrLt(b, a) {
      StrLtTransitive(a, b, a);
      StrLtIrreflexive(a);
    }
  }

  // ---------------------------------------------------------------------
  // Sorting an object's entries by key.
  // ---------------------------------------------------------------------

  predicate StrictlySortedByKey(s: seq<(string, Json)>) {
    forall i, j :: 0 <= i < j < |s| ==> StrLt(s[i].0, s[j].0)
  }

  function InsertByKey(e: (string, Json), s: seq<(string, Json)>): (r: seq<(string, Json)>)
    ensures multiset(r) == multiset(s) + multiset{e}
  {
    if s == [] || StrLt(e.0, s[0].0) then [e] + s
    else
      assert s == [s[0]] + s[1..];
      [s[0]] + InsertByKey(e, s[1..])
  }

  lemma {:induction false} InsertByKeySorted(e: (string, Json), s: seq<(string, Json)>)
    requires StrictlySortedByKey(s) && forall x | x in s :: x.0 != e.0
    ensures StrictlySortedByKey(InsertByKey(e, s))
  {
    var r := InsertByKey(e, s);
    if s == [] || StrLt(e.0, s[0].0) {
      forall j | 1 <= j < |r| ensures StrLt(r[0].0, r[j].0) {
        if j > 1 { StrLtTransitive(e.0, s[0].0, s[j - 1].0); }
      }
    } else {
      var rest := InsertByKey(e, s[1..]);
      InsertByKeySorted(e, s[1..]);
      StrLtTotal(e.0, s[0].0);
      forall j | 1 <= j < |r| ensures StrLt(r[0].0, r[j].0) {
        assert r[j] in multiset(rest);
      }
    }
  }

  /** The entries in ascending key order (insertion sort). */
  function SortByKey(fields: seq<(string, Json)>): (r: seq<(string, Json)>)
    ensures multiset(r) == multiset(fields)
    ensures forall e :: e in r <==> e in fields
    ensures DistinctKeys(fields) ==> StrictlySortedByKey(r)
  {
    if fields == [] then []
    else
      var rest := SortByKey(fields[1..]);
      assert fields == [fields[0]] + fields[1..];
      var r := InsertByKey(fields[0], rest);
      SortByKeyStep(fields, rest);
      assert forall e :: e in r <==> e in multiset(r);
      r
  }

  lemma SortByKeyStep(fields: seq<(string, Json)>, rest: seq<(string, Json)>)
    requires fields != [] && multiset(rest) == multiset(fields[1..])
    requires DistinctKeys(fields[1..]) ==> StrictlySortedByKey(rest)
    ensures DistinctKeys(fields) ==> StrictlySortedByKey(InsertByKey(fields[0], rest))
  {
    if DistinctKeys(fields) {
      assert DistinctKeys(fields[1..]);
      forall x | x in rest ensures x.0 != fields[0].0 {
        assert x in multiset(fields[1..]);
        var k :| 0 <= k < |fields[1..]| && fields[1..][k] == x;
        assert fields[k + 1] == x;
      }
      InsertByKeySorted(fields[0], rest);
    }
  }

  lemma HeadIsLeast(a: seq<(string, Json)>, x: (string, Json))
    requires StrictlySortedByKey(a) && x in a && x != a[0]
    ensures StrLt(a[0].0, x.0)
  {
    var i :| 0 <= i < |a| && a[i] == x;
  }

  lemma HeadsAgree(a: seq<(string, Json)>, b: seq<(string, Json)>)
    requires StrictlySortedByKey(a) && StrictlySortedByKey(b)
    requires a != [] && multiset(a) == multiset(b)
    ensures b != [] && a[0] == b[0]
  {
    assert a[0] in multiset(b);
    assert b[0] in multiset(a);
    if a[0] != b[0] {
      HeadIsLeast(a, b[0]);
      HeadIsLeast(b, a[0]);
      StrLtAsymmetric(a[0].0, b[0].0);
    }
  }

  /** Two strictly sorted entry lists holding the same entries are equal. */
  lemma {:induction false} StrictlySortedUnique(a: seq<(string, Json)>, b: seq<(string, Json)>)
    requires StrictlySortedByKey(a) && StrictlySortedByKey(b)
    requires multiset(a) == multiset(b)
    ensures a == b
    decreases |a|
  {
    if a == [] {
      assert |b| == |multiset(b)| == 0;
    } else {
      HeadsAgree(a, b);
      DropHead(a, b);
      SortedTail(a);
      SortedTail(b);
      StrictlySortedUnique(a[1..], b[1..]);
      assert a == [a[0]] + a[1..] && b == [b[0]] + b[1..];
    }
  }

  /** Equal multisets with equal heads have equal tails. */
  lemma DropHead(a: seq<(string, Json)>, b: seq<(string, Json)>)
    requires a != [] && b != [] && a[0] == b[0] && multiset(a) == multiset(b)
    ensures multiset(a[1..]) == multiset(b[1..])
  {
    assert a == [a[0]] + a[1..] && b == [b[0]] + b[1..];
    assert multiset(a) == multiset{a[0]} + multiset(a[1..]);
    assert multiset(b) == multiset{b[0]} + multiset(b[1..]);
    assert multiset(a[1..]) == multiset(a) - multiset{a[0]};
    assert multiset(b[1..]) == multiset(b) - multiset{b[0]};
  }

  /** The tail of a strictly sorted list is strictly sorted. */
  lemma SortedTail(s: seq<(string, Json)>)
    requires s != [] && StrictlySortedByKey(s)
    ensures StrictlySortedByKey(s[1..])
  {
    forall i, j | 0 <= i < j < |s| - 1
      ensures StrLt(s[1..][i].0, s[1..][j].0)
    {
      assert s[1..][i] == s[i + 1] && s[1..][j] == s[j + 1];
    }
  }

  // ---------------------------------------------------------------------
  // The token stream of `hash_serde_value`.
  // ---------------------------------------------------------------------

  const I64Min: int := -0x8000_0000_0000_0000
  const I64Max: int := 0x7FFF_FFFF_FFFF_FFFF

  /** The `as i64` cast of a float, which saturates at the ends of the range. */
  function SaturateI64(x: int): (r: int)
    ensures I64Min <= r <= I64Max
    ensures I64Min <= x <= I64Max ==> r == x
    ensures x < I64Min ==> r == I64Min
    ensures x > I64Max ==> r == I64Max
  {
    if x < I64Min then I64Min else if x > I64Max then I64Max else x
  }

  /**
   * A number within 10^-6 of an integer writes that integer's text; any
   * other its millionths, cast to `i64`.
   */
  function NumberTokens(n: Num): seq<Token> {
    if n.IsIntegral() then [StrTok(IntText(n.Trunc()))] else [IntTok(SaturateI64(n.micros))]
  }

  /** What `hash_serde_value(state, value)` writes into the hasher. */
  function Tokens(value: Json): seq<Token>
    decreases value, 1
  {
    match value
    case Null => [NullTok]
    case Bool(b) => [BoolTok(b)]
    case Number(n) => NumberTokens(n)
    case Str(s) => [StrTok(s)]
    case Array(items) => ItemsTokens(value, items)
    case Object(fields) => EntriesTokens(value, SortByKey(fields))
  }

  /** The items' tokens one after another, with no length and no separator. */
  function ItemsTokens(ghost parent: Json, items: seq<Json>): seq<Token>
    requires parent.Array? && forall x | x in items :: x in parent.items
    decreases parent, 0, |items|
  {
    if items == [] then []
    else
      assert items[|items| - 1] in parent.items;
      ItemsTokens(parent, items[..|items| - 1]) + Tokens(items[|items| - 1])
  }

  /** Each key's text followed by its value's tokens, with no length and no separator. */
  function EntriesTokens(ghost parent: Json, entries: seq<(string, Json)>): seq<Token>
    requires parent.Object? && forall e | e in entries :: e in parent.fields
    decreases parent, 0, |entries|
  {
    if entries == [] then []
    else
      var last := entries[|entries| - 1];
      assert last in parent.fields;
      EntriesTokens(parent, entries[..|entries| - 1]) + [StrTok(last.0)] + Tokens(last.1)
  }

  lemma {:induction false} ItemsTokensAnyParent(p: Json, q: Json, items: seq<Json>)
    requires p.Array? && forall x | x in items :: x in p.items
    requires q.Array? && forall x | x in items :: x in q.items
    ensures ItemsTokens(p, items) == ItemsTokens(q, items)
    decreases |items|
  {
    if items != [] {
      ItemsTokensAnyParent(p, q, items[..|items| - 1]);
    }
  }

  lemma {:induction false} EntriesTokensAnyParent(p: Json, q: Json, entries: seq<(string, Json)>)
    requires p.Object? && forall e | e in entries :: e in p.fields
    requires q.Object? && forall e | e in entries :: e in q.fields
    ensures EntriesTokens(p, entries) == EntriesTokens(q, entries)
    decreases |entries|
  {
    if entries != [] {
      EntriesTokensAnyParent(p, q, entries[..|entries| - 1]);
    }
  }

  /** The hasher `H` threaded through `hash_serde_value`: the tokens written so far. */
  class Hasher {
    var written: seq<Token>

    constructor ()
      ensures written == []
    {
      written := [];
    }

    method Write(t: Token)
      modifies this
      ensures written == old(written) + [t]
    {
      written := written + [t];
    }
  }

  /** `hash_serde_value`: writes the tokens of `value` into `state`. */
  method HashSerdeValue(state: Hasher, value: Json)
    modifies state
    ensures state.written == old(state.written) + Tokens(value)
    decreases value, 1
  {
    match value {
      case Object(fields) =>
        HashEntries(state, value, SortByKey(fields));
      case Array(items) =>
        HashItems(state, value, items);
      case Str(s) =>
        state.Write(StrTok(s));
      case Number(n) =>
        if n.IsIntegral() {
          state.Write(StrTok(IntText(n.Trunc())));
        } else {
          state.Write(IntTok(SaturateI64(n.micros)));
        }
      case Bool(b) =>
        state.Write(BoolTok(b));
      case Null =>
        state.Write(NullTok);
    }
  }

  /** The loop of `hash_serde_value` over the key-sorted entries of an object. */
  method HashEntries(state: Hasher, ghost parent: Json, entries: seq<(string, Json)>)
    requires parent.Object? && forall e | e in entries :: e in parent.fields
    modifies state
    ensures state.written == old(state.written) + EntriesTokens(parent, entries)
    decreases parent, 0
  {
    var i := 0;
    while i < |entries|
      invariant 0 <= i <= |entries|
      invariant state.written == old(state.written) + EntriesTokens(parent, entries[..i])
    {
      assert entries[..i + 1][..i] == entries[..i];
      assert entries[i] in parent.fields;
      state.Write(StrTok(entries[i].0));
      HashSerdeValue(state, entries[i].1);
      i := i + 1;
    }
    assert entries[..i] == entries;
  }

  /** The loop of `hash_serde_value` over the items of an array. */
  method HashItems(state: Hasher, ghost parent: Json, items: seq<Json>)
    requires parent.Array? && forall x | x in items :: x in parent.items
    modifies state
    ensures state.written == old(state.written) + ItemsTokens(parent, items)
    decreases parent, 0
  {
    var i := 0;
    while i < |items|
      invariant 0 <= i <= |items|
      invariant state.written == old(state.written) + ItemsTokens(parent, items[..i])
    {
      assert items[..i + 1][..i] == items[..i];
      assert items[i] in parent.items;
      HashSerdeValue(state, items[i]);
      i := i + 1;
    }
    assert items[..i] == items;
  }

  // ---------------------------------------------------------------------
  // NonVariableValue and Value.
  // ---------------------------------------------------------------------

  /** A concrete JSON value (as opposed to a variable). */
  datatype NonVariableValue = NonVariableValue(v: Json)

  /** A value with its precomputed hash. */
  datatype HashedValue = Value(valueType: NonVariableValue, hash: seq<Token>) {

    function GetSerdeValue(): Json {
      valueType.v
    }

    /** `as_string`: the text of a string value, nothing for any other kind. */
    function AsString(): (r: Option<string>)
      ensures r.Some? <==> valueType.v.Str?
      ensures r.Some? ==> r.value == valueType.v.s
    {
      match valueType.v
      case Str(s) => Some(s)
      case _ => None
    }

    /** `as_loose_string`: the text of a string, or the decimal text of a number. */
    function AsLooseString(): (r: Option<string>)
      ensures r.Some? <==> valueType.v.Str? || valueType.v.Number?
      ensures AsString().Some? ==> r == AsString()
    {
      match valueType.v
      case Str(s) => Some(s)
      case Number(n) => Some(NumText(n))
      case _ => None
    }
  }

  /** Every value carries the hash of its own JSON. */
  type Value = x: HashedValue | x.hash == Tokens(x.valueType.v)
    witness Value(NonVariableValue(Null), [NullTok])

  /** `NonVariableValue::to_value`: pairs the JSON with its hash. */
  function ToValue(nv: NonVariableValue): (r: Value)
    ensures r.valueType == nv
  {
    Value(nv, Tokens(nv.v))
  }

  /** `Value::from_string`. */
  function FromString(s: string): (r: Value)
    ensures r.AsString() == Some(s) && r.AsLooseString() == Some(s)
  {
    ToValue(NonVariableValue(Str(s)))
  }

  /** `Value::from_number`. */
  function FromNumber(n: Num): (r: Value)
    ensures r.AsString() == None && r.AsLooseString() == Some(NumText(n))
  {
    ToValue(NonVariableValue(Number(n)))
  }

  // ---------------------------------------------------------------------
  // What the hash identifies.
  // ---------------------------------------------------------------------

  /** Objects that differ only in the order of their entries hash equally. */
  lemma KeyOrderIrrelevant(f1: seq<(string, Json)>, f2: seq<(string, Json)>)
    requires DistinctKeys(f1) && DistinctKeys(f2)
    requires multiset(f1) == multiset(f2)
    ensures Tokens(Object(f1)) == Tokens(Object(f2))
  {
    var s := SortByKey(f1);
    StrictlySortedUnique(s, SortByKey(f2));
    EntriesTokensAnyParent(Object(f1), Object(f2), s);
  }

  lemma {:induction false} ItemsTokensAppend(p: Json, a: seq<Json>, b: seq<Json>)
    requires p.Array? && forall x | x in a + b :: x in p.items
    ensures ItemsTokens(p, a + b) == ItemsTokens(p, a) + ItemsTokens(p, b)
    decreases |b|
  {
    if b == [] {
      assert a + b == a;
    } else {
      var n := |b| - 1;
      assert (a + b)[..|a + b| - 1] == a + b[..n];
      ItemsTokensAppend(p, a, b[..n]);
    }
  }

  /** Arrays carry no delimiter: an array nested first flattens into its parent. */
  lemma NestedArrayFlattens(xs: seq<Json>, ys: seq<Json>)
    ensures Tokens(Array([Array(xs)] + ys)) == Tokens(Array(xs + ys))
  {
    var outer := Array([Array(xs)] + ys);
    var flat := Array(xs + ys);
    ItemsTokensAppend(outer, [Array(xs)], ys);
    ItemsTokensAppend(flat, xs, ys);
    assert ItemsTokens(outer, [Array(xs)]) == Tokens(Array(xs)) by {
      assert [Array(xs)][..0] == [];
    }
    ItemsTokensAnyParent(Array(xs), flat, xs);
    ItemsTokensAnyParent(outer, flat, ys);
  }

  /** `[]` and `{}` hash equally. */
  lemma EmptyArrayLikeEmptyObject()
    ensures Tokens(Array([])) == Tokens(Object([])) == []
  {
  }

  /** An object of one entry hashes like the array of its key and value: `{"a":"b"}` like `["a","b"]`. */
  lemma {:induction false} SingleEntryLikePair(k: string, v: Json)
    ensures Tokens(Object([(k, v)])) == Tokens(Array([Str(k), v]))
  {
    var o := Object([(k, v)]);
    var a := Array([Str(k), v]);
    assert SortByKey([(k, v)]) == [(k, v)] by {
      assert [(k, v)][1..] == [];
    }
    assert [(k, v)][..0] == [];
    assert EntriesTokens(o, [(k, v)]) == [StrTok(k)] + Tokens(v);
    assert [Str(k), v][..1] == [Str(k)];
    assert [Str(k)][..0] == [];
    assert ItemsTokens(a, [Str(k)]) == [StrTok(k)];
    assert ItemsTokens(a, [Str(k), v]) == [StrTok(k)] + Tokens(v);
  }

  /** An integral number hashes like the string of its decimal text: 500 like "500". */
  lemma IntegralNumberLikeString(i: int)
    ensures FromNumber(Num(i * Million)).hash == FromString(IntText(i)).hash
    ensures FromNumber(Num(i * Million)).AsLooseString() == Some(IntText(i))
  {
    IntegralNumText(i);
  }

  /** A fractional number never gives the tokens of any string. */
  lemma FractionalNumberUnlikeString(n: Num, s: string)
    requires !n.IsIntegral()
    ensures FromNumber(n).hash != FromString(s).hash
  {
  }

  /**
   * Fractional numbers whose millionths lie beyond the `i64` range on the
   * same side hash alike, however far apart they are.
   */
  lemma SaturatedFractionsCollide(a: Num, b: Num)
    requires !a.IsIntegral() && !b.IsIntegral()
    requires (a.micros > I64Max && b.micros > I64Max) || (a.micros < I64Min && b.micros < I64Min)
    ensures FromNumber(a).hash == FromNumber(b).hash
  {
  }

  /** Within the `i64` range, fractional numbers hash alike exactly when their millionths agree. */
  lemma FractionsInRangeDistinct(a: Num, b: Num)
    requires !a.IsIntegral() && !b.IsIntegral()
    requires I64Min <= a.micros <= I64Max && I64Min <= b.micros <= I64Max
    ensures FromNumber(a).hash == FromNumber(b).hash <==> a == b
  {
  }
}
