/**
 * The JSON data model (RFC 8259, section 3) as `serde_json::Value` holds it,
 * with numbers kept to the precision the hash of value.rs observes, and the
 * decimal rendering and reading of those numbers.
 */
module Json {
  import opened Wrappers

  const Million: int := 1000000

  /**
   * A JSON number, represented by its value times 10^6 truncated toward zero.
   * This is exactly what the structural hash distinguishes: an integral
   * number hashes as its decimal text, any other number as this integer.
   */
  datatype Num = Num(micros: int) {

    /** The number is an integer (its fractional part is below 10^-6). */
    predicate IsIntegral() {
      micros % Million == 0
    }

    /** The integer part, truncated toward zero. */
    function Trunc(): int {
      if micros >= 0 then micros / Million else -((-micros) / Million)
    }
  }

  /** `serde_json::Value`; an object is its list of entries in map order. */
  datatype Json =
    | Null
    | Bool(b: bool)
    | Number(n: Num)
    | Str(s: string)
    | Array(items: seq<Json>)
    | Object(fields: seq<(string, Json)>)

  /** The keys of an object's entries, in entry order. */
  function Keys(fields: seq<(string, Json)>): (ks: seq<string>)
    ensures |ks| == |fields|
    ensures forall i :: 0 <= i < |fields| ==> ks[i] == fields[i].0
  {
    if fields == [] then [] else [fields[0].0] + Keys(fields[1..])
  }

  /** No key occurs twice, as in every serde map. */
  predicate DistinctKeys(fields: seq<(string, Json)>) {
    forall i, j :: 0 <= i < j < |fields| ==> fields[i].0 != fields[j].0
  }

  /** `Map::get`: the value stored under `key`. */
  function Get(fields: seq<(string, Json)>, key: string): (r: Option<Json>)
    ensures r.None? <==> forall i :: 0 <= i < |fields| ==> fields[i].0 != key
    ensures r.Some? ==> exists i :: 0 <= i < |fields| && fields[i] == (key, r.value)
  {
    if fields == [] then None
    else if fields[0].0 == key then Some(fields[0].1)
    else Get(fields[1..], key)
  }

  // ---------------------------------------------------------------------
  // Decimal text of numbers (what `f64::to_string` prints).
  // ---------------------------------------------------------------------

  function DigitChar(d: nat): char
    requires d < 10
  {
    "0123456789"[d]
  }

  predicate IsDigit(c: char) {
    '0' <= c <= '9'
  }

  function DigitOf(c: char): nat
    requires IsDigit(c)
  {
    (c as int - '0' as int) as nat
  }

  /** Decimal digits of a natural number, without leading zeros. */
  function NatText(n: nat): (t: string)
    ensures |t| > 0
    ensures forall i :: 0 <= i < |t| ==> IsDigit(t[i])
  {
    if n < 10 then [DigitChar(n)] else NatText(n / 10) + [DigitChar(n % 10)]
  }

  /** Decimal text of an integer: `f64::to_string` of an integral float. */
  function IntText(i: int): string {
    if i < 0 then "-" + NatText(-i) else NatText(i)
  }

  /** The six fractional digits of `f` (< 10^6), without trailing zeros. */
  function FracText(f: nat): string
    requires f < Million
  {
    StripTrailingZeros(PadDigits(NatText(f), 6))
  }

  function PadDigits(t: string, width: nat): (r: string)
    ensures |r| == if |t| < width then width else |t|
    decreases width - |t|
  {
    if |t| >= width then t else PadDigits("0" + t, width)
  }

  function StripTrailingZeros(t: string): (r: string)
    ensures |r| <= |t| && r == t[..|r|]
    ensures r == [] || r[|r| - 1] != '0'
  {
    if t == [] || t[|t| - 1] != '0' then t else StripTrailingZeros(t[..|t| - 1])
  }

  /** The text `as_loose_string` gives a number. */
  function NumText(n: Num): string {
    if n.IsIntegral() then IntText(n.Trunc())
    else
      var m := if n.micros < 0 then -n.micros else n.micros;
      (if n.micros < 0 then "-" else "") + NatText(m / Million) + "." + FracText(m % Million)
  }

  // ---------------------------------------------------------------------
  // Reading decimal text (the number literals of the query language).
  // ---------------------------------------------------------------------

  predicate AllDigits(t: string) {
    forall i :: 0 <= i < |t| ==> IsDigit(t[i])
  }

  /** The value of a string of digits, most significant first. */
  function DigitsValue(t: string): nat
    requires AllDigits(t)
  {
    if t == [] then 0 else DigitsValue(t[..|t| - 1]) * 10 + DigitOf(t[|t| - 1])
  }

  /** The first position of `c` in `t`, or `|t|`. */
  function IndexOf(t: string, c: char): (k: nat)
    ensures k <= |t|
    ensures forall i :: 0 <= i < k ==> t[i] != c
    ensures k < |t| ==> t[k] == c
  {
    if t == [] then 0 else if t[0] == c then 0 else 1 + IndexOf(t[1..], c)
  }

  /** The first six fractional digits, right-padded with zeros, as millionths. */
  function FracMicros(t: string): (m: nat)
    requires AllDigits(t)
    ensures m < Million
  {
    var six := if |t| >= 6 then t[..6] else t + seq(6 - |t|, _ => '0');
    SixDigitsBound(six);
    DigitsValue(six)
  }

  lemma {:induction false} SixDigitsBound(t: string)
    requires AllDigits(t)
    ensures DigitsValue(t) < Pow10(|t|)
  {
    if t != [] {
      SixDigitsBound(t[..|t| - 1]);
    }
  }

  function Pow10(k: nat): (p: nat)
    ensures p >= 1
  {
    if k == 0 then 1 else 10 * Pow10(k - 1)
  }

  /**
   * Unsigned `digits`, `digits.`, `.digits` or `digits.digits`, as
   * millionths: either side of the point may be empty, but not both.
   */
  function ParseUnsigned(t: string): Option<nat> {
    var dot := IndexOf(t, '.');
    var whole := t[..dot];
    var frac := if dot < |t| then t[dot + 1..] else "";
    if !AllDigits(whole) || !AllDigits(frac) then None
    else if whole == [] && frac == [] then None
    else Some(DigitsValue(whole) * Million + FracMicros(frac))
  }

  /**
   * `str::parse::<f64>` on a number literal without exponent: an optional
   * sign, then an unsigned decimal, truncated to millionths as the hash does.
   */
  function ParseNumber(t: string): Option<Num> {
    match ParseUnsigned(Unsigned(t))
    case Some(m) => Some(Num(if Negative(t) then -(m as int) else m))
    case None => None
  }

  /** The text starts with a minus sign. */
  predicate Negative(t: string) {
    |t| > 0 && t[0] == '-'
  }

  /** The text after a leading sign, if there is one. */
  function Unsigned(t: string): string {
    if |t| > 0 && (t[0] == '-' || t[0] == '+') then t[1..] else t
  }

  /** A leading '+' changes nothing: `"+5"` reads as `"5"`. */
  lemma PlusSignIgnored(u: string)
    requires |u| > 0 && u[0] != '-' && u[0] != '+'
    ensures ParseNumber("+" + u) == ParseNumber(u)
  {
    assert ("+" + u)[1..] == u;
  }

  /** The integer before an empty fraction: `"5."` reads as `"5"`. */
  lemma TrailingPointIgnored(n: nat)
    ensures ParseNumber(NatText(n) + ".") == ParseNumber(NatText(n))
  {
    var d := NatText(n);
    DigitsOfNatText(n);
    ParseNatText(n);
    PointAfterDigits(d);
    assert (d + ".")[0] == d[0] && d[0] != '-' && d[0] != '+';
    ReadSigned(d, n * Million);
    ReadSigned(d + ".", n * Million);
  }

  /** Digits followed by a point read as the digits alone. */
  lemma PointAfterDigits(w: string)
    requires w != [] && AllDigits(w)
    ensures ParseUnsigned(w + ".") == ParseUnsigned(w)
  {
    var t := w + ".";
    assert '.' !in w;
    assert IndexOf(w, '.') == |w|;
    IndexOfAppend(w, ".", '.');
    assert IndexOf(".", '.') == 0;
    assert t[..|w|] == w && t[|w| + 1..] == "" && w[..|w|] == w;
  }

  /** An empty whole part reads as zero: `".5"` is one half. */
  lemma PointFirst(d: char)
    requires '0' <= d <= '9'
    ensures ParseNumber(['.', d]) == Some(Num(DigitOf(d) * 100000))
  {
    var t := ['.', d];
    assert IndexOf(t, '.') == 0;
    assert t[..0] == [] && t[1..] == [d];
    OneFractionDigit(d);
  }

  /** One fractional digit is that many hundred thousand millionths. */
  lemma OneFractionDigit(d: char)
    requires '0' <= d <= '9'
    ensures FracMicros([d]) == DigitOf(d) * 100000
  {
    assert [d][..0] == [];
    assert DigitsValue([d]) == DigitOf(d);
    var s := [d];
    var k := 0;
    while k < 5
      invariant 0 <= k <= 5 && s == [d] + seq(k, _ => '0')
      invariant AllDigits(s) && DigitsValue(s) == DigitOf(d) * Pow10(k)
    {
      AppendZero(s);
      s := s + ['0'];
      k := k + 1;
    }
    assert Pow10(5) == 100000;
    assert [d] + seq(6 - |[d]|, _ => '0') == s;
  }

  /** A zero digit appended multiplies the value by ten. */
  lemma AppendZero(s: string)
    requires AllDigits(s)
    ensures AllDigits(s + ['0']) && DigitsValue(s + ['0']) == 10 * DigitsValue(s)
  {
    assert (s + ['0'])[..|s|] == s;
  }

  /** The first `c` of `a + b` is the first of `a`, or lies in `b` when `a` has none. */
  lemma {:induction false} IndexOfAppend(a: string, b: string, c: char)
    requires c !in a
    ensures IndexOf(a + b, c) == |a| + IndexOf(b, c)
  {
    if a == [] {
      assert a + b == b;
    } else {
      assert (a + b)[0] == a[0] != c;
      assert (a + b)[1..] == a[1..] + b;
      IndexOfAppend(a[1..], b, c);
    }
  }

  lemma {:induction false} DigitsOfNatText(n: nat)
    ensures AllDigits(NatText(n)) && DigitsValue(NatText(n)) == n
  {
    if n >= 10 {
      DigitsOfNatText(n / 10);
      var t := NatText(n);
      assert t[..|t| - 1] == NatText(n / 10);
    }
  }

  lemma FracMicrosOfNothing()
    ensures FracMicros("") == 0
  {
    assert "" + seq(6, _ => '0') == "000000";
    assert "000000"[..5] == "00000";
    assert "00000"[..4] == "0000";
    assert "0000"[..3] == "000";
    assert "000"[..2] == "00";
    assert "00"[..1] == "0";
    assert "0"[..0] == "";
  }

  lemma {:induction false} ParseNatText(n: nat)
    ensures ParseUnsigned(NatText(n)) == Some(n * Million)
  {
    var t := NatText(n);
    DigitsOfNatText(n);
    assert IndexOf(t, '.') == |t|;
    assert t[..|t|] == t;
    FracMicrosOfNothing();
  }

  /** Reading the decimal text of an integer gives back that integer. */
  lemma {:induction false} ParseIntText(i: int)
    ensures ParseNumber(IntText(i)) == Some(Num(i * Million))
  {
    var t := IntText(i);
    if i < 0 {
      var n: nat := -i;
      assert t == "-" + NatText(n);
      assert t[0] == '-' && t[1..] == NatText(n);
      ParseNatText(n);
      ReadSigned(t, n * Million);
      assert -(n * Million) == i * Million;
    } else {
      assert t == NatText(i);
      assert t[0] != '-' && t[0] != '+';
      ParseNatText(i);
      ReadSigned(t, i * Million);
    }
  }

  /** A text whose unsigned part reads as `m` reads as `m`, negated after a minus sign. */
  lemma ReadSigned(t: string, m: nat)
    requires ParseUnsigned(Unsigned(t)) == Some(m)
    ensures ParseNumber(t) == Some(Num(if Negative(t) then -(m as int) else m))
  {
  }

  /** The decimal text of `n` reads as `n`. */
  lemma ParseNonNegativeText(n: nat)
    ensures ParseNumber(NatText(n)) == Some(Num(n * Million))
  {
    ParseNatText(n);
    assert NatText(n)[0] != '-' && NatText(n)[0] != '+';
    ReadSigned(NatText(n), n * Million);
  }

  /** An integral number's text is its integer part's decimal text. */
  lemma IntegralNumText(i: int)
    ensures Num(i * Million).IsIntegral()
    ensures NumText(Num(i * Million)) == IntText(i)
  {
    var n := Num(i * Million);
    if i < 0 {
      assert -(i * Million) == (-i) * Million;
      assert (-(i * Million)) / Million == -i;
    } else {
      assert (i * Million) / Million == i;
    }
  }
}
