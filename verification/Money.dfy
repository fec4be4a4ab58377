/** Money: the one rounding rule, and amounts as decimal strings. Amounts are 64-bit counts of millionths
or hundredths of a dollar. */
module Money {
  import opened Types

  const MAX_INT64 := 0x7fff_ffff_ffff_ffff
  const MIN_INT64 := -0x8000_0000_0000_0000
  const MICROS_PER_CENT := 10_000

  // ----- Division, rounding half away from zero

  function Abs(n: int): (a: int)
    ensures a >= 0
  {
    if n < 0 then -n else n
  }

  function Quotient(n: nat, d: int): nat
    requires d > 0
  {
    n / d
  }

  function Remainder(n: nat, d: int): nat
    requires d > 0
  {
    n % d
  }

  function Nearest(n: nat, d: int): nat
    requires d > 0
  {
    if 2 * Remainder(n, d) >= d then Quotient(n, d) + 1 else Quotient(n, d)
  }

  function Rounded(n: int, d: int): int
    requires d != 0
  {
    var q: int := Nearest(Abs(n), Abs(d));
    if (n < 0) != (d < 0) then -q else q
  }

  method DivRound(n0: int, d0: int) returns (r: int)
    requires d0 != 0
    ensures r == Rounded(n0, d0)
  {
    var n, d := n0, d0;
    var neg := (n < 0) != (d < 0);
    if n < 0 { n := -n; }
    if d < 0 { d := -d; }
    var q: int, rem := Quotient(n, d), Remainder(n, d);
    if 2 * rem >= d { q := q + 1; }
    if neg { return -q; }
    return q;
  }

  /** r is nearest to n / d, and away from zero when n / d is half way between two integers. */
  ghost predicate IsRounding(n: int, d: int, r: int)
    requires d != 0
  {
    2 * Abs(r * d - n) <= Abs(d) && (2 * Abs(r * d - n) == Abs(d) ==> Abs(r * d) > Abs(n))
  }

  lemma NearestError(a: nat, b: int)
    requires b > 0
    ensures -b < 2 * (Nearest(a, b) * b - a) <= b
  {
    var q, r := Quotient(a, b), Remainder(a, b);
    assert a == q * b + r;
    assert (q + 1) * b == q * b + b;
  }

  lemma Times(k: int, d: int)
    ensures Abs(k * d) == Abs(k) * Abs(d)
    ensures k * d >= 0 <==> (k == 0 || d == 0 || (k < 0 <==> d < 0))
  {
  }

  lemma RoundedIsRounding(n: int, d: int)
    requires d != 0
    ensures IsRounding(n, d, Rounded(n, d))
  {
    var q := Nearest(Abs(n), Abs(d));
    NearestError(Abs(n), Abs(d));
    var r := Rounded(n, d);
    Times(r, d);
  }

  lemma TimesAtLeast(k: int, d: int)
    requires k > 0 && d >= 0
    ensures k * d >= d
  {
  }

  lemma MultiplesApart(k: int, d: int)
    requires d != 0 && k != 0
    ensures Abs(k * d) >= Abs(d)
  {
    Times(k, d);
    TimesAtLeast(Abs(k), Abs(d));
  }

  lemma OneNearest(x: int, y: int, n: int, d: int)
    requires 2 * Abs(x - n) <= d && (2 * Abs(x - n) == d ==> Abs(x) > Abs(n))
    requires 2 * Abs(y - n) <= d && (2 * Abs(y - n) == d ==> Abs(y) > Abs(n))
    requires x == 0 || Abs(x) >= d
    requires y == 0 || Abs(y) >= d
    ensures x == y || Abs(x - y) < d
  {
  }

  lemma RoundingIsUnique(n: int, d: int, r: int, s: int)
    requires d != 0 && IsRounding(n, d, r) && IsRounding(n, d, s)
    ensures r == s
  {
    if r != 0 { MultiplesApart(r, d); }
    if s != 0 { MultiplesApart(s, d); }
    var x, y := r * d, s * d;
    OneNearest(x, y, n, Abs(d));
    assert (r - s) * d == x - y;
    if r != s {
      MultiplesApart(r - s, d);
    }
  }

  /** With a positive divisor the error is at most half of it. */
  lemma RoundedError(n: int, d: int)
    requires d > 0
    ensures -d <= 2 * (Rounded(n, d) * d - n) <= d
  {
    RoundedIsRounding(n, d);
  }

  lemma MultiplesInOrder(lo: int, hi: int, d: int)
    requires d > 0 && lo * d < hi * d + d
    ensures lo <= hi
  {
    assert (lo - hi) * d == lo * d - hi * d;
    if lo > hi {
      TimesAtLeast(lo - hi, d);
    }
  }

  /** Rounding a quotient leaves it on the same side of every integer. */
  lemma RoundedBetween(n: int, d: int, lo: int, hi: int)
    requires d > 0 && lo * d <= n <= hi * d
    ensures lo <= Rounded(n, d) <= hi
  {
    RoundedError(n, d);
    var r := Rounded(n, d);
    MultiplesInOrder(lo, r, d);
    MultiplesInOrder(r, hi, d);
  }

  // ----- Decimal digits

  predicate AllDigits(s: string) {
    forall i :: 0 <= i < |s| ==> IsDigit(s[i])
  }

  function DigitChar(d: int): char
    requires 0 <= d <= 9
  {
    '0' + d as char
  }

  function Digits(n: nat): (s: string)
    ensures |s| > 0 && AllDigits(s)
  {
    if n < 10 then [DigitChar(n)] else Digits(n / 10) + [DigitChar(n % 10)]
  }

  function Value(s: string): int
    requires AllDigits(s)
  {
    if s == "" then 0 else Value(s[..|s| - 1]) * 10 + (s[|s| - 1] - '0') as int
  }

  function Pow10(k: nat): (p: int)
    ensures p > 0
  {
    if k == 0 then 1 else 10 * Pow10(k - 1)
  }

  /** v with k zeros after it. */
  function Scaled(v: int, k: nat): int {
    if k == 0 then v else 10 * Scaled(v, k - 1)
  }

  function Zeros(k: nat): (s: string)
    ensures |s| == k && AllDigits(s) && forall i :: 0 <= i < k ==> s[i] == '0'
  {
    if k == 0 then "" else Zeros(k - 1) + "0"
  }

  lemma {:induction false} ValueOfDigits(n: nat)
    ensures Value(Digits(n)) == n
  {
    if n >= 10 {
      ValueOfDigits(n / 10);
      assert Digits(n)[..|Digits(n)| - 1] == Digits(n / 10);
    }
  }

  lemma {:induction false} ScaledIsTimes(v: int, k: nat)
    ensures Scaled(v, k) == v * Pow10(k)
  {
    if k > 0 {
      ScaledIsTimes(v, k - 1);
      var p := Pow10(k - 1);
      assert 10 * (v * p) == v * (10 * p);
    }
  }

  lemma {:induction false} ValueConcat(a: string, b: string)
    requires AllDigits(a) && AllDigits(b)
    ensures AllDigits(a + b) && Value(a + b) == Scaled(Value(a), |b|) + Value(b)
    ensures 0 <= Value(b) < Pow10(|b|)
  {
    if b == "" {
      assert a + b == a;
    } else {
      ValueConcat(a, b[..|b| - 1]);
      assert (a + b)[..|a + b| - 1] == a + b[..|b| - 1];
    }
  }

  lemma {:induction false} ValueOfZeros(k: nat)
    ensures Value(Zeros(k)) == 0
  {
    if k > 0 {
      ValueOfZeros(k - 1);
      assert Zeros(k)[..k - 1] == Zeros(k - 1);
    }
  }

  lemma {:induction false} DigitsLength(n: nat, k: nat)
    requires k > 0 && n < Pow10(k)
    ensures |Digits(n)| <= k
  {
    if n >= 10 {
      assert k > 1 by { assert Pow10(1) == 10 * Pow10(0); }
      DigitsLength(n / 10, k - 1);
    }
  }

  // ----- Printing

  /** Zero-padding on the left, to a width. */
  function ZeroPad(s: string, width: nat): string {
    if |s| >= width then s else Zeros(width - |s|) + s
  }

  /** An amount with its sign and dollar mark before it. */
  function Printed(neg: bool, dollar: bool, body: string): string {
    var amount := if dollar then "$" + body else body;
    if neg then "-" + amount else amount
  }

  function WholeDigits(n: nat, scale: nat): string {
    Digits(Quotient(n, Pow10(scale)))
  }

  function FracDigits(n: nat, scale: nat): string {
    ZeroPad(Digits(Remainder(n, Pow10(scale))), scale)
  }

  /** 64-bit negation, which leaves the least integer as it is. */
  function Negated(n: int): int {
    if n == MIN_INT64 then n else -n
  }

  /** Go's integer division truncates toward zero, and the remainder has the sign of the dividend. */
  function Truncated(n: int, d: int): int
    requires d > 0
  {
    if n < 0 then -(Quotient(-n, d) as int) else Quotient(n, d)
  }

  function TruncatedRest(n: int, d: int): int
    requires d > 0
  {
    if n < 0 then -(Remainder(-n, d) as int) else Remainder(n, d)
  }

  /** The verb %d. */
  function Decimal(n: int): string {
    if n < 0 then "-" + Digits(-n) else Digits(n)
  }

  /** The verb %0*d: a sign counts towards the width, and the zeros follow it. */
  function DecimalPadded(n: int, width: nat): string {
    if n < 0 then "-" + ZeroPad(Digits(-n), if width == 0 then 0 else width - 1) else ZeroPad(Digits(n), width)
  }

  /** n without its sign, as far as 64 bits allow. */
  function Unsigned(n: int): int {
    if n < 0 then Negated(n) else n
  }

  function Fixed(n: int, scale: nat): string {
    var m, p := Unsigned(n), Pow10(scale);
    Printed(n < 0, false, Decimal(Truncated(m, p)) + "." + DecimalPadded(TruncatedRest(m, p), scale))
  }

  method FormatFixed(n0: int, scale: nat) returns (s: string)
    ensures s == Fixed(n0, scale)
  {
    var n := n0;
    var neg := n < 0;
    if neg { n := Negated(n); }
    var pow := 1;
    for i := 0 to scale
      invariant pow == Pow10(i)
    {
      pow := pow * 10;
    }
    var whole, frac := Truncated(n, pow), TruncatedRest(n, pow);
    s := Decimal(whole) + "." + DecimalPadded(frac, scale);
    if neg { s := "-" + s; }
  }

  /** Of every other amount the sign, the whole digits and the fraction's digits. */
  lemma FixedParts(n: int, scale: nat)
    requires n != MIN_INT64
    ensures Fixed(n, scale) == Printed(n < 0, false, WholeDigits(Abs(n), scale) + "." + FracDigits(Abs(n), scale))
  {
  }

  function TrimRight(s: string, c: char): string {
    if s != "" && s[|s| - 1] == c then TrimRight(s[..|s| - 1], c) else s
  }

  function TrimTrailingZeros(s: string): string {
    if '.' !in s then s else TrimRight(TrimRight(s, '0'), '.')
  }

  function MicrosString(m: int): string {
    TrimTrailingZeros(Fixed(m, 6))
  }

  function CentsString(c: int): string {
    Fixed(c, 2)
  }

  /** Commas every three digits, counted from the right. */
  function Grouped(s: string): string {
    if |s| <= 3 then s else Grouped(s[..|s| - 3]) + "," + s[|s| - 3..]
  }

  lemma OneMoreGroup(s: string, i: nat)
    requires 0 < i <= |s| - 3
    ensures Grouped(s[..i + 3]) == Grouped(s[..i]) + "," + s[i..i + 3]
  {
    assert s[..i + 3][..i] == s[..i] && s[..i + 3][i..] == s[i..i + 3];
  }

  lemma GroupedShort(s: string)
    requires |s| <= 3
    ensures Grouped(s) == s
  {
  }

  method GroupThousands(s: string) returns (b: string)
    ensures b == Grouped(s)
  {
    var n := |s|;
    if n <= 3 { return s; }
    hide Grouped;
    var first := n % 3;
    if first == 0 { first := 3; }
    GroupedShort(s[..first]);
    b := s[..first];
    var i := first;
    while i < n
      invariant first <= i <= n && (n - i) % 3 == 0
      invariant b == Grouped(s[..i])
    {
      OneMoreGroup(s, i);
      b := b + "," + s[i..i + 3];
      i := i + 3;
    }
    assert s[..n] == s;
  }

  function USD(c: int): string {
    var parts := Cut(Fixed(Unsigned(c), 2), '.');
    Printed(c < 0, true, Grouped(parts.0) + "." + parts.1)
  }

  method FormatUSD(c0: int) returns (out: string)
    ensures out == USD(c0)
  {
    var c := c0;
    var neg := c < 0;
    if neg { c := Negated(c); }
    var s := FormatFixed(c, 2);
    var (whole, frac, _) := Cut(s, '.');
    var grouped := GroupThousands(whole);
    out := "$" + (grouped + "." + frac);
    if neg { out := "-" + out; }
  }

  // ----- Parsing

  /** Unicode white space. */
  predicate IsSpace(c: char) {
    c in {' ', '\t', '\n', '\U{b}', '\U{c}', '\r', '\U{85}', '\U{a0}',
          '\U{1680}', '\U{2028}', '\U{2029}', '\U{202f}', '\U{205f}', '\U{3000}'}
    || '\U{2000}' <= c <= '\U{200a}'
  }

  function TrimSpace(s: string): string {
    if s == "" then s
    else if IsSpace(s[0]) then TrimSpace(s[1..])
    else if IsSpace(s[|s| - 1]) then TrimSpace(s[..|s| - 1])
    else s
  }

  function WithoutCommas(s: string): string {
    if s == "" then ""
    else
      var front := WithoutCommas(s[..|s| - 1]);
      if s[|s| - 1] == ',' then front else front + [s[|s| - 1]]
  }

  /** What precedes and follows the first c, and whether there is one. */
  function Cut(s: string, c: char): (string, string, bool) {
    if s == "" then ("", "", false)
    else if s[0] == c then ("", s[1..], true)
    else
      var (before, after, found) := Cut(s[1..], c);
      ([s[0]] + before, after, found)
  }

  /** A base-10 integer with an optional sign, within 64 bits. */
  function ParseInt(s: string): Option<int> {
    var signed := s != "" && (s[0] == '-' || s[0] == '+');
    var digits := if signed then s[1..] else s;
    if digits == "" || !AllDigits(digits) then None
    else
      var n := if signed && s[0] == '-' then -Value(digits) else Value(digits);
      if MIN_INT64 <= n <= MAX_INT64 then Some(n) else None
  }

  /** None is an error: more fractional digits than the scale are never rounded. */
  function Joined(whole: string, frac: string, scale: nat): Option<int> {
    if |frac| > scale then None else ParseInt(whole + (frac + Zeros(scale - |frac|)))
  }

  function Magnitude(s: string, scale: nat): Option<int> {
    var parts := Cut(s, '.');
    Joined(parts.0, parts.1, scale)
  }

  function WithoutPrefix(s: string, c: char): string {
    if s != "" && s[0] == c then s[1..] else s
  }

  function Parsed(text: string, scale: nat): Option<int> {
    var s := TrimSpace(text);
    if s == "" then Some(0)
    else
      var bare := WithoutCommas(WithoutPrefix(WithoutPrefix(s, '-'), '$'));
      if bare == "" then None else Signed(s[0] == '-', Magnitude(bare, scale))
  }

  function Signed(neg: bool, n: Option<int>): Option<int> {
    if n.Some? && neg then Some(Negated(n.value)) else n
  }

  method ParseDecimal(text: string, scale: nat) returns (r: Option<int>)
    ensures r == Parsed(text, scale)
  {
    var s := TrimSpace(text);
    if s == "" { return Some(0); }
    var neg := false;
    if s[0] == '-' {
      neg := true;
      s := s[1..];
    }
    if s != "" && s[0] == '$' { s := s[1..]; }
    s := WithoutCommas(s);
    if s == "" { return None; }
    var (whole, frac, hasFrac) := Cut(s, '.');
    if hasFrac {
      if |frac| > scale { return None; }
      frac := frac + Zeros(scale - |frac|);
    } else {
      NothingCut(s, '.');
      assert "" + Zeros(scale) == Zeros(scale);
      frac := Zeros(scale);
    }
    var n := ParseInt(whole + frac);
    if n.None? { return None; }
    return Some(if neg then Negated(n.value) else n.value);
  }

  function ParseMicros(s: string): Option<int> {
    Parsed(s, 6)
  }

  function ParseCents(s: string): Option<int> {
    Parsed(s, 2)
  }

  // ----- Printing and parsing undo each other

  lemma {:induction false} CutAt(a: string, b: string, c: char)
    requires c !in a
    ensures Cut(a + [c] + b, c) == (a, b, true)
    ensures Cut(a, c) == (a, "", false)
  {
    if a != "" {
      CutAt(a[1..], b, c);
      assert (a + [c] + b)[1..] == a[1..] + [c] + b;
      assert a == [a[0]] + a[1..];
    } else {
      assert (a + [c] + b)[1..] == b;
    }
  }

  lemma Associate(a: string, b: string, c: string)
    ensures a + b + c == a + (b + c)
  {
  }

  lemma {:induction false} NothingCut(s: string, c: char)
    ensures !Cut(s, c).2 ==> Cut(s, c) == (s, "", false)
  {
    if s != "" {
      NothingCut(s[1..], c);
      assert s == [s[0]] + s[1..];
    }
  }

  lemma {:induction false} WithoutCommasConcat(a: string, b: string)
    ensures WithoutCommas(a + b) == WithoutCommas(a) + WithoutCommas(b)
  {
    if b == "" {
      assert a + b == a;
    } else {
      WithoutCommasConcat(a, b[..|b| - 1]);
      assert (a + b)[..|a + b| - 1] == a + b[..|b| - 1];
    }
  }

  lemma {:induction false} NoCommas(s: string)
    requires ',' !in s
    ensures WithoutCommas(s) == s
  {
    if s != "" {
      NoCommas(s[..|s| - 1]);
    }
  }

  /** Grouping only adds commas, and never first or last. */
  lemma {:induction false} UngroupGrouped(s: string)
    requires s != "" && ',' !in s
    ensures WithoutCommas(Grouped(s)) == s
    ensures |Grouped(s)| >= |s| && Grouped(s)[0] == s[0]
  {
    if |s| <= 3 {
      NoCommas(s);
    } else {
      var front, last := s[..|s| - 3], s[|s| - 3..];
      UngroupGrouped(front);
      NoCommas(last);
      WithoutCommasConcat(Grouped(front) + ",", last);
      WithoutCommasConcat(Grouped(front), ",");
      assert s == front + last;
    }
  }

  lemma PaddedValue(whole: string, frac: string, pad: nat)
    requires AllDigits(whole) && AllDigits(frac)
    ensures AllDigits(whole + (frac + Zeros(pad)))
    ensures Value(whole + (frac + Zeros(pad))) == Scaled(Value(whole), |frac| + pad) + Scaled(Value(frac), pad)
  {
    ValueConcat(frac, Zeros(pad));
    ValueOfZeros(pad);
    ValueConcat(whole, frac + Zeros(pad));
  }

  lemma ParseDigits(s: string)
    requires s != "" && AllDigits(s)
    ensures Value(s) >= 0
    ensures ParseInt(s) == if Value(s) <= MAX_INT64 then Some(Value(s)) else None
  {
    ValueConcat("", s);
    assert "" + s == s;
  }

  /** The value of the digits at the scale, when 64 bits hold it. */
  function Exactly(whole: string, frac: string, scale: nat): Option<int>
    requires AllDigits(whole) && AllDigits(frac)
  {
    if |frac| > scale then None
    else
      var n := Scaled(Value(whole), scale) + Scaled(Value(frac), scale - |frac|);
      if n <= MAX_INT64 then Some(n) else None
  }

  lemma JoinedExact(whole: string, frac: string, scale: nat)
    requires whole != "" && AllDigits(whole) && AllDigits(frac)
    ensures Joined(whole, frac, scale) == Exactly(whole, frac, scale)
  {
    hide Value, Scaled, Zeros, ParseInt, Pow10;
    if |frac| <= scale {
      PaddedValue(whole, frac, scale - |frac|);
      ParseDigits(whole + (frac + Zeros(scale - |frac|)));
    }
  }

  /** What a digit string parses to, with or without a decimal point: exactly its value at the scale, or an
      error when the value does not fit in 64 bits or the fraction is finer than the scale. */
  lemma MagnitudeExact(whole: string, frac: string, scale: nat)
    requires whole != "" && AllDigits(whole) && AllDigits(frac)
    ensures Magnitude(whole + "." + frac, scale) == Exactly(whole, frac, scale)
    ensures Magnitude(whole, scale) == Exactly(whole, "", scale)
  {
    CutAt(whole, frac, '.');
    JoinedExact(whole, frac, scale);
    JoinedExact(whole, "", scale);
  }

  lemma PrintedEnds(neg: bool, dollar: bool, body: string)
    requires body != "" && IsDigit(body[0]) && IsDigit(body[|body| - 1])
    ensures var text := Printed(neg, dollar, body);
            && text != "" && !IsSpace(text[0]) && !IsSpace(text[|text| - 1])
            && text[0] == if neg then '-' else if dollar then '$' else body[0]
  {
    var text := Printed(neg, dollar, body);
    assert text[0] == if neg then '-' else if dollar then '$' else body[0];
    assert text[|text| - 1] == body[|body| - 1];
  }

  lemma PrefixesDropped(neg: bool, dollar: bool, body: string)
    requires body != "" && (neg || dollar || body[0] != '-') && (dollar || body[0] != '$')
    ensures WithoutPrefix(WithoutPrefix(Printed(neg, dollar, body), '-'), '$') == body
  {
    var unsigned := Printed(false, dollar, body);
    assert Printed(true, dollar, body)[1..] == unsigned;
    assert WithoutPrefix(Printed(neg, dollar, body), '-') == unsigned;
    assert Printed(false, true, body)[1..] == body;
  }

  lemma CommaLast(s: string)
    requires s != "" && s[|s| - 1] != ','
    ensures WithoutCommas(s) != ""
  {
  }

  /** Only code points that Unicode calls white space. */
  ghost predicate Blank(s: string) {
    forall i :: 0 <= i < |s| ==>
      var c := s[i] as int;
      9 <= c <= 13 || 0x2000 <= c <= 0x200a
      || c in [0x20, 0x85, 0xa0, 0x1680, 0x2028, 0x2029, 0x202f, 0x205f, 0x3000]
  }

  lemma SpaceCodes(c: char)
    requires var n := c as int;
             9 <= n <= 13 || 0x2000 <= n <= 0x200a
             || n in [0x20, 0x85, 0xa0, 0x1680, 0x2028, 0x2029, 0x202f, 0x205f, 0x3000]
    ensures IsSpace(c)
  {
  }

  /** White space goes from both ends, and nothing else does. */
  lemma {:induction false} TrimSpaceAround(before: string, s: string, after: string)
    requires Blank(before) && Blank(after)
    requires s != "" && !IsSpace(s[0]) && !IsSpace(s[|s| - 1])
    ensures TrimSpace(before + s + after) == s
    decreases |before| + |after|
  {
    hide IsSpace;
    var text := before + s + after;
    if before != "" {
      SpaceCodes(before[0]);
      assert text[0] == before[0] && text[1..] == before[1..] + s + after;
      TrimSpaceAround(before[1..], s, after);
    } else if after != "" {
      var front := after[..|after| - 1];
      SpaceCodes(after[|after| - 1]);
      assert text[0] == s[0] && text[|text| - 1] == after[|after| - 1];
      assert text[..|text| - 1] == before + s + front;
      TrimSpaceAround(before, s, front);
    } else {
      assert text == s;
    }
  }

  /** White space, the sign, the dollar mark and the separators are all dropped before the digits. */
  lemma ParsedPrinted(before: string, neg: bool, dollar: bool, body: string, after: string, scale: nat)
    requires Blank(before) && Blank(after)
    requires body != "" && IsDigit(body[0]) && IsDigit(body[|body| - 1])
    ensures Parsed(before + Printed(neg, dollar, body) + after, scale) ==
            Signed(neg, Magnitude(WithoutCommas(body), scale))
  {
    hide TrimSpace, Magnitude, WithoutCommas, Blank;
    var text := Printed(neg, dollar, body);
    PrintedEnds(neg, dollar, body);
    TrimSpaceAround(before, text, after);
    PrefixesDropped(neg, dollar, body);
    CommaLast(body);
  }

  lemma {:induction false} BlankTrims(s: string)
    requires Blank(s)
    ensures TrimSpace(s) == ""
  {
    hide IsSpace;
    if s != "" {
      SpaceCodes(s[0]);
      BlankTrims(s[1..]);
    }
  }

  /** An empty form is zero. A sign, a mark or separators without a digit are an error. */
  lemma ParsedWithoutDigits(before: string, neg: bool, dollar: bool, body: string, after: string, scale: nat)
    requires Blank(before) && Blank(after) && WithoutCommas(body) == ""
    ensures Parsed(before, scale) == Some(0)
    ensures neg || dollar || body != "" ==> Parsed(before + Printed(neg, dollar, body) + after, scale) == None
  {
    hide TrimSpace, Blank;
    BlankTrims(before);
    if neg || dollar || body != "" {
      var text := Printed(neg, dollar, body);
      OnlyCommas(body);
      assert text[|text| - 1] == if body != "" then ',' else if dollar then '$' else '-';
      TrimSpaceAround(before, text, after);
      if body == "" {
        assert Printed(true, true, "")[1..] == "$" && "$"[1..] == "" && "-"[1..] == "";
      } else {
        PrefixesDropped(neg, dollar, body);
      }
    }
  }

  lemma {:induction false} OnlyCommas(s: string)
    requires WithoutCommas(s) == ""
    ensures forall i :: 0 <= i < |s| ==> s[i] == ','
  {
    if s != "" {
      OnlyCommas(s[..|s| - 1]);
    }
  }

  lemma SignedDigits(sign: char, digits: string)
    requires sign in {'+', '-'} && digits != "" && AllDigits(digits) && Value(digits) <= MAX_INT64
    ensures ParseInt([sign] + digits) == Some(if sign == '-' then -Value(digits) else Value(digits))
  {
    ParseDigits(digits);
    hide Value, AllDigits;
    var s := [sign] + digits;
    assert s != "" && s[0] == sign && s[1..] == digits;
  }

  lemma SignedMagnitude(sign: char, whole: string, scale: nat, n: int)
    requires sign in {'+', '-'} && whole != "" && AllDigits(whole) && Exactly(whole, "", scale) == Some(n)
    ensures Magnitude([sign] + whole, scale) == Some(if sign == '-' then -n else n)
  {
    hide Value, Scaled, Zeros, ParseInt;
    var body, zeros := [sign] + whole, "" + Zeros(scale);
    CutAt(body, "", '.');
    PaddedValue(whole, "", scale);
    ValueConcat(whole, zeros);
    NoValue(scale);
    SignedDigits(sign, whole + zeros);
    assert body + zeros == [sign] + (whole + zeros);
  }

  lemma {:induction false} NoValue(k: nat)
    ensures Value("") == 0 && Scaled(0, k) == 0
  {
    if k > 0 {
      NoValue(k - 1);
    }
  }

  /** A second sign, after the first or after the dollar mark, is read as well: two minus signs cancel. */
  lemma SecondSign(neg: bool, dollar: bool, sign: char, whole: string, scale: nat, n: int)
    requires sign in {'+', '-'} && (neg || dollar || sign == '+')
    requires whole != "" && AllDigits(whole) && Exactly(whole, "", scale) == Some(n) && n >= 0
    ensures Parsed(Printed(neg, dollar, [sign] + whole), scale) == Some(if neg != (sign == '-') then -n else n)
  {
    hide TrimSpace, Magnitude, WithoutCommas, WithoutPrefix, Printed;
    var body := [sign] + whole;
    assert IsDigit(whole[|whole| - 1]) && body[|body| - 1] == whole[|whole| - 1] && body[0] == sign;
    SignedMagnitude(sign, whole, scale, n);
    SignedEnds(neg, dollar, body);
    NoCommasInDigits(sign, whole);
    PrefixesDropped(neg, dollar, body);
    var text := Printed(neg, dollar, body);
    TrimSpaceAround("", text, "");
    assert "" + text + "" == text;
  }

  lemma NoCommasInDigits(sign: char, whole: string)
    requires sign != ',' && AllDigits(whole)
    ensures WithoutCommas([sign] + whole) == [sign] + whole
  {
    NoCommas([sign] + whole);
  }

  lemma SignedEnds(neg: bool, dollar: bool, body: string)
    requires body != "" && body[0] in {'+', '-'} && IsDigit(body[|body| - 1]) && (neg || dollar || body[0] == '+')
    ensures var text := Printed(neg, dollar, body);
            text != "" && !IsSpace(text[0]) && !IsSpace(text[|text| - 1]) && (text[0] == '-' <==> neg)
  {
    var text := Printed(neg, dollar, body);
    assert text[|text| - 1] == body[|body| - 1];
    assert text[0] == if neg then '-' else if dollar then '$' else body[0];
  }

  lemma PaddedDigits(r: nat, scale: nat)
    requires scale > 0 && r < Pow10(scale)
    ensures var frac := ZeroPad(Digits(r), scale); AllDigits(frac) && |frac| == scale && Value(frac) == r
  {
    hide ZeroPad, Value, Digits, Pow10;
    DigitsLength(r, scale);
    ValueOfDigits(r);
    PaddedZeros(Digits(r), scale);
  }

  lemma PaddedZeros(s: string, width: nat)
    requires AllDigits(s) && |s| <= width
    ensures AllDigits(ZeroPad(s, width)) && |ZeroPad(s, width)| == width && Value(ZeroPad(s, width)) == Value(s)
  {
    hide Value, Scaled;
    if |s| < width {
      var pad := width - |s|;
      ValueOfZeros(pad);
      ValueConcat(Zeros(pad), s);
      ScaledIsTimes(0, |s|);
    }
  }

  lemma QuotientAndRemainder(n: nat, k: nat)
    ensures Scaled(Quotient(n, Pow10(k)), k) + Remainder(n, Pow10(k)) == n
    ensures Remainder(n, Pow10(k)) < Pow10(k)
  {
    var p := Pow10(k);
    ScaledIsTimes(n / p, k);
    assert n == (n / p) * p + n % p;
  }

  lemma WholeAndFrac(n: nat, scale: nat)
    requires scale > 0
    ensures AllDigits(WholeDigits(n, scale)) && WholeDigits(n, scale) != ""
    ensures AllDigits(FracDigits(n, scale)) && |FracDigits(n, scale)| == scale
    ensures Exactly(WholeDigits(n, scale), FracDigits(n, scale), scale) == if n <= MAX_INT64 then Some(n) else None
  {
    var p := Pow10(scale);
    var q, r := Quotient(n, p), Remainder(n, p);
    QuotientAndRemainder(n, scale);
    ValueOfDigits(q);
    PaddedDigits(r, scale);
  }

  /** Trimming takes off zeros only, and all of them. */
  lemma {:induction false} TrimmedZeros(a: string, f: string)
    requires a != "" && a[|a| - 1] != '0' && AllDigits(f)
    ensures TrimRight(a + f, '0') == a + TrimRight(f, '0')
    ensures AllDigits(TrimRight(f, '0')) && |TrimRight(f, '0')| <= |f|
    ensures f == TrimRight(f, '0') + Zeros(|f| - |TrimRight(f, '0')|)
  {
    if f == "" {
      assert a + f == a;
    } else if f[|f| - 1] == '0' {
      TrimmedZeros(a, f[..|f| - 1]);
      assert (a + f)[..|a + f| - 1] == a + f[..|f| - 1];
      assert f == f[..|f| - 1] + "0";
    }
  }

  function Minimal(front: string, frac: string): string {
    if frac == "" then front else front + "." + frac
  }

  lemma TrimmedFront(front: string)
    requires front != "" && IsDigit(front[|front| - 1])
    ensures TrimRight(front + ".", '.') == front
  {
    var a := front + ".";
    assert a[|a| - 1] == '.' && a[..|a| - 1] == front;
    assert TrimRight(front, '.') == front;
  }

  lemma HasPoint(front: string, full: string)
    ensures '.' in front + "." + full
  {
    assert (front + "." + full)[|front|] == '.';
  }

  lemma NoPointLast(a: string, frac: string)
    requires frac != "" && AllDigits(frac)
    ensures TrimRight(a + frac, '.') == a + frac
  {
    assert (a + frac)[|a + frac| - 1] == frac[|frac| - 1];
  }

  lemma MinimalForm(front: string, full: string)
    requires front != "" && IsDigit(front[|front| - 1]) && AllDigits(full)
    ensures TrimTrailingZeros(front + "." + full) == Minimal(front, TrimRight(full, '0'))
  {
    hide TrimRight, Zeros;
    var a, frac := front + ".", TrimRight(full, '0');
    HasPoint(front, full);
    TrimmedZeros(a, full);
    if frac == "" {
      assert a + frac == a;
      TrimmedFront(front);
    } else {
      NoPointLast(a, frac);
    }
  }

  lemma ScaledByNothing(v: int)
    ensures Scaled(v, 0) == v
  {
  }

  lemma TrimmingKeepsValue(whole: string, full: string, frac: string, scale: nat)
    requires AllDigits(whole) && AllDigits(full) && AllDigits(frac)
    requires |frac| <= |full| == scale && full == frac + Zeros(scale - |frac|)
    ensures Exactly(whole, frac, scale) == Exactly(whole, full, scale)
  {
    hide Value, Scaled, Zeros, AllDigits;
    assert Scaled(Value(full), 0) == Value(full) by { ScaledByNothing(Value(full)); }
    ValueConcat(frac, Zeros(scale - |frac|));
    ValueOfZeros(scale - |frac|);
  }

  lemma ReadsBack(neg: bool, dollar: bool, body: string, bare: string, scale: nat, n: int)
    requires body != "" && IsDigit(body[0]) && IsDigit(body[|body| - 1])
    requires WithoutCommas(body) == bare && Magnitude(bare, scale) == Some(n) && n >= 0
    ensures Parsed(Printed(neg, dollar, body), scale) == Some(if neg then -n else n)
  {
    hide Parsed, Printed, Magnitude, WithoutCommas;
    ParsedPrinted("", neg, dollar, body, "", scale);
    assert "" + Printed(neg, dollar, body) + "" == Printed(neg, dollar, body);
  }

  lemma FixedReadsBack(neg: bool, whole: string, frac: string, scale: nat, n: int)
    requires AllDigits(whole) && AllDigits(frac) && whole != ""
    requires Exactly(whole, frac, scale) == Some(n) && n >= 0
    ensures Parsed(Printed(neg, false, Minimal(whole, frac)), scale) == Some(if neg then -n else n)
  {
    MagnitudeExact(whole, frac, scale);
    var body := Minimal(whole, frac);
    NoCommas(body);
    ReadsBack(neg, false, body, body, scale, n);
  }

  lemma GroupedReadsBack(neg: bool, whole: string, frac: string, scale: nat, n: int)
    requires AllDigits(whole) && AllDigits(frac) && whole != "" && frac != ""
    requires Exactly(whole, frac, scale) == Some(n) && n >= 0
    ensures Parsed(Printed(neg, true, Grouped(whole) + "." + frac), scale) == Some(if neg then -n else n)
  {
    MagnitudeExact(whole, frac, scale);
    UngroupGrouped(whole);
    NoCommas("." + frac);
    WithoutCommasConcat(Grouped(whole), "." + frac);
    Associate(Grouped(whole), ".", frac);
    Associate(whole, ".", frac);
    ReadsBack(neg, true, Grouped(whole) + "." + frac, whole + "." + frac, scale, n);
  }

  // ----- The least 64-bit integer, which has no negation

  /** A minus sign after the first character is no number. */
  lemma MinusWithin(s: string, i: nat)
    requires 1 <= i < |s| && s[i] == '-'
    ensures ParseInt(s) == None
  {
    assert s[1..][i - 1] == '-';
  }

  lemma MinusInFraction(whole: string, frac: string, scale: nat)
    requires whole != "" && '.' !in whole && frac != "" && frac[0] == '-'
    ensures Magnitude(whole + "." + frac, scale) == None
  {
    CutAt(whole, frac, '.');
    if |frac| <= scale {
      var s := whole + (frac + Zeros(scale - |frac|));
      assert s[|whole|] == '-';
      MinusWithin(s, |whole|);
    }
  }

  /** Its digits come out negative: "--", then "-" again after the point. */
  lemma LeastParts(scale: nat) returns (whole: string, frac: string)
    requires scale == 2 || scale == 6
    ensures AllDigits(whole) && AllDigits(frac) && whole != "" && frac != ""
    ensures Fixed(MIN_INT64, scale) == "-" + ("-" + whole + "." + ("-" + frac))
  {
    hide Pow10, Digits, Zeros, ZeroPad;
    TenTo();
    var n, p := -MIN_INT64, Pow10(scale);
    if scale == 2 {
      assert Quotient(n, 100) > 0 && Remainder(n, 100) > 0;
    } else {
      assert Quotient(n, 1_000_000) > 0 && Remainder(n, 1_000_000) > 0;
    }
    whole, frac := Digits(Quotient(n, p)), ZeroPad(Digits(Remainder(n, p)), scale - 1);
    PaddedNotEmpty(Digits(Remainder(n, p)), scale - 1);
  }

  lemma PaddedNotEmpty(s: string, width: nat)
    requires s != "" && AllDigits(s)
    ensures ZeroPad(s, width) != "" && AllDigits(ZeroPad(s, width))
  {
  }

  lemma TenTo()
    ensures Pow10(2) == 100 && Pow10(6) == 1_000_000
  {
    assert Pow10(2) == 10 * Pow10(1) && Pow10(1) == 10 * Pow10(0);
    assert Pow10(6) == 10 * Pow10(5) && Pow10(5) == 10 * Pow10(4)
           && Pow10(4) == 10 * Pow10(3) && Pow10(3) == 10 * Pow10(2);
  }

  /** A body with a minus sign inside cannot be read back. */
  lemma LeastUnread(dollar: bool, body: string, whole: string, frac: string, scale: nat)
    requires whole != "" && '.' !in whole && whole[0] == '-' && frac != "" && frac[0] == '-'
    requires body != "" && body[0] == '-' && WithoutCommas(body) == whole + "." + frac
    requires !IsSpace(body[|body| - 1])
    ensures Parsed(Printed(true, dollar, body), scale) == None
  {
    hide Magnitude, WithoutCommas, ParseInt, TrimSpace, IsSpace;
    var text := Printed(true, dollar, body);
    MinusFirst(dollar, body);
    TrimSpaceAround("", text, "");
    assert "" + text + "" == text;
    PrefixesDropped(true, dollar, body);
    MinusInFraction(whole, frac, scale);
  }

  lemma MinusFirst(dollar: bool, body: string)
    requires body != "" && !IsSpace(body[|body| - 1])
    ensures var text := Printed(true, dollar, body);
            text != "" && text[0] == '-' && !IsSpace(text[0]) && !IsSpace(text[|text| - 1])
  {
    var text := Printed(true, dollar, body);
    assert text[|text| - 1] == body[|body| - 1];
  }

  lemma LeastFixedUnread(whole: string, frac: string, scale: nat)
    requires AllDigits(whole) && AllDigits(frac) && whole != ""
    ensures Parsed("-" + ("-" + whole + "." + ("-" + frac)), scale) == None
  {
    var body := "-" + whole + "." + ("-" + frac);
    assert body == ("-" + whole) + "." + ("-" + frac);
    NoCommas(body);
    assert body[|body| - 1] == ("-" + frac)[|frac|];
    LeastUnread(false, body, "-" + whole, "-" + frac, scale);
  }

  lemma LeastCentsUnread()
    ensures ParseCents(CentsString(MIN_INT64)) == None
  {
    hide Parsed, Fixed;
    var whole, frac := LeastParts(2);
    LeastFixedUnread(whole, frac, 2);
  }

  lemma LeastMicrosUnread()
    ensures ParseMicros(MicrosString(MIN_INT64)) == None
  {
    hide Parsed, Fixed, TrimTrailingZeros;
    var whole, full := LeastParts(6);
    TrimmedMinuses(whole, full);
    var frac := TrimRight(full, '0');
    TrimmedZeros("-", full);
    LeastFixedUnread(whole, frac, 6);
  }

  lemma TrimmedMinuses(whole: string, full: string)
    requires AllDigits(whole) && AllDigits(full) && whole != ""
    ensures TrimTrailingZeros("-" + ("-" + whole + "." + ("-" + full)))
            == "-" + ("-" + whole + "." + ("-" + TrimRight(full, '0')))
  {
    hide TrimRight, Zeros;
    var front, frac := "--" + whole + ".-", TrimRight(full, '0');
    Minuses(whole, full);
    Minuses(whole, frac);
    assert (front + full)[|whole| + 2] == '.';
    TrimmedZeros(front, full);
    NoPointAfterMinus(front, frac);
  }

  lemma Minuses(whole: string, frac: string)
    ensures "-" + ("-" + whole + "." + ("-" + frac)) == "--" + whole + ".-" + frac
  {
  }

  lemma NoPointAfterMinus(front: string, frac: string)
    requires front != "" && front[|front| - 1] == '-' && AllDigits(frac)
    ensures TrimRight(front + frac, '.') == front + frac
  {
    var text := front + frac;
    assert text[|text| - 1] == if frac == "" then '-' else frac[|frac| - 1];
  }

  lemma LeastUSDUnread()
    ensures ParseCents(USD(MIN_INT64)) == None
  {
    hide Parsed, Fixed, Grouped;
    var whole, frac := LeastParts(2);
    var w, f := "--" + whole, "-" + frac;
    assert Fixed(MIN_INT64, 2) == w + "." + f;
    CutAt(w, f, '.');
    UngroupGrouped(w);
    NoCommas("." + f);
    WithoutCommasConcat(Grouped(w), "." + f);
    Associate(Grouped(w), ".", f);
    Associate(w, ".", f);
    var body := Grouped(w) + "." + f;
    assert body[|body| - 1] == frac[|frac| - 1] && body[0] == Grouped(w)[0] == '-';
    LeastUnread(true, body, w, f, 2);
  }

  // ----- Printed forms

  function Sign(n: int): string {
    if n < 0 then "-" else ""
  }

  function TwoDigits(r: nat): string
    requires r < 100
  {
    ['0' + (r / 10) as char, '0' + (r % 10) as char]
  }

  lemma HundredParts(n: nat)
    ensures WholeDigits(n, 2) == Digits(n / 100) && FracDigits(n, 2) == TwoDigits(n % 100)
  {
    TenTo();
    var r := n % 100;
    assert Digits(r) == if r < 10 then [DigitChar(r)] else [DigitChar(r / 10)] + [DigitChar(r % 10)];
    if r < 10 {
      assert Zeros(1) == "0";
    }
  }

  /** Cents print as dollars and two digits of cents; as currency, with a mark and separators. */
  lemma CentsForm(c: int)
    requires c != MIN_INT64
    ensures CentsString(c) == Sign(c) + (Digits(Abs(c) / 100) + "." + TwoDigits(Abs(c) % 100))
    ensures USD(c) == Sign(c) + ("$" + (Grouped(Digits(Abs(c) / 100)) + "." + TwoDigits(Abs(c) % 100)))
  {
    hide Grouped, Digits, WholeDigits, FracDigits, TwoDigits, Fixed;
    var whole, frac := Digits(Abs(c) / 100), TwoDigits(Abs(c) % 100);
    FixedParts(c, 2);
    FixedParts(Unsigned(c), 2);
    HundredParts(Abs(c));
    CutAt(whole, frac, '.');
    assert "" + (whole + "." + frac) == whole + "." + frac;
    var amount := "$" + (Grouped(whole) + "." + frac);
    assert "" + amount == amount;
  }

  /** Separators stand before every third digit from the right, and nowhere else. */
  lemma GroupedForm(s: string)
    requires s != "" && ',' !in s
    ensures WithoutCommas(Grouped(s)) == s && Grouped(s)[0] == s[0]
    ensures forall i :: 0 <= i < |Grouped(s)| ==> (Grouped(s)[i] == ',' <==> (|Grouped(s)| - i) % 4 == 0)
  {
    UngroupGrouped(s);
    CommasAt(s);
  }

  lemma {:induction false} CommasAt(s: string)
    requires ',' !in s
    ensures forall i :: 0 <= i < |Grouped(s)| ==> (Grouped(s)[i] == ',' <==> (|Grouped(s)| - i) % 4 == 0)
  {
    if |s| > 3 {
      var front := s[..|s| - 3];
      CommasAt(front);
      assert |Grouped(s)| == |Grouped(front)| + 4;
      forall i | 0 <= i < |Grouped(s)| ensures Grouped(s)[i] == ',' <==> (|Grouped(s)| - i) % 4 == 0 {
        if i > |Grouped(front)| {
          assert Grouped(s)[i] == s[|s| - 3..][i - |Grouped(front)| - 1];
        }
      }
    }
  }

  /** Millionths print as dollars and, when there are any, a fraction of at most six digits that does not end
      in zero. */
  lemma MicrosForm(m: int) returns (frac: string)
    requires m != MIN_INT64
    ensures MicrosString(m) == Sign(m) + Minimal(Digits(Abs(m) / 1_000_000), frac)
    ensures |frac| <= 6 && AllDigits(frac) && (frac != "" ==> frac[|frac| - 1] != '0')
    ensures Value(frac) * Pow10(6 - |frac|) == Abs(m) % 1_000_000
  {
    hide Fixed, TrimTrailingZeros, Digits, Value, Pow10;
    FixedParts(m, 6);
    var whole, full := WholeDigits(Abs(m), 6), FracDigits(Abs(m), 6);
    TenTo();
    PaddedDigits(Abs(m) % 1_000_000, 6);
    frac := TrimRight(full, '0');
    TrimmedZeros(".", full);
    TrimmedLast(full);
    PrintedMinimal(m < 0, whole, full);
    var pad := 6 - |frac|;
    ValueConcat(frac, Zeros(pad));
    ValueOfZeros(pad);
    ScaledIsTimes(Value(frac), pad);
    assert "" + Minimal(whole, frac) == Minimal(whole, frac);
  }

  lemma {:induction false} TrimmedLast(s: string)
    ensures var t := TrimRight(s, '0'); t == "" || t[|t| - 1] != '0'
  {
    if s != "" {
      TrimmedLast(s[..|s| - 1]);
    }
  }

  // ----- Round trips

  /** A rate reads back as itself from its shortest decimal form; all of them do but the least 64-bit
      integer, which comes out as no number at all. */
  lemma MicrosRoundTrip(m: int)
    requires -0x8000_0000_0000_0000 <= m <= 0x7fff_ffff_ffff_ffff
    ensures ParseMicros(MicrosString(m)) == if m == -0x8000_0000_0000_0000 then None else Some(m)
  {
    hide Parsed, Fixed, TrimTrailingZeros;
    if m == MIN_INT64 {
      LeastMicrosUnread();
    } else {
      FixedParts(m, 6);
      WholeAndFrac(Abs(m), 6);
      var whole, full := WholeDigits(Abs(m), 6), FracDigits(Abs(m), 6);
      TrimmedZeros(".", full);
      var frac := TrimRight(full, '0');
      TrimmingKeepsValue(whole, full, frac, 6);
      FixedReadsBack(m < 0, whole, frac, 6, Abs(m));
      PrintedMinimal(m < 0, whole, full);
    }
  }

  lemma PrintedMinimal(neg: bool, whole: string, full: string)
    requires whole != "" && AllDigits(whole) && AllDigits(full)
    ensures TrimTrailingZeros(Printed(neg, false, whole + "." + full))
            == Printed(neg, false, Minimal(whole, TrimRight(full, '0')))
  {
    MinimalForm(Printed(neg, false, whole), full);
    if neg {
      SignFirst(whole, full);
      SignFirst(whole, TrimRight(full, '0'));
    }
  }

  lemma SignFirst(whole: string, frac: string)
    ensures "-" + whole + "." + frac == "-" + (whole + "." + frac)
  {
  }

  /** So does an amount from its two-decimal form. */
  lemma CentsRoundTrip(c: int)
    requires -0x8000_0000_0000_0000 <= c <= 0x7fff_ffff_ffff_ffff
    ensures ParseCents(CentsString(c)) == if c == -0x8000_0000_0000_0000 then None else Some(c)
  {
    hide Parsed, Fixed;
    if c == MIN_INT64 {
      LeastCentsUnread();
    } else {
      FixedParts(c, 2);
      WholeAndFrac(Abs(c), 2);
      FixedReadsBack(c < 0, WholeDigits(Abs(c), 2), FracDigits(Abs(c), 2), 2, Abs(c));
    }
  }

  /** And from its currency form, through the sign, the dollar mark and the separators. */
  lemma USDRoundTrip(c: int)
    requires -0x8000_0000_0000_0000 <= c <= 0x7fff_ffff_ffff_ffff
    ensures ParseCents(USD(c)) == if c == -0x8000_0000_0000_0000 then None else Some(c)
  {
    hide Parsed, Fixed, Grouped;
    if c == MIN_INT64 {
      LeastUSDUnread();
    } else {
      FixedParts(Unsigned(c), 2);
      WholeAndFrac(Abs(c), 2);
      var whole, frac := WholeDigits(Abs(c), 2), FracDigits(Abs(c), 2);
      CutAt(whole, frac, '.');
      GroupedReadsBack(c < 0, whole, frac, 2, Abs(c));
    }
  }

  // ----- What points cost

  function PointCost(points: int, rate: int, dues: int): int {
    Rounded(points * (rate + dues), MICROS_PER_CENT)
  }

  /** The cost is the whole cents nearest to the exact one, with half a cent rounded away from zero. */
  lemma CostIsNearest(points: int, rate: int, dues: int)
    ensures IsRounding(points * (rate + dues), 10_000, PointCost(points, rate, dues))
  {
    hide Rounded;
    RoundedIsRounding(points * (rate + dues), MICROS_PER_CENT);
  }

  function SumOf(xs: seq<int>): int {
    if xs == [] then 0 else SumOf(xs[..|xs| - 1]) + xs[|xs| - 1]
  }

  function CostOfDraws(draws: seq<int>, rate: int, dues: int): int {
    if draws == [] then 0
    else CostOfDraws(draws[..|draws| - 1], rate, dues) + PointCost(draws[|draws| - 1], rate, dues)
  }

  lemma {:induction false} DrawsError(draws: seq<int>, rate: int, dues: int)
    ensures 2 * Abs(CostOfDraws(draws, rate, dues) * MICROS_PER_CENT - SumOf(draws) * (rate + dues))
            <= |draws| * MICROS_PER_CENT
  {
    if draws != [] {
      var front, last := draws[..|draws| - 1], draws[|draws| - 1];
      DrawsError(front, rate, dues);
      RoundedError(last * (rate + dues), MICROS_PER_CENT);
      assert (SumOf(front) + last) * (rate + dues) == SumOf(front) * (rate + dues) + last * (rate + dues);
    }
  }

  /** Pricing points draw by draw instead of all at once moves the total by at most half a cent for each
      draw and half a cent more. */
  lemma SplittingChangesLittle(draws: seq<int>, rate: int, dues: int)
    ensures 2 * Abs(CostOfDraws(draws, rate, dues) - PointCost(SumOf(draws), rate, dues)) <= |draws| + 1
  {
    DrawsError(draws, rate, dues);
    RoundedError(SumOf(draws) * (rate + dues), MICROS_PER_CENT);
  }
}
