/** Brazilian Real formatting of a unit price (app.py:42-44). The price is an
    exact amount of cents; the source's float conversion is not modelled. */
module Price {
  import opened Wrappers
  import opened Text

  /** Zero-padded two-digit form of `m`. */
  function Pad2(m: nat): (s: string)
    requires m < 100
    ensures |s| == 2 && AllDigits(s)
  {
    [DigitChar(m / 10), DigitChar(m % 10)]
  }

  /** Zero-padded three-digit form of `m`. */
  function Pad3(m: nat): (s: string)
    requires m < 1000
    ensures |s| == 3 && AllDigits(s)
  {
    [DigitChar(m / 100), DigitChar(m / 10 % 10), DigitChar(m % 10)]
  }

  /** The integer part `n` with its digits grouped in threes by `sep`, as
      the `,` option of Python's format specification prints it. */
  function Grouped(n: nat, sep: char): (s: string)
    ensures |s| >= 1 && IsDigit(s[0])
    ensures forall i :: 0 <= i < |s| ==> IsDigit(s[i]) || s[i] == sep
    decreases n
  {
    if n < 1000 then Digits(n) else Grouped(n / 1000, sep) + [sep] + Pad3(n % 1000)
  }

  function Abs(c: int): nat {
    if c < 0 then -c else c
  }

  function Sign(c: int): string {
    if c < 0 then "-" else ""
  }

  /** What `f"R$ {float(x):,.2f}"` prints for an amount of `cents`: comma
      thousands separator and point decimal separator. */
  function EnglishFormat(cents: int): string {
    "R$ " + Sign(cents) + Grouped(Abs(cents) / 100, ',') + "." + Pad2(Abs(cents) % 100)
  }

  /** Python's `s.replace(a, b)` for single characters. */
  function Replace(s: string, a: char, b: char): (r: string)
    ensures |r| == |s|
    ensures forall i :: 0 <= i < |s| ==> r[i] == if s[i] == a then b else s[i]
  {
    seq(|s|, i requires 0 <= i < |s| => if s[i] == a then b else s[i])
  }

  /** `.replace(',', 'X').replace('.', ',').replace('X', '.')`: exchanges
      `,` and `.` through the placeholder `X`. */
  function SwapSeparators(s: string): string {
    Replace(Replace(Replace(s, ',', 'X'), '.', ','), 'X', '.')
  }

  /** Brazilian Real notation: `R$ `, a minus sign for negative amounts, the
      integer part grouped in threes by `.`, a `,` and two decimals. */
  function BrazilianPrice(cents: int): string {
    "R$ " + Sign(cents) + Amount(Abs(cents))
  }

  /** The price string as the source computes it: the English format with
      its separators exchanged. It is the Brazilian Real notation. */
  function FormatPrice(cents: int): (r: string)
    ensures r == BrazilianPrice(cents)
  {
    BrazilianForm(cents);
    SwapSeparators(EnglishFormat(cents))
  }

  /** A missing price becomes the empty string. */
  function PriceCell(p: Option<int>): (s: string)
    ensures p.None? <==> s == ""
    ensures p.Some? ==> ParsePrice(s) == Some(p.value)
  {
    match p
    case None => ""
    case Some(c) => PriceRoundTrip(c); FormatPrice(c)
  }

  /* ---------- Reading a formatted price back ---------- */

  function ParseDigits(s: string): Option<nat> {
    if |s| >= 1 && AllDigits(s) then Some(Value(s)) else None
  }

  /** Value of an integer part written with `.` between groups of three
      digits; `None` when the grouping is malformed. */
  function ParseGrouped(s: string): Option<nat>
    decreases |s|
  {
    if 1 <= |s| <= 3 then ParseDigits(s)
    else if |s| >= 5 && s[|s| - 4] == '.' then
      var hi := ParseGrouped(s[..|s| - 4]);
      var lo := ParseDigits(s[|s| - 3..]);
      if hi.Some? && lo.Some? then Some(hi.value * 1000 + lo.value) else None
    else None
  }

  /** Reads an unsigned amount `d.ddd,dd` back into cents. */
  function ParseAmount(u: string): Option<nat> {
    if |u| < 4 || u[|u| - 3] != ',' then None
    else
      var whole := ParseGrouped(u[..|u| - 3]);
      var frac := ParseDigits(u[|u| - 2..]);
      if whole.Some? && frac.Some? then Some(whole.value * 100 + frac.value) else None
  }

  /** Reads an amount with an optional leading minus sign. */
  function ParseSigned(t: string): Option<int> {
    if |t| > 0 && t[0] == '-' then
      match ParseAmount(t[1..])
      case Some(v) => var n: int := v; Some(-n)
      case None => None
    else
      match ParseAmount(t)
      case Some(v) => Some(v)
      case None => None
  }

  /** Reads a Brazilian Real amount `R$ [-]d.ddd,dd` back into cents. */
  function ParsePrice(s: string): Option<int> {
    if |s| < 3 || s[..3] != "R$ " then None else ParseSigned(s[3..])
  }

  /* ---------- Properties ---------- */

  /** `x` and `y` differ only by exchanging `,` and `.` (and `X` reads as `.`). */
  predicate Swapped(x: string, y: string) {
    |x| == |y| &&
    forall i :: 0 <= i < |x| ==>
      y[i] == (if x[i] == ',' then '.' else if x[i] == '.' then ',' else if x[i] == 'X' then '.' else x[i])
  }

  lemma SwappedConcat(x1: string, y1: string, x2: string, y2: string)
    requires Swapped(x1, y1) && Swapped(x2, y2)
    ensures Swapped(x1 + x2, y1 + y2)
  {
  }

  lemma {:induction false} GroupedSwapped(n: nat)
    ensures Swapped(Grouped(n, ','), Grouped(n, '.'))
    decreases n
  {
    if n >= 1000 {
      GroupedSwapped(n / 1000);
      SwappedConcat(Grouped(n / 1000, ','), Grouped(n / 1000, '.'), [','], ['.']);
      SwappedConcat(Grouped(n / 1000, ',') + [','], Grouped(n / 1000, '.') + ['.'], Pad3(n % 1000), Pad3(n % 1000));
    }
  }

  /** Exchanging the separators of the English format gives the Brazilian
      notation. */
  lemma BrazilianForm(cents: int)
    ensures SwapSeparators(EnglishFormat(cents)) == BrazilianPrice(cents)
  {
    var e := EnglishFormat(cents);
    var target := "R$ " + Sign(cents) + Grouped(Abs(cents) / 100, '.') + "," + Pad2(Abs(cents) % 100);
    GroupedSwapped(Abs(cents) / 100);
    SwappedConcat("R$ " + Sign(cents), "R$ " + Sign(cents), Grouped(Abs(cents) / 100, ','), Grouped(Abs(cents) / 100, '.'));
    SwappedConcat("R$ " + Sign(cents) + Grouped(Abs(cents) / 100, ','), "R$ " + Sign(cents) + Grouped(Abs(cents) / 100, '.'), ".", ",");
    SwappedConcat("R$ " + Sign(cents) + Grouped(Abs(cents) / 100, ',') + ".", "R$ " + Sign(cents) + Grouped(Abs(cents) / 100, '.') + ",", Pad2(Abs(cents) % 100), Pad2(Abs(cents) % 100));
    assert Swapped(e, target);
    assert Swapped(e, SwapSeparators(e));
  }

  /** Shape of a price string: it starts with `R$ `, then a minus sign
      exactly for negative amounts, holds exactly one `,`, three characters
      from the end, and ends with two digits. */
  predicate PriceShaped(r: string, negative: bool) {
    && |r| >= 7
    && r[..3] == "R$ "
    && (r[3] == '-' <==> negative)
    && r[|r| - 3] == ','
    && IsDigit(r[|r| - 2]) && IsDigit(r[|r| - 1])
    && (forall i :: 0 <= i < |r| && r[i] == ',' ==> i == |r| - 3)
  }

  /** Every formatted price has the shape of a price string. */
  lemma PriceShape(cents: int)
    ensures PriceShaped(FormatPrice(cents), cents < 0)
  {
    BrazilianShape(cents);
  }

  lemma BrazilianShape(cents: int)
    ensures PriceShaped(BrazilianPrice(cents), cents < 0)
  {
    var g := Grouped(Abs(cents) / 100, '.');
    var r := BrazilianPrice(cents);
    assert r == "R$ " + Sign(cents) + g + "," + Pad2(Abs(cents) % 100);
    var k := 3 + |Sign(cents)|;
    assert r[k] == g[0];
    assert forall i :: k <= i < k + |g| ==> r[i] == g[i - k];
    assert forall i :: k + |g| < i < |r| ==> r[i] == Pad2(Abs(cents) % 100)[i - (k + |g| + 1)];
  }

  lemma ParsePad2(m: nat)
    requires m < 100
    ensures ParseDigits(Pad2(m)) == Some(m)
  {
    var s := Pad2(m);
    assert s[..1] == [DigitChar(m / 10)];
    assert Value(s[..1]) == m / 10 by {
      assert s[..1][..0] == [];
    }
    assert Value(s) == (m / 10) * 10 + m % 10;
  }

  lemma ParsePad3(m: nat)
    requires m < 1000
    ensures ParseDigits(Pad3(m)) == Some(m)
  {
    var s := Pad3(m);
    assert s[..2] == Pad2(m / 10);
    ParsePad2(m / 10);
    assert Value(s) == (m / 10) * 10 + m % 10;
  }

  lemma {:induction false} ParseGroupedRoundTrip(n: nat)
    ensures ParseGrouped(Grouped(n, '.')) == Some(n)
    decreases n
  {
    if n < 1000 {
      ValueOfDigits(n);
    } else {
      var hi := Grouped(n / 1000, '.');
      ParseGroupedRoundTrip(n / 1000);
      ParsePad3(n % 1000);
      ParseGroupedStep(hi, Pad3(n % 1000), n / 1000, n % 1000);
      assert Grouped(n, '.') == hi + ['.'] + Pad3(n % 1000);
    }
  }

  /** One more group of three digits after a `.` multiplies by a thousand
      and adds the group. */
  lemma ParseGroupedStep(hi: string, lo: string, x: nat, y: nat)
    requires |hi| >= 1 && |lo| == 3
    requires ParseGrouped(hi) == Some(x) && ParseDigits(lo) == Some(y)
    ensures ParseGrouped(hi + ['.'] + lo) == Some(x * 1000 + y)
  {
    var s := hi + ['.'] + lo;
    assert s[|s| - 4] == '.';
    assert s[..|s| - 4] == hi;
    assert s[|s| - 3..] == lo;
  }

  /** Reading the price string back gives the amount it was made from. */
  lemma PriceRoundTrip(cents: int)
    ensures ParsePrice(FormatPrice(cents)) == Some(cents)
  {
    BrazilianRoundTrip(cents);
  }

  lemma BrazilianRoundTrip(cents: int)
    ensures ParsePrice(BrazilianPrice(cents)) == Some(cents)
  {
    SignedRoundTrip(cents);
    var t := Sign(cents) + Amount(Abs(cents));
    assert BrazilianPrice(cents) == "R$ " + t;
    assert ("R$ " + t)[..3] == "R$ " && ("R$ " + t)[3..] == t;
  }

  lemma SignedRoundTrip(cents: int)
    ensures ParseSigned(Sign(cents) + Amount(Abs(cents))) == Some(cents)
  {
    var u := Amount(Abs(cents));
    AmountRoundTrip(Abs(cents));
    if cents < 0 {
      assert (Sign(cents) + u)[1..] == u;
    } else {
      assert Sign(cents) + u == u;
      assert u[0] == Grouped(Abs(cents) / 100, '.')[0];
    }
  }

  /** The amount part `d.ddd,dd` reads back as the absolute amount. */
  lemma AmountRoundTrip(a: nat)
    ensures ParseAmount(Amount(a)) == Some(a)
  {
    ParseGroupedRoundTrip(a / 100);
    ParsePad2(a % 100);
    ParseAmountStep(Grouped(a / 100, '.'), Pad2(a % 100), a / 100, a % 100);
  }

  /** An amount is its integer part, a `,` and two decimals. */
  lemma ParseAmountStep(g: string, p: string, whole: nat, frac: nat)
    requires |p| == 2
    requires ParseGrouped(g) == Some(whole) && ParseDigits(p) == Some(frac)
    ensures ParseAmount(g + [','] + p) == Some(whole * 100 + frac)
  {
    var u := g + [','] + p;
    assert u[|u| - 3] == ',';
    assert u[..|u| - 3] == g;
    assert u[|u| - 2..] == p;
  }

  /** The amount part of a price string, without currency marker and sign. */
  function Amount(a: nat): string {
    Grouped(a / 100, '.') + "," + Pad2(a % 100)
  }

  /** `s` with every occurrence of `c` removed. */
  function Without(s: string, c: char): (r: string)
    ensures c !in r
  {
    if |s| == 0 then [] else (if s[0] == c then [] else [s[0]]) + Without(s[1..], c)
  }

  lemma {:induction false} WithoutConcat(x: string, y: string, c: char)
    ensures Without(x + y, c) == Without(x, c) + Without(y, c)
  {
    if |x| == 0 {
      assert x + y == y;
    } else {
      var head: string := if x[0] == c then [] else [x[0]];
      assert (x + y)[0] == x[0] && (x + y)[1..] == x[1..] + y;
      WithoutConcat(x[1..], y, c);
      assert Without(x + y, c) == head + Without(x[1..] + y, c);
      assert Without(x, c) == head + Without(x[1..], c);
    }
  }

  lemma {:induction false} WithoutAbsent(s: string, c: char)
    requires c !in s
    ensures Without(s, c) == s
  {
    if |s| > 0 {
      WithoutAbsent(s[1..], c);
      assert [s[0]] + s[1..] == s;
    }
  }

  lemma DigitsHundreds(n: nat)
    requires n >= 100
    ensures Digits(n) == Digits(n / 100) + Pad2(n % 100)
  {
    assert Digits(n / 10) == Digits(n / 100) + [DigitChar(n / 10 % 10)];
  }

  lemma DigitsThousands(n: nat)
    requires n >= 1000
    ensures Digits(n) == Digits(n / 1000) + Pad3(n % 1000)
  {
    var q, r := n / 1000, n % 1000;
    DivisionByTen(q, r);
    DigitsHundreds(n / 10);
    assert Digits(n / 10) == Digits(q) + Pad2(r / 10);
    assert Pad2(r / 10) + [DigitChar(n % 10)] == Pad3(r);
  }

  /** Dropping the last digit of `1000 q + r` leaves `100 q + r / 10`. */
  lemma DivisionByTen(q: nat, r: nat)
    requires r < 1000
    ensures (1000 * q + r) / 10 == 100 * q + r / 10
    ensures (1000 * q + r) % 10 == r % 10
    ensures (100 * q + r / 10) / 100 == q && (100 * q + r / 10) % 100 == r / 10
  {
  }

  /** Dropping the group separators from the integer part leaves exactly the
      decimal digits of the number: the groups are the digits cut in threes
      from the right. */
  lemma {:induction false} GroupedDigits(n: nat)
    ensures Without(Grouped(n, '.'), '.') == Digits(n)
    decreases n
  {
    if n < 1000 {
      WithoutAbsent(Digits(n), '.');
    } else {
      GroupedDigits(n / 1000);
      WithoutConcat(Grouped(n / 1000, '.') + ['.'], Pad3(n % 1000), '.');
      WithoutConcat(Grouped(n / 1000, '.'), ['.'], '.');
      WithoutAbsent(Pad3(n % 1000), '.');
      DigitsThousands(n);
    }
  }

  lemma {:induction false} AmountWithoutDots(a: nat)
    ensures Without(Amount(a), '.') == Digits(a / 100) + "," + Pad2(a % 100)
  {
    var g := Grouped(a / 100, '.');
    var p := Pad2(a % 100);
    WithoutConcat(g + ",", p, '.');
    WithoutConcat(g, ",", '.');
    WithoutAbsent(p, '.');
    WithoutAbsent(",", '.');
    GroupedDigits(a / 100);
  }

  lemma {:induction false} DropComma(d: string, p: string)
    requires AllDigits(d) && AllDigits(p)
    ensures Without(d + "," + p, ',') == d + p
  {
    var comma: string := ",";
    assert ',' !in d by {
      forall i | 0 <= i < |d| ensures d[i] != ',' { assert IsDigit(d[i]); }
    }
    assert ',' !in p by {
      forall i | 0 <= i < |p| ensures p[i] != ',' { assert IsDigit(p[i]); }
    }
    var x := d + comma;
    assert Without(x, ',') == d by {
      WithoutConcat(d, comma, ',');
      WithoutAbsent(d, ',');
      assert Without(comma, ',') == [];
      assert d + [] == d;
    }
    WithoutConcat(x, p, ',');
    WithoutAbsent(p, ',');
    assert d + "," + p == x + p;
  }

  /** The digits of the amount part, read left to right, are the decimal
      digits of the cent amount (with a single `0` before the comma when the
      amount is below one Real). */
  lemma AmountDigits(a: nat)
    ensures Without(Without(Amount(a), '.'), ',') ==
      if a >= 100 then Digits(a) else "0" + Pad2(a)
  {
    AmountWithoutDots(a);
    DropComma(Digits(a / 100), Pad2(a % 100));
    if a >= 100 {
      DigitsHundreds(a);
    } else {
      assert a / 100 == 0 && a % 100 == a;
      assert Digits(0) == "0";
    }
  }

  /** Worked examples: R$ 1234.50 and zero. */
  lemma PriceExampleThousands()
    ensures FormatPrice(123450) == "R$ 1.234,50"
  {
    assert Grouped(1234, '.') == "1.234";
    assert Amount(123450) == "1.234,50";
  }

  lemma PriceExampleZero()
    ensures FormatPrice(0) == "R$ 0,00"
  {
    assert Amount(0) == "0,00";
  }

  /** A negative amount keeps its sign after the currency marker. */
  lemma PriceExampleNegative()
    ensures FormatPrice(-5) == "R$ -0,05"
  {
    assert Amount(5) == "0,05";
  }
}
