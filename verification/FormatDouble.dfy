/** The decimal printer of the GPS code, over the reals. */
module FormatDouble {
  import opened Arithmetic

  const MAXDIGITS := 18
  const RESULT_SIZE := 40
  const QUAD_MAX := 9223372036854775807.0

  // ---- digits -----------------------------------------------------------------------------------

  function Pow10(k: nat): (r: nat)
    ensures r >= 1
  {
    if k == 0 then 1 else 10 * Pow10(k - 1)
  }

  predicate IsDigits(s: string) {
    s != "" && forall i :: 0 <= i < |s| ==> '0' <= s[i] <= '9'
  }

  function DigitOf(c: char): nat {
    if '0' <= c <= '9' then c as int - '0' as int else 0
  }

  /** The number that digits spell. */
  function Val(s: string): nat {
    if s == "" then 0 else 10 * Val(s[..|s| - 1]) + DigitOf(s[|s| - 1])
  }

  function Repeat(c: char, n: nat): (r: string)
    ensures |r| == n && forall i :: 0 <= i < n ==> r[i] == c
  {
    seq(n, _ => c)
  }

  /** printf's %*li with a width, and with leading zeros. */
  function Wide(n: nat, width: nat): string {
    var d := Digits(n);
    Repeat(' ', if |d| < width then width - |d| else 0) + d
  }

  function Zeros(n: nat, width: nat): string {
    var d := Digits(n);
    Repeat('0', if |d| < width then width - |d| else 0) + d
  }

  function Right(width: nat, s: string): string {
    Repeat(' ', if |s| < width then width - |s| else 0) + s
  }

  lemma {:induction false} DigitsSpell(n: nat)
    ensures IsDigits(Digits(n)) && Val(Digits(n)) == n
  {
    if n >= 10 {
      DigitsSpell(n / 10);
      var d := Digits(n);
      assert d[..|d| - 1] == Digits(n / 10);
    } else {
      assert Digits(n)[..0] == "";
    }
  }

  lemma {:induction false} DigitsShort(n: nat, k: nat)
    requires n < Pow10(k) && k > 0
    ensures |Digits(n)| <= k
    decreases k
  {
    if n >= 10 {
      DigitsShort(n / 10, k - 1);
    }
  }

  lemma {:induction false} ValConcat(a: string, b: string)
    ensures Val(a + b) == Val(a) * Pow10(|b|) + Val(b)
    decreases |b|
  {
    PowZero();
    if b == "" {
      assert a + b == a;
    } else {
      hide Val, Pow10;
      var k := |b| - 1;
      assert (a + b)[..|a + b| - 1] == a + b[..k] && (a + b)[|a + b| - 1] == b[k];
      ValConcat(a, b[..k]);
      Tenfold(Val(a), Pow10(k));
      PowNext(k);
      ValLast(a + b);
      ValLast(b);
    }
  }

  lemma ValLast(s: string)
    requires s != ""
    ensures Val(s) == 10 * Val(s[..|s| - 1]) + DigitOf(s[|s| - 1])
  {
  }

  lemma PowNext(k: nat)
    ensures Pow10(k + 1) == 10 * Pow10(k)
  {
  }

  lemma Tenfold(a: nat, p: nat)
    ensures 10 * (a * p) == a * (10 * p)
  {
  }

  lemma {:induction false} ValZeros(n: nat)
    ensures Val(Repeat('0', n)) == 0
  {
    if n > 0 {
      ValZeros(n - 1);
      assert Repeat('0', n)[..n - 1] == Repeat('0', n - 1);
    }
  }

  lemma ZerosSpell(n: nat, width: nat)
    requires n < Pow10(width) && width > 0
    ensures IsDigits(Zeros(n, width)) && |Zeros(n, width)| == width && Val(Zeros(n, width)) == n
  {
    hide Val, Digits, Pow10;
    var d := Digits(n);
    DigitsSpell(n);
    DigitsShort(n, width);
    var z := Repeat('0', width - |d|);
    ValConcat(z, d);
    ValZeros(width - |d|);
    TimesZero(Val(z), Pow10(|d|));
  }

  lemma TimesZero(a: nat, b: nat)
    requires a == 0
    ensures a * b == 0
  {
  }

  // ---- the two parts of the text -------------------------------------------------------------------

  lemma {:induction false} PowAdd(a: nat, b: nat)
    ensures Pow10(a) * Pow10(b) == Pow10(a + b)
  {
    if a > 0 {
      PowAdd(a - 1, b);
      assert 10 * Pow10(a - 1) * Pow10(b) == 10 * (Pow10(a - 1) * Pow10(b));
    }
  }

  lemma Billion()
    ensures Pow10(9) == 1000000000
  {
    assert Pow10(4) == 10000;
    assert Pow10(5) == 100000;
    PowAdd(4, 5);
  }

  /** A quotient is below k exactly when the dividend is below k times the divisor. */
  lemma QuotientBelow(n: nat, p: nat, k: nat)
    requires p > 0
    ensures n / p < k <==> n < k * p
  {
    var q := n / p;
    assert q * p <= n < q * p + p;
    if q < k {
      TimesMonotone(q + 1, k, p);
      assert (q + 1) * p == q * p + p;
    } else {
      TimesMonotone(k, q, p);
    }
  }

  /** The fraction, printed in one piece or in two. */
  function FractText(fract: nat, f: nat): string {
    if f >= 10 then Zeros(fract / 1000000000, f - 9) + Zeros(fract % 1000000000, 9) else Zeros(fract, f)
  }

  lemma FractSpells(fract: nat, f: nat)
    requires fract < Pow10(f) && f > 0
    ensures IsDigits(FractText(fract, f)) && |FractText(fract, f)| == f && Val(FractText(fract, f)) == fract
  {
    hide Val, Zeros;
    if f >= 10 {
      var (hi, lo) := (fract / 1000000000, fract % 1000000000);
      Billion();
      PowAdd(f - 9, 9);
      QuotientBelow(fract, 1000000000, Pow10(f - 9));
      hide Pow10;
      ZerosSpell(hi, f - 9);
      ZerosSpell(lo, 9);
      ValConcat(Zeros(hi, f - 9), Zeros(lo, 9));
    } else {
      ZerosSpell(fract, f);
    }
  }

  /** The whole part, printed in one piece or in two, without padding. */
  function WholeText(n: nat): string {
    if n >= 1000000000 then Digits(n / 1000000000) + Zeros(n % 1000000000, 9) else Digits(n)
  }

  lemma WholeSpells(n: nat, k: nat)
    requires n < Pow10(k) && k > 0
    ensures IsDigits(WholeText(n)) && |WholeText(n)| <= k && Val(WholeText(n)) == n
  {
    hide Val, Zeros, Digits;
    if n >= 1000000000 {
      var (hi, lo) := (n / 1000000000, n % 1000000000);
      Billion();
      PowAdd(k - 9, 9);
      QuotientBelow(n, 1000000000, Pow10(k - 9));
      DigitsSpell(hi);
      DigitsShort(hi, k - 9);
      hide Pow10;
      ZerosSpell(lo, 9);
      ValConcat(Digits(hi), Zeros(lo, 9));
    } else {
      DigitsSpell(n);
      DigitsShort(n, k);
    }
  }

  // ---- scaling and rounding --------------------------------------------------------------------------

  function Real(n: nat): real {
    n as real
  }

  /** The field, and the digits after the point, that a call asks for, once made to fit. */
  function Width(length: nat): (w: nat)
    ensures 3 <= w < RESULT_SIZE
  {
    if length == 0 || length > RESULT_SIZE - 1 then RESULT_SIZE - 1 else if length < 3 then 3 else length
  }

  function Places(length: nat, fractDigits: nat): (f: nat)
    ensures f <= MAXDIGITS && f <= Width(length) - 3
  {
    var f := if fractDigits > MAXDIGITS then MAXDIGITS else fractDigits;
    if f > Width(length) - 3 then Width(length) - 3 else f
  }

  /** The digits there is room for before the point. */
  function Room(length: nat, fractDigits: nat, negative: bool): (k: nat)
    ensures 1 <= k <= MAXDIGITS
  {
    var d := Width(length) - Places(length, fractDigits) - 1;
    var n := if negative then d - 1 else d;
    if n < MAXDIGITS then n else MAXDIGITS
  }

  function Abs(v: real): real {
    if v < 0.0 then -v else v
  }

  /** The value in units of the last place, with half a unit added for rounding. */
  function Units(v: real, f: nat): real {
    Abs(v) * Real(Pow10(f)) + 0.5
  }

  lemma RealTimes(a: nat, b: nat)
    ensures Real(a * b) == Real(a) * Real(b)
  {
  }

  /** x is what is left of y after shift divisions by ten. */
  ghost predicate Shifted(x: real, y: real, shift: nat) {
    x >= 0.0 && y == x * Real(Pow10(shift))
  }

  lemma ShiftedMore(x: real, y: real, shift: nat)
    requires Shifted(x, y, shift)
    ensures Shifted(x * 0.1, y, shift + 1)
  {
    var p := Real(Pow10(shift));
    assert Real(Pow10(shift + 1)) == 10.0 * p;
    assert x * 0.1 * (10.0 * p) == x * p;
  }

  lemma ScaledOrder(a: real, b: real, p: real)
    requires p > 0.0
    ensures a < b <==> a * p < b * p
  {
    if a < b {
      Positive(b - a, p);
    } else if b < a {
      Positive(a - b, p);
    }
    assert (b - a) * p == b * p - a * p && (a - b) * p == a * p - b * p;
  }

  lemma Positive(a: real, p: real)
    requires a > 0.0 && p > 0.0
    ensures a * p > 0.0
  {
  }

  lemma FloorBelow(x: real, m: nat)
    requires x >= 0.0
    ensures x.Floor >= 0
    ensures x.Floor < m <==> x < Real(m)
  {
  }

  lemma QuotientNat(n: nat, p: nat)
    requires p > 0
    ensures n / p >= 0 && n % p >= 0
  {
    var q := n / p;
    assert n < q * p + p;
    if q < 0 {
      TimesMonotone(0, -1 - q, p);
    }
  }

  /** The expanded value's whole part, and its fraction in units of the last place. */
  function WholeOf(e: nat, f: nat, shift: nat): nat
    requires shift <= f
  {
    QuotientNat(e, Pow10(f - shift));
    e / Pow10(f - shift)
  }

  function FractOf(e: nat, f: nat, shift: nat): nat
    requires shift <= f
  {
    NotNegative(e % Pow10(f - shift), Pow10(shift));
    e % Pow10(f - shift) * Pow10(shift)
  }

  lemma Regroup(a: nat, b: nat, c: nat)
    ensures a * b * c == a * (b * c) && a * (b * c) >= 0 && a * b >= 0
  {
    NotNegative(a, b);
    NotNegative(b, c);
    NotNegative(a, b * c);
  }

  lemma Below(x: real, y: real, q: nat, m: nat)
    requires x >= 0.0 && q > 0 && y == x * Real(q)
    ensures x.Floor >= 0 && (x.Floor < m <==> y < Real(m * q))
  {
    FloorBelow(x, m);
    ScaledOrder(x, Real(m), Real(q));
    RealTimes(m, q);
  }

  /** The whole part fits exactly when the units before the shifts do. */
  lemma FitsIff(x: real, y: real, f: nat, shift: nat, k: nat)
    requires shift <= f && Shifted(x, y, shift)
    ensures x.Floor >= 0
    ensures WholeOf(x.Floor, f, shift) < Pow10(k) <==> y < Real(Pow10(f + k))
  {
    var (p, q, n) := (Pow10(f - shift), Pow10(shift), Pow10(k));
    PowAdd(f - shift, shift);
    PowAdd(k, f);
    hide Pow10, Real;
    Regroup(n, p, q);
    Below(x, y, q, n * p);
    QuotientBelow(x.Floor, p, n);
  }

  /** Whole and fraction, in units of the last place. */
  function Printed(whole: nat, fract: nat, f: nat): nat {
    NotNegative(whole, Pow10(f));
    whole * Pow10(f) + fract
  }

  lemma Pieces(e: nat, p: nat, q: nat)
    requires p > 0 && q > 0
    ensures e % p * q < p * q && e / p * (p * q) + e % p * q == e * q
  {
    var (w, r) := (e / p, e % p);
    assert e == w * p + r;
    TimesMonotone(r + 1, p, q);
    assert (r + 1) * q == r * q + q;
    assert (w * p + r) * q == w * p * q + r * q;
    Regroup(w, p, q);
  }

  /**
   The parts of the expanded value make up the value, cut to the digits that were kept:
   not above the rounded value, and less than a unit of the last digit kept below it.
   */
  lemma PartsAreClose(x: real, y: real, f: nat, shift: nat)
    requires shift <= f && Shifted(x, y, shift)
    ensures x.Floor >= 0 && FractOf(x.Floor, f, shift) < Pow10(f)
    ensures var n := Printed(WholeOf(x.Floor, f, shift), FractOf(x.Floor, f, shift), f);
            Real(n) <= y < Real(n + Pow10(shift))
  {
    hide Pow10, Real, WholeOf, FractOf, Printed;
    var q := Pow10(shift);
    Below(x, y, q, 0);
    var e := x.Floor;
    PartsAre(e, f, shift);
    Between(x, y, q);
  }

  lemma Between(x: real, y: real, q: nat)
    requires x >= 0.0 && q > 0 && y == x * Real(q)
    ensures x.Floor >= 0 && x.Floor * q >= 0
    ensures Real(x.Floor * q) <= y < Real(x.Floor * q + q)
  {
    Below(x, y, q, 0);
    var e: nat := x.Floor;
    Below(x, y, q, e);
    Below(x, y, q, e + 1);
    NotNegative(e, q);
    hide Real;
    NextMultiple(e, q);
  }

  lemma PartsAre(e: nat, f: nat, shift: nat)
    requires shift <= f
    ensures FractOf(e, f, shift) < Pow10(f)
    ensures Printed(WholeOf(e, f, shift), FractOf(e, f, shift), f) == e * Pow10(shift)
  {
    PowAdd(f - shift, shift);
    Pieces(e, Pow10(f - shift), Pow10(shift));
    hide Pow10;
  }

  lemma PowOrder(a: nat, b: nat)
    requires a <= b
    ensures Pow10(a) <= Pow10(b)
  {
    PowAdd(a, b - a);
    TimesMonotone(1, Pow10(b - a), Pow10(a));
  }

  /** What is still too large for 64 bits after all shifts has too many digits for any field. */
  lemma TooLarge(x: real, y: real, f: nat, k: nat)
    requires Shifted(x, y, f) && x >= QUAD_MAX && k <= MAXDIGITS
    ensures y >= Real(Pow10(f + k))
  {
    Billion();
    PowAdd(9, 9);
    PowOrder(k, MAXDIGITS);
    FitsIff(x, y, f, f, k);
    assert Pow10(0) == 1;
    assert WholeOf(x.Floor, f, f) == x.Floor;
  }

  // ---- printing ----------------------------------------------------------------------------------------

  /** How a value is printed: blanks, the whole part, the fraction, and the digits that were shifted out. */
  datatype Text = Text(lead: nat, whole: string, fract: string, shift: nat)

  /** The printed parts are digits, of the length asked for, and close to the value. */
  ghost predicate Faithful(v: real, f: nat, t: Text) {
    && IsDigits(t.whole) && IsDigits(t.fract) && (f > 0 ==> |t.fract| == f) && (f == 0 ==> t.fract == "0")
    && t.shift <= f && (Units(v, f) < QUAD_MAX ==> t.shift == 0)
    && var n := Printed(Val(t.whole), Val(t.fract), f);
       Real(n) <= Units(v, f) < Real(n + Pow10(t.shift))
  }

  /** Without shifts the printed number is within half a unit of the last place of the value. */
  lemma HalfUnit(v: real, f: nat, t: Text)
    requires Faithful(v, f, t) && Units(v, f) < QUAD_MAX
    ensures var (n, scaled) := (Real(Printed(Val(t.whole), Val(t.fract), f)), Abs(v) * Real(Pow10(f)));
            scaled - 0.5 < n <= scaled + 0.5
  {
    hide Printed, Val, Pow10;
    assert Pow10(0) == 1 by {
      PowZero();
    }
  }

  lemma PowZero()
    ensures Pow10(0) == 1
  {
  }

  /** The scaled value, by loop: as many divisions by ten as it takes to fit 64 bits, but at most f. */
  method Scale(v: real, f: nat) returns (x: real, shift: nat)
    ensures shift <= f && Shifted(x, Units(v, f), shift)
    ensures x >= QUAD_MAX ==> shift == f
    ensures Units(v, f) < QUAD_MAX ==> shift == 0
  {
    hide Units;
    x := UnitsOf(v, f);
    shift := 0;
    PowZero();
    while x >= QUAD_MAX && shift < f
      invariant shift <= f && Shifted(x, Units(v, f), shift)
      invariant Units(v, f) < QUAD_MAX ==> shift == 0
    {
      ShiftedMore(x, Units(v, f), shift);
      shift := shift + 1;
      x := x * 0.1;
    }
  }

  /** The value in units of the last place, as the table of powers gives it. */
  method UnitsOf(v: real, f: nat) returns (x: real)
    ensures x == Units(v, f) && x >= 0.0
  {
    x := Abs(v) * Real(Pow10(f)) + 0.5;
    ScaledNotNegative(Abs(v), Real(Pow10(f)));
  }

  lemma ScaledNotNegative(a: real, b: real)
    requires a >= 0.0 && b >= 0.0
    ensures a * b >= 0.0
  {
  }

  /**
   The field w and the decimals f for a call: the length asked for, but 39 when that is 0 or
   more than 39, and at least 3; as many decimals as asked for, but at most 18, and at most
   as many as leave room for a digit, the point and a sign.
   */
  ghost predicate Field(length: nat, fractDigits: nat, w: nat, f: nat) {
    && (length == 0 || length > 39 ==> w == 39) && (0 < length < 3 ==> w == 3) && (3 <= length <= 39 ==> w == length)
    && f <= fractDigits && f <= 18 && f + 3 <= w && (f == fractDigits || f == 18 || f + 3 == w)
  }

  lemma FieldIs(length: nat, fractDigits: nat, w: nat, f: nat)
    ensures Field(length, fractDigits, w, f) <==> w == Width(length) && f == Places(length, fractDigits)
  {
  }

  /** The digits before the point that a field has room for, at most 18. */
  function RoomFor(w: nat, f: nat, negative: bool): nat
    requires f + 3 <= w
  {
    var d := w - f - if negative then 2 else 1;
    if d < 18 then d else 18
  }

  /** Blanks, the sign, the whole part, a point and the fraction, w characters in all, or without blanks when tight. */
  ghost predicate Shows(result: string, value: real, tight: bool, w: nat, f: nat, t: Text) {
    && Faithful(value, f, t)
    && result == Repeat(' ', t.lead) + (if value < 0.0 then "-" else "") + t.whole + "." + t.fract
    && if tight then t.lead == 0 else |result| == w + if f == 0 then 1 else 0
  }

  /** The value, rounded to f decimals, needs more digits before the point than there is room for. */
  ghost predicate Overflows(value: real, w: nat, f: nat)
    requires f + 3 <= w
  {
    Abs(value) * Real(Pow10(f)) + 0.5 >= Real(Pow10(f + RoomFor(w, f, value < 0.0)))
  }

  /** What a call prints: stars, or the value. */
  ghost predicate Prints(result: string, value: real, tight: bool, w: nat, f: nat)
    requires f + 3 <= w
  {
    if Overflows(value, w, f) then result == Repeat(' ', w - 3) + "***"
    else exists t: Text :: Shows(result, value, tight, w, f, t)
  }

  /** What a call prints, and when it fits a buffer of 40 characters with its terminator. */
  ghost predicate Formatted(result: string, value: real, length: nat, fractDigits: nat, w: nat, f: nat) {
    && Field(length, fractDigits, w, f) && Prints(result, value, length == 0, w, f)
    && (|result| < 40 <==> Overflows(value, w, f) || length < 39 || fractDigits > 0)
  }

  /**
   formatDouble: stars when the rounded value needs more digits than there is room for, and
   only then; otherwise blanks, the sign, and digits that are faithful to the value.  The text
   and its terminator fit the buffer unless no decimals are asked for in a field of 39 or more.
   */
  method FormatDouble(value: real, length: nat, fractDigits: nat) returns (result: string)
    ensures exists w: nat, f: nat :: Formatted(result, value, length, fractDigits, w, f)
  {
    var (w, f, k) := (Width(length), Places(length, fractDigits), Room(length, fractDigits, value < 0.0));
    FieldIs(length, fractDigits, w, f);
    result := Format(value, length, fractDigits, w, f, k);
    assert Formatted(result, value, length, fractDigits, w, f);
  }

  /** The printer, with w, f and k made to fit: as wide as w, f decimals, at most k digits before the point. */
  method Format(value: real, length: nat, fractDigits: nat, w: nat, f: nat, k: nat) returns (result: string)
    requires Field(length, fractDigits, w, f) && k == RoomFor(w, f, value < 0.0)
    ensures Formatted(result, value, length, fractDigits, w, f)
  {
    hide Pow10, WholeText, FractText, Real, Printed, Val, Units, Overflows, Formatted, Shows, Shifted, WholeOf, FractOf, Faithful, IsDigits;
    var x, shift := Scale(value, f);
    Stars(value, length, fractDigits, w, f);
    OverflowTest(value, w, f, x, shift);
    if x >= QUAD_MAX {
      return Right(w, "***");
    }
    var (integer, fract) := (WholeOf(x.Floor, f, shift), FractOf(x.Floor, f, shift));
    if integer >= Pow10(k) {
      return Right(w, "***");
    }
    PartsFaithful(value, f, k, x, shift);
    var (whole, part) := (WholeText(integer), FractText(fract, f));
    ghost var lead: nat;
    result, lead := Lay(whole, part, value < 0.0, length == 0, w - f - 1);
    ghost var t := Text(lead, whole, part, shift);
    SameParts(value, f, Text(0, whole, part, shift), lead);
    Shown(result, value, length, fractDigits, w, f, t);
  }

  /** The two tests of the printer together are the test for overflow. */
  lemma OverflowTest(value: real, w: nat, f: nat, x: real, shift: nat)
    requires f + 3 <= w && shift <= f && Shifted(x, Units(value, f), shift) && (x >= QUAD_MAX ==> shift == f)
    ensures x.Floor >= 0
    ensures Overflows(value, w, f)
       <==> x >= QUAD_MAX || WholeOf(x.Floor, f, shift) >= Pow10(RoomFor(w, f, value < 0.0))
  {
    hide Pow10, Real, Units, Shifted, WholeOf, Overflows;
    var k := RoomFor(w, f, value < 0.0);
    OverflowsIs(value, w, f);
    FitsIff(x, Units(value, f), f, shift, k);
    if x >= QUAD_MAX {
      TooLarge(x, Units(value, f), f, k);
    }
  }

  /** The printed parts of a value that is not too large. */
  lemma PartsFaithful(value: real, f: nat, k: nat, x: real, shift: nat)
    requires shift <= f && Shifted(x, Units(value, f), shift) && (Units(value, f) < QUAD_MAX ==> shift == 0)
    requires x.Floor >= 0 && k > 0 && WholeOf(x.Floor, f, shift) < Pow10(k)
    ensures var (whole, part) := (WholeText(WholeOf(x.Floor, f, shift)), FractText(FractOf(x.Floor, f, shift), f));
            && 0 < |whole| <= k && whole[0] != ' ' && |part| == (if f == 0 then 1 else f)
            && Faithful(value, f, Text(0, whole, part, shift))
  {
    hide Pow10, WholeText, FractText, Real, Printed, Val, Units, Shifted, WholeOf, FractOf;
    PartsAreClose(x, Units(value, f), f, shift);
    WholeSpells(WholeOf(x.Floor, f, shift), k);
    FractFaithful(FractOf(x.Floor, f, shift), f);
  }

  lemma SameParts(value: real, f: nat, t: Text, lead: nat)
    requires Faithful(value, f, t)
    ensures Faithful(value, f, t.(lead := lead))
  {
    hide Printed, Val, Units, IsDigits;
  }

  lemma OverflowsIs(value: real, w: nat, f: nat)
    requires f + 3 <= w
    ensures Overflows(value, w, f) <==> Units(value, f) >= Real(Pow10(f + RoomFor(w, f, value < 0.0)))
  {
  }

  lemma Stars(value: real, length: nat, fractDigits: nat, w: nat, f: nat)
    requires Field(length, fractDigits, w, f)
    ensures Overflows(value, w, f) ==> Formatted(Right(w, "***"), value, length, fractDigits, w, f)
  {
    hide Overflows;
    assert |"***"| == 3;
  }

  lemma Shown(result: string, value: real, length: nat, fractDigits: nat, w: nat, f: nat, t: Text)
    requires Field(length, fractDigits, w, f) && !Overflows(value, w, f) && Faithful(value, f, t)
    requires result == Repeat(' ', t.lead) + (if value < 0.0 then "-" else "") + t.whole + "." + t.fract
    requires if length == 0 then t.lead == 0 && |t.whole| <= 18 && |t.fract| <= 18 else |result| == w - f + |t.fract|
    ensures Formatted(result, value, length, fractDigits, w, f)
  {
    hide Overflows, Faithful;
    FractLength(value, f, t);
    assert Shows(result, value, length == 0, w, f, t);
  }

  lemma FractLength(value: real, f: nat, t: Text)
    requires Faithful(value, f, t)
    ensures |t.fract| == if f == 0 then 1 else f
  {
  }

  /** The parts in a field: the sign takes the place of the last blank. */
  method Lay(whole: string, part: string, negative: bool, tight: bool, room: nat) returns (result: string, ghost lead: nat)
    requires whole != "" && whole[0] != ' ' && |whole| + (if negative then 1 else 0) <= room
    ensures result == Repeat(' ', lead) + (if negative then "-" else "") + whole + "." + part
    ensures if tight then lead == 0 && |result| <= room + 1 + |part| else |result| == room + 1 + |part|
  {
    lead := 0;
    if tight {
      result := (if negative then "-" else "") + whole + "." + part;
      return;
    }
    var blanks := room - |whole|;
    lead := blanks;
    result := Repeat(' ', blanks) + whole + "." + part;
    if negative {
      var p := LastBlank(result, blanks);
      result := result[p := '-'];
      lead := blanks - 1;
    }
  }

  lemma FractFaithful(fract: nat, f: nat)
    requires fract < Pow10(f)
    ensures IsDigits(FractText(fract, f)) && Val(FractText(fract, f)) == fract
    ensures if f > 0 then |FractText(fract, f)| == f else FractText(fract, f) == "0"
  {
    if f > 0 {
      FractSpells(fract, f);
    } else {
      assert Digits(0) == "0" && Zeros(0, 0) == "0";
      DigitsSpell(0);
    }
  }

  /** The position of the last of the blanks that a text starts with. */
  method LastBlank(s: string, blanks: nat) returns (p: nat)
    requires 0 < blanks < |s| && (forall i :: 0 <= i < blanks ==> s[i] == ' ') && s[blanks] != ' '
    ensures p == blanks - 1
  {
    p := 0;
    while s[p + 1] == ' '
      invariant p < blanks
      decreases blanks - p
    {
      p := p + 1;
    }
  }
}
