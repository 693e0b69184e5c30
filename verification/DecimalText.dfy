/** Exact arithmetic on decimal numerals kept as text: trimming, times one hundred, comparison. */
module DecimalText {
  import opened Ordering
  import opened Decimals

  // ---- numerals and their value ----

  predicate Digit(c: char) { '0' <= c <= '9' }

  predicate Digits(s: string) { forall i :: 0 <= i < |s| ==> Digit(s[i]) }

  function Pow10(n: nat): (r: int)
    ensures 1 <= r
  {
    if n == 0 then 1 else 10 * Pow10(n - 1)
  }

  function DigitValue(c: char): int { c as int - '0' as int }

  /** The number a digit string denotes. */
  function Nat(s: string): int
    decreases |s|
  {
    if s == [] then 0 else Nat(s[..|s| - 1]) * 10 + DigitValue(s[|s| - 1])
  }

  /** `n` divided by ten to the power `k`. */
  function Ratio(n: int, k: nat): real { n as real / Pow10(k) as real }

  /** The unsigned value of a whole part and a fraction. */
  function Magnitude(whole: string, fraction: string): real { Ratio(Nat(whole + fraction), |fraction|) }

  function Signed(negative: bool, x: real): real { if negative then -x else x }

  /** The text of a numeral; without fraction digits there is no point. */
  function Write(negative: bool, whole: string, fraction: string): string {
    (if negative then "-" else "") + whole + (if fraction == [] then "" else "." + fraction)
  }

  /** A plain decimal numeral: at least one whole digit, an optional point with fraction digits. */
  predicate Parts(whole: string, fraction: string) { whole != [] && Digits(whole) && Digits(fraction) }

  predicate StartsNegative(s: string) { s != [] && s[0] == '-' }

  function Unsigned(s: string): string { if StartsNegative(s) then s[1..] else s }

  /** What precedes the first point. */
  function BeforePoint(s: string): string {
    if s == [] || s[0] == '.' then [] else [s[0]] + BeforePoint(s[1..])
  }

  /** The first two pieces of splitting at points; a missing second piece is empty. */
  function Split(s: string): (string, string) {
    var whole := BeforePoint(s);
    (whole, if |s| > |whole| then BeforePoint(s[|whole| + 1..]) else [])
  }

  /** The value that reading a text as a numeral gives. */
  function ValueOf(s: string): real {
    var (whole, fraction) := Split(Unsigned(s));
    Signed(StartsNegative(s), Magnitude(whole, fraction))
  }

  lemma BeforePointOf(a: string, b: string)
    requires Digits(a) && (b == [] || b[0] == '.')
    ensures BeforePoint(a + b) == a
  {
    if a == [] {
      assert a + b == b;
    } else {
      assert (a + b)[0] == a[0] && (a + b)[1..] == a[1..] + b;
      assert Digits(a[1..]);
      BeforePointOf(a[1..], b);
    }
  }

  /** Reading what was written gives the parts back. */
  lemma ReadWrite(negative: bool, whole: string, fraction: string)
    requires Parts(whole, fraction)
    ensures var s := Write(negative, whole, fraction);
      StartsNegative(s) == negative && Split(Unsigned(s)) == (whole, fraction)
      && ValueOf(s) == Signed(negative, Magnitude(whole, fraction))
  {
    var s := Write(negative, whole, fraction);
    var tail := if fraction == [] then "" else "." + fraction;
    assert Digit(whole[0]);
    assert Unsigned(s) == whole + tail;
    BeforePointOf(whole, tail);
    if fraction != [] {
      assert (whole + tail)[|whole| + 1..] == fraction;
      BeforePointOf(fraction, []);
      assert fraction + [] == fraction;
    }
  }

  // ---- digit strings ----

  function Zeros(n: nat): (z: string)
    ensures |z| == n && Digits(z)
  {
    if n == 0 then [] else Zeros(n - 1) + ['0']
  }

  lemma NatDigit(c: char)
    ensures Nat([c]) == DigitValue(c)
  {
    assert [c][..0] == [];
  }

  lemma {:induction false} NatConcat(a: string, b: string)
    ensures Nat(a + b) == Nat(a) * Pow10(|b|) + Nat(b)
    decreases |b|
  {
    if b == [] {
      assert a + b == a;
    } else {
      var c := b[..|b| - 1];
      NatConcat(a, c);
      assert (a + b)[..|a + b| - 1] == a + c;
      assert Nat(a) * Pow10(|c|) * 10 == Nat(a) * Pow10(|b|);
    }
  }

  lemma {:induction false} NatBound(s: string)
    requires Digits(s)
    ensures 0 <= Nat(s) < Pow10(|s|)
    decreases |s|
  {
    if s != [] { NatBound(s[..|s| - 1]); }
  }

  lemma {:induction false} NatZeros(n: nat)
    ensures Nat(Zeros(n)) == 0
  {
    if n > 0 {
      NatZeros(n - 1);
      assert Zeros(n)[..n - 1] == Zeros(n - 1);
    }
  }

  lemma {:induction false} Pow10Add(a: nat, b: nat)
    ensures Pow10(a + b) == Pow10(a) * Pow10(b)
  {
    if b > 0 { Pow10Add(a, b - 1); }
  }

  lemma RatioScale(n: int, k: nat, j: nat)
    ensures Ratio(n * Pow10(j), k + j) == Ratio(n, k)
  {
    Pow10Add(k, j);
    hide Pow10;
    CommonFactor(n, Pow10(k), Pow10(j));
  }

  lemma CommonFactor(n: int, p: int, q: int)
    requires 1 <= p && 1 <= q && 1 <= p * q
    ensures (n * q) as real / (p * q) as real == n as real / p as real
  {
    var r := n as real / p as real;
    QuotientTimes(n as real, p as real);
    RealOfProduct(n, q);
    RealOfProduct(p, q);
    ScaleProduct(r, p as real, q as real, n as real);
    QuotientUnique((n * q) as real, (p * q) as real, r);
  }

  lemma RealOfProduct(a: int, b: int)
    ensures (a * b) as real == a as real * b as real
  {}

  lemma ScaleProduct(r: real, p: real, q: real, n: real)
    requires r * p == n
    ensures r * (p * q) == n * q
  {}

  lemma RatioTimes(n: int, k: nat)
    ensures Ratio(n * 100, k) == 100.0 * Ratio(n, k)
  {
    QuotientTimes(n as real, Pow10(k) as real);
    var r, p := Ratio(n, k), Pow10(k) as real;
    assert (100.0 * r) * p == 100.0 * (r * p);
    QuotientUnique((n * 100) as real, p, 100.0 * r);
  }

  lemma RatioOrder(m: int, n: int, k: nat)
    ensures Ratio(m, k) < Ratio(n, k) <==> m < n
    ensures Ratio(m, k) == Ratio(n, k) <==> m == n
  {
    var p := Pow10(k) as real;
    QuotientTimes(m as real, p);
    QuotientTimes(n as real, p);
    ProductOrder(Ratio(m, k), Ratio(n, k), p);
  }

  lemma ProductOrder(x: real, y: real, p: real)
    requires 0.0 < p
    ensures x < y <==> x * p < y * p
    ensures x == y <==> x * p == y * p
  {
    if x < y { PositiveProduct(y - x, p); } else if y < x { PositiveProduct(x - y, p); }
  }

  // ---- trimming ----

  function StripTrailing(s: string): (r: string)
    ensures r <= s
    decreases |s|
  {
    if s != [] && s[|s| - 1] == '0' then StripTrailing(s[..|s| - 1]) else s
  }

  /** The replacement of a fraction's trailing zeros, searched from position `i` on: at the first point
      that is followed by digits only, ending in a zero, the zeros go, and the point with them if
      nothing else is left. */
  function DisplayFrom(s: string, i: nat): string
    requires i <= |s|
    decreases |s| - i
  {
    if i == |s| then s
    else if s[i] == '.' && Digits(s[i + 1..]) && i + 1 < |s| && s[|s| - 1] == '0' then
      var kept := StripTrailing(s[i + 1..]);
      if kept == [] then s[..i] else s[..i + 1] + kept
    else DisplayFrom(s, i + 1)
  }

  function DisplayDecimal(s: string): string { DisplayFrom(s, 0) }

  lemma StripTrailingDigits(s: string)
    requires Digits(s)
    ensures Digits(StripTrailing(s))
  {}

  lemma {:induction false} DisplaySkips(a: string, b: string, i: nat)
    requires i <= |a| && forall j :: i <= j < |a| ==> a[j] != '.'
    ensures DisplayFrom(a + b, i) == DisplayFrom(a + b, |a|)
    decreases |a| - i
  {
    if i < |a| { DisplaySkips(a, b, i + 1); }
  }

  lemma {:induction false} DisplayRest(s: string, i: nat)
    requires i <= |s| && forall j :: i <= j < |s| ==> s[j] != '.'
    ensures DisplayFrom(s, i) == s
    decreases |s| - i
  {
    if i < |s| { DisplayRest(s, i + 1); }
  }

  lemma DisplayAt(s: string, i: nat, fraction: string)
    requires i < |s| && s[i] == '.' && s[i + 1..] == fraction && fraction != [] && Digits(fraction)
    ensures var kept := StripTrailing(fraction);
      DisplayFrom(s, i) == if kept == [] then s[..i] else s[..i + 1] + kept
  {
    if fraction[|fraction| - 1] != '0' {
      forall j | i + 1 <= j < |s| ensures s[j] != '.' {
        assert s[j] == s[i + 1..][j - i - 1];
      }
      DisplayRest(s, i + 1);
      assert s == s[..i + 1] + s[i + 1..];
    }
  }

  lemma DisplayTail(front: string, fraction: string)
    requires fraction != [] && Digits(fraction)
    ensures var kept := StripTrailing(fraction);
      DisplayFrom(front + ("." + fraction), |front|) == front + (if kept == [] then "" else "." + kept)
  {
    hide Digits, DisplayFrom, StripTrailing;
    var s := front + ("." + fraction);
    assert s[|front| + 1..] == fraction;
    DisplayAt(s, |front|, fraction);
    assert s[..|front|] == front && s[..|front| + 1] == front + ".";
  }

  /** On a plain numeral the fraction loses its trailing zeros and nothing else changes. */
  lemma DisplayOfNumeral(negative: bool, whole: string, fraction: string)
    requires Parts(whole, fraction)
    ensures DisplayDecimal(Write(negative, whole, fraction)) == Write(negative, whole, StripTrailing(fraction))
  {
    var front := (if negative then "-" else "") + whole;
    assert forall j :: 0 <= j < |front| ==> front[j] != '.';
    hide StripTrailing, DisplayFrom;
    if fraction == [] {
      DisplayRest(front, 0);
      assert front + "" == front;
      assert StripTrailing([]) == [];
    } else {
      DisplaySkips(front, "." + fraction, 0);
      DisplayTail(front, fraction);
    }
  }

  lemma {:induction false} StripKeepsMagnitude(whole: string, fraction: string)
    ensures Magnitude(whole, StripTrailing(fraction)) == Magnitude(whole, fraction)
    decreases |fraction|
  {
    if fraction != [] && fraction[|fraction| - 1] == '0' {
      var f := fraction[..|fraction| - 1];
      StripKeepsMagnitude(whole, f);
      assert (whole + fraction)[..|whole + fraction| - 1] == whole + f;
      RatioScale(Nat(whole + f), |f|, 1);
      assert Pow10(1) == 10;
    }
  }

  /** Displaying a plain numeral never changes its value, and leaves no trailing zero to remove. */
  lemma DisplayKeepsValue(negative: bool, whole: string, fraction: string)
    requires Parts(whole, fraction)
    ensures var s := Write(negative, whole, fraction);
      ValueOf(DisplayDecimal(s)) == ValueOf(s) && DisplayDecimal(DisplayDecimal(s)) == DisplayDecimal(s)
  {
    DisplayOfNumeral(negative, whole, fraction);
    StripTrailingDigits(fraction);
    DisplayOfNumeral(negative, whole, StripTrailing(fraction));
    StripIdempotent(fraction);
    ReadWrite(negative, whole, fraction);
    ReadWrite(negative, whole, StripTrailing(fraction));
    StripKeepsMagnitude(whole, fraction);
  }

  lemma StripIdempotent(s: string)
    ensures StripTrailing(StripTrailing(s)) == StripTrailing(s)
    decreases |s|
  {
    if s != [] && s[|s| - 1] == '0' { StripIdempotent(s[..|s| - 1]); }
  }

  // ---- times one hundred ----

  /** Leading zeros go while another digit follows. */
  function StripLeading(s: string): string {
    if |s| >= 2 && s[0] == '0' && Digit(s[1]) then StripLeading(s[1..]) else s
  }

  function OrZero(s: string): string { if s == [] then "0" else s }

  /** `slice(0, -n)` and `slice(-n)` for a positive `n`. */
  function DropLast(s: string, n: nat): string { if n < |s| then s[..|s| - n] else [] }

  function TakeLast(s: string, n: nat): string { if n < |s| then s[|s| - n..] else s }

  function PadStart(s: string, n: nat): string { if |s| < n then Zeros(n - |s|) + s else s }

  function DecimalTimes100(value: string): string {
    var negative := StartsNegative(value);
    var (whole, fraction) := Split(Unsigned(value));
    var digits := OrZero(StripLeading(whole + fraction));
    var scale := |fraction| - 2;
    var output :=
      if scale <= 0 then digits + Zeros(-scale)
      else OrZero(DropLast(digits, scale)) + "." + PadStart(TakeLast(digits, scale), scale);
    (if negative then "-" else "") + DisplayDecimal(output)
  }

  function Percent(value: string): string { DecimalTimes100(value) + "%" }

  lemma {:induction false} StripLeadingKeeps(s: string)
    requires Digits(s) && s != []
    ensures var r := StripLeading(s);
      Digits(r) && r != [] && Nat(r) == Nat(s) && (|r| > 1 ==> r[0] != '0')
  {
    hide Nat;
    if |s| >= 2 && s[0] == '0' {
      var t := s[1..];
      assert Digit(s[1]);
      StripLeadingKeeps(t);
      DropZero(t);
      assert s == ['0'] + t;
    }
  }

  lemma DropZero(t: string)
    ensures Nat(['0'] + t) == Nat(t)
  {
    NatConcat(['0'], t);
    NatDigit('0');
  }

  /** Shifting the point of a digit string `scale` places to the left. */
  lemma PointShift(digits: string, scale: nat)
    requires Digits(digits) && digits != [] && 0 < scale
    ensures var whole := OrZero(DropLast(digits, scale)); var fraction := PadStart(TakeLast(digits, scale), scale);
      Parts(whole, fraction) && |fraction| == scale && Nat(whole + fraction) == Nat(digits)
  {
    hide Nat, Pow10, Zeros;
    var whole, fraction := OrZero(DropLast(digits, scale)), PadStart(TakeLast(digits, scale), scale);
    if scale < |digits| {
      assert whole + fraction == digits;
    } else {
      PaddedFront(digits, scale - |digits|);
      DropZero(fraction);
      assert whole == ['0'];
      assert scale == |digits| ==> Zeros(scale - |digits|) + digits == digits;
    }
  }

  lemma PaddedFront(digits: string, n: nat)
    ensures Nat(Zeros(n) + digits) == Nat(digits)
  {
    NatConcat(Zeros(n), digits);
    NatZeros(n);
  }

  /** Appending the missing zeros, for fewer than three decimals. */
  lemma ZerosScale(n: int, k: nat)
    requires k <= 2
    ensures Ratio(n * Pow10(2 - k), 0) == 100.0 * Ratio(n, k)
  {
    assert Pow10(0) == 1 && Pow10(1) == 10 * Pow10(0) && Pow10(2) == 10 * Pow10(1);
    RatioTimes(n, k);
    RatioScale(n * Pow10(2 - k), 0, k);
    if k == 0 {} else if k == 1 { assert n * 10 * 10 == n * 100; } else { assert n * 1 * 100 == n * 100; }
  }

  lemma AppendZeros(digits: string, k: nat)
    requires Digits(digits) && k <= 2
    ensures Magnitude(digits + Zeros(2 - k), []) == 100.0 * Ratio(Nat(digits), k)
  {
    hide Nat, Pow10, Ratio, Zeros, Digits;
    var z := Zeros(2 - k);
    NatConcat(digits, z);
    NatZeros(2 - k);
    assert digits + z + [] == digits + z;
    ZerosScale(Nat(digits), k);
  }

  lemma MovePoint(n: int, k: nat)
    requires k > 2
    ensures Ratio(n, k - 2) == 100.0 * Ratio(n, k)
  {
    RatioTimes(n, k);
    RatioScale(n, k - 2, 2);
    assert Pow10(0) == 1 && Pow10(1) == 10 * Pow10(0) && Pow10(2) == 10 * Pow10(1);
  }

  /** The numeral before trailing zeros go. */
  function Shifted(digits: string, k: nat): (string, string) {
    if k <= 2 then (digits + Zeros(2 - k), [])
    else (OrZero(DropLast(digits, k - 2)), PadStart(TakeLast(digits, k - 2), k - 2))
  }

  lemma ShiftedIsNumeral(digits: string, k: nat)
    requires Digits(digits) && digits != []
    ensures var (w, f) := Shifted(digits, k);
      Parts(w, f) && Magnitude(w, f) == 100.0 * Ratio(Nat(digits), k)
  {
    hide Nat, Pow10, Ratio, Zeros, OrZero, DropLast, PadStart, TakeLast;
    if k <= 2 {
      AppendZeros(digits, k);
    } else {
      PointShift(digits, k - 2);
      MovePoint(Nat(digits), k);
    }
  }

  lemma WriteUnsigned(w: string, f: string)
    ensures Write(false, w, f) == if f == [] then w else w + "." + f
  {
    assert "" + w == w;
    assert w + "" == w;
    assert w + ("." + f) == w + "." + f;
  }

  lemma Times100Text(negative: bool, whole: string, fraction: string)
    requires Parts(whole, fraction)
    ensures var (w, f) := Shifted(StripLeading(whole + fraction), |fraction|);
      DecimalTimes100(Write(negative, whole, fraction)) ==
        (if negative then "-" else "") + DisplayDecimal(Write(false, w, f))
  {
    hide Nat, Magnitude, DisplayDecimal, StripLeading, Split, ValueOf, StripTrailing, StartsNegative, Unsigned,
      DropLast, TakeLast, PadStart, Write, Digits, Zeros;
    var digits, k := StripLeading(whole + fraction), |fraction|;
    ReadWrite(negative, whole, fraction);
    assert OrZero(digits) == digits && digits != [] && Digits(digits) by {
      TogetherDigits(whole, fraction); StripLeadingKeeps(whole + fraction);
    }
    ShiftedLength(digits, k);
    var (w, f) := Shifted(digits, k);
    WriteUnsigned(w, f);
  }

  lemma TogetherDigits(whole: string, fraction: string)
    requires Parts(whole, fraction)
    ensures Digits(whole + fraction) && whole + fraction != []
  {}

  lemma ShiftedLength(digits: string, k: nat)
    requires Digits(digits) && digits != []
    ensures |Shifted(digits, k).1| == if k <= 2 then 0 else k - 2
  {
    if k > 2 { PointShift(digits, k - 2); }
  }

  /** The result is the numeral of one hundred times the value: always a plain numeral itself. */
  lemma Times100IsNumeral(negative: bool, whole: string, fraction: string) returns (w: string, f: string)
    requires Parts(whole, fraction)
    ensures Parts(w, f) && DecimalTimes100(Write(negative, whole, fraction)) == Write(negative, w, f)
    ensures Magnitude(w, f) == 100.0 * Magnitude(whole, fraction)
    ensures w == Shifted(StripLeading(whole + fraction), |fraction|).0
  {
    hide Nat, StripTrailing, DisplayDecimal, StripLeading, DecimalTimes100, Shifted, Ratio;
    var digits, k := StripLeading(whole + fraction), |fraction|;
    Times100Text(negative, whole, fraction);
    StripLeadingKeeps(whole + fraction);
    ShiftedIsNumeral(digits, k);
    var (head, tail) := Shifted(digits, k);
    DisplayOfNumeral(false, head, tail);
    StripTrailingDigits(tail);
    StripKeepsMagnitude(head, tail);
    w, f := head, StripTrailing(tail);
  }

  /** Percent denotes exactly one hundred times the value, for every plain numeral. */
  lemma PercentIsExact(negative: bool, whole: string, fraction: string)
    requires Parts(whole, fraction)
    ensures var s := Write(negative, whole, fraction);
      ValueOf(DecimalTimes100(s)) == 100.0 * ValueOf(s)
  {
    var w, f := Times100IsNumeral(negative, whole, fraction);
    ReadWrite(negative, whole, fraction);
    ReadWrite(negative, w, f);
  }

  /** The text carries superfluous leading zeros exactly for a zero with fewer than two decimals. */
  lemma PercentLeadingZeros(negative: bool, whole: string, fraction: string) returns (w: string, f: string)
    requires Parts(whole, fraction)
    ensures Percent(Write(negative, whole, fraction)) == Write(negative, w, f) + "%"
    ensures (|w| > 1 && w[0] == '0') <==> (Nat(whole + fraction) == 0 && |fraction| < 2)
  {
    w, f := Times100IsNumeral(negative, whole, fraction);
    StripLeadingKeeps(whole + fraction);
    var digits := StripLeading(whole + fraction);
    LeadingDigit(digits);
    hide Nat, StripLeading, Zeros;
  }

  lemma LeadingDigit(s: string)
    requires Digits(s) && s != [] && (|s| > 1 ==> s[0] != '0')
    ensures s[0] == '0' <==> Nat(s) == 0
  {
    HeadTail(s);
    NatBound(s[1..]);
    if s[0] != '0' {
      Apart(0, DigitValue(s[0]), Pow10(|s| - 1));
    } else {
      assert s[1..] == [];
    }
  }

  // ---- comparison ----

  function StripZerosFront(s: string): string {
    if s != [] && s[0] == '0' then StripZerosFront(s[1..]) else s
  }

  function PadEnd(s: string, n: nat): string { if |s| < n then s + Zeros(n - |s|) else s }

  datatype Normal = Normal(negative: bool, whole: string, fraction: string)

  function Normalize(value: string): Normal {
    var (whole, fraction) := Split(Unsigned(value));
    Normal(StartsNegative(value), OrZero(StripZerosFront(whole)), StripTrailing(fraction))
  }

  /** Minus one, zero or one. */
  function CompareDecimal(a: string, b: string): int {
    var left, right := Normalize(a), Normalize(b);
    var direction := if left.negative then -1 else 1;
    if left.negative != right.negative then (if left.negative then -1 else 1)
    else if |left.whole| != |right.whole| then (if |left.whole| > |right.whole| then direction else -direction)
    else
      var width := MaxInt(|left.fraction|, |right.fraction|);
      var x, y := left.whole + PadEnd(left.fraction, width), right.whole + PadEnd(right.fraction, width);
      if x == y then 0 else if StrLeq(y, x) then direction else -direction
  }

  /** Equal-length digit strings compare as text exactly as the numbers they denote. */
  lemma {:induction false} TextOrderIsNumeric(x: string, y: string)
    requires |x| == |y| && Digits(x) && Digits(y)
    ensures StrLeq(x, y) <==> Nat(x) <= Nat(y)
    ensures x == y <==> Nat(x) == Nat(y)
  {
    if x != [] {
      var p, q := x[1..], y[1..];
      TextOrderIsNumeric(p, q);
      HeadTail(x);
      HeadTail(y);
      NatBound(p);
      NatBound(q);
      var u := Pow10(|p|);
      if x[0] != y[0] {
        HeadDecides(DigitValue(x[0]), DigitValue(y[0]), u, Nat(p), Nat(q));
      } else {
        assert x == [x[0]] + p && y == [y[0]] + q;
      }
    }
  }

  lemma HeadTail(s: string)
    requires s != []
    ensures Nat(s) == DigitValue(s[0]) * Pow10(|s| - 1) + Nat(s[1..])
  {
    hide Nat;
    assert s == [s[0]] + s[1..];
    NatConcat([s[0]], s[1..]);
    NatDigit(s[0]);
  }

  lemma HeadDecides(a: int, b: int, u: int, p: int, q: int)
    requires a != b && 0 <= p < u && 0 <= q < u
    ensures a * u + p <= b * u + q <==> a < b
    ensures a * u + p != b * u + q
  {
    if a < b { Apart(a, b, u); } else { Apart(b, a, u); }
  }

  lemma Apart(a: int, b: int, u: int)
    requires a < b && 0 < u
    ensures a * u + u <= b * u
  {
    var d := b - a - 1;
    assert 0 <= d * u;
    assert d * u == b * u - a * u - u;
  }

  lemma {:induction false} FrontKeeps(s: string)
    requires Digits(s)
    ensures var r := OrZero(StripZerosFront(s));
      Digits(r) && r != [] && Nat(r) == Nat(s) && (|r| > 1 ==> r[0] != '0')
  {
    if s != [] && s[0] == '0' {
      FrontKeeps(s[1..]);
      HeadTail(s);
    } else if s == [] {
      NatDigit('0');
    }
  }

  /** A whole part with more digits is larger, leading zeros being gone. */
  lemma LongerIsLarger(a: string, b: string)
    requires Digits(a) && Digits(b) && |a| > |b| && |a| > 1 && a[0] != '0'
    ensures Nat(a) > Nat(b)
  {
    HeadTail(a);
    NatBound(a[1..]);
    NatBound(b);
    hide Nat, Pow10;
    Pow10Monotone(|b|, |a| - 1);
    assert 1 <= DigitValue(a[0]);
    Apart(0, DigitValue(a[0]), Pow10(|a| - 1));
  }

  lemma {:induction false} Pow10Monotone(a: nat, b: nat)
    requires a <= b
    ensures Pow10(a) <= Pow10(b)
  {
    if a < b { Pow10Monotone(a, b - 1); }
  }

  /** The magnitude at a common number of decimals. */
  lemma PaddedMagnitude(whole: string, fraction: string, width: nat)
    requires Parts(whole, fraction) && |fraction| <= width
    ensures var x := whole + PadEnd(fraction, width);
      Digits(x) && |x| == |whole| + width && Magnitude(whole, fraction) == Ratio(Nat(x), width)
  {
    var j := width - |fraction|;
    var x := whole + PadEnd(fraction, width);
    assert x == (whole + fraction) + Zeros(j) by {
      if j == 0 { assert Zeros(0) == []; }
    }
    NatConcat(whole + fraction, Zeros(j));
    NatZeros(j);
    RatioScale(Nat(whole + fraction), |fraction|, j);
  }

  /** The magnitude depends on the whole part only through its number. */
  lemma MagnitudeOfWhole(v: string, w: string, fraction: string)
    requires Nat(v) == Nat(w)
    ensures Magnitude(v, fraction) == Magnitude(w, fraction)
  {
    hide Nat, Pow10;
    NatConcat(v, fraction);
    NatConcat(w, fraction);
  }

  /** The normal form has the value of the numeral. */
  lemma NormalKeeps(negative: bool, whole: string, fraction: string)
    requires Parts(whole, fraction)
    ensures var n := Normalize(Write(negative, whole, fraction));
      n.negative == negative && Parts(n.whole, n.fraction) && (|n.whole| > 1 ==> n.whole[0] != '0')
      && Magnitude(n.whole, n.fraction) == Magnitude(whole, fraction)
  {
    hide Nat, Pow10, ValueOf, Magnitude, Split, Write, StripTrailing, StripZerosFront;
    ReadWrite(negative, whole, fraction);
    FrontKeeps(whole);
    StripTrailingDigits(fraction);
    StripKeepsMagnitude(whole, fraction);
    MagnitudeOfWhole(OrZero(StripZerosFront(whole)), whole, StripTrailing(fraction));
  }

  /** The sign of `x - y`, with a negative zero just below a positive one. */
  function Sign(x: real, y: real, xNegative: bool, yNegative: bool): int {
    if x < y then -1 else if x > y then 1
    else if xNegative && !yNegative then -1 else if !xNegative && yNegative then 1 else 0
  }

  /** Unsigned comparison of two normal forms. */
  lemma MagnitudesCompare(p: string, f: string, q: string, g: string)
    requires Parts(p, f) && Parts(q, g) && (|p| > 1 ==> p[0] != '0') && (|q| > 1 ==> q[0] != '0')
    ensures |p| > |q| ==> Magnitude(p, f) > Magnitude(q, g)
    ensures |p| == |q| ==>
      var width := MaxInt(|f|, |g|); var x, y := p + PadEnd(f, width), q + PadEnd(g, width);
      (x == y <==> Magnitude(p, f) == Magnitude(q, g)) && (StrLeq(y, x) <==> Magnitude(q, g) <= Magnitude(p, f))
  {
    hide Nat, Pow10, Ratio, Magnitude, Zeros, StrLeq;
    var width := MaxInt(|f|, |g|);
    var x, y := p + PadEnd(f, width), q + PadEnd(g, width);
    PaddedMagnitude(p, f, width);
    PaddedMagnitude(q, g, width);
    RatioOrder(Nat(x), Nat(y), width);
    RatioOrder(Nat(y), Nat(x), width);
    if |p| == |q| { TextOrderIsNumeric(y, x); }
    if |p| > |q| {
      LongerIsLarger(p, q);
      NatConcat(p, PadEnd(f, width));
      NatConcat(q, PadEnd(g, width));
      assert Digits(PadEnd(f, width)) && Digits(PadEnd(g, width));
      NatBound(PadEnd(f, width));
      NatBound(PadEnd(g, width));
      HeadDecides(Nat(q), Nat(p), Pow10(width), Nat(PadEnd(g, width)), Nat(PadEnd(f, width)));
    }
  }

  lemma MagnitudeNonNegative(whole: string, fraction: string)
    requires Parts(whole, fraction)
    ensures 0.0 <= Magnitude(whole, fraction)
  {
    NatBound(whole + fraction);
    RatioOrder(0, Nat(whole + fraction), |fraction|);
    QuotientUnique(0.0, Pow10(|fraction|) as real, 0.0);
  }

  /** Comparison is the order of the values, except that it puts a negative zero below a positive one. */
  lemma CompareIsOrder(na: bool, wa: string, fa: string, nb: bool, wb: string, fb: string)
    requires Parts(wa, fa) && Parts(wb, fb)
    ensures var a, b := Write(na, wa, fa), Write(nb, wb, fb);
      CompareDecimal(a, b) == Sign(ValueOf(a), ValueOf(b), na, nb)
  {
    var a, b := Write(na, wa, fa), Write(nb, wb, fb);
    ReadWrite(na, wa, fa);
    ReadWrite(nb, wb, fb);
    NormalKeeps(na, wa, fa);
    NormalKeeps(nb, wb, fb);
    MagnitudeNonNegative(wa, fa);
    MagnitudeNonNegative(wb, fb);
    var left, right := Normalize(a), Normalize(b);
    MagnitudesCompare(left.whole, left.fraction, right.whole, right.fraction);
    MagnitudesCompare(right.whole, right.fraction, left.whole, left.fraction);
    StrLeqTotal(left.whole + PadEnd(left.fraction, MaxInt(|left.fraction|, |right.fraction|)),
                right.whole + PadEnd(right.fraction, MaxInt(|left.fraction|, |right.fraction|)));
  }

  /** It agrees with the numeric order exactly when it is not asked about two zeros of opposite sign. */
  lemma CompareAgreesExactly(na: bool, wa: string, fa: string, nb: bool, wb: string, fb: string)
    requires Parts(wa, fa) && Parts(wb, fb)
    ensures var a, b := Write(na, wa, fa), Write(nb, wb, fb);
      var numeric := if ValueOf(a) < ValueOf(b) then -1 else if ValueOf(a) > ValueOf(b) then 1 else 0;
      CompareDecimal(a, b) == numeric <==> !(na != nb && Nat(wa + fa) == 0 && Nat(wb + fb) == 0)
  {
    CompareIsOrder(na, wa, fa, nb, wb, fb);
    ReadWrite(na, wa, fa);
    ReadWrite(nb, wb, fb);
    ZeroMagnitude(wa, fa);
    ZeroMagnitude(wb, fb);
  }

  lemma ZeroMagnitude(whole: string, fraction: string)
    requires Parts(whole, fraction)
    ensures 0.0 <= Magnitude(whole, fraction)
    ensures Magnitude(whole, fraction) == 0.0 <==> Nat(whole + fraction) == 0
  {
    MagnitudeNonNegative(whole, fraction);
    RatioOrder(0, Nat(whole + fraction), |fraction|);
    QuotientUnique(0.0, Pow10(|fraction|) as real, 0.0);
  }

  /** On all plain numerals the comparison is a total preorder. */
  lemma CompareIsPreorder(na: bool, wa: string, fa: string, nb: bool, wb: string, fb: string, nc: bool, wc: string,
                          fc: string)
    requires Parts(wa, fa) && Parts(wb, fb) && Parts(wc, fc)
    ensures var a, b, c := Write(na, wa, fa), Write(nb, wb, fb), Write(nc, wc, fc);
      && CompareDecimal(a, a) == 0
      && CompareDecimal(a, b) == -CompareDecimal(b, a)
      && (CompareDecimal(a, b) <= 0 && CompareDecimal(b, c) <= 0 ==> CompareDecimal(a, c) <= 0)
  {
    CompareIsOrder(na, wa, fa, na, wa, fa);
    CompareIsOrder(na, wa, fa, nb, wb, fb);
    CompareIsOrder(nb, wb, fb, na, wa, fa);
    CompareIsOrder(nb, wb, fb, nc, wc, fc);
    CompareIsOrder(na, wa, fa, nc, wc, fc);
    hide CompareDecimal, ValueOf, Write;
  }
}
