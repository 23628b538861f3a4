/**
  Screen geometry (src/utils/screenCalculations.ts): the physical width and
  height of a screen from its diagonal and its `"w:h"` aspect ratio, and the
  signed percentage differences of one screen against another.

  Both operations are written over JavaScript numbers (module JsNumber), so a
  malformed ratio or a zero-sized base screen yields NaN or an infinity exactly
  where the browser would.
 */
module ScreenCalculations {
  import opened JsNumber
  import opened Types

  datatype Dimensions = Dimensions(width: Number, height: Number)

  // ---------------------------------------------------------------------------
  // Reading the aspect ratio: `aspectRatio.split(":").map(Number)`
  // ---------------------------------------------------------------------------

  const SEPARATOR: char := ':'

  /** `String.prototype.split` with a one-character separator: one field more
      than there are separators, none of them holding the separator. */
  function Split(s: string, separator: char): (fields: seq<string>)
    ensures |fields| >= 1
    ensures forall i :: 0 <= i < |fields| ==> separator !in fields[i]
  {
    if s == [] then [""]
    else
      var rest := Split(s[1..], separator);
      if s[0] == separator then [""] + rest
      else [[s[0]] + rest[0]] + rest[1..]
  }

  /** `Array.prototype.join` with a one-character separator. */
  function Join(fields: seq<string>, separator: char): string
    requires |fields| >= 1
  {
    if |fields| == 1 then fields[0] else fields[0] + [separator] + Join(fields[1..], separator)
  }

  /** Joining the fields gives back the string that was split. */
  lemma {:induction false} JoinSplit(s: string, separator: char)
    ensures Join(Split(s, separator), separator) == s
  {
    if s != [] {
      JoinSplit(s[1..], separator);
      var rest := Split(s[1..], separator);
      if s[0] != separator {
        if |rest| == 1 {
          assert Split(s, separator) == [[s[0]] + rest[0]];
        } else {
          assert rest == [rest[0]] + rest[1..];
          assert Join(rest, separator) == rest[0] + [separator] + Join(rest[1..], separator);
          assert Split(s, separator)[1..] == rest[1..];
        }
      } else {
        assert Split(s, separator)[1..] == rest;
      }
    }
  }

  /** A string without the separator splits into itself alone. */
  lemma {:induction false} SplitField(a: string, separator: char)
    requires separator !in a
    ensures Split(a, separator) == [a]
  {
    if a != [] {
      SplitField(a[1..], separator);
      assert [a[0]] + a[1..] == a;
    }
  }

  /** A field followed by the separator splits off as the first field. */
  lemma {:induction false} SplitAfterField(a: string, separator: char, rest: string)
    requires separator !in a
    ensures Split(a + [separator] + rest, separator) == [a] + Split(rest, separator)
  {
    if a == [] {
      assert a + [separator] + rest == [separator] + rest;
      assert ([separator] + rest)[1..] == rest;
    } else {
      SplitAfterField(a[1..], separator, rest);
      assert (a + [separator] + rest)[1..] == a[1..] + [separator] + rest;
      assert [a[0]] + a[1..] == a;
    }
  }

  /** Splitting the joined fields gives the fields back. */
  lemma {:induction false} SplitJoin(fields: seq<string>, separator: char)
    requires |fields| >= 1
    requires forall i :: 0 <= i < |fields| ==> separator !in fields[i]
    ensures Split(Join(fields, separator), separator) == fields
  {
    if |fields| == 1 {
      SplitField(fields[0], separator);
    } else {
      SplitJoin(fields[1..], separator);
      SplitAfterField(fields[0], separator, Join(fields[1..], separator));
      assert fields == [fields[0]] + fields[1..];
    }
  }

  predicate IsDigits(s: string) {
    forall i :: 0 <= i < |s| ==> '0' <= s[i] <= '9'
  }

  /** The decimal value of a digit string. */
  function DigitsValue(s: string): nat
    requires IsDigits(s)
  {
    if s == [] then 0 else DigitsValue(s[..|s| - 1]) * 10 + (s[|s| - 1] as int - '0' as int)
  }

  /** `Number(field)` on the strings the aspect-ratio input admits: a digit
      string is its decimal value (the empty string is 0), anything else NaN. */
  function ToNumber(field: string): (r: Number)
    ensures r.Finite? || r.NaN?
    ensures r.Finite? ==> 0.0 <= r.value && r.value == r.value.Floor as real
    ensures field == [] ==> r == Finite(0.0)
  {
    if IsDigits(field) then Finite(DigitsValue(field) as real) else NaN
  }

  /** A leading zero does not change a digit string's value. */
  lemma {:induction false} DigitsLeadingZero(s: string)
    requires IsDigits(s)
    ensures IsDigits(['0'] + s) && DigitsValue(['0'] + s) == DigitsValue(s)
  {
    if s != [] {
      var z := ['0'] + s;
      assert z[..|z| - 1] == ['0'] + s[..|s| - 1];
      DigitsLeadingZero(s[..|s| - 1]);
    }
  }

  /** `Number("0" + s) === Number(s)`: leading zeros are ignored, so `09:16`
      reads as `9:16`. */
  lemma LeadingZeroIgnored(s: string)
    ensures ToNumber(['0'] + s) == ToNumber(s)
  {
    if IsDigits(s) {
      DigitsLeadingZero(s);
    } else {
      var i :| 0 <= i < |s| && !('0' <= s[i] <= '9');
      assert (['0'] + s)[i + 1] == s[i];
    }
  }

  /** `const [width, height] = aspectRatio.split(":").map(Number)`: only the
      first two fields are read; a missing second field is `undefined`, which
      turns every division by it into NaN. */
  function AspectParts(aspectRatio: string): (Number, Number) {
    var fields := Split(aspectRatio, SEPARATOR);
    (ToNumber(fields[0]), if |fields| >= 2 then ToNumber(fields[1]) else NaN)
  }

  /** The string built from separator-free fields reads back as its first
      field and its second field, or NaN when there is no second field. */
  lemma AspectPartsOfFields(fields: seq<string>)
    requires |fields| >= 1
    requires forall i :: 0 <= i < |fields| ==> SEPARATOR !in fields[i]
    ensures AspectParts(Join(fields, SEPARATOR)) ==
            (ToNumber(fields[0]), if |fields| >= 2 then ToNumber(fields[1]) else NaN)
  {
    SplitJoin(fields, SEPARATOR);
  }

  /** `width / height` of the aspect ratio. */
  function AspectRatioValue(aspectRatio: string): Number {
    Div(AspectParts(aspectRatio).0, AspectParts(aspectRatio).1)
  }

  /** The ratio is a number exactly when both parts are and the height part is
      not zero, and then it times the height part is the width part; it is
      infinite exactly for a nonzero width over a zero height, and NaN
      otherwise. */
  lemma AspectRatioQuotient(aspectRatio: string)
    ensures var w := AspectParts(aspectRatio).0;
            var h := AspectParts(aspectRatio).1;
            var q := AspectRatioValue(aspectRatio);
            (q.Finite? <==> w.Finite? && h.Finite? && h.value != 0.0) &&
            (q.Finite? ==> q.value * h.value == w.value) &&
            (q.IsInfinite() <==> w.Finite? && w.value != 0.0 && IsZero(h)) &&
            (q.NaN? <==> w.NaN? || h.NaN? || (IsZero(w) && IsZero(h)))
  {
    var w := AspectParts(aspectRatio).0;
    var h := AspectParts(aspectRatio).1;
    if w.Finite? && h.Finite? && h.value != 0.0 {
      assert w.value / h.value * h.value == w.value;
    }
  }

  /** The two-field form the aspect-ratio input accepts: `\d+:\d+`. */
  predicate IsAspectPattern(a: string, b: string) {
    |a| > 0 && |b| > 0 && IsDigits(a) && IsDigits(b)
  }

  /** A ratio in the input's format reads as the quotient of its two numbers. */
  lemma PatternAspectRatio(a: string, b: string)
    requires IsAspectPattern(a, b)
    ensures AspectParts(a + [SEPARATOR] + b) == (Finite(DigitsValue(a) as real), Finite(DigitsValue(b) as real))
    ensures DigitsValue(b) > 0 ==> AspectRatioValue(a + [SEPARATOR] + b) == Finite(DigitsValue(a) as real / DigitsValue(b) as real)
  {
    assert forall i :: 0 <= i < |a| ==> a[i] != SEPARATOR;
    assert forall i :: 0 <= i < |b| ==> b[i] != SEPARATOR;
    SplitAfterField(a, SEPARATOR, b);
    SplitField(b, SEPARATOR);
  }

  /** Fields after the second are ignored. */
  lemma ExtraFieldsIgnored(a: string, b: string, rest: string)
    requires SEPARATOR !in a && SEPARATOR !in b
    ensures AspectParts(a + [SEPARATOR] + b + [SEPARATOR] + rest) == AspectParts(a + [SEPARATOR] + b)
  {
    SplitAfterField(a, SEPARATOR, b + [SEPARATOR] + rest);
    assert a + [SEPARATOR] + b + [SEPARATOR] + rest == a + [SEPARATOR] + (b + [SEPARATOR] + rest);
    SplitAfterField(b, SEPARATOR, rest);
    SplitAfterField(a, SEPARATOR, b);
    SplitField(b, SEPARATOR);
  }

  // ---------------------------------------------------------------------------
  // calculateScreenDimensions
  // ---------------------------------------------------------------------------

  /** Lines 6-9 of `calculateScreenDimensions`, for a ratio already computed:
      by Pythagoras the height is `sqrt(inch² / (ratio² + 1))` and the width
      is `height * ratio`. */
  function DimensionsForRatio(inch: real, ratio: Number, sqrt: real -> real): Dimensions
    requires IsSquareRoot(sqrt)
  {
    var screenHeight := Sqrt(Div(Mul(Finite(inch), Finite(inch)), Add(Mul(ratio, ratio), Finite(1.0))), sqrt);
    var screenWidth := Mul(screenHeight, ratio);
    Dimensions(screenWidth, screenHeight)
  }

  /** Lines 6-9 by the class of the ratio: a finite ratio gives the closed
      form, an infinite one a NaN width and a zero height, NaN two NaNs. */
  lemma DimensionsByRatioClass(inch: real, ratio: Number, sqrt: real -> real)
    requires IsSquareRoot(sqrt)
    ensures ratio.Finite? ==> DimensionsForRatio(inch, ratio, sqrt) == RatioDimensions(inch, ratio.value, sqrt)
    ensures ratio.IsInfinite() ==> DimensionsForRatio(inch, ratio, sqrt) == Dimensions(NaN, Finite(0.0))
    ensures ratio.NaN? ==> DimensionsForRatio(inch, ratio, sqrt) == Dimensions(NaN, NaN)
  {
    if ratio.IsInfinite() {
      InfiniteRatioDimensions(inch, ratio, sqrt);
    } else if ratio.NaN? {
      NaNRatioDimensions(inch, sqrt);
    }
  }

  /** `calculateScreenDimensions(inch, aspectRatio)` */
  function CalculateScreenDimensions(inch: real, aspectRatio: string, sqrt: real -> real): (d: Dimensions)
    requires IsSquareRoot(sqrt)
    ensures AspectRatioValue(aspectRatio).Finite? ==>
              d == RatioDimensions(inch, AspectRatioValue(aspectRatio).value, sqrt)
    ensures AspectRatioValue(aspectRatio).IsInfinite() ==> d == Dimensions(NaN, Finite(0.0))
    ensures AspectRatioValue(aspectRatio).NaN? ==> d == Dimensions(NaN, NaN)
  {
    DimensionsByRatioClass(inch, AspectRatioValue(aspectRatio), sqrt);
    DimensionsForRatio(inch, AspectRatioValue(aspectRatio), sqrt)
  }

  /** The height `sqrt(inch² / (r² + 1))` for a finite ratio `r`. */
  function HeightForRatio(inch: real, r: real, sqrt: real -> real): (h: real)
    requires IsSquareRoot(sqrt)
    ensures 0.0 <= h
  {
    var q := r * r + 1.0;
    assert q > 0.0;
    assert IsRootAt(sqrt, inch * inch / q);
    sqrt(inch * inch / q)
  }

  /** The height and the ratio rebuild the diagonal: `h² (r² + 1) = inch²`. */
  lemma HeightSquare(inch: real, r: real, sqrt: real -> real)
    requires IsSquareRoot(sqrt)
    ensures var h := HeightForRatio(inch, r, sqrt);
            h * h * (r * r + 1.0) == inch * inch
  {
    var q := r * r + 1.0;
    assert q > 0.0;
    assert IsRootAt(sqrt, inch * inch / q);
  }

  /** For a finite ratio both dimensions are numbers. */
  lemma FiniteRatioDimensions(inch: real, r: real, sqrt: real -> real)
    requires IsSquareRoot(sqrt)
    ensures DimensionsForRatio(inch, Finite(r), sqrt)
         == Dimensions(Finite(HeightForRatio(inch, r, sqrt) * r), Finite(HeightForRatio(inch, r, sqrt)))
  {
    var q := r * r + 1.0;
    assert q > 0.0;
    assert Add(Mul(Finite(r), Finite(r)), Finite(1.0)) == Finite(q);
    assert Div(Mul(Finite(inch), Finite(inch)), Finite(q)) == Finite(inch * inch / q);
    assert inch * inch / q >= 0.0;
    assert Sqrt(Finite(inch * inch / q), sqrt) == Finite(sqrt(inch * inch / q));
    var h := sqrt(inch * inch / q);
    assert DimensionsForRatio(inch, Finite(r), sqrt).height == Finite(h);
    assert Mul(Finite(h), Finite(r)) == Finite(h * r);
  }

  /** An infinite ratio flattens the height to 0 and makes the width 0·∞, NaN. */
  lemma InfiniteRatioDimensions(inch: real, ratio: Number, sqrt: real -> real)
    requires IsSquareRoot(sqrt)
    requires ratio.IsInfinite()
    ensures DimensionsForRatio(inch, ratio, sqrt) == Dimensions(NaN, Finite(0.0))
  {
    assert Mul(ratio, ratio) == PositiveInfinity;
    assert Div(Mul(Finite(inch), Finite(inch)), Add(PositiveInfinity, Finite(1.0))) == Finite(0.0);
    assert IsRootAt(sqrt, 0.0);
    SquareRootUnique(sqrt(0.0), 0.0);
    assert Mul(Finite(0.0), ratio) == NaN;
  }

  /** A NaN ratio makes both dimensions NaN. */
  lemma NaNRatioDimensions(inch: real, sqrt: real -> real)
    requires IsSquareRoot(sqrt)
    ensures DimensionsForRatio(inch, NaN, sqrt) == Dimensions(NaN, NaN)
  {
  }

  /** How the dimensions fail: the height is a number unless the ratio is NaN,
      and an infinite ratio flattens it to 0; the width is a number exactly when
      the ratio is finite; neither is ever infinite. */
  lemma DimensionsDefinedness(inch: real, aspectRatio: string, sqrt: real -> real)
    requires IsSquareRoot(sqrt)
    ensures var d := CalculateScreenDimensions(inch, aspectRatio, sqrt);
            var ratio := AspectRatioValue(aspectRatio);
            (d.height.Finite? <==> !ratio.NaN?) &&
            (d.width.Finite? <==> ratio.Finite?) &&
            (ratio.IsInfinite() ==> d.height == Finite(0.0)) &&
            !d.width.IsInfinite() && !d.height.IsInfinite()
  {
    var ratio := AspectRatioValue(aspectRatio);
    match ratio
    case Finite(r) => FiniteRatioDimensions(inch, r, sqrt);
    case NaN => NaNRatioDimensions(inch, sqrt);
    case _ => InfiniteRatioDimensions(inch, ratio, sqrt);
  }

  lemma PythagoreanReal(inch: real, r: real, h: real)
    requires h * h * (r * r + 1.0) == inch * inch
    ensures (h * r) * (h * r) + h * h == inch * inch
  {
    assert (h * r) * (h * r) + h * h == h * h * (r * r + 1.0);
  }

  /** For a finite ratio, the height is nonnegative, the width is the height
      times the ratio and width² + height² is the diagonal squared. */
  lemma DimensionsPythagorean(inch: real, aspectRatio: string, sqrt: real -> real)
    requires IsSquareRoot(sqrt)
    requires AspectRatioValue(aspectRatio).Finite?
    ensures var d := CalculateScreenDimensions(inch, aspectRatio, sqrt);
            var r := AspectRatioValue(aspectRatio).value;
            d.width.Finite? && d.height.Finite? && 0.0 <= d.height.value &&
            d.width.value == d.height.value * r &&
            d.width.value * d.width.value + d.height.value * d.height.value == inch * inch
  {
    var r := AspectRatioValue(aspectRatio).value;
    var h := HeightForRatio(inch, r, sqrt);
    var d := CalculateScreenDimensions(inch, aspectRatio, sqrt);
    assert d == RatioDimensions(inch, r, sqrt) == Dimensions(Finite(h * r), Finite(h));
    HeightSquare(inch, r, sqrt);
    PythagoreanReal(inch, r, h);
  }

  /** Two nonnegative heights whose rectangles of ratio `r` share a diagonal are equal. */
  lemma SameDiagonalSameHeight(r: real, h1: real, h2: real, inch: real)
    requires 0.0 <= h1 && 0.0 <= h2
    requires h1 * h1 * (r * r + 1.0) == inch * inch && h2 * h2 * (r * r + 1.0) == inch * inch
    ensures h1 == h2
  {
    assert r * r + 1.0 > 0.0;
    assert (h1 * h1 - h2 * h2) * (r * r + 1.0) == 0.0;
    assert h1 * h1 == h2 * h2;
    SquareRootUnique(h1, h2);
  }

  lemma UniqueHeightReal(inch: real, r: real, width: real, height: real, h0: real)
    requires 0.0 <= height && width == height * r && width * width + height * height == inch * inch
    requires 0.0 <= h0 && h0 * h0 * (r * r + 1.0) == inch * inch
    ensures height == h0
  {
    assert height * height * (r * r + 1.0) == inch * inch by {
      assert (height * r) * (height * r) + height * height == height * height * (r * r + 1.0);
    }
    SameDiagonalSameHeight(r, height, h0, inch);
  }

  /** The dimensions are the only nonnegative height and matching width whose
      diagonal is `inch`: an independent characterisation of the computation. */
  lemma DimensionsUniqueForRatio(inch: real, r: real, sqrt: real -> real, width: real, height: real)
    requires IsSquareRoot(sqrt)
    requires 0.0 <= height && width == height * r
    requires width * width + height * height == inch * inch
    ensures DimensionsForRatio(inch, Finite(r), sqrt) == Dimensions(Finite(width), Finite(height))
  {
    var h0 := HeightForRatio(inch, r, sqrt);
    HeightSquare(inch, r, sqrt);
    UniqueHeightReal(inch, r, width, height, h0);
    assert height == h0;
    assert width == h0 * r;
    FiniteRatioDimensions(inch, r, sqrt);
    var d := DimensionsForRatio(inch, Finite(r), sqrt);
    assert d.height == Finite(h0);
    assert d.width == Finite(h0 * r);
  }

  lemma ScaledDiagonalReal(k: real, inch: real, inch2: real, r: real, h: real)
    requires h * h * (r * r + 1.0) == inch * inch && inch2 == k * inch
    ensures (k * h) * (k * h) * (r * r + 1.0) == inch2 * inch2
  {
    assert (k * h) * (k * h) * (r * r + 1.0) == k * k * (h * h * (r * r + 1.0));
    assert inch2 * inch2 == k * k * (inch * inch);
  }

  /** A ratio whose height part is zero makes the height 0 and the width NaN. */
  lemma ZeroHeightRatio(inch: real, a: string, sqrt: real -> real)
    requires IsSquareRoot(sqrt)
    requires IsAspectPattern(a, "0") && DigitsValue(a) > 0
    ensures CalculateScreenDimensions(inch, a + [SEPARATOR] + "0", sqrt) == Dimensions(NaN, Finite(0.0))
  {
    PatternAspectRatio(a, "0");
    assert DigitsValue("0") == 0;
    assert AspectRatioValue(a + [SEPARATOR] + "0") == PositiveInfinity;
    InfiniteRatioDimensions(inch, PositiveInfinity, sqrt);
  }

  /** Strings that are not two numbers around a colon give NaN dimensions. */
  lemma MalformedRatios(inch: real, sqrt: real -> real)
    requires IsSquareRoot(sqrt)
    ensures CalculateScreenDimensions(inch, "16", sqrt) == Dimensions(NaN, NaN)
    ensures CalculateScreenDimensions(inch, "a:b", sqrt) == Dimensions(NaN, NaN)
    ensures CalculateScreenDimensions(inch, "0:0", sqrt) == Dimensions(NaN, NaN)
  {
    NaNRatioDimensions(inch, sqrt);
    SplitField("16", SEPARATOR);
    assert AspectRatioValue("16") == NaN;
    assert "a"[0] == 'a';
    SplitAfterField("a", SEPARATOR, "b");
    assert "a:b" == "a" + [SEPARATOR] + "b";
    assert AspectRatioValue("a:b") == NaN;
    PatternAspectRatio("0", "0");
    assert "0:0" == "0" + [SEPARATOR] + "0";
    assert DigitsValue("0") == 0;
    assert AspectRatioValue("0:0") == NaN;
  }

  // ---------------------------------------------------------------------------
  // calculateDifference
  // ---------------------------------------------------------------------------

  /** `((now - base) / base) * 100`, the shape all three differences share. */
  function PercentChange(now: Number, base: Number): Number {
    Mul(Div(Sub(now, base), base), Finite(100.0))
  }

  /** `width * height` */
  function Area(d: Dimensions): Number {
    Mul(d.width, d.height)
  }

  /** The change read back: against a nonzero base, `now` is the base grown by
      the change, `base * (1 + p / 100)`. */
  lemma PercentChangeInverse(now: Number, base: Number)
    requires now.Finite? && base.Finite? && base.value != 0.0
    ensures var p := PercentChange(now, base);
            p.Finite? && now.value == base.value * (1.0 + p.value / 100.0)
  {
    var g := (now.value - base.value) / base.value;
    assert PercentChange(now, base) == Finite(g * 100.0);
    assert g * 100.0 / 100.0 == g;
    assert base.value * g == now.value - base.value;
  }

  /** The area of dimensions that are not infinite is a number exactly when
      both sides are. */
  lemma AreaDefinedness(d: Dimensions)
    requires !d.width.IsInfinite() && !d.height.IsInfinite()
    ensures Area(d).Finite? <==> d.width.Finite? && d.height.Finite?
  {
  }

  /** `calculateDifference(base, compare)`: the fields of `compare`, unchanged,
      with the percentage differences of its width, height and area against
      those of `base`. */
  function CalculateDifference(base: ScreenSize, compare: ScreenSize, sqrt: real -> real): (r: ComparisonResult)
    requires IsSquareRoot(sqrt)
    ensures r.Screen() == compare
  {
    var baseScreen := CalculateScreenDimensions(base.inch, base.aspectRatio, sqrt);
    var compareScreen := CalculateScreenDimensions(compare.inch, compare.aspectRatio, sqrt);
    ComparisonResult(
      compare.id, compare.inch, compare.aspectRatio, compare.isUserScreen,
      PercentChange(compareScreen.width, baseScreen.width),
      PercentChange(compareScreen.height, baseScreen.height),
      PercentChange(Area(compareScreen), Area(baseScreen)))
  }

  /** Against a positive base, the change is a number whose sign says whether
      `now` is larger or smaller. */
  lemma PercentChangeSign(now: Number, base: Number)
    requires now.Finite? && base.Finite? && 0.0 < base.value
    ensures var p := PercentChange(now, base);
            p.Finite? && (p.value > 0.0 <==> now.value > base.value) && (p.value < 0.0 <==> now.value < base.value)
  {
    assert PercentChange(now, base) == Finite((now.value - base.value) / base.value * 100.0);
  }

  /** A change by the factor `k` is `(k - 1) * 100` percent. */
  lemma PercentChangeFactor(k: real, now: real, base: real)
    requires base != 0.0 && now == k * base
    ensures PercentChange(Finite(now), Finite(base)) == Finite((k - 1.0) * 100.0)
  {
    DivCancel(k - 1.0, base, now - base);
  }

  lemma DivCancel(a: real, b: real, p: real)
    requires b != 0.0 && p == a * b
    ensures p / b == a
  {
  }

  /** Against a zero or NaN base there is no percentage: the change is NaN or an infinity. */
  lemma PercentChangeDegenerate(now: Number, base: Number)
    requires base == NaN || base == Finite(0.0)
    ensures !PercentChange(now, base).Finite?
  {
  }

  /** A ratio both of whose parts are positive numbers. */
  predicate IsProperRatio(aspectRatio: string) {
    AspectRatioValue(aspectRatio).Finite? && AspectRatioValue(aspectRatio).value > 0.0
  }

  /** The identity. `x * Same(x)` is `x²` written as a product of two distinct
      terms, which the positivity argument below needs to keep apart. */
  function Same(x: real): real {
    x
  }

  lemma MulPos(a: real, b: real)
    requires 0.0 < a && 0.0 < b
    ensures 0.0 < a * b
  {
  }

  /** A height whose rectangle has a nonzero squared diagonal `t` is nonzero. */
  lemma NonzeroHeight(t: real, q: real, h: real)
    requires t != 0.0 && h * h * q == t
    ensures h != 0.0
  {
  }

  lemma PositiveDimensionsReal(inch: real, r: real, h: real)
    requires 0.0 < inch && 0.0 < r && 0.0 <= h
    requires h * h * (r * r + 1.0) == inch * inch
    ensures 0.0 < h && 0.0 < h * r
  {
    MulPos(inch, Same(inch));
    NonzeroHeight(inch * Same(inch), r * r + 1.0, h);
    MulPos(h, r);
  }

  /** The dimensions of a finite ratio `r` at the diagonal `inch`, in closed
      form: they are what `calculateScreenDimensions` computes for `r`. */
  function RatioDimensions(inch: real, r: real, sqrt: real -> real): (d: Dimensions)
    requires IsSquareRoot(sqrt)
    ensures d.width.Finite? && d.height.Finite? && 0.0 <= d.height.value
    ensures d == DimensionsForRatio(inch, Finite(r), sqrt)
  {
    FiniteRatioDimensions(inch, r, sqrt);
    var h := HeightForRatio(inch, r, sqrt);
    Dimensions(Finite(h * r), Finite(h))
  }

  /** For a finite ratio `r` the dimensions are the height `HeightForRatio`
      and that height times the ratio. */
  lemma FiniteAspectDimensions(inch: real, aspectRatio: string, r: real, sqrt: real -> real)
    requires IsSquareRoot(sqrt)
    requires AspectRatioValue(aspectRatio) == Finite(r)
    ensures CalculateScreenDimensions(inch, aspectRatio, sqrt) == RatioDimensions(inch, r, sqrt)
  {
  }

  /** The area of a screen of finite ratio `r` in closed form: it satisfies
      `area · (r² + 1) = inch² · r`. */
  lemma ScreenAreaClosedForm(inch: real, r: real, sqrt: real -> real)
    requires IsSquareRoot(sqrt)
    ensures var a := Area(RatioDimensions(inch, r, sqrt));
            a.Finite? && a.value * (r * r + 1.0) == inch * inch * r
  {
    var h := HeightForRatio(inch, r, sqrt);
    HeightSquare(inch, r, sqrt);
    AreaTimesRatio(inch, r, h);
  }

  lemma AreaTimesRatio(inch: real, r: real, h: real)
    requires h * h * (r * r + 1.0) == inch * inch
    ensures (h * r) * h * (r * r + 1.0) == inch * inch * r
  {
    assert (h * r) * h * (r * r + 1.0) == (h * h * (r * r + 1.0)) * r;
  }

  /** The area of two numbers is their product. */
  lemma FiniteArea(w: real, h: real)
    ensures Area(Dimensions(Finite(w), Finite(h))) == Finite(w * h)
  {
  }

  /** A positive diagonal with a proper ratio has positive width, height and area. */
  lemma PositiveDimensions(inch: real, aspectRatio: string, sqrt: real -> real)
    requires IsSquareRoot(sqrt)
    requires 0.0 < inch && IsProperRatio(aspectRatio)
    ensures var d := CalculateScreenDimensions(inch, aspectRatio, sqrt);
            d.width.Finite? && d.height.Finite? && 0.0 < d.width.value && 0.0 < d.height.value &&
            Area(d) == Finite(d.width.value * d.height.value) && 0.0 < d.width.value * d.height.value
  {
    var r := AspectRatioValue(aspectRatio).value;
    var h := HeightForRatio(inch, r, sqrt);
    FiniteAspectDimensions(inch, aspectRatio, r, sqrt);
    HeightSquare(inch, r, sqrt);
    PositiveDimensionsReal(inch, r, h);
    MulPos(h * r, h);
    FiniteArea(h * r, h);
  }

  /** The differences, written in terms of the two screens' dimensions. */
  lemma DifferenceOfDimensions(base: ScreenSize, compare: ScreenSize, sqrt: real -> real)
    requires IsSquareRoot(sqrt)
    ensures var b := CalculateScreenDimensions(base.inch, base.aspectRatio, sqrt);
            var c := CalculateScreenDimensions(compare.inch, compare.aspectRatio, sqrt);
            var r := CalculateDifference(base, compare, sqrt);
            r.widthDiff == PercentChange(c.width, b.width) &&
            r.heightDiff == PercentChange(c.height, b.height) &&
            r.areaDiff == PercentChange(Area(c), Area(b))
  {
  }

  /** A nonzero number compared with itself changes by 0%. */
  lemma PercentChangeSelf(x: Number)
    requires x.Finite? && x.value != 0.0
    ensures PercentChange(x, x) == Finite(0.0)
  {
    assert Sub(x, x) == Finite(0.0);
    assert 0.0 / x.value == 0.0;
  }

  lemma ProductNonzero(w: real, h: real)
    requires w != 0.0 && h != 0.0
    ensures w * h != 0.0
  {
  }

  /** Dimensions that are nonzero numbers, the proviso of a meaningful percentage. */
  predicate IsNonzero(d: Dimensions) {
    d.width.Finite? && d.height.Finite? && d.width.value != 0.0 && d.height.value != 0.0
  }

  /** Nonzero dimensions have a nonzero area. */
  lemma NonzeroArea(d: Dimensions)
    requires IsNonzero(d)
    ensures Area(d).Finite? && Area(d).value != 0.0
  {
    ProductNonzero(d.width.value, d.height.value);
  }

  /** Nonzero dimensions compared with themselves change by 0% on every axis. */
  lemma SelfDifferenceOfDimensions(d: Dimensions)
    requires IsNonzero(d)
    ensures PercentChange(d.width, d.width) == Finite(0.0)
    ensures PercentChange(d.height, d.height) == Finite(0.0)
    ensures PercentChange(Area(d), Area(d)) == Finite(0.0)
  {
    NonzeroArea(d);
    PercentChangeSelf(d.width);
    PercentChangeSelf(d.height);
    PercentChangeSelf(Area(d));
  }

  /** A screen compared with a screen of the same size and ratio differs by 0%
      on every axis, provided the base width and height are nonzero numbers. */
  lemma DifferenceWithItself(base: ScreenSize, compare: ScreenSize, sqrt: real -> real)
    requires IsSquareRoot(sqrt)
    requires compare.inch == base.inch && compare.aspectRatio == base.aspectRatio
    requires IsNonzero(CalculateScreenDimensions(base.inch, base.aspectRatio, sqrt))
    ensures var r := CalculateDifference(base, compare, sqrt);
            r.widthDiff == Finite(0.0) && r.heightDiff == Finite(0.0) && r.areaDiff == Finite(0.0)
  {
    DifferenceOfDimensions(base, compare, sqrt);
    SelfDifferenceOfDimensions(CalculateScreenDimensions(base.inch, base.aspectRatio, sqrt));
  }

  /** Every screen that passes the submit check (positive diagonal, proper
      ratio) meets that proviso. */
  lemma ValidScreenNonzero(inch: real, aspectRatio: string, sqrt: real -> real)
    requires IsSquareRoot(sqrt)
    requires 0.0 < inch && IsProperRatio(aspectRatio)
    ensures IsNonzero(CalculateScreenDimensions(inch, aspectRatio, sqrt))
  {
    PositiveDimensions(inch, aspectRatio, sqrt);
  }

  /** Width, height and area each zero or NaN. */
  predicate IsDegenerate(d: Dimensions) {
    (d.width == NaN || d.width == Finite(0.0)) &&
    (d.height == NaN || d.height == Finite(0.0)) &&
    (Area(d) == NaN || Area(d) == Finite(0.0))
  }

  /** Against zero or NaN dimensions no difference is a number. */
  lemma DegenerateDifferences(b: Dimensions, c: Dimensions)
    requires IsDegenerate(b)
    ensures !PercentChange(c.width, b.width).Finite?
    ensures !PercentChange(c.height, b.height).Finite?
    ensures !PercentChange(Area(c), Area(b)).Finite?
  {
    PercentChangeDegenerate(c.width, b.width);
    PercentChangeDegenerate(c.height, b.height);
    PercentChangeDegenerate(Area(c), Area(b));
  }

  /** A height of zero: `HeightForRatio(0, r)` is 0. */
  lemma ZeroDiagonalHeight(r: real, sqrt: real -> real)
    requires IsSquareRoot(sqrt)
    ensures HeightForRatio(0.0, r, sqrt) == 0.0
  {
    HeightSquare(0.0, r, sqrt);
    SameDiagonalSameHeight(r, HeightForRatio(0.0, r, sqrt), 0.0, 0.0);
  }

  /** A zero diagonal gives zero width and height for every finite ratio. */
  lemma ZeroDiagonalRatio(r: real, sqrt: real -> real)
    requires IsSquareRoot(sqrt)
    ensures RatioDimensions(0.0, r, sqrt) == Dimensions(Finite(0.0), Finite(0.0))
  {
    ZeroDiagonalHeight(r, sqrt);
    assert 0.0 * r == 0.0;
  }

  /** A screen with a zero diagonal has zero or NaN width, height and area. */
  lemma ZeroDiagonalScreen(inch: real, aspectRatio: string, sqrt: real -> real)
    requires IsSquareRoot(sqrt)
    requires inch == 0.0
    ensures IsDegenerate(CalculateScreenDimensions(inch, aspectRatio, sqrt))
  {
    var ratio := AspectRatioValue(aspectRatio);
    if ratio.Finite? {
      FiniteAspectDimensions(inch, aspectRatio, ratio.value, sqrt);
      ZeroDiagonalRatio(ratio.value, sqrt);
    } else if ratio.NaN? {
      NaNRatioDimensions(inch, sqrt);
    } else {
      InfiniteRatioDimensions(inch, ratio, sqrt);
    }
  }

  /** A base screen with a zero diagonal has zero or NaN width and height, so
      every difference against it is NaN or an infinity, never a number. */
  lemma ZeroDiagonalBase(base: ScreenSize, compare: ScreenSize, sqrt: real -> real)
    requires IsSquareRoot(sqrt)
    requires base.inch == 0.0
    ensures var r := CalculateDifference(base, compare, sqrt);
            !r.widthDiff.Finite? && !r.heightDiff.Finite? && !r.areaDiff.Finite?
  {
    ZeroDiagonalScreen(base.inch, base.aspectRatio, sqrt);
    DegenerateDifferences(CalculateScreenDimensions(base.inch, base.aspectRatio, sqrt),
                          CalculateScreenDimensions(compare.inch, compare.aspectRatio, sqrt));
    DifferenceOfDimensions(base, compare, sqrt);
  }

  lemma QuotientTimesDivisor(a: real, b: real)
    requires b != 0.0
    ensures (a / b) * b == a
  {
  }

  /** A positive diagonal has a positive height. */
  lemma HeightPositive(inch: real, r: real, sqrt: real -> real)
    requires IsSquareRoot(sqrt)
    requires 0.0 < inch
    ensures 0.0 < HeightForRatio(inch, r, sqrt)
  {
    HeightSquare(inch, r, sqrt);
    MulPos(inch, Same(inch));
    NonzeroHeight(inch * Same(inch), r * r + 1.0, HeightForRatio(inch, r, sqrt));
  }

  /** Scaling the diagonal by `k` scales the height by `k`. */
  lemma HeightScaleBy(k: real, inch: real, inch2: real, r: real, sqrt: real -> real)
    requires IsSquareRoot(sqrt)
    requires 0.0 <= k && inch2 == k * inch
    ensures HeightForRatio(inch2, r, sqrt) == k * HeightForRatio(inch, r, sqrt)
  {
    HeightSquare(inch, r, sqrt);
    HeightSquare(inch2, r, sqrt);
    ScaledDiagonalReal(k, inch, inch2, r, HeightForRatio(inch, r, sqrt));
    SameDiagonalSameHeight(r, HeightForRatio(inch2, r, sqrt), k * HeightForRatio(inch, r, sqrt), inch2);
  }

  /** Width and height grow linearly with the diagonal: at `k` times the
      diagonal both are `k` times as large. */
  lemma DimensionsScale(k: real, inch: real, inch2: real, aspectRatio: string, r: real, sqrt: real -> real)
    requires IsSquareRoot(sqrt)
    requires AspectRatioValue(aspectRatio) == Finite(r)
    requires 0.0 <= k && inch2 == k * inch
    ensures var d, d2 := CalculateScreenDimensions(inch, aspectRatio, sqrt), CalculateScreenDimensions(inch2, aspectRatio, sqrt);
            d.width.Finite? && d.height.Finite? && d2.width.Finite? && d2.height.Finite? &&
            d2.width.value == k * d.width.value && d2.height.value == k * d.height.value
  {
    FiniteAspectDimensions(inch, aspectRatio, r, sqrt);
    FiniteAspectDimensions(inch2, aspectRatio, r, sqrt);
    HeightScaleBy(k, inch, inch2, r, sqrt);
  }

  /** The height grows linearly with the diagonal. */
  lemma HeightScales(bi: real, ci: real, r: real, sqrt: real -> real)
    requires IsSquareRoot(sqrt)
    requires 0.0 < bi && 0.0 <= ci
    ensures HeightForRatio(ci, r, sqrt) == (ci / bi) * HeightForRatio(bi, r, sqrt)
  {
    var k := ci / bi;
    QuotientTimesDivisor(ci, bi);
    HeightSquare(bi, r, sqrt);
    HeightSquare(ci, r, sqrt);
    ScaledDiagonalReal(k, bi, ci, r, HeightForRatio(bi, r, sqrt));
    SameDiagonalSameHeight(r, HeightForRatio(ci, r, sqrt), k * HeightForRatio(bi, r, sqrt), ci);
  }

  /** The width of a rectangle of ratio `r` scaled by `k` changes by
      `(k - 1) * 100` percent. */
  lemma ScaledWidthChange(k: real, r: real, hb: real, hc: real, wb: real, wc: real)
    requires 0.0 < hb && 0.0 < r && hc == k * hb
    requires wb == hb * r && wc == hc * r
    ensures PercentChange(Finite(wc), Finite(wb)) == Finite((k - 1.0) * 100.0)
  {
    MulPos(hb, r);
    PercentChangeFactor(k, wc, wb);
  }

  /** Its area changes by `(k² - 1) * 100` percent. */
  lemma ScaledAreaChange(k: real, r: real, hb: real, hc: real, ab: real, ac: real)
    requires 0.0 < hb && 0.0 < r && hc == k * hb
    requires ab == (hb * r) * hb && ac == (hc * r) * hc
    ensures PercentChange(Finite(ac), Finite(ab)) == Finite((k * k - 1.0) * 100.0)
  {
    MulPos(hb, r);
    MulPos(hb * r, hb);
    assert ac == (k * k) * ab;
    PercentChangeFactor(k * k, ac, ab);
  }

  /** At one ratio, the heights change by the ratio of the diagonals. */
  lemma SameRatioHeightChange(bi: real, ci: real, r: real, sqrt: real -> real)
    requires IsSquareRoot(sqrt)
    requires 0.0 < bi && 0.0 <= ci
    ensures PercentChange(RatioDimensions(ci, r, sqrt).height, RatioDimensions(bi, r, sqrt).height) == Finite((ci / bi - 1.0) * 100.0)
  {
    HeightPositive(bi, r, sqrt);
    HeightScales(bi, ci, r, sqrt);
    PercentChangeFactor(ci / bi, HeightForRatio(ci, r, sqrt), HeightForRatio(bi, r, sqrt));
  }

  /** At one ratio, the widths change by the ratio of the diagonals. */
  lemma SameRatioWidthChange(bi: real, ci: real, r: real, sqrt: real -> real)
    requires IsSquareRoot(sqrt)
    requires 0.0 < bi && 0.0 <= ci && 0.0 < r
    ensures PercentChange(RatioDimensions(ci, r, sqrt).width, RatioDimensions(bi, r, sqrt).width) == Finite((ci / bi - 1.0) * 100.0)
  {
    HeightPositive(bi, r, sqrt);
    HeightScales(bi, ci, r, sqrt);
    ScaledWidthChange(ci / bi, r, HeightForRatio(bi, r, sqrt), HeightForRatio(ci, r, sqrt),
      HeightForRatio(bi, r, sqrt) * r, HeightForRatio(ci, r, sqrt) * r);
  }

  lemma RatioArea(inch: real, r: real, sqrt: real -> real)
    requires IsSquareRoot(sqrt)
    ensures Area(RatioDimensions(inch, r, sqrt)) == Finite((HeightForRatio(inch, r, sqrt) * r) * HeightForRatio(inch, r, sqrt))
  {
  }

  /** At one ratio, the areas change by the square of the ratio of the diagonals. */
  lemma SameRatioAreaChange(bi: real, ci: real, r: real, sqrt: real -> real)
    requires IsSquareRoot(sqrt)
    requires 0.0 < bi && 0.0 <= ci && 0.0 < r
    ensures PercentChange(Area(RatioDimensions(ci, r, sqrt)), Area(RatioDimensions(bi, r, sqrt))) == Finite((ci / bi * (ci / bi) - 1.0) * 100.0)
  {
    HeightPositive(bi, r, sqrt);
    HeightScales(bi, ci, r, sqrt);
    RatioArea(bi, r, sqrt);
    RatioArea(ci, r, sqrt);
    ScaledAreaChange(ci / bi, r, HeightForRatio(bi, r, sqrt), HeightForRatio(ci, r, sqrt),
      (HeightForRatio(bi, r, sqrt) * r) * HeightForRatio(bi, r, sqrt), (HeightForRatio(ci, r, sqrt) * r) * HeightForRatio(ci, r, sqrt));
  }

  /** The percentage change of a length that grows from `base` to `now` in
      proportion, `(now / base - 1) * 100`. */
  function Growth(now: real, base: real): real
    requires base != 0.0
  {
    (now / base - 1.0) * 100.0
  }

  /** The percentage change of an area whose sides grow from `base` to `now`
      in proportion, `((now / base)² - 1) * 100`. */
  function AreaGrowth(now: real, base: real): real
    requires base != 0.0
  {
    (now / base * (now / base) - 1.0) * 100.0
  }

  /** The three changes between the dimensions of one ratio at two diagonals. */
  lemma SameRatioDimensions(bi: real, ci: real, r: real, sqrt: real -> real)
    requires IsSquareRoot(sqrt)
    requires 0.0 < bi && 0.0 <= ci && 0.0 < r
    ensures var b, c := RatioDimensions(bi, r, sqrt), RatioDimensions(ci, r, sqrt);
            PercentChange(c.width, b.width) == Finite(Growth(ci, bi)) &&
            PercentChange(c.height, b.height) == Finite(Growth(ci, bi)) &&
            PercentChange(Area(c), Area(b)) == Finite(AreaGrowth(ci, bi))
  {
    SameRatioWidthChange(bi, ci, r, sqrt);
    SameRatioHeightChange(bi, ci, r, sqrt);
    SameRatioAreaChange(bi, ci, r, sqrt);
  }

  /** The differences, written in terms of the dimensions of two finite ratios. */
  lemma DifferenceOfRatios(base: ScreenSize, compare: ScreenSize, rb: real, rc: real, sqrt: real -> real)
    requires IsSquareRoot(sqrt)
    requires AspectRatioValue(base.aspectRatio) == Finite(rb) && AspectRatioValue(compare.aspectRatio) == Finite(rc)
    ensures var result := CalculateDifference(base, compare, sqrt);
            var b, c := RatioDimensions(base.inch, rb, sqrt), RatioDimensions(compare.inch, rc, sqrt);
            result.widthDiff == PercentChange(c.width, b.width) &&
            result.heightDiff == PercentChange(c.height, b.height) &&
            result.areaDiff == PercentChange(Area(c), Area(b))
  {
    FiniteAspectDimensions(base.inch, base.aspectRatio, rb, sqrt);
    FiniteAspectDimensions(compare.inch, compare.aspectRatio, rc, sqrt);
    DifferenceOfDimensions(base, compare, sqrt);
  }

  /** With the same ratio value `r` (`16:9` and `32:18` alike), width and
      height change by the ratio of the diagonals and the area by its square. */
  lemma SameRatioDifference(base: ScreenSize, compare: ScreenSize, r: real, sqrt: real -> real)
    requires IsSquareRoot(sqrt)
    requires AspectRatioValue(base.aspectRatio) == Finite(r) && AspectRatioValue(compare.aspectRatio) == Finite(r)
    requires 0.0 < r
    requires 0.0 < base.inch && 0.0 <= compare.inch
    ensures var result := CalculateDifference(base, compare, sqrt);
            result.widthDiff == Finite(Growth(compare.inch, base.inch)) &&
            result.heightDiff == Finite(Growth(compare.inch, base.inch)) &&
            result.areaDiff == Finite(AreaGrowth(compare.inch, base.inch))
  {
    DifferenceOfRatios(base, compare, r, r, sqrt);
    SameRatioDimensions(base.inch, compare.inch, r, sqrt);
  }

  /** The signs of `(k - 1) * 100` and `(k² - 1) * 100` for a nonnegative factor. */
  lemma QuotientSign(now: real, base: real)
    requires 0.0 < base && 0.0 <= now
    ensures 0.0 <= now / base
    ensures base < now ==> 1.0 < now / base
    ensures now < base ==> now / base < 1.0
  {
  }

  /** Growing by the factor `k = now / base > 1` is a positive change on a
      side, `(k - 1) * 100`, and on the area, `(k² - 1) * 100`. */
  lemma FactorAboveOne(now: real, base: real)
    requires 0.0 < base < now
    ensures 0.0 < Growth(now, base) && 0.0 < AreaGrowth(now, base)
  {
    QuotientSign(now, base);
  }

  /** Shrinking by the factor `0 <= k < 1` is a negative change on both. */
  lemma FactorBelowOne(now: real, base: real)
    requires 0.0 <= now < base
    ensures Growth(now, base) < 0.0 && AreaGrowth(now, base) < 0.0
  {
    QuotientSign(now, base);
    assert now / base * (now / base) <= now / base;
  }

  /** With the same ratio, a larger diagonal is larger on every axis. */
  lemma SameRatioLarger(base: ScreenSize, compare: ScreenSize, r: real, sqrt: real -> real)
    requires IsSquareRoot(sqrt)
    requires AspectRatioValue(base.aspectRatio) == Finite(r) && AspectRatioValue(compare.aspectRatio) == Finite(r)
    requires 0.0 < r
    requires 0.0 < base.inch < compare.inch
    ensures var result := CalculateDifference(base, compare, sqrt);
            result.widthDiff.Finite? && result.heightDiff.Finite? && result.areaDiff.Finite? &&
            result.widthDiff.value > 0.0 && result.heightDiff.value > 0.0 && result.areaDiff.value > 0.0
  {
    SameRatioDifference(base, compare, r, sqrt);
    FactorAboveOne(compare.inch, base.inch);
  }

  /** With the same ratio, a smaller diagonal is smaller on every axis. */
  lemma SameRatioSmaller(base: ScreenSize, compare: ScreenSize, r: real, sqrt: real -> real)
    requires IsSquareRoot(sqrt)
    requires AspectRatioValue(base.aspectRatio) == Finite(r) && AspectRatioValue(compare.aspectRatio) == Finite(r)
    requires 0.0 < r
    requires 0.0 <= compare.inch < base.inch
    ensures var result := CalculateDifference(base, compare, sqrt);
            result.widthDiff.Finite? && result.heightDiff.Finite? && result.areaDiff.Finite? &&
            result.widthDiff.value < 0.0 && result.heightDiff.value < 0.0 && result.areaDiff.value < 0.0
  {
    SameRatioDifference(base, compare, r, sqrt);
    FactorBelowOne(compare.inch, base.inch);
  }

  lemma MulLessCancel(x: real, y: real, c: real)
    requires 0.0 < c && x * c < y * c
    ensures x < y
  {
    assert (y - x) * c > 0.0;
  }

  lemma WiderRatioReal(i2: real, rb: real, rc: real, bh: real, ch: real)
    requires 0.0 < i2 && 0.0 < rb < rc && 0.0 <= bh && 0.0 <= ch
    requires bh * bh * (rb * rb + 1.0) == i2 && ch * ch * (rc * rc + 1.0) == i2
    ensures ch < bh && bh * rb < ch * rc
  {
    assert rb * rb < rc * rc;
    assert 0.0 < bh * bh;
    assert bh * bh * (rb * rb + 1.0) < bh * bh * (rc * rc + 1.0);
    MulLessCancel(ch * ch, bh * bh, rc * rc + 1.0);
    SquareLessMonotone(ch, bh);
    assert (bh * rb) * (bh * rb) == i2 - bh * bh by {
      assert (bh * rb) * (bh * rb) == bh * bh * (rb * rb);
    }
    assert (ch * rc) * (ch * rc) == i2 - ch * ch by {
      assert (ch * rc) * (ch * rc) == ch * ch * (rc * rc);
    }
    SquareLessMonotone(bh * rb, ch * rc);
  }

  /** At one diagonal, the wider ratio has the lower height and the larger width. */
  lemma WiderRatioHeights(inch: real, rb: real, rc: real, sqrt: real -> real)
    requires IsSquareRoot(sqrt)
    requires 0.0 < inch && 0.0 < rb < rc
    ensures var b, c := RatioDimensions(inch, rb, sqrt), RatioDimensions(inch, rc, sqrt);
            0.0 < b.height.value && 0.0 < b.width.value &&
            c.height.value < b.height.value && b.width.value < c.width.value
  {
    HeightSquare(inch, rb, sqrt);
    HeightSquare(inch, rc, sqrt);
    MulPos(inch, Same(inch));
    WiderRatioReal(inch * Same(inch), rb, rc, HeightForRatio(inch, rb, sqrt), HeightForRatio(inch, rc, sqrt));
    HeightPositive(inch, rb, sqrt);
    MulPos(HeightForRatio(inch, rb, sqrt), rb);
  }

  /** At the same diagonal, a wider ratio gives a wider and lower screen. */
  lemma WiderRatioSameDiagonal(base: ScreenSize, compare: ScreenSize, rb: real, rc: real, sqrt: real -> real)
    requires IsSquareRoot(sqrt)
    requires compare.inch == base.inch && 0.0 < base.inch
    requires AspectRatioValue(base.aspectRatio) == Finite(rb) && AspectRatioValue(compare.aspectRatio) == Finite(rc)
    requires 0.0 < rb < rc
    ensures var result := CalculateDifference(base, compare, sqrt);
            result.widthDiff.Finite? && result.widthDiff.value > 0.0 &&
            result.heightDiff.Finite? && result.heightDiff.value < 0.0
  {
    var b, c := RatioDimensions(base.inch, rb, sqrt), RatioDimensions(base.inch, rc, sqrt);
    DifferenceOfRatios(base, compare, rb, rc, sqrt);
    WiderRatioHeights(base.inch, rb, rc, sqrt);
    PercentChangeSign(c.width, b.width);
    PercentChangeSign(c.height, b.height);
  }

  /** The two ratios the examples use. */
  lemma CommonRatios()
    ensures AspectRatioValue("16:9") == Finite(16.0 / 9.0)
    ensures AspectRatioValue("21:9") == Finite(21.0 / 9.0)
  {
    PatternAspectRatio("16", "9");
    assert "16:9" == "16" + [SEPARATOR] + "9";
    PatternAspectRatio("21", "9");
    assert "21:9" == "21" + [SEPARATOR] + "9";
  }

  /** 15" against 27", both 16:9: 80% wider, 80% taller, 224% more area. */
  lemma Example15Against27(base: ScreenSize, compare: ScreenSize, sqrt: real -> real)
    requires IsSquareRoot(sqrt)
    requires base.inch == 15.0 && base.aspectRatio == "16:9"
    requires compare.inch == 27.0 && compare.aspectRatio == "16:9"
    ensures var r := CalculateDifference(base, compare, sqrt);
            r.widthDiff == Finite(80.0) && r.heightDiff == Finite(80.0) && r.areaDiff == Finite(224.0)
  {
    CommonRatios();
    SameRatioDifference(base, compare, 16.0 / 9.0, sqrt);
  }

  /** 24" 16:9 against 24" 21:9: the wider screen is wider and lower. */
  lemma Example24WiderRatio(base: ScreenSize, compare: ScreenSize, sqrt: real -> real)
    requires IsSquareRoot(sqrt)
    requires base.inch == 24.0 && base.aspectRatio == "16:9"
    requires compare.inch == 24.0 && compare.aspectRatio == "21:9"
    ensures var r := CalculateDifference(base, compare, sqrt);
            r.widthDiff.Finite? && r.widthDiff.value > 0.0 && r.heightDiff.Finite? && r.heightDiff.value < 0.0
  {
    CommonRatios();
    WiderRatioSameDiagonal(base, compare, 16.0 / 9.0, 21.0 / 9.0, sqrt);
  }
}
