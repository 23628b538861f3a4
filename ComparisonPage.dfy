/**
  The comparison page (src/pages/ComparisonPage.tsx): it keeps at most ten of
  the screens it is given, compares every other screen with the user's, and
  draws them all with one scale chosen so that the largest diagonal spans the
  window.

  The React state (`screens`, `comparisons`, `scale`) is the set of fields of
  `ComparisonView`; the load effect and the resize handler are its methods.
  `window.innerWidth` is a parameter, and the query string reaches the model
  already decoded.
 */
module ComparisonPage {
  import opened JsNumber
  import opened Types
  import opened ScreenCalculations
  import opened ScreenOrder

  /** The most screens the page keeps. */
  const MAX_SCREENS: nat := 10

  /** The frame classes the screens are drawn with, in order. */
  const COLORS: seq<string> := [
    "border-transparent",
    "border-blue-800/60 bg-blue-600/5",
    "border-green-800/60 bg-green-600/5",
    "border-red-800/60 bg-red-600/5",
    "border-yellow-800/60 bg-yellow-600/5",
    "border-purple-800/60 bg-purple-600/5",
    "border-pink-800/60 bg-pink-600/5",
    "border-indigo-800/60 bg-indigo-600/5",
    "border-orange-800/60 bg-orange-600/5",
    "border-teal-800/60 bg-teal-600/5",
    "border-cyan-800/60 bg-cyan-600/5"
  ]

  /** `parsedScreens.filter((_, index) => index < 10)`: the first ten screens. */
  function Truncate(parsed: seq<ScreenSize>): (r: seq<ScreenSize>)
    ensures |r| == if |parsed| < MAX_SCREENS then |parsed| else MAX_SCREENS
    ensures r == parsed[..|r|]
  {
    if |parsed| <= MAX_SCREENS then parsed else parsed[..MAX_SCREENS]
  }

  /** A user screen that comes after the first ten is dropped with the rest,
      and then nothing is compared. */
  lemma UserScreenBeyondLimit(parsed: seq<ScreenSize>)
    requires forall i :: 0 <= i < |parsed| && i < MAX_SCREENS ==> !parsed[i].isUserScreen
    ensures FindUserScreen(Truncate(parsed)).None?
  {
    var t := Truncate(parsed);
    forall i | 0 <= i < |t| ensures !t[i].isUserScreen {
      assert t[i] == parsed[i];
    }
  }

  // ---------------------------------------------------------------------------
  // Scale

  /** `screens.reduce((max, screen) => screen.inch > max.inch ? screen : max)`
      over the first `n` screens, as the position of the screen it returns:
      the largest diagonal, and of several equal ones the first, since a later
      screen replaces the accumulator only when it is strictly larger. */
  function ReduceLargest(screens: seq<ScreenSize>, n: nat): (k: nat)
    requires 1 <= n <= |screens|
    ensures k < n
    ensures forall j :: 0 <= j < n ==> screens[j].inch <= screens[k].inch
    ensures forall j :: 0 <= j < k ==> screens[j].inch < screens[k].inch
  {
    if n == 1 then 0
    else
      var k := ReduceLargest(screens, n - 1);
      if screens[n - 1].inch > screens[k].inch then n - 1 else k
  }

  /** The screen the reduce picks from a nonempty list. */
  function LargestScreen(screens: seq<ScreenSize>): (r: ScreenSize)
    requires |screens| > 0
    ensures r in screens
    ensures forall j :: 0 <= j < |screens| ==> screens[j].inch <= r.inch
  {
    screens[ReduceLargest(screens, |screens|)]
  }

  /** `calculateScale`: 1 for no screens, otherwise the window width over the
      width of the largest screen. */
  function CalculateScale(screens: seq<ScreenSize>, innerWidth: real, sqrt: real -> real): (r: Number)
    requires IsSquareRoot(sqrt)
    ensures screens == [] ==> r == Finite(1.0)
  {
    if screens == [] then Finite(1.0)
    else
      var largest := LargestScreen(screens);
      var d := CalculateScreenDimensions(largest.inch, largest.aspectRatio, sqrt);
      Div(Finite(innerWidth), d.width)
  }

  /** The scale for a largest screen whose width is the nonzero number `w`. */
  lemma ScaleFromWidth(screens: seq<ScreenSize>, innerWidth: real, w: real, sqrt: real -> real)
    requires IsSquareRoot(sqrt)
    requires |screens| > 0 && w != 0.0
    requires CalculateScreenDimensions(LargestScreen(screens).inch, LargestScreen(screens).aspectRatio, sqrt).width == Finite(w)
    ensures CalculateScale(screens, innerWidth, sqrt) == Finite(innerWidth / w)
  {
  }

  /** A positive diagonal and a positive ratio give a positive width. */
  lemma RatioWidthPositive(inch: real, r: real, sqrt: real -> real)
    requires IsSquareRoot(sqrt)
    requires 0.0 < inch && 0.0 < r
    ensures 0.0 < RatioDimensions(inch, r, sqrt).width.value
  {
    HeightPositive(inch, r, sqrt);
    MulPos(HeightForRatio(inch, r, sqrt), r);
  }

  /** The reduce keeps the first screen when no later screen has a larger
      diagonal, ties included. */
  lemma FirstScreenWinsTies(screens: seq<ScreenSize>)
    requires |screens| > 0
    requires forall j :: 0 <= j < |screens| ==> screens[j].inch <= screens[0].inch
    ensures LargestScreen(screens) == screens[0]
  {
  }

  /** For a largest screen of positive diagonal and positive ratio `r`, the
      scale is the window width over that screen's positive width. */
  lemma ScaleOfLargest(screens: seq<ScreenSize>, r: real, innerWidth: real, sqrt: real -> real)
    requires IsSquareRoot(sqrt)
    requires |screens| > 0 && 0.0 < r
    requires 0.0 < LargestScreen(screens).inch && AspectRatioValue(LargestScreen(screens).aspectRatio) == Finite(r)
    ensures var reference := RatioDimensions(LargestScreen(screens).inch, r, sqrt).width.value;
            0.0 < reference &&
            CalculateScreenDimensions(LargestScreen(screens).inch, LargestScreen(screens).aspectRatio, sqrt).width == Finite(reference) &&
            CalculateScale(screens, innerWidth, sqrt) == Finite(innerWidth / reference)
  {
    var largest := LargestScreen(screens);
    FiniteAspectDimensions(largest.inch, largest.aspectRatio, r, sqrt);
    RatioWidthPositive(largest.inch, r, sqrt);
    ScaleFromWidth(screens, innerWidth, RatioDimensions(largest.inch, r, sqrt).width.value, sqrt);
  }

  /** `width * scale` is exactly `innerWidth`. */
  predicate ScaledTo(width: Number, scale: Number, innerWidth: real) {
    width.Finite? && scale.Finite? && width.value * scale.value == innerWidth
  }

  /** A width equal to the reference, scaled by `innerWidth / reference`. */
  lemma FillsWindow(w: Number, scale: Number, reference: real, innerWidth: real)
    requires reference != 0.0 && w == Finite(reference) && scale == Finite(innerWidth / reference)
    ensures ScaledTo(w, scale, innerWidth)
  {
    QuotientTimesDivisor(innerWidth, reference);
  }

  /** When the largest screen has a positive diagonal and a positive ratio
      `r`, the scale stretches its width to exactly the window width. */
  lemma ScaleFitsLargest(screens: seq<ScreenSize>, r: real, innerWidth: real, sqrt: real -> real)
    requires IsSquareRoot(sqrt)
    requires |screens| > 0 && 0.0 < r
    requires 0.0 < LargestScreen(screens).inch && AspectRatioValue(LargestScreen(screens).aspectRatio) == Finite(r)
    ensures ScaledTo(CalculateScreenDimensions(LargestScreen(screens).inch, LargestScreen(screens).aspectRatio, sqrt).width,
                     CalculateScale(screens, innerWidth, sqrt), innerWidth)
  {
    var largest := LargestScreen(screens);
    ScaleOfLargest(screens, r, innerWidth, sqrt);
    FillsWindow(CalculateScreenDimensions(largest.inch, largest.aspectRatio, sqrt).width,
                CalculateScale(screens, innerWidth, sqrt),
                RatioDimensions(largest.inch, r, sqrt).width.value, innerWidth);
  }

  /** Of two screens of one ratio, the one with the smaller diagonal is not wider. */
  lemma WidthMonotone(ci: real, bi: real, r: real, sqrt: real -> real)
    requires IsSquareRoot(sqrt)
    requires 0.0 <= ci <= bi && 0.0 < bi && 0.0 < r
    ensures RatioDimensions(ci, r, sqrt).width.value <= RatioDimensions(bi, r, sqrt).width.value
  {
    HeightScales(bi, ci, r, sqrt);
    FractionAtMost(ci / bi, HeightForRatio(bi, r, sqrt));
    MulLeRight(HeightForRatio(ci, r, sqrt), HeightForRatio(bi, r, sqrt), r);
  }

  lemma FractionAtMost(t: real, x: real)
    requires 0.0 <= x && t <= 1.0
    ensures t * x <= x
  {
    assert (1.0 - t) * x >= 0.0;
  }

  lemma MulLeRight(x: real, y: real, c: real)
    requires x <= y && 0.0 <= c
    ensures x * c <= y * c
  {
    assert (y - x) * c >= 0.0;
  }

  /** A width no larger than the reference, scaled by `innerWidth / reference`,
      stays within `innerWidth`. */
  lemma ScaledAtMost(w: real, reference: real, innerWidth: real)
    requires 0.0 < reference && w <= reference && 0.0 <= innerWidth
    ensures w * (innerWidth / reference) <= innerWidth
  {
    var s := innerWidth / reference;
    QuotientTimesDivisor(innerWidth, reference);
    MulLeRight(w, reference, s);
  }

  /** A width above the reference, scaled by `innerWidth / reference`, exceeds
      a positive `innerWidth`. */
  lemma ScaledAbove(w: real, reference: real, innerWidth: real)
    requires 0.0 < reference < w && 0.0 < innerWidth
    ensures w * (innerWidth / reference) > innerWidth
  {
    var s := innerWidth / reference;
    QuotientTimesDivisor(innerWidth, reference);
    assert (w - reference) * s > 0.0;
  }

  /** The screen, drawn at `width * scale` pixels (`getScreenStyle`), is no
      wider than the window. */
  predicate FitsWindow(screen: ScreenSize, scale: Number, innerWidth: real, sqrt: real -> real)
    requires IsSquareRoot(sqrt)
  {
    ScaledWithin(CalculateScreenDimensions(screen.inch, screen.aspectRatio, sqrt).width, scale, innerWidth)
  }

  /** `width * scale` is a number no larger than `innerWidth`. */
  predicate ScaledWithin(width: Number, scale: Number, innerWidth: real) {
    width.Finite? && scale.Finite? && width.value * scale.value <= innerWidth
  }

  /** For a ratio `r`, the width `calculateScreenDimensions` gives. */
  lemma ScreenWidth(screen: ScreenSize, r: real, sqrt: real -> real)
    requires IsSquareRoot(sqrt)
    requires AspectRatioValue(screen.aspectRatio) == Finite(r)
    ensures CalculateScreenDimensions(screen.inch, screen.aspectRatio, sqrt).width == Finite(RatioDimensions(screen.inch, r, sqrt).width.value)
  {
    FiniteAspectDimensions(screen.inch, screen.aspectRatio, r, sqrt);
  }

  /** A width `x` no larger than the reference, scaled by `innerWidth / reference`. */
  lemma WithinWindow(w: Number, scale: Number, x: real, reference: real, innerWidth: real)
    requires 0.0 < reference && x <= reference && 0.0 <= innerWidth
    requires w == Finite(x) && scale == Finite(innerWidth / reference)
    ensures ScaledWithin(w, scale, innerWidth)
  {
    ScaledAtMost(x, reference, innerWidth);
  }

  /** A width `x` above the reference, scaled by `innerWidth / reference`. */
  lemma BeyondWindow(w: Number, scale: Number, x: real, reference: real, innerWidth: real)
    requires 0.0 < reference < x && 0.0 < innerWidth
    requires w == Finite(x) && scale == Finite(innerWidth / reference)
    ensures !ScaledWithin(w, scale, innerWidth)
  {
    ScaledAbove(x, reference, innerWidth);
  }

  /** When every screen has the same ratio, scaling by the largest diagonal
      keeps every screen within the window. */
  lemma SameRatioScreensFit(screens: seq<ScreenSize>, r: real, innerWidth: real, sqrt: real -> real)
    requires IsSquareRoot(sqrt)
    requires |screens| > 0 && 0.0 < r && 0.0 <= innerWidth
    requires forall i :: 0 <= i < |screens| ==>
               AspectRatioValue(screens[i].aspectRatio) == Finite(r) && 0.0 <= screens[i].inch
    requires 0.0 < LargestScreen(screens).inch
    ensures forall i :: 0 <= i < |screens| ==> FitsWindow(screens[i], CalculateScale(screens, innerWidth, sqrt), innerWidth, sqrt)
  {
    var largest := LargestScreen(screens);
    ScaleOfLargest(screens, r, innerWidth, sqrt);
    var reference := RatioDimensions(largest.inch, r, sqrt).width.value;
    var scale := CalculateScale(screens, innerWidth, sqrt);
    forall i | 0 <= i < |screens|
      ensures FitsWindow(screens[i], scale, innerWidth, sqrt)
    {
      ScreenWithinWindow(screens[i], largest.inch, r, reference, scale, innerWidth, sqrt);
    }
  }

  /** One screen of ratio `r` against the scale of a largest screen of that
      ratio, whose width is `reference`. */
  lemma ScreenWithinWindow(screen: ScreenSize, largestInch: real, r: real, reference: real, scale: Number, innerWidth: real, sqrt: real -> real)
    requires IsSquareRoot(sqrt)
    requires 0.0 < r && 0.0 <= innerWidth && 0.0 <= screen.inch <= largestInch && 0.0 < largestInch
    requires AspectRatioValue(screen.aspectRatio) == Finite(r)
    requires 0.0 < reference && reference == RatioDimensions(largestInch, r, sqrt).width.value
    requires scale == Finite(innerWidth / reference)
    ensures FitsWindow(screen, scale, innerWidth, sqrt)
  {
    ScreenWidth(screen, r, sqrt);
    WidthMonotone(screen.inch, largestInch, r, sqrt);
    WithinWindow(CalculateScreenDimensions(screen.inch, screen.aspectRatio, sqrt).width, scale,
                 RatioDimensions(screen.inch, r, sqrt).width.value, reference, innerWidth);
  }

  /** At one diagonal, the wider ratio gives the wider screen. */
  lemma WiderRatioWidth(inch: real, rb: real, rc: real, sqrt: real -> real)
    requires IsSquareRoot(sqrt)
    requires 0.0 < inch && 0.0 < rb < rc
    ensures RatioDimensions(inch, rb, sqrt).width.value < RatioDimensions(inch, rc, sqrt).width.value
  {
    WiderRatioHeights(inch, rb, rc, sqrt);
  }

  /** A screen of the largest diagonal whose ratio `rc` is wider than the
      ratio `rb` the scale was taken from comes out wider than the window. */
  lemma ScreenBeyondWindow(screen: ScreenSize, rb: real, rc: real, reference: real, scale: Number, innerWidth: real, sqrt: real -> real)
    requires IsSquareRoot(sqrt)
    requires 0.0 < screen.inch && 0.0 < rb < rc && 0.0 < innerWidth
    requires AspectRatioValue(screen.aspectRatio) == Finite(rc)
    requires 0.0 < reference && reference == RatioDimensions(screen.inch, rb, sqrt).width.value
    requires scale == Finite(innerWidth / reference)
    ensures !FitsWindow(screen, scale, innerWidth, sqrt)
  {
    ScreenWidth(screen, rc, sqrt);
    WiderRatioWidth(screen.inch, rb, rc, sqrt);
    BeyondWindow(CalculateScreenDimensions(screen.inch, screen.aspectRatio, sqrt).width, scale,
                 RatioDimensions(screen.inch, rc, sqrt).width.value, reference, innerWidth);
  }

  /** With different ratios the largest diagonal is no guarantee: when the
      first screen has the largest diagonal the reduce keeps it even against
      a later screen of the same diagonal, and a later screen with a wider
      ratio then comes out wider than the window. */
  lemma WiderRatioOverflows(screens: seq<ScreenSize>, k: nat, rb: real, rc: real, innerWidth: real, sqrt: real -> real)
    requires IsSquareRoot(sqrt)
    requires 0 < k < |screens| && 0.0 < screens[0].inch && screens[k].inch == screens[0].inch
    requires forall j :: 0 <= j < |screens| ==> screens[j].inch <= screens[0].inch
    requires AspectRatioValue(screens[0].aspectRatio) == Finite(rb)
    requires AspectRatioValue(screens[k].aspectRatio) == Finite(rc)
    requires 0.0 < rb < rc && 0.0 < innerWidth
    ensures LargestScreen(screens) == screens[0]
    ensures !FitsWindow(screens[k], CalculateScale(screens, innerWidth, sqrt), innerWidth, sqrt)
  {
    FirstScreenWinsTies(screens);
    ScaleOfLargest(screens, rb, innerWidth, sqrt);
    ScreenBeyondWindow(screens[k], rb, rc, RatioDimensions(screens[0].inch, rb, sqrt).width.value,
                       CalculateScale(screens, innerWidth, sqrt), innerWidth, sqrt);
  }

  // ---------------------------------------------------------------------------
  // Comparisons

  /** `screens.filter((s) => !s.isUserScreen)` */
  function NonUserScreens(screens: seq<ScreenSize>): (r: seq<ScreenSize>)
    ensures |r| <= |screens|
    ensures forall x :: x in r <==> x in screens && !x.isUserScreen
  {
    if screens == [] then []
    else if screens[0].isUserScreen then NonUserScreens(screens[1..])
    else
      assert screens == [screens[0]] + screens[1..];
      [screens[0]] + NonUserScreens(screens[1..])
  }

  /** The filter keeps the order and the multiplicity of the screens that are
      not the user's: it distributes over concatenation. */
  lemma {:induction false} NonUserScreensConcat(s: seq<ScreenSize>, t: seq<ScreenSize>)
    ensures NonUserScreens(s + t) == NonUserScreens(s) + NonUserScreens(t)
  {
    if s == [] {
      assert s + t == t;
    } else {
      assert (s + t)[0] == s[0] && (s + t)[1..] == s[1..] + t;
      NonUserScreensConcat(s[1..], t);
    }
  }

  /** A single screen stays exactly when it is not the user's. */
  lemma NonUserScreensSingleton(x: ScreenSize)
    ensures NonUserScreens([x]) == if x.isUserScreen then [] else [x]
  {
  }

  /** `.map((screen) => calculateDifference(userScreen, screen))`: one result per
      screen, in the same order, each carrying that screen's own fields. */
  function Comparisons(userScreen: ScreenSize, others: seq<ScreenSize>, sqrt: real -> real): (r: seq<ComparisonResult>)
    requires IsSquareRoot(sqrt)
    ensures |r| == |others|
    ensures forall i :: 0 <= i < |others| ==> r[i].Screen() == others[i]
  {
    if others == [] then []
    else [CalculateDifference(userScreen, others[0], sqrt)] + Comparisons(userScreen, others[1..], sqrt)
  }

  /** The result at position `i` is the difference of the screen at `i`. */
  lemma {:induction false} ComparisonAt(userScreen: ScreenSize, others: seq<ScreenSize>, i: nat, sqrt: real -> real)
    requires IsSquareRoot(sqrt)
    requires i < |others|
    ensures Comparisons(userScreen, others, sqrt)[i] == CalculateDifference(userScreen, others[i], sqrt)
  {
    if i > 0 {
      ComparisonAt(userScreen, others[1..], i - 1, sqrt);
    }
  }

  /** `comparisons.find((c) => c.id === screen.id)`: the first comparison
      with that id. */
  function FindComparison(comparisons: seq<ComparisonResult>, id: string): (r: Option<ComparisonResult>)
    ensures r.Some? ==> r.value in comparisons && r.value.id == id
    ensures r.Some? ==> exists k :: 0 <= k < |comparisons| && comparisons[k] == r.value &&
                          forall j :: 0 <= j < k ==> comparisons[j].id != id
    ensures r.None? <==> forall c :: c in comparisons ==> c.id != id
  {
    if comparisons == [] then None
    else if comparisons[0].id == id then Some(comparisons[0])
    else
      assert comparisons == [comparisons[0]] + comparisons[1..];
      var r := FindComparison(comparisons[1..], id);
      assert r.Some? ==> exists k :: 0 <= k < |comparisons| && comparisons[k] == r.value &&
                          forall j :: 0 <= j < k ==> comparisons[j].id != id by {
        if r.Some? {
          var k :| 0 <= k < |comparisons| - 1 && comparisons[1..][k] == r.value &&
                   forall j :: 0 <= j < k ==> comparisons[1..][j].id != id;
          assert comparisons[k + 1] == r.value;
          forall j | 0 <= j < k + 1 ensures comparisons[j].id != id {
            if j > 0 { assert comparisons[j] == comparisons[1..][j - 1]; }
          }
        }
      }
      r
  }

  /** Every screen that is not the user's finds a comparison to label it with,
      and with distinct ids that comparison is the screen's own. */
  lemma {:induction false} EveryOtherScreenLabelled(userScreen: ScreenSize, screens: seq<ScreenSize>, screen: ScreenSize, sqrt: real -> real)
    requires IsSquareRoot(sqrt)
    requires screen in screens && !screen.isUserScreen
    requires forall i, j :: 0 <= i < j < |screens| ==> screens[i].id != screens[j].id
    ensures var found := FindComparison(Comparisons(userScreen, NonUserScreens(screens), sqrt), screen.id);
            found.Some? && found.value == CalculateDifference(userScreen, screen, sqrt)
  {
    var others := NonUserScreens(screens);
    var results := Comparisons(userScreen, others, sqrt);
    var i :| 0 <= i < |others| && others[i] == screen;
    assert results[i] in results && results[i].id == screen.id;
    var found := FindComparison(results, screen.id);
    var j :| 0 <= j < |results| && results[j] == found.value;
    assert others[j] in screens && others[j].id == screen.id;
    var a :| 0 <= a < |screens| && screens[a] == others[j];
    var b :| 0 <= b < |screens| && screens[b] == screen;
    assert a == b;
    ComparisonAt(userScreen, others, j, sqrt);
  }

  // ---------------------------------------------------------------------------
  // Presentation

  /** `value > 0 ? "+" : ""` */
  function SignPrefix(value: Number): (r: string)
    ensures r == "+" <==> (value.Finite? && value.value > 0.0) || value.PositiveInfinity?
    ensures r != "+" ==> r == ""
  {
    if Greater(value, Finite(0.0)) then "+" else ""
  }

  /** The colour a difference is written in. */
  datatype Tone = Green | Red

  /** `value > 0 ? "…text-green-500" : "…text-red-500"` */
  function DiffTone(value: Number): (r: Tone)
    ensures r == Green <==> (value.Finite? && value.value > 0.0) || value.PositiveInfinity?
  {
    if Greater(value, Finite(0.0)) then Green else Red
  }

  /** A difference is green exactly when it carries a plus sign; no change
      (and NaN) is red and unsigned. */
  lemma PlusSignIffGreen(value: Number)
    ensures SignPrefix(value) == "+" <==> DiffTone(value) == Green
    ensures value == Finite(0.0) ==> SignPrefix(value) == "" && DiffTone(value) == Red
  {
  }

  /** `formatDifference`: the sign, the digits `value.toFixed(1)` gives
      (`fixed`), and a percent sign. The digits never start with `+`. */
  function FormatDifference(value: Number, fixed: string): (r: string)
    requires fixed == [] || fixed[0] != '+'
    ensures |r| >= 1 && r[|r| - 1] == '%'
    ensures |r| >= 2 && r[0] == '+' <==> (value.Finite? && value.value > 0.0) || value.PositiveInfinity?
  {
    SignPrefix(value) + fixed + "%"
  }

  /** `[...screens].sort((a, b) => b.inch - a.inch)`: the drawing order,
      largest diagonal first, so that smaller screens are drawn on top. */
  function RenderOrder(screens: seq<ScreenSize>): (r: seq<ScreenSize>)
    ensures multiset(r) == multiset(screens)
    ensures forall i, j :: 0 <= i < j < |r| ==> r[i].inch >= r[j].inch
  {
    var r := SortByInch(screens, Descending);
    assert forall i, j :: 0 <= i < j < |r| ==> Key(r[i], Descending) <= Key(r[j], Descending);
    r
  }

  /** Screens of equal diagonal are drawn in the order they were loaded. */
  lemma RenderOrderStable(screens: seq<ScreenSize>, inch: real)
    ensures WithInch(RenderOrder(screens), inch) == WithInch(screens, inch)
  {
    SortByInchStable(screens, Descending, inch);
  }

  /** `index % colors.length`: always a valid index into the colours, the
      index itself for the first eleven screens. */
  function ColourIndex(index: nat): (c: nat)
    ensures c < |COLORS|
    ensures index < |COLORS| ==> c == index
  {
    index % |COLORS|
  }

  // ---------------------------------------------------------------------------
  // Page state

  class ComparisonView {
    var screens: seq<ScreenSize>
    var comparisons: seq<ComparisonResult>
    var scale: Number

    /** `useState([])`, `useState([])` and `useState(1)`. */
    constructor()
      ensures screens == [] && comparisons == [] && scale == Finite(1.0)
    {
      screens := [];
      comparisons := [];
      scale := Finite(1.0);
    }

    /** The load effect: keep the first ten screens, rescale, and compare the
        others with the user's screen when there is one; without a user
        screen the earlier comparisons stay. */
    method Load(parsed: seq<ScreenSize>, innerWidth: real, sqrt: real -> real)
      requires IsSquareRoot(sqrt)
      modifies this
      ensures screens == Truncate(parsed)
      ensures scale == CalculateScale(screens, innerWidth, sqrt)
      ensures FindUserScreen(screens).Some? ==>
                comparisons == Comparisons(FindUserScreen(screens).value, NonUserScreens(screens), sqrt)
      ensures FindUserScreen(screens).None? ==> comparisons == old(comparisons)
    {
      var filteredScreens := Truncate(parsed);
      screens := filteredScreens;
      scale := CalculateScale(filteredScreens, innerWidth, sqrt);
      var userScreen := FindUserScreen(filteredScreens);
      if userScreen.Some? {
        comparisons := Comparisons(userScreen.value, NonUserScreens(filteredScreens), sqrt);
      }
    }

    /** The resize handler: only the scale is recomputed. */
    method Resize(innerWidth: real, sqrt: real -> real)
      requires IsSquareRoot(sqrt)
      modifies this`scale
      ensures scale == CalculateScale(screens, innerWidth, sqrt)
    {
      scale := CalculateScale(screens, innerWidth, sqrt);
    }
  }
}
