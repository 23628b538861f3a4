# screen_compare in Dafny

This project models screen_compare, a small web app that compares screen
sizes. The user enters their own screen and a few others, each as a diagonal in
inches and an aspect ratio such as `16:9`. The app works out each screen's
physical width and height. It lists how much wider, taller and larger every
other screen is than the user's, in percent, and draws all the screens to one
scale.

The model covers three parts of the app:

- **Screen geometry** (`ScreenCalculations.dfy`). It turns a diagonal and a
  `"w:h"` ratio into a width and height, and two screens into three signed
  percentage differences. The arithmetic is done on JavaScript numbers
  (`JsNumber.dfy`): exact reals plus the two infinities and NaN. So a
  malformed ratio or a zero-sized screen gives NaN or an infinity, as the
  browser would. `Math.sqrt` is a parameter `sqrt` that obeys the
  square-root law, and every property holds for every such function.
- **The editor page** (`IndexPage.dfy`). The list of screens being edited is
  the field of a `ScreenEditor` class, and each callback is a method on it:
  - restoring the list from the URL;
  - adding, editing and removing a screen;
  - submitting, which checks the list, then orders the screens and appends
    them one by one to the query string.
- **The comparison page** (`ComparisonPage.dfy`). A `ComparisonView` class
  holds the screens, the comparisons and the drawing scale, and its load and
  resize methods update them. The page's pure parts are functions:
  - choosing the largest screen and the scale;
  - the comparison pipeline;
  - the sign and colour rules;
  - the drawing order.

`Types.dfy` holds the two records, `ScreenSize` and `ComparisonResult`, and the
`find` of the user's screen. `ScreenOrder.dfy` holds the sort by diagonal that
both pages use.

The code does not reject a malformed aspect ratio or a zero-sized reference
screen; it produces NaN or an infinity, and so does the model. Scaling by the
largest diagonal does not keep every screen inside the window. It does when
all screens share one ratio (`SameRatioScreensFit`). With different ratios, a
wider screen of the same diagonal overflows (`WiderRatioOverflows`).

## Model

| member | source | states |
|---|---|---|
| JsNumber.Sqrt | src/utils/screenCalculations.ts:6 | `Math.sqrt` gives a finite number exactly for a finite nonnegative argument, +∞ exactly for +∞, and NaN for everything else. A finite result is the nonnegative root: it is at least 0 and its square is the argument. |
| JsNumber.AddLaws | src/utils/screenCalculations.ts:6 | `+` is commutative and has 0 as identity; +∞ plus −∞ is NaN. |
| JsNumber.SubIsAddNegated | src/utils/screenCalculations.ts:20 | `a - b` equals `a + (b · −1)` on all numbers, infinities and NaN included. |
| JsNumber.MulLaws | src/utils/screenCalculations.ts:6-7 | `*` is commutative and 0 · ∞ is NaN. A product of two nonzero, non-NaN numbers is nonzero, and negative exactly when one factor is. |
| JsNumber.DivMulRoundTrip | src/utils/screenCalculations.ts:5 | Dividing by a finite nonzero number and multiplying back gives the original number. |
| JsNumber.DivByZeroAndInfinity | src/utils/screenCalculations.ts:5 | A nonzero number over 0 is the infinity of its sign, 0/0 is NaN, and a finite number over an infinity is 0. |
| JsNumber.GreaterOrder | src/pages/ComparisonPage.tsx:84 | `>` is false whenever NaN is involved. On the other numbers it is a strict total order: irreflexive, transitive, and exactly one of a > b, b > a, a = b holds. |
| Types.FirstUserIndex | src/pages/ComparisonPage.tsx:53 | `find` stops at a user screen with no user screen before it, or at the end when there is none. |
| Types.FindUserScreen | src/pages/IndexPage.tsx:71 | No result exactly when the list has no user screen. A result is the first user screen: it sits at a position with no user screen before it. |
| ScreenOrder.Insert | src/pages/IndexPage.tsx:89 | Inserting adds exactly the one screen: the multiset grows by it. |
| ScreenOrder.InsertSorted | src/pages/IndexPage.tsx:89 | Inserting into a sorted list keeps it sorted. |
| ScreenOrder.SortByInch | src/pages/IndexPage.tsx:89 | The result is sorted by diagonal in the chosen direction and is a permutation of the input. |
| ScreenOrder.InsertWithInch | src/pages/IndexPage.tsx:89 | Insertion puts the new screen ahead of every screen of its own diagonal, and leaves the order of the others unchanged. |
| ScreenOrder.SortByInchStable | src/pages/IndexPage.tsx:89 | The sort is stable: screens of equal diagonal keep their relative order. |
| ScreenCalculations.Split | src/utils/screenCalculations.ts:4 | `split(":")` yields at least one field, and no field contains the separator. |
| ScreenCalculations.JoinSplit | src/utils/screenCalculations.ts:4 | Rejoining the fields with `:` gives back the original string. |
| ScreenCalculations.SplitJoin | src/utils/screenCalculations.ts:4 | Splitting separator-free fields joined by `:` gives back those fields. |
| ScreenCalculations.SplitAfterField | src/utils/screenCalculations.ts:4 | A leading field ends at the first separator. |
| ScreenCalculations.ToNumber | src/utils/screenCalculations.ts:4 | `Number(field)` is never infinite. A number result is a nonnegative whole number, and the empty field reads as 0. |
| ScreenCalculations.LeadingZeroIgnored | src/utils/screenCalculations.ts:4 | A leading zero does not change what a field reads as, so `09:16` reads as `9:16`. |
| ScreenCalculations.AspectPartsOfFields | src/utils/screenCalculations.ts:4 | A ratio string built from separator-free fields reads back as its first field and its second field. With a single field, the second part is NaN. |
| ScreenCalculations.AspectRatioQuotient | src/utils/screenCalculations.ts:4-5 | The ratio is a number exactly when both parts are numbers and the height part is nonzero, and then ratio · height part = width part. It is infinite exactly for a nonzero width over a zero height, and NaN otherwise. |
| ScreenCalculations.PatternAspectRatio | src/utils/screenCalculations.ts:4-5 | A `\d+:\d+` ratio reads as its two decimal numbers. With a nonzero second number, the ratio is their quotient. |
| ScreenCalculations.ExtraFieldsIgnored | src/utils/screenCalculations.ts:4 | Fields after the second do not change the parsed width and height. |
| ScreenCalculations.CommonRatios | src/utils/screenCalculations.ts:4-5 | `16:9` and `21:9` read as 16/9 and 21/9. |
| ScreenCalculations.HeightForRatio | src/utils/screenCalculations.ts:6 | The computed height is never negative. |
| ScreenCalculations.HeightSquare | src/utils/screenCalculations.ts:6 | Height² · (ratio² + 1) equals diagonal². |
| ScreenCalculations.DimensionsByRatioClass | src/utils/screenCalculations.ts:6-9 | A finite ratio gives the closed form RatioDimensions. An infinite ratio gives a NaN width and a zero height, and a NaN ratio gives NaN for both. |
| ScreenCalculations.CalculateScreenDimensions | src/utils/screenCalculations.ts:3-10 | Split by the class of the parsed ratio: a finite ratio gives RatioDimensions, an infinite ratio gives a NaN width and height 0, and a NaN ratio gives NaN for both. |
| ScreenCalculations.FiniteRatioDimensions | src/utils/screenCalculations.ts:5-9 | For a finite ratio, the height is that root and the width is the height times the ratio. |
| ScreenCalculations.InfiniteRatioDimensions | src/utils/screenCalculations.ts:5-9 | For an infinite ratio (`w:0`), the width is NaN and the height is 0. |
| ScreenCalculations.NaNRatioDimensions | src/utils/screenCalculations.ts:5-9 | For a NaN ratio, both dimensions are NaN. |
| ScreenCalculations.DimensionsDefinedness | src/utils/screenCalculations.ts:3-10 | The height is a number exactly when the ratio is not NaN, and the width exactly when the ratio is finite. Neither is ever infinite. |
| ScreenCalculations.DimensionsPythagorean | src/utils/screenCalculations.ts:5-7 | For a finite ratio: width = height · ratio, height ≥ 0, and width² + height² = diagonal². |
| ScreenCalculations.DimensionsUniqueForRatio | src/utils/screenCalculations.ts:5-9 | For a finite ratio r, any nonnegative height whose width is height · r and which satisfies Pythagoras's theorem with the diagonal is exactly the computed pair. |
| ScreenCalculations.ZeroHeightRatio | src/utils/screenCalculations.ts:4-7 | A ratio `a:0` with a positive `a` gives a NaN width and a zero height. |
| ScreenCalculations.MalformedRatios | src/utils/screenCalculations.ts:4-7 | `16`, `a:b` and `0:0` give NaN for both dimensions. |
| ScreenCalculations.RatioDimensions | src/utils/screenCalculations.ts:6-7 | For a finite ratio, both dimensions are numbers and the height is nonnegative. |
| ScreenCalculations.PositiveDimensions | src/utils/screenCalculations.ts:5-7 | A positive diagonal and a positive ratio give a positive width, height and area. |
| ScreenCalculations.ValidScreenNonzero | src/utils/screenCalculations.ts:3-10 | A positive diagonal and a positive ratio give nonzero dimensions. |
| ScreenCalculations.HeightPositive | src/utils/screenCalculations.ts:6 | A positive diagonal gives a positive height. |
| ScreenCalculations.HeightScaleBy | src/utils/screenCalculations.ts:6 | Multiplying the diagonal by k ≥ 0 multiplies the height by k. |
| ScreenCalculations.HeightScales | src/utils/screenCalculations.ts:6 | At one ratio, the height is proportional to the diagonal. |
| ScreenCalculations.DimensionsScale | src/utils/screenCalculations.ts:6-7 | Multiplying the diagonal by k ≥ 0 multiplies both width and height by k. |
| ScreenCalculations.ZeroDiagonalHeight | src/utils/screenCalculations.ts:6 | A zero diagonal has zero height. |
| ScreenCalculations.ZeroDiagonalRatio | src/utils/screenCalculations.ts:6-7 | A zero diagonal gives zero width and zero height for every finite ratio. |
| ScreenCalculations.ZeroDiagonalScreen | src/utils/screenCalculations.ts:3-10 | A zero diagonal gives dimensions that are zero or NaN, whatever the ratio. |
| ScreenCalculations.CalculateDifference | src/utils/screenCalculations.ts:29-34 | The result carries every field of `compare` unchanged. |
| ScreenCalculations.PercentChangeSign | src/utils/screenCalculations.ts:19-22 | Against a positive base, the change is a number. It is positive exactly when the value grew and negative exactly when it shrank. |
| ScreenCalculations.PercentChangeFactor | src/utils/screenCalculations.ts:19-20 | Growth by a factor k is a change of (k − 1) · 100 percent. |
| ScreenCalculations.PercentChangeDegenerate | src/utils/screenCalculations.ts:19-27 | Against a zero or NaN base, the change is not a finite number: it is NaN or an infinity. |
| ScreenCalculations.PercentChangeSelf | src/utils/screenCalculations.ts:19-20 | A nonzero value against itself changes by 0 percent. |
| ScreenCalculations.PercentChangeInverse | src/utils/screenCalculations.ts:19-20 | Against a nonzero base, the change p is a number, and the new value is base · (1 + p/100). |
| ScreenCalculations.AreaDefinedness | src/utils/screenCalculations.ts:24-26 | For dimensions that are not infinite, the area is a number exactly when the width and the height both are. |
| ScreenCalculations.ScreenAreaClosedForm | src/utils/screenCalculations.ts:6-7 | For a finite ratio r, the area is a number with area · (r² + 1) = diagonal² · r. |
| ScreenCalculations.NonzeroArea | src/utils/screenCalculations.ts:24-26 | Nonzero width and height give a nonzero area. |
| ScreenCalculations.SelfDifferenceOfDimensions | src/utils/screenCalculations.ts:19-27 | Nonzero dimensions against themselves change by 0 percent on all three measures. |
| ScreenCalculations.DifferenceWithItself | src/utils/screenCalculations.ts:12-34 | A screen compared with an identical one gives 0 for all three differences, given a nonzero base. |
| ScreenCalculations.DegenerateDifferences | src/utils/screenCalculations.ts:19-27 | Against zero or NaN base dimensions, none of the three differences is a finite number: each is NaN or an infinity. |
| ScreenCalculations.ZeroDiagonalBase | src/utils/screenCalculations.ts:12-27 | Against a base with a zero diagonal, none of the three differences is a finite number: each is NaN or an infinity. |
| ScreenCalculations.ScaledWidthChange | src/utils/screenCalculations.ts:19-20 | Scaling a rectangle by k changes its width by (k − 1) · 100 percent. |
| ScreenCalculations.ScaledAreaChange | src/utils/screenCalculations.ts:23-27 | Scaling a rectangle by k changes its area by (k² − 1) · 100 percent. |
| ScreenCalculations.SameRatioHeightChange | src/utils/screenCalculations.ts:21-22 | At one ratio, the height changes by (compare/base − 1) · 100 percent. |
| ScreenCalculations.SameRatioWidthChange | src/utils/screenCalculations.ts:19-20 | At one ratio, the width changes by (compare/base − 1) · 100 percent. |
| ScreenCalculations.SameRatioAreaChange | src/utils/screenCalculations.ts:23-27 | At one ratio, the area changes by ((compare/base)² − 1) · 100 percent. |
| ScreenCalculations.SameRatioDimensions | src/utils/screenCalculations.ts:19-27 | At one ratio, the width and height changes are Growth and the area change is AreaGrowth of the diagonals. |
| ScreenCalculations.SameRatioDifference | src/utils/screenCalculations.ts:12-34 | For two screens of one ratio: widthDiff = heightDiff = (compare.inch/base.inch − 1) · 100 and areaDiff = ((compare.inch/base.inch)² − 1) · 100. |
| ScreenCalculations.FactorAboveOne | src/utils/screenCalculations.ts:19-27 | A larger diagonal gives positive linear and area growth. |
| ScreenCalculations.FactorBelowOne | src/utils/screenCalculations.ts:19-27 | A smaller diagonal gives negative linear and area growth. |
| ScreenCalculations.SameRatioLarger | src/utils/screenCalculations.ts:12-27 | At one ratio, a larger screen gives three positive differences. |
| ScreenCalculations.SameRatioSmaller | src/utils/screenCalculations.ts:12-27 | At one ratio, a smaller screen gives three negative differences. |
| ScreenCalculations.WiderRatioHeights | src/utils/screenCalculations.ts:5-7 | At one diagonal, a wider ratio gives a lower and wider rectangle. |
| ScreenCalculations.WiderRatioSameDiagonal | src/utils/screenCalculations.ts:12-22 | At one diagonal, a wider ratio gives a positive width difference and a negative height difference. |
| ScreenCalculations.Example15Against27 | src/utils/screenCalculations.ts:12-34 | 27" against 15" at 16:9 is +80% width, +80% height and +224% area. |
| ScreenCalculations.Example24WiderRatio | src/utils/screenCalculations.ts:12-34 | 24" 21:9 against 24" 16:9 is wider and lower. |
| IndexPage.NewScreen | src/pages/IndexPage.tsx:42-46 | A new screen has the given id, no diagonal and ratio 16:9, and is not the user's. |
| IndexPage.UserScreen | src/pages/IndexPage.tsx:22-27 | The synthesized user screen has id `user`, no diagonal and ratio 16:9, and is the user's. |
| IndexPage.InitialScreens | src/pages/IndexPage.tsx:10-13 | The initial list is exactly two screens: the user's, with id `user`, then one other. Both have diagonal 0 and ratio 16:9. |
| IndexPage.InitialScreensRejected | src/pages/IndexPage.tsx:10-13 | The initial list has a user screen and no screen valid for submission, so `handleSubmit` on it gives `TooFewValidScreens`. |
| IndexPage.Restored | src/pages/IndexPage.tsx:20-32 | The restored list always has a user screen. It is the decoded list itself when that has one. Otherwise it is a default user screen followed by the decoded list. |
| IndexPage.WithField | src/pages/IndexPage.tsx:54 | Only the named field takes the new value; id, role and the other field are kept. |
| IndexPage.UpdateById | src/pages/IndexPage.tsx:52-56 | The length is kept. Screens with the id are edited and all others are unchanged, each in place. |
| IndexPage.UpdateKeepsIdsAndRoles | src/pages/IndexPage.tsx:50-59 | An edit keeps every id and role in place, and whether a user screen exists. |
| IndexPage.UpdateTouchesOnlyItsScreen | src/pages/IndexPage.tsx:52-56 | With distinct ids, an edit replaces exactly one screen in place. |
| IndexPage.AddKeepsUniqueIds | src/pages/IndexPage.tsx:39-48 | Adding a screen with a fresh id keeps the ids distinct. |
| IndexPage.RemoveById | src/pages/IndexPage.tsx:64 | The filter keeps exactly the screens whose id differs. |
| IndexPage.RemoveByIdConcat | src/pages/IndexPage.tsx:64 | The filter distributes over concatenation. With RemoveByIdSingleton, the kept screens keep their order and multiplicity. |
| IndexPage.RemoveByIdSingleton | src/pages/IndexPage.tsx:64 | A single screen is dropped exactly when it has the id. |
| IndexPage.RemoveByIdAbsent | src/pages/IndexPage.tsx:64 | When no screen has the id, the list comes back unchanged. |
| IndexPage.RemoveByIdSplice | src/pages/IndexPage.tsx:64 | A screen whose id occurs nowhere else is cut out, and the screens before and after it are joined unchanged. |
| IndexPage.RemoveByIdAt | src/pages/IndexPage.tsx:64 | With distinct ids, removing the id of the screen at position k gives the list without position k. |
| IndexPage.RemoveByIdLength | src/pages/IndexPage.tsx:64 | The filter shortens the list by the number of screens carrying the id. |
| IndexPage.CountUniqueId | src/pages/IndexPage.tsx:64 | With distinct ids, an id occurs once or not at all. |
| IndexPage.AfterRemove | src/pages/IndexPage.tsx:61-66 | A list of two or fewer screens is kept unchanged. A longer list is filtered by id. |
| IndexPage.RemoveOneScreen | src/pages/IndexPage.tsx:61-66 | With distinct ids, removing takes away exactly one screen when the id is present and none otherwise. A list of two or more never drops below two. |
| IndexPage.LeadingBlanks | src/pages/IndexPage.tsx:76 | The count of leading characters is a prefix of white space alone, stopped by the end or by a character that is not white space. |
| IndexPage.TrailingBlanks | src/pages/IndexPage.tsx:76 | The count of trailing characters is a suffix of white space alone, stopped by the start or by a character that is not white space. |
| IndexPage.TrimStart | src/pages/IndexPage.tsx:76 | The result is a suffix of the input, the part cut off is all white space, and the result does not start with white space. |
| IndexPage.TrimEnd | src/pages/IndexPage.tsx:76 | The result is a prefix of the input, the part cut off is all white space, and the result does not end in white space. |
| IndexPage.TrimEmptyIffBlank | src/pages/IndexPage.tsx:76 | `trim()` is empty exactly when the string is all ECMAScript white space. |
| IndexPage.TrimInfix | src/pages/IndexPage.tsx:76 | `trim()` gives a piece of the string: the characters right after its leading white space, in order. |
| IndexPage.TrimCutsBlanks | src/pages/IndexPage.tsx:76 | What `trim()` cuts off before and after that piece is white space alone. |
| IndexPage.TrimEnds | src/pages/IndexPage.tsx:76 | The result of `trim()` neither starts nor ends with white space. |
| IndexPage.TrimIdempotent | src/pages/IndexPage.tsx:76 | Trimming twice is trimming once. |
| IndexPage.ValidForSubmitIff | src/pages/IndexPage.tsx:75-77 | A screen passes the submit filter exactly when its diagonal is positive and its ratio holds a character other than white space. |
| IndexPage.ValidScreens | src/pages/IndexPage.tsx:75-77 | The filter keeps exactly the screens with a positive diagonal and a ratio that is not blank. |
| IndexPage.ValidScreensConcat | src/pages/IndexPage.tsx:75-77 | The filter distributes over concatenation. With ValidScreensSingleton, the valid screens keep their order and multiplicity, which fixes the count compared with 2. |
| IndexPage.ValidScreensSingleton | src/pages/IndexPage.tsx:75-77 | A single screen is kept exactly when it is valid. |
| IndexPage.SubmitOrder | src/pages/IndexPage.tsx:87-90 | The first screen stays in front and the rest follow by nondecreasing diagonal. The result is a permutation of the whole list, invalid screens included. |
| IndexPage.ScreenEditor.constructor | src/pages/IndexPage.tsx:10-13 | The editor starts with the initial two screens. |
| IndexPage.ScreenEditor.RestoreFromUrl | src/pages/IndexPage.tsx:15-37 | A nonempty decoded list installs its restored form. A parse failure or no parameters leaves the list unchanged. |
| IndexPage.ScreenEditor.AddScreen | src/pages/IndexPage.tsx:39-48 | The list becomes the old list with one new screen appended. |
| IndexPage.ScreenEditor.UpdateScreen | src/pages/IndexPage.tsx:50-59 | The list becomes the edited list. |
| IndexPage.ScreenEditor.RemoveScreen | src/pages/IndexPage.tsx:61-66 | The list becomes the old list after removal. |
| IndexPage.ScreenEditor.HandleSubmit | src/pages/IndexPage.tsx:68-97 | Nothing happens exactly when there is no user screen. There is an alert exactly when fewer than two screens are valid. Otherwise it navigates with every screen in submit order. |
| ComparisonPage.Truncate | src/pages/ComparisonPage.tsx:48 | The kept screens are the prefix of length min(n, 10). |
| ComparisonPage.UserScreenBeyondLimit | src/pages/ComparisonPage.tsx:48-54 | When none of the first ten screens is the user's, truncation leaves no user screen to find, even if a later one is. |
| ComparisonPage.ReduceLargest | src/pages/ComparisonPage.tsx:35-37 | The reduce lands on a screen whose diagonal is at least every other's. Every earlier screen is strictly smaller, so the first wins ties. |
| ComparisonPage.LargestScreen | src/pages/ComparisonPage.tsx:35-37 | The chosen screen is in the list, and no screen has a larger diagonal. |
| ComparisonPage.CalculateScale | src/pages/ComparisonPage.tsx:32-43 | No screens give a scale of 1. |
| ComparisonPage.ScaleOfLargest | src/pages/ComparisonPage.tsx:35-42 | For a largest screen of positive diagonal and ratio, its width is positive and the scale is innerWidth over it. |
| ComparisonPage.ScaleFitsLargest | src/pages/ComparisonPage.tsx:38-42 | The largest screen's width times the scale is exactly the window width. |
| ComparisonPage.WidthMonotone | src/pages/ComparisonPage.tsx:35-42 | At one ratio, a smaller diagonal is never wider. |
| ComparisonPage.SameRatioScreensFit | src/pages/ComparisonPage.tsx:32-81 | When all screens share one ratio, every screen drawn at width · scale fits the window. |
| ComparisonPage.WiderRatioOverflows | src/pages/ComparisonPage.tsx:32-81 | With a first screen of largest diagonal, a later screen of the same diagonal and a wider ratio does not fit the window. |
| ComparisonPage.NonUserScreens | src/pages/ComparisonPage.tsx:56 | The filter keeps exactly the screens that are not the user's. |
| ComparisonPage.NonUserScreensConcat | src/pages/ComparisonPage.tsx:56 | The filter distributes over concatenation. With NonUserScreensSingleton, the other screens keep their order and multiplicity. |
| ComparisonPage.NonUserScreensSingleton | src/pages/ComparisonPage.tsx:56 | A single screen is kept exactly when it is not the user's. |
| ComparisonPage.Comparisons | src/pages/ComparisonPage.tsx:55-57 | There is one result per screen, in the same order, each carrying that screen's own id and fields. |
| ComparisonPage.ComparisonAt | src/pages/ComparisonPage.tsx:57 | The result at each position is the difference of the screen at that position against the user's. |
| ComparisonPage.FindComparison | src/pages/ComparisonPage.tsx:94 | None exactly when no comparison has that id. Otherwise the result is the first comparison with the id: no earlier one has it. |
| ComparisonPage.EveryOtherScreenLabelled | src/pages/ComparisonPage.tsx:94 | With distinct ids, every non-user screen finds its own comparison. |
| ComparisonPage.SignPrefix | src/pages/ComparisonPage.tsx:84 | The prefix is `+` exactly for a positive value (or +∞), otherwise empty. |
| ComparisonPage.DiffTone | src/pages/ComparisonPage.tsx:121-124 | The tone is green exactly for a positive value (or +∞). |
| ComparisonPage.PlusSignIffGreen | src/pages/ComparisonPage.tsx:83-86 | A difference has a plus sign exactly when it is green. Zero is red and unsigned. |
| ComparisonPage.FormatDifference | src/pages/ComparisonPage.tsx:83-86 | The text ends in `%` and starts with `+` exactly for a positive value. |
| ComparisonPage.RenderOrder | src/pages/ComparisonPage.tsx:91-92 | The drawing order is a permutation of the screens by nonincreasing diagonal. |
| ComparisonPage.RenderOrderStable | src/pages/ComparisonPage.tsx:91-92 | Screens of equal diagonal are drawn in the order they were loaded. |
| ComparisonPage.ColourIndex | src/pages/ComparisonPage.tsx:102 | `index % colors.length` always indexes the 11 colours, and is the index itself below 11. |
| ComparisonPage.ComparisonView.constructor | src/pages/ComparisonPage.tsx:28-30 | The page starts with no screens, no comparisons and scale 1. |
| ComparisonPage.ComparisonView.Load | src/pages/ComparisonPage.tsx:45-60 | Loading keeps the first ten screens and rescales. With a user screen, it compares every other screen with it; without one, the earlier comparisons stay. |
| ComparisonPage.ComparisonView.Resize | src/pages/ComparisonPage.tsx:62-69 | A resize recomputes only the scale. |

## Left out

- Markup, styling and routing are not modelled: the JSX, the Tailwind class strings other than the colour list, the icons and `src/App.tsx`.
- React's scheduling of effects and callbacks is not modelled, nor is the registration of the resize listener. The updates they trigger are the class methods.
- Browser services are not modelled: `JSON.parse`, `JSON.stringify`, `URLSearchParams`, `navigate`, `alert` and `console.error`.
  - The restore effect receives the decoded list, or `None` when decoding throws.
  - The submit handler returns the navigation outcome.
  - The comparison page receives the decoded list.
- `crypto.randomUUID()` is the parameter `newId`. Lemmas that need distinct ids assume them.
- `window.innerWidth` is the parameter `innerWidth`.
- `Math.sqrt` is the parameter `sqrt`, constrained only by the square-root law.
- IEEE-754 details are not modelled: finite numbers are exact reals, with no rounding, no signed zero and no overflow of large finite values to infinity.
- `Number()` on a ratio field is modelled for digit strings and the empty string. Other strings (white space, signs, decimals, exponents, `Infinity`) read as NaN in the model.
- A screen's `inch` is a real. `Number.parseFloat` on the form input and a NaN diagonal are not modelled.
- `toFixed(1)` is not modelled: `FormatDifference` takes its digits as the parameter `fixed`.
- IndexPage.UpdateById: only the two fields the form edits (`inch`, `aspectRatio`) are modelled. The callback's type would also allow `id` and `isUserScreen`.
- Two UI conditions in the JSX are not modelled: the remove button is shown only for non-user screens in a list longer than two, and the label is shown only for non-`user` ids.
- ComparisonPage.CalculateScale: its own contract covers only the empty list. The nonempty case is stated by ScaleFitsLargest, which needs a largest screen with a positive diagonal and ratio.
- ComparisonPage.SameRatioScreensFit: holds only for screens that share one ratio. WiderRatioOverflows shows that the claim fails in general.
- ScreenCalculations.DifferenceWithItself: needs nonzero base dimensions, as the division in the source does.
- ScreenCalculations.SameRatioDifference: takes the ratio's value `r` as a parameter, and needs a positive base diagonal and ratio.
- ScreenCalculations.PositiveDimensions: needs a positive diagonal. A zero diagonal is covered by ZeroDiagonalScreen.
- IndexPage.RemoveOneScreen: needs distinct ids, which the source gets from `crypto.randomUUID()`.
