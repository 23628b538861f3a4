/**
  The records the pages pass around (src/types.ts). A missing `isUserScreen`
  reads as false, so it is a plain `bool` here.
 */
module Types {
  import opened JsNumber

  datatype Option<T> = None | Some(value: T)

  datatype ScreenSize = ScreenSize(id: string, inch: real, aspectRatio: string, isUserScreen: bool)

  /** A screen together with its three percentage differences against the user's screen. */
  datatype ComparisonResult = ComparisonResult(
    id: string, inch: real, aspectRatio: string, isUserScreen: bool,
    widthDiff: Number, heightDiff: Number, areaDiff: Number)
  {
    /** The `ScreenSize` part of the record. */
    function Screen(): ScreenSize {
      ScreenSize(id, inch, aspectRatio, isUserScreen)
    }
  }

  predicate HasUserScreen(screens: seq<ScreenSize>) {
    exists i :: 0 <= i < |screens| && screens[i].isUserScreen
  }

  /** The position `screens.find((s) => s.isUserScreen)` stops at: the first
      user screen, or the length of the list when there is none. */
  function FirstUserIndex(screens: seq<ScreenSize>): (k: nat)
    ensures k <= |screens|
    ensures forall j :: 0 <= j < k ==> !screens[j].isUserScreen
    ensures k < |screens| ==> screens[k].isUserScreen
  {
    if screens == [] || screens[0].isUserScreen then 0
    else 1 + FirstUserIndex(screens[1..])
  }

  /** `screens.find((s) => s.isUserScreen)` */
  function FindUserScreen(screens: seq<ScreenSize>): (r: Option<ScreenSize>)
    ensures r.None? <==> !HasUserScreen(screens)
    ensures r.Some? ==> r.value.isUserScreen && r.value in screens
    ensures r.Some? ==> exists k :: 0 <= k < |screens| && screens[k] == r.value &&
                          forall j :: 0 <= j < k ==> !screens[j].isUserScreen
  {
    var k := FirstUserIndex(screens);
    if k < |screens| then Some(screens[k]) else None
  }
}
