/**
  The screen editor (src/pages/IndexPage.tsx): the list of screens the user is
  editing, the callbacks that change it, and the submit handler that checks the
  list and hands it to the comparison page.

  The React state `screens` is the field of `ScreenEditor`; each callback is a
  method on it. `crypto.randomUUID()` is a parameter `newId` of the methods
  that need a fresh id, the URL's `screens` parameters reach the model already
  decoded (`parsed`), and the navigation at the end of a submit is the
  `Navigate` outcome carrying the screens in the order they are appended to
  the query string.
 */
module IndexPage {
  import opened Types
  import opened ScreenOrder

  const USER_SCREEN_ID: string := "user"
  const DEFAULT_ASPECT_RATIO: string := "16:9"

  /** A blank screen as `addScreen` appends it: no diagonal, 16:9, not the user's. */
  function NewScreen(newId: string): (s: ScreenSize)
    ensures s.id == newId && s.inch == 0.0 && s.aspectRatio == DEFAULT_ASPECT_RATIO
    ensures !s.isUserScreen
  {
    ScreenSize(newId, 0.0, DEFAULT_ASPECT_RATIO, false)
  }

  /** The blank user screen the editor starts with and prepends when a list has none. */
  function UserScreen(): (s: ScreenSize)
    ensures s.id == USER_SCREEN_ID && s.inch == 0.0 && s.aspectRatio == DEFAULT_ASPECT_RATIO
    ensures s.isUserScreen
  {
    ScreenSize(USER_SCREEN_ID, 0.0, DEFAULT_ASPECT_RATIO, true)
  }

  /** The initial state: the user's screen, then one screen to compare it with. */
  function InitialScreens(newId: string): (r: seq<ScreenSize>)
    ensures |r| == 2 && r[0].isUserScreen && !r[1].isUserScreen
    ensures r[0].id == USER_SCREEN_ID && r[1].id == newId
    ensures forall i :: 0 <= i < |r| ==> r[i].inch == 0.0 && r[i].aspectRatio == DEFAULT_ASPECT_RATIO
  {
    [UserScreen(), NewScreen(newId)]
  }

  /** The list the URL-restore effect installs for a nonempty decoded list:
      the list itself when it holds a user screen, otherwise the list behind a
      blank user screen. */
  function Restored(parsed: seq<ScreenSize>): (r: seq<ScreenSize>)
    ensures HasUserScreen(r)
    ensures HasUserScreen(parsed) ==> r == parsed
    ensures !HasUserScreen(parsed) ==> |r| == |parsed| + 1 && r[0] == UserScreen() && r[1..] == parsed
  {
    if HasUserScreen(parsed) then parsed
    else
      assert ([UserScreen()] + parsed)[0].isUserScreen;
      [UserScreen()] + parsed
  }

  // ---------------------------------------------------------------------------
  // Editing one field

  /** The fields the form edits, each with its new value. */
  datatype FieldUpdate = SetInch(inch: real) | SetAspectRatio(aspectRatio: string)

  /** `{ ...screen, [field]: value }` */
  function WithField(screen: ScreenSize, update: FieldUpdate): (r: ScreenSize)
    ensures r.id == screen.id && r.isUserScreen == screen.isUserScreen
    ensures update.SetInch? ==> r.inch == update.inch && r.aspectRatio == screen.aspectRatio
    ensures update.SetAspectRatio? ==> r.aspectRatio == update.aspectRatio && r.inch == screen.inch
  {
    match update
    case SetInch(inch) => screen.(inch := inch)
    case SetAspectRatio(aspectRatio) => screen.(aspectRatio := aspectRatio)
  }

  /** `screens.map((screen) => screen.id === id ? { ...screen, [field]: value } : screen)` */
  function UpdateById(screens: seq<ScreenSize>, id: string, update: FieldUpdate): (r: seq<ScreenSize>)
    ensures |r| == |screens|
    ensures forall i :: 0 <= i < |screens| && screens[i].id == id ==> r[i] == WithField(screens[i], update)
    ensures forall i :: 0 <= i < |screens| && screens[i].id != id ==> r[i] == screens[i]
  {
    if screens == [] then []
    else
      var head := if screens[0].id == id then WithField(screens[0], update) else screens[0];
      [head] + UpdateById(screens[1..], id, update)
  }

  predicate SameIdsAndRoles(a: seq<ScreenSize>, b: seq<ScreenSize>) {
    |a| == |b| && forall i :: 0 <= i < |a| ==> a[i].id == b[i].id && a[i].isUserScreen == b[i].isUserScreen
  }

  /** Editing a field never renames a screen, never moves one and never
      changes which screen is the user's. */
  lemma UpdateKeepsIdsAndRoles(screens: seq<ScreenSize>, id: string, update: FieldUpdate)
    ensures SameIdsAndRoles(UpdateById(screens, id, update), screens)
    ensures HasUserScreen(UpdateById(screens, id, update)) <==> HasUserScreen(screens)
  {
    var r := UpdateById(screens, id, update);
    if HasUserScreen(screens) {
      var i :| 0 <= i < |screens| && screens[i].isUserScreen;
      assert r[i].isUserScreen;
    }
    if HasUserScreen(r) {
      var i :| 0 <= i < |r| && r[i].isUserScreen;
      assert screens[i].isUserScreen;
    }
  }

  /** A screen with an id nobody else has is the only one an edit touches. */
  lemma {:induction false} UpdateTouchesOnlyItsScreen(screens: seq<ScreenSize>, k: nat, update: FieldUpdate)
    requires k < |screens| && UniqueIds(screens)
    ensures UpdateById(screens, screens[k].id, update)
      == screens[..k] + [WithField(screens[k], update)] + screens[k + 1..]
  {
    var r := UpdateById(screens, screens[k].id, update);
    var e := screens[..k] + [WithField(screens[k], update)] + screens[k + 1..];
    forall i | 0 <= i < |screens|
      ensures r[i] == e[i]
    {
      if i != k {
        assert screens[i].id != screens[k].id;
      }
    }
  }

  // ---------------------------------------------------------------------------
  // Ids

  predicate UniqueIds(screens: seq<ScreenSize>) {
    forall i, j :: 0 <= i < j < |screens| ==> screens[i].id != screens[j].id
  }

  predicate HasId(screens: seq<ScreenSize>, id: string) {
    exists i :: 0 <= i < |screens| && screens[i].id == id
  }

  /** Adding a screen with a fresh id keeps the ids distinct. */
  lemma AddKeepsUniqueIds(screens: seq<ScreenSize>, newId: string)
    requires UniqueIds(screens) && !HasId(screens, newId)
    ensures UniqueIds(screens + [NewScreen(newId)])
  {
    var r := screens + [NewScreen(newId)];
    forall i, j | 0 <= i < j < |r|
      ensures r[i].id != r[j].id
    {
      if j == |screens| {
        assert screens[i].id != newId;
      }
    }
  }

  // ---------------------------------------------------------------------------
  // Removing a screen

  /** `screens.filter((screen) => screen.id !== id)` */
  function RemoveById(screens: seq<ScreenSize>, id: string): (r: seq<ScreenSize>)
    ensures |r| <= |screens|
    ensures forall x :: x in r <==> x in screens && x.id != id
  {
    if screens == [] then []
    else if screens[0].id == id then RemoveById(screens[1..], id)
    else
      assert screens == [screens[0]] + screens[1..];
      [screens[0]] + RemoveById(screens[1..], id)
  }

  /** The filter keeps the order and the multiplicity of what it keeps: it
      distributes over concatenation. */
  lemma {:induction false} RemoveByIdConcat(s: seq<ScreenSize>, t: seq<ScreenSize>, id: string)
    ensures RemoveById(s + t, id) == RemoveById(s, id) + RemoveById(t, id)
  {
    if s == [] {
      assert s + t == t;
    } else {
      assert (s + t)[0] == s[0] && (s + t)[1..] == s[1..] + t;
      RemoveByIdConcat(s[1..], t, id);
    }
  }

  /** A single screen stays exactly when its id differs. */
  lemma RemoveByIdSingleton(x: ScreenSize, id: string)
    ensures RemoveById([x], id) == if x.id == id then [] else [x]
  {
  }

  /** A list in which no screen carries the id is left as it is. */
  lemma {:induction false} RemoveByIdAbsent(screens: seq<ScreenSize>, id: string)
    requires forall i :: 0 <= i < |screens| ==> screens[i].id != id
    ensures RemoveById(screens, id) == screens
  {
    if screens != [] {
      RemoveByIdAbsent(screens[1..], id);
    }
  }

  /** Removing an id that only `x` carries takes out `x` alone. */
  lemma {:induction false} RemoveByIdSplice(before: seq<ScreenSize>, x: ScreenSize, after: seq<ScreenSize>)
    requires forall i :: 0 <= i < |before| ==> before[i].id != x.id
    requires forall i :: 0 <= i < |after| ==> after[i].id != x.id
    ensures RemoveById(before + [x] + after, x.id) == before + after
  {
    RemoveByIdAbsent(before, x.id);
    RemoveByIdAbsent(after, x.id);
    RemoveByIdSingleton(x, x.id);
    RemoveByIdConcat([x], after, x.id);
    RemoveByIdConcat(before, [x] + after, x.id);
    assert before + [x] + after == before + ([x] + after);
  }

  /** With distinct ids, removing the id of the screen at `k` takes out that
      screen alone and keeps the others in order. */
  lemma {:induction false} RemoveByIdAt(screens: seq<ScreenSize>, k: nat)
    requires k < |screens| && UniqueIds(screens)
    ensures RemoveById(screens, screens[k].id) == screens[..k] + screens[k + 1..]
  {
    var before, after := screens[..k], screens[k + 1..];
    forall i | 0 <= i < |before| ensures before[i].id != screens[k].id {
      assert before[i] == screens[i];
    }
    forall i | 0 <= i < |after| ensures after[i].id != screens[k].id {
      assert after[i] == screens[k + 1 + i];
    }
    assert screens == before + [screens[k]] + after;
    RemoveByIdSplice(before, screens[k], after);
  }

  /** How many screens carry the id `id`. */
  function CountId(screens: seq<ScreenSize>, id: string): (n: nat)
    ensures n <= |screens|
  {
    if screens == [] then 0
    else (if screens[0].id == id then 1 else 0) + CountId(screens[1..], id)
  }

  /** The filter drops exactly the screens that carry the id. */
  lemma {:induction false} RemoveByIdLength(screens: seq<ScreenSize>, id: string)
    ensures |RemoveById(screens, id)| == |screens| - CountId(screens, id)
  {
    if screens != [] {
      RemoveByIdLength(screens[1..], id);
    }
  }

  /** With distinct ids, an id occurs once when present and never otherwise. */
  lemma {:induction false} CountUniqueId(screens: seq<ScreenSize>, id: string)
    requires UniqueIds(screens)
    ensures CountId(screens, id) == if HasId(screens, id) then 1 else 0
  {
    if screens != [] {
      var tail := screens[1..];
      assert UniqueIds(tail) by {
        forall i, j | 0 <= i < j < |tail| ensures tail[i].id != tail[j].id {
          assert tail[i] == screens[i + 1] && tail[j] == screens[j + 1];
        }
      }
      CountUniqueId(tail, id);
      if screens[0].id == id {
        assert !HasId(tail, id) by {
          forall i | 0 <= i < |tail| ensures tail[i].id != id {
            assert tail[i] == screens[i + 1];
          }
        }
      }
      assert HasId(screens, id) <==> screens[0].id == id || HasId(tail, id) by {
        if HasId(tail, id) {
          var i :| 0 <= i < |tail| && tail[i].id == id;
          assert screens[i + 1].id == id;
        }
        if HasId(screens, id) && screens[0].id != id {
          var i :| 0 <= i < |screens| && screens[i].id == id;
          assert tail[i - 1].id == id;
        }
      }
    }
  }

  /** The remove callback: a list of two screens or fewer is kept as it is. */
  function AfterRemove(screens: seq<ScreenSize>, id: string): (r: seq<ScreenSize>)
    ensures |screens| <= 2 ==> r == screens
    ensures |screens| > 2 ==> r == RemoveById(screens, id)
  {
    if |screens| <= 2 then screens else RemoveById(screens, id)
  }

  /** With distinct ids, removing takes away exactly the one screen with that
      id, and the list never shrinks below two screens. */
  lemma RemoveOneScreen(screens: seq<ScreenSize>, id: string)
    requires UniqueIds(screens)
    ensures |screens| > 2 && HasId(screens, id) ==> |AfterRemove(screens, id)| == |screens| - 1
    ensures !HasId(screens, id) ==> |AfterRemove(screens, id)| == |screens|
    ensures |screens| >= 2 ==> |AfterRemove(screens, id)| >= 2
  {
    RemoveByIdLength(screens, id);
    CountUniqueId(screens, id);
  }

  // ---------------------------------------------------------------------------
  // Submitting

  /** The characters `String.prototype.trim` strips: the white space and
      line terminators of ECMAScript (section 12.2 and 12.3 of ECMA-262). */
  predicate IsJsWhitespace(c: char) {
    c == '\t' || c == '\n' || c == '\U{0B}' || c == '\U{0C}' || c == '\r' || c == ' '
    || c == '\U{A0}' || c == '\U{1680}' || ('\U{2000}' <= c <= '\U{200A}')
    || c == '\U{2028}' || c == '\U{2029}' || c == '\U{202F}' || c == '\U{205F}'
    || c == '\U{3000}' || c == '\U{FEFF}'
  }

  predicate IsBlank(s: string) {
    forall i :: 0 <= i < |s| ==> IsJsWhitespace(s[i])
  }

  /** The number of white-space characters `s` starts with. */
  function LeadingBlanks(s: string): (n: nat)
    ensures n <= |s| && IsBlank(s[..n])
    ensures n == |s| || !IsJsWhitespace(s[n])
  {
    if s != [] && IsJsWhitespace(s[0]) then
      var m := LeadingBlanks(s[1..]);
      BlankHead(s, m);
      m + 1
    else 0
  }

  /** One white-space character in front of `m` more. */
  lemma BlankHead(s: string, m: nat)
    requires s != [] && IsJsWhitespace(s[0])
    requires m <= |s| - 1 && IsBlank(s[1..][..m])
    requires m == |s| - 1 || !IsJsWhitespace(s[1..][m])
    ensures IsBlank(s[..m + 1])
    ensures m + 1 == |s| || !IsJsWhitespace(s[m + 1])
  {
    forall i | 0 <= i < m + 1 ensures IsJsWhitespace(s[i]) {
      if i > 0 { assert s[i] == s[1..][..m][i - 1]; }
    }
  }

  /** The number of white-space characters `s` ends with. */
  function TrailingBlanks(s: string): (n: nat)
    ensures n <= |s| && IsBlank(s[|s| - n..])
    ensures n == |s| || !IsJsWhitespace(s[|s| - n - 1])
  {
    if s != [] && IsJsWhitespace(s[|s| - 1]) then
      var m := TrailingBlanks(s[..|s| - 1]);
      BlankTail(s, m);
      m + 1
    else 0
  }

  /** `m` white-space characters and then one more at the end. */
  lemma BlankTail(s: string, m: nat)
    requires s != [] && IsJsWhitespace(s[|s| - 1])
    requires m <= |s| - 1 && IsBlank(s[..|s| - 1][|s| - 1 - m..])
    requires m == |s| - 1 || !IsJsWhitespace(s[..|s| - 1][|s| - 1 - m - 1])
    ensures IsBlank(s[|s| - (m + 1)..])
    ensures m + 1 == |s| || !IsJsWhitespace(s[|s| - (m + 1) - 1])
  {
    forall i | |s| - (m + 1) <= i < |s| ensures IsJsWhitespace(s[i]) {
      if i < |s| - 1 { assert s[i] == s[..|s| - 1][|s| - 1 - m..][i - (|s| - 1 - m)]; }
    }
  }

  /** `s` without its leading white space. */
  function TrimStart(s: string): (r: string)
    ensures |r| <= |s| && r == s[|s| - |r|..]
    ensures IsBlank(s[..|s| - |r|])
    ensures r == [] || !IsJsWhitespace(r[0])
  {
    s[LeadingBlanks(s)..]
  }

  /** `s` without its trailing white space. */
  function TrimEnd(s: string): (r: string)
    ensures |r| <= |s| && r == s[..|r|]
    ensures IsBlank(s[|r|..])
    ensures r == [] || !IsJsWhitespace(r[|r| - 1])
  {
    s[..|s| - TrailingBlanks(s)]
  }

  /** `s.trim()` */
  function Trim(s: string): (r: string) {
    TrimEnd(TrimStart(s))
  }

  /** `s.trim() === ""` holds exactly for strings made of white space alone. */
  lemma TrimEmptyIffBlank(s: string)
    ensures Trim(s) == [] <==> IsBlank(s)
  {
  }

  /** `trim()` keeps a piece of `s`: the characters right after its leading
      white space, in order. */
  lemma TrimInfix(s: string)
    ensures var i := |s| - |TrimStart(s)|;
            var r := Trim(s);
            i + |r| <= |s| && forall k :: 0 <= k < |r| ==> r[k] == s[i + k]
  {
    var t := TrimStart(s);
    PrefixOfSuffix(s, t, TrimEnd(t));
  }

  /** A prefix `r` of a suffix `t` of `s` is the piece of `s` where `t` starts. */
  lemma PrefixOfSuffix(s: string, t: string, r: string)
    requires |t| <= |s| && t == s[|s| - |t|..]
    requires |r| <= |t| && r == t[..|r|]
    ensures forall k :: 0 <= k < |r| ==> r[k] == s[|s| - |t| + k]
  {
    forall k | 0 <= k < |r| ensures r[k] == s[|s| - |t| + k] {
      assert r[k] == t[k];
    }
  }

  /** What `trim()` cuts off on either side is white space alone. */
  lemma TrimCutsBlanks(s: string)
    ensures var i := |s| - |TrimStart(s)|;
            var r := Trim(s);
            i + |r| <= |s| && IsBlank(s[..i]) && IsBlank(s[i + |r|..])
  {
    var t := TrimStart(s);
    var r := TrimEnd(t);
    SuffixOfSuffix(s, t, |r|);
  }

  lemma SuffixOfSuffix(s: string, t: string, j: nat)
    requires |t| <= |s| && t == s[|s| - |t|..] && j <= |t|
    ensures t[j..] == s[|s| - |t| + j..]
  {
  }

  /** The result of `trim()` neither starts nor ends with white space. */
  lemma TrimEnds(s: string)
    ensures var r := Trim(s);
            r == [] || (!IsJsWhitespace(r[0]) && !IsJsWhitespace(r[|r| - 1]))
  {
    var t := TrimStart(s);
    var r := TrimEnd(t);
    if r != [] {
      assert r == t[..|r|];
      assert r[0] == t[0];
    }
  }

  /** Trimming twice is trimming once. */
  lemma TrimIdempotent(s: string)
    ensures Trim(Trim(s)) == Trim(s)
  {
    TrimEnds(s);
  }

  /** The filter the submit handler counts: a positive diagonal and a ratio
      that is not blank. */
  predicate IsValidForSubmit(screen: ScreenSize) {
    screen.inch > 0.0 && Trim(screen.aspectRatio) != []
  }

  /** A screen passes the submit filter exactly when its diagonal is positive
      and its ratio holds a character other than white space. */
  lemma ValidForSubmitIff(screen: ScreenSize)
    ensures IsValidForSubmit(screen) <==>
            screen.inch > 0.0 && exists i :: 0 <= i < |screen.aspectRatio| && !IsJsWhitespace(screen.aspectRatio[i])
  {
    TrimEmptyIffBlank(screen.aspectRatio);
  }

  /** `screens.filter(...)` with the submit validity test. */
  function ValidScreens(screens: seq<ScreenSize>): (r: seq<ScreenSize>)
    ensures |r| <= |screens|
    ensures forall x :: x in r <==> x in screens && IsValidForSubmit(x)
  {
    if screens == [] then []
    else
      var rest := ValidScreens(screens[1..]);
      assert screens == [screens[0]] + screens[1..];
      if IsValidForSubmit(screens[0]) then [screens[0]] + rest else rest
  }

  /** The submit filter keeps the order and the multiplicity of the valid
      screens: it distributes over concatenation. */
  lemma {:induction false} ValidScreensConcat(s: seq<ScreenSize>, t: seq<ScreenSize>)
    ensures ValidScreens(s + t) == ValidScreens(s) + ValidScreens(t)
  {
    if s == [] {
      assert s + t == t;
    } else {
      assert (s + t)[0] == s[0] && (s + t)[1..] == s[1..] + t;
      ValidScreensConcat(s[1..], t);
    }
  }

  /** A single screen stays exactly when it is valid. */
  lemma ValidScreensSingleton(x: ScreenSize)
    ensures ValidScreens([x]) == if IsValidForSubmit(x) then [x] else []
  {
  }

  /** `[screens[0], ...screens.slice(1).sort((a, b) => a.inch - b.inch)]`:
      the first screen stays in front, the others follow by ascending diagonal. */
  function SubmitOrder(screens: seq<ScreenSize>): (r: seq<ScreenSize>)
    requires |screens| >= 1
    ensures |r| == |screens| && r[0] == screens[0]
    ensures SortedBy(r[1..], Ascending)
    ensures multiset(r) == multiset(screens)
  {
    assert screens == [screens[0]] + screens[1..];
    var rest := SortByInch(screens[1..], Ascending);
    assert |rest| == |multiset(rest)| == |screens| - 1;
    assert ([screens[0]] + rest)[1..] == rest;
    [screens[0]] + rest
  }

  /** What a submit does: nothing without a user screen, an alert with fewer
      than two valid screens, otherwise a navigation carrying every screen
      (valid or not) in submit order. */
  datatype SubmitOutcome = NoUserScreen | TooFewValidScreens | Navigate(params: seq<ScreenSize>)

  /** A fresh editor holds no valid screen yet, so `handleSubmit` on it ends
      in `TooFewValidScreens`. */
  lemma InitialScreensRejected(newId: string)
    ensures HasUserScreen(InitialScreens(newId))
    ensures |ValidScreens(InitialScreens(newId))| == 0
  {
    var s := InitialScreens(newId);
    assert s[0].isUserScreen;
    assert s == [s[0]] + [s[1]];
    assert !IsValidForSubmit(s[0]) && !IsValidForSubmit(s[1]);
  }

  class ScreenEditor {
    var screens: seq<ScreenSize>

    /** `useState` with the user's screen and one screen to compare. */
    constructor(newId: string)
      ensures screens == InitialScreens(newId)
    {
      screens := InitialScreens(newId);
    }

    /** The URL-restore effect. `parsed` is `None` when `JSON.parse` throws;
        then, as for an empty parameter list, the screens stay as they are. */
    method RestoreFromUrl(parsed: Option<seq<ScreenSize>>)
      modifies this
      ensures parsed.Some? && |parsed.value| > 0 ==> screens == Restored(parsed.value)
      ensures parsed.None? || |parsed.value| == 0 ==> screens == old(screens)
    {
      if parsed.Some? && |parsed.value| > 0 {
        screens := Restored(parsed.value);
      }
    }

    /** `addScreen` */
    method AddScreen(newId: string)
      modifies this
      ensures screens == old(screens) + [NewScreen(newId)]
    {
      screens := screens + [NewScreen(newId)];
    }

    /** `updateScreen` */
    method UpdateScreen(id: string, update: FieldUpdate)
      modifies this
      ensures screens == UpdateById(old(screens), id, update)
    {
      screens := UpdateById(screens, id, update);
    }

    /** `removeScreen` */
    method RemoveScreen(id: string)
      modifies this
      ensures screens == AfterRemove(old(screens), id)
    {
      screens := AfterRemove(screens, id);
    }

    /** `handleSubmit`. The screens are appended to the query parameters one
        by one, in submit order; the screens themselves do not change. */
    method HandleSubmit() returns (outcome: SubmitOutcome)
      ensures !HasUserScreen(screens) <==> outcome == NoUserScreen
      ensures outcome == TooFewValidScreens <==> HasUserScreen(screens) && |ValidScreens(screens)| < 2
      ensures outcome.Navigate? ==> |screens| >= 2 && outcome.params == SubmitOrder(screens)
    {
      var userScreen := FindUserScreen(screens);
      if userScreen.None? {
        return NoUserScreen;
      }
      var validScreens := ValidScreens(screens);
      if |validScreens| < 2 {
        return TooFewValidScreens;
      }
      var sortedScreens := SubmitOrder(screens);
      var params: seq<ScreenSize> := [];
      var i := 0;
      while i < |sortedScreens|
        invariant 0 <= i <= |sortedScreens|
        invariant params == sortedScreens[..i]
      {
        params := params + [sortedScreens[i]];
        i := i + 1;
      }
      assert sortedScreens[..i] == sortedScreens;
      return Navigate(params);
    }
  }
}
