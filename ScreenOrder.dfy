/**
  The two orders the pages sort screens in: the editor sorts the comparison
  screens by ascending diagonal before submitting, the comparison page draws
  them by descending diagonal. Both use `Array.prototype.sort` with a
  difference of diagonals as comparator, which is a stable sort.
 */
module ScreenOrder {
  import opened Types

  datatype Direction = Ascending | Descending

  /** The sort key: the diagonal, negated for a descending order. */
  function Key(screen: ScreenSize, direction: Direction): real {
    if direction == Ascending then screen.inch else -screen.inch
  }

  predicate SortedBy(screens: seq<ScreenSize>, direction: Direction) {
    forall i, j :: 0 <= i < j < |screens| ==> Key(screens[i], direction) <= Key(screens[j], direction)
  }

  /** Inserts `x` before the first element whose key is not smaller, so that
      `x` stays ahead of every element with an equal key. */
  function Insert(x: ScreenSize, sorted: seq<ScreenSize>, direction: Direction): (r: seq<ScreenSize>)
    ensures multiset(r) == multiset(sorted) + multiset{x}
  {
    if sorted == [] || Key(x, direction) <= Key(sorted[0], direction) then
      [x] + sorted
    else
      assert sorted == [sorted[0]] + sorted[1..];
      [sorted[0]] + Insert(x, sorted[1..], direction)
  }

  /** Inserting into a sorted sequence keeps it sorted. */
  lemma {:induction false} InsertSorted(x: ScreenSize, sorted: seq<ScreenSize>, direction: Direction)
    requires SortedBy(sorted, direction)
    ensures SortedBy(Insert(x, sorted, direction), direction)
  {
    if sorted != [] && Key(x, direction) > Key(sorted[0], direction) {
      var rest := Insert(x, sorted[1..], direction);
      InsertSorted(x, sorted[1..], direction);
      assert sorted == [sorted[0]] + sorted[1..];
      forall k | 0 <= k < |rest|
        ensures Key(sorted[0], direction) <= Key(rest[k], direction)
      {
        assert rest[k] in multiset(rest);
        assert rest[k] == x || rest[k] in multiset(sorted[1..]);
      }
    }
  }

  /** `[...screens].sort(...)`: a stable insertion sort by diagonal. */
  function SortByInch(screens: seq<ScreenSize>, direction: Direction): (r: seq<ScreenSize>)
    ensures SortedBy(r, direction)
    ensures multiset(r) == multiset(screens)
  {
    if screens == [] then []
    else
      assert screens == [screens[0]] + screens[1..];
      var rest := SortByInch(screens[1..], direction);
      InsertSorted(screens[0], rest, direction);
      Insert(screens[0], rest, direction)
  }

  /** The screens of diagonal `inch`, in the order they come in. */
  function WithInch(screens: seq<ScreenSize>, inch: real): seq<ScreenSize> {
    if screens == [] then []
    else (if screens[0].inch == inch then [screens[0]] else []) + WithInch(screens[1..], inch)
  }

  lemma WithInchCons(y: ScreenSize, s: seq<ScreenSize>, inch: real)
    ensures WithInch([y] + s, inch) == (if y.inch == inch then [y] else []) + WithInch(s, inch)
  {
    assert ([y] + s)[0] == y && ([y] + s)[1..] == s;
  }

  /** Insertion puts `x` ahead of every screen of its own diagonal and leaves
      the order of the others alone. */
  lemma {:induction false} InsertWithInch(x: ScreenSize, sorted: seq<ScreenSize>, direction: Direction, inch: real)
    ensures WithInch(Insert(x, sorted, direction), inch) ==
            (if x.inch == inch then [x] else []) + WithInch(sorted, inch)
  {
    if sorted == [] || Key(x, direction) <= Key(sorted[0], direction) {
      WithInchCons(x, sorted, inch);
    } else {
      var rest := Insert(x, sorted[1..], direction);
      assert Insert(x, sorted, direction) == [sorted[0]] + rest;
      InsertWithInch(x, sorted[1..], direction, inch);
      WithInchCons(sorted[0], rest, inch);
      WithInchCons(sorted[0], sorted[1..], inch);
      assert [sorted[0]] + sorted[1..] == sorted;
      assert sorted[0].inch != x.inch;
    }
  }

  /** The sort is stable: screens of equal diagonal keep their relative order. */
  lemma {:induction false} SortByInchStable(screens: seq<ScreenSize>, direction: Direction, inch: real)
    ensures WithInch(SortByInch(screens, direction), inch) == WithInch(screens, inch)
  {
    if screens != [] {
      SortByInchStable(screens[1..], direction, inch);
      InsertWithInch(screens[0], SortByInch(screens[1..], direction), direction, inch);
    }
  }
}
