/**
 * The views App.tsx derives from the collection: the copy sorted by date (descending
 * for the timeline, ascending to find the "together since" date) and the rule that
 * puts a year header in front of a card.
 */
module Timeline {
  import opened Types

  // ---------------------------------------------------------------------------
  // Stable sort by date (`[...memories].sort(comparator)`)
  // ---------------------------------------------------------------------------

  /** `a - b` sorts ascending, `b - a` descending. */
  datatype Direction = Ascending | Descending

  /** A record dated `a` may stand before one dated `b`. */
  predicate InOrder(a: Date, b: Date, dir: Direction) {
    match dir
    case Ascending => NotAfter(a, b)
    case Descending => NotAfter(b, a)
  }

  predicate SortedBy(s: seq<Memory>, dir: Direction) {
    forall i, j :: 0 <= i < j < |s| ==> InOrder(s[i].date, s[j].date, dir)
  }

  /** The records of `s` dated `d`, in the order of `s`. */
  function WithDate(s: seq<Memory>, d: Date): seq<Memory> {
    if s == [] then []
    else (if s[0].date == d then [s[0]] else []) + WithDate(s[1..], d)
  }

  /** `r` keeps the records of every single date in the order `s` has them: the
      stability of `Array.prototype.sort`. */
  ghost predicate SameOrderWithinDates(r: seq<Memory>, s: seq<Memory>) {
    forall d :: WithDate(r, d) == WithDate(s, d)
  }

  /** Puts `m` in front of the first record it may precede; a record that came earlier
      in the input thus stays ahead of later records with the same date. */
  function Insert(m: Memory, s: seq<Memory>, dir: Direction): (r: seq<Memory>)
    ensures |r| == |s| + 1
  {
    if s == [] then [m]
    else if InOrder(m.date, s[0].date, dir) then [m] + s
    else [s[0]] + Insert(m, s[1..], dir)
  }

  function Sort(s: seq<Memory>, dir: Direction): (r: seq<Memory>)
    ensures |r| == |s|
  {
    if s == [] then [] else Insert(s[0], Sort(s[1..], dir), dir)
  }

  lemma {:induction false} InsertContents(m: Memory, s: seq<Memory>, dir: Direction)
    ensures multiset(Insert(m, s, dir)) == multiset(s) + multiset{m}
  {
    if s != [] && !InOrder(m.date, s[0].date, dir) {
      InsertContents(m, s[1..], dir);
      assert s == [s[0]] + s[1..];
    }
  }

  lemma {:induction false} InsertSorted(m: Memory, s: seq<Memory>, dir: Direction)
    requires SortedBy(s, dir)
    ensures SortedBy(Insert(m, s, dir), dir)
  {
    if s == [] {
    } else if InOrder(m.date, s[0].date, dir) {
      forall x | x in s ensures InOrder(m.date, x.date, dir) {
        var j :| 0 <= j < |s| && s[j] == x;
        if j > 0 { NotAfterTotalOrder(m.date, s[0].date, s[j].date); NotAfterTotalOrder(s[j].date, s[0].date, m.date); }
      }
      SortedCons(m, s, dir);
    } else {
      var t := Insert(m, s[1..], dir);
      InsertSorted(m, s[1..], dir);
      InsertContents(m, s[1..], dir);
      NotAfterTotalOrder(m.date, s[0].date, m.date);
      forall x | x in t ensures InOrder(s[0].date, x.date, dir) {
        assert x in multiset(t);
        if x != m {
          assert x in s[1..];
        }
      }
      SortedCons(s[0], t, dir);
    }
  }

  lemma SortedCons(x: Memory, t: seq<Memory>, dir: Direction)
    requires SortedBy(t, dir)
    requires forall y :: y in t ==> InOrder(x.date, y.date, dir)
    ensures SortedBy([x] + t, dir)
  {
    var r := [x] + t;
    forall i, j | 0 <= i < j < |r| ensures InOrder(r[i].date, r[j].date, dir) {
      if i == 0 {
        assert r[j] == t[j - 1];
      } else {
        assert r[i] == t[i - 1] && r[j] == t[j - 1];
      }
    }
  }

  lemma {:induction false} InsertWithDate(m: Memory, s: seq<Memory>, dir: Direction, d: Date)
    ensures WithDate(Insert(m, s, dir), d) == (if m.date == d then [m] else []) + WithDate(s, d)
  {
    if s == [] {
    } else if InOrder(m.date, s[0].date, dir) {
      assert ([m] + s)[1..] == s;
    } else {
      InsertWithDate(m, s[1..], dir, d);
      var t := Insert(m, s[1..], dir);
      assert ([s[0]] + t)[1..] == t;
      assert s[0].date != m.date;
    }
  }

  /** The sort returns a permutation of its input, ordered by date in the requested
      direction, with records of equal date in their original order. */
  lemma {:induction false} SortCorrect(s: seq<Memory>, dir: Direction)
    ensures SortedBy(Sort(s, dir), dir)
    ensures multiset(Sort(s, dir)) == multiset(s)
    ensures SameOrderWithinDates(Sort(s, dir), s)
  {
    if s != [] {
      var t := Sort(s[1..], dir);
      SortCorrect(s[1..], dir);
      InsertSorted(s[0], t, dir);
      InsertContents(s[0], t, dir);
      assert s == [s[0]] + s[1..];
      forall d ensures WithDate(Sort(s, dir), d) == WithDate(s, d) {
        InsertWithDate(s[0], t, dir, d);
      }
    }
  }

  lemma WithDateOfHead(s: seq<Memory>)
    ensures s != [] ==> WithDate(s, s[0].date) == [s[0]] + WithDate(s[1..], s[0].date)
  {
  }

  lemma {:induction false} WithDateMembers(s: seq<Memory>, d: Date)
    ensures forall x :: x in WithDate(s, d) ==> x in s && x.date == d
  {
    if s != [] {
      WithDateMembers(s[1..], d);
    }
  }

  /** Being sorted and keeping the order within each date pins the result down: every
      stable sort of the same list returns the same list. */
  lemma {:induction false} StableSortIsUnique(r1: seq<Memory>, r2: seq<Memory>, dir: Direction)
    requires SortedBy(r1, dir) && SortedBy(r2, dir)
    requires forall d :: WithDate(r1, d) == WithDate(r2, d)
    ensures r1 == r2
  {
    WithDateOfHead(r1);
    WithDateOfHead(r2);
    if r1 != [] && r2 != [] {
      var d1, d2 := r1[0].date, r2[0].date;
      WithDateMembers(r1, d2);
      WithDateMembers(r2, d1);
      assert WithDate(r2, d1)[0] in r2;
      assert WithDate(r1, d2)[0] in r1;
      assert InOrder(d2, d1, dir) by {
        var i :| 0 <= i < |r2| && r2[i] == WithDate(r2, d1)[0];
        if i == 0 { NotAfterTotalOrder(d1, d1, d1); }
      }
      assert InOrder(d1, d2, dir) by {
        var i :| 0 <= i < |r1| && r1[i] == WithDate(r1, d2)[0];
        if i == 0 { NotAfterTotalOrder(d2, d2, d2); }
      }
      NotAfterTotalOrder(d1, d2, d2);
      assert r1[0] == r2[0];
      forall d ensures WithDate(r1[1..], d) == WithDate(r2[1..], d) {
        var p := if r1[0].date == d then [r1[0]] else [];
        assert WithDate(r1, d) == p + WithDate(r1[1..], d);
        assert WithDate(r2, d) == p + WithDate(r2[1..], d);
        assert WithDate(r1[1..], d) == WithDate(r1, d)[|p|..];
        assert WithDate(r2[1..], d) == WithDate(r2, d)[|p|..];
      }
      StableSortIsUnique(r1[1..], r2[1..], dir);
      assert r1 == [r1[0]] + r1[1..] && r2 == [r2[0]] + r2[1..];
    }
  }

  // ---------------------------------------------------------------------------
  // The timeline's order and the "together since" date
  // ---------------------------------------------------------------------------

  /** `sortedMemories`: newest first. */
  function DisplayOrder(s: seq<Memory>): (r: seq<Memory>)
    ensures |r| == |s|
  {
    Sort(s, Descending)
  }

  /** The display order is the one and only list that is a newest-first arrangement of
      the collection keeping same-day records in collection order. */
  lemma DisplayOrderCharacterized(s: seq<Memory>, r: seq<Memory>)
    ensures SortedBy(DisplayOrder(s), Descending)
    ensures multiset(DisplayOrder(s)) == multiset(s)
    ensures SameOrderWithinDates(DisplayOrder(s), s)
    ensures SortedBy(r, Descending) && SameOrderWithinDates(r, s) ==> r == DisplayOrder(s)
  {
    SortCorrect(s, Descending);
    if SortedBy(r, Descending) && SameOrderWithinDates(r, s) {
      StableSortIsUnique(r, DisplayOrder(s), Descending);
    }
  }

  /** Used when the collection is empty. */
  const FallbackStartDate: CalendarDate := Date(2023, 1, 1)

  /** `calculatedStartDate`: the first record of the ascending sort, or the fallback. */
  function StartDate(s: seq<Memory>): (d: CalendarDate)
    ensures s == [] ==> d == FallbackStartDate
  {
    if s == [] then FallbackStartDate else Sort(s, Ascending)[0].date
  }

  /** The start date is the fallback for an empty collection, and otherwise a date of the
      collection on or before every record's date. */
  lemma StartDateIsEarliest(s: seq<Memory>)
    ensures s == [] ==> StartDate(s) == Date(2023, 1, 1)
    ensures s != [] ==> exists i :: 0 <= i < |s| && s[i].date == StartDate(s)
    ensures forall i :: 0 <= i < |s| ==> NotAfter(StartDate(s), s[i].date)
  {
    if s != [] {
      var r := Sort(s, Ascending);
      SortCorrect(s, Ascending);
      assert r[0] in multiset(s);
      forall i | 0 <= i < |s| ensures NotAfter(r[0].date, s[i].date) {
        assert s[i] in multiset(r);
        var j :| 0 <= j < |r| && r[j] == s[i];
        NotAfterTotalOrder(r[0].date, r[0].date, r[0].date);
      }
    }
  }

  /** The start date is the date of the last card on the timeline. */
  lemma StartDateIsLastDisplayed(s: seq<Memory>)
    requires s != []
    ensures StartDate(s) == DisplayOrder(s)[|s| - 1].date
  {
    var r := DisplayOrder(s);
    var last := r[|s| - 1];
    SortCorrect(s, Descending);
    StartDateIsEarliest(s);
    assert last in multiset(s);
    var i :| 0 <= i < |s| && s[i] == last;
    var k :| 0 <= k < |s| && s[k].date == StartDate(s);
    assert s[k] in multiset(r);
    var j :| 0 <= j < |r| && r[j] == s[k];
    if j < |s| - 1 {
      assert NotAfter(last.date, r[j].date);
    }
    NotAfterTotalOrder(last.date, StartDate(s), last.date);
  }

  // ---------------------------------------------------------------------------
  // Year headers
  // ---------------------------------------------------------------------------

  /** A header goes before the first card and before a card whose year differs from
      the previous card's. */
  predicate ShowYear(s: seq<Memory>, i: int)
    requires 0 <= i < |s|
    ensures i == 0 ==> ShowYear(s, i)
    ensures 0 < i && s[i].date == s[i - 1].date ==> !ShowYear(s, i)
  {
    i == 0 || s[i].date.year != s[i - 1].date.year
  }

  /** The years of the headers emitted for the cards from index `i` on. */
  function HeaderYearsFrom(s: seq<Memory>, i: int): (r: seq<int>)
    requires 0 <= i <= |s|
    ensures |r| <= |s| - i
    decreases |s| - i
  {
    if i == |s| then []
    else (if ShowYear(s, i) then [s[i].date.year] else []) + HeaderYearsFrom(s, i + 1)
  }

  /** The years of all headers, in display order: one per card that starts a year. */
  function HeaderYears(s: seq<Memory>): (r: seq<int>)
    ensures |r| <= |s|
    ensures s != [] ==> |r| > 0 && r[0] == s[0].date.year
  {
    HeaderYearsFrom(s, 0)
  }

  function YearsFrom(s: seq<Memory>, i: int): set<int>
    requires 0 <= i <= |s|
  {
    set j | i <= j < |s| :: s[j].date.year
  }

  predicate StrictlyDecreasing(ys: seq<int>) {
    forall i, j :: 0 <= i < j < |ys| ==> ys[j] < ys[i]
  }

  /** On a newest-first list no later card has a later year. */
  lemma YearsBelow(s: seq<Memory>, i: int)
    requires SortedBy(s, Descending) && 0 <= i < |s|
    ensures forall j :: i <= j < |s| ==> s[j].date.year <= s[i].date.year
  {
    forall j | i < j < |s| ensures s[j].date.year <= s[i].date.year {
      assert NotAfter(s[j].date, s[i].date);
    }
  }

  lemma {:induction false} HeaderYearsFromSorted(s: seq<Memory>, i: int)
    requires SortedBy(s, Descending) && 1 <= i <= |s|
    ensures StrictlyDecreasing(HeaderYearsFrom(s, i))
    ensures forall y :: y in HeaderYearsFrom(s, i) ==> y < s[i - 1].date.year
    ensures (set y | y in HeaderYearsFrom(s, i)) == YearsFrom(s, i) - {s[i - 1].date.year}
    decreases |s| - i
  {
    if i < |s| {
      HeaderYearsFromSorted(s, i + 1);
      var rest := HeaderYearsFrom(s, i + 1);
      var prev, here := s[i - 1].date.year, s[i].date.year;
      YearsBelow(s, i - 1);
      YearsFromCons(s, i);
      if here == prev {
        assert HeaderYearsFrom(s, i) == rest;
      } else {
        assert HeaderYearsFrom(s, i) == [here] + rest;
        assert prev !in YearsFrom(s, i);
        SetOfCons(here, rest);
        DecreasingCons(here, rest);
      }
    }
  }

  lemma YearsFromCons(s: seq<Memory>, i: int)
    requires 0 <= i < |s|
    ensures YearsFrom(s, i) == {s[i].date.year} + YearsFrom(s, i + 1)
  {
  }

  lemma SetOfCons(x: int, rest: seq<int>)
    ensures (set y | y in [x] + rest) == {x} + (set y | y in rest)
  {
  }

  /** A year above every later one, put in front, keeps the sequence strictly decreasing. */
  lemma DecreasingCons(x: int, rest: seq<int>)
    requires StrictlyDecreasing(rest) && forall y :: y in rest ==> y < x
    ensures StrictlyDecreasing([x] + rest)
  {
    var h := [x] + rest;
    forall a, b | 0 <= a < b < |h| ensures h[b] < h[a] {
      if a == 0 {
        assert h[b] in rest;
      } else {
        assert h[a] == rest[a - 1] && h[b] == rest[b - 1];
      }
    }
  }

  /** On a newest-first list every distinct year gets exactly one header, and the
      headers come in strictly decreasing year order. */
  lemma HeaderYearsOfSorted(s: seq<Memory>)
    requires SortedBy(s, Descending)
    ensures StrictlyDecreasing(HeaderYears(s))
    ensures (set y | y in HeaderYears(s)) == YearsFrom(s, 0)
  {
    if s != [] {
      HeaderYearsFromSorted(s, 1);
      var h := HeaderYears(s);
      var rest := HeaderYearsFrom(s, 1);
      assert h == [s[0].date.year] + rest;
      assert YearsFrom(s, 0) == {s[0].date.year} + YearsFrom(s, 1);
      assert (set y | y in h) == {s[0].date.year} + (set y | y in rest);
      DecreasingCons(s[0].date.year, rest);
    }
  }

  /** The timeline as rendered: one header per year of the collection, newest year first. */
  lemma TimelineHeaders(s: seq<Memory>)
    ensures StrictlyDecreasing(HeaderYears(DisplayOrder(s)))
    ensures (set y | y in HeaderYears(DisplayOrder(s))) == (set m | m in s :: m.date.year)
  {
    var r := DisplayOrder(s);
    SortCorrect(s, Descending);
    HeaderYearsOfSorted(r);
    forall y | y in YearsFrom(r, 0) ensures y in (set m | m in s :: m.date.year) {
      var j :| 0 <= j < |r| && r[j].date.year == y;
      assert r[j] in multiset(s);
    }
    forall y | y in (set m | m in s :: m.date.year) ensures y in YearsFrom(r, 0) {
      var m :| m in s && m.date.year == y;
      assert m in multiset(r);
      var j :| 0 <= j < |r| && r[j] == m;
    }
  }
}
