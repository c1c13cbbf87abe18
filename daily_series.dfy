/**
 * Daily points and the two list operations the pipeline applies to them:
 * keep-the-first-occurrence-of-each-date (the reverse downsampling scan of
 * parseFromPdf.js and lodash `uniqBy(..., p => p.date)` in index.js) and the
 * descending sort by date of index.js.
 */
module DailySeries {

  /** `{ date, value }`: a calendar date string and an integer percentage. */
  datatype DailyPoint = DailyPoint(date: string, value: int)

  /** `{ points }`: one chart's series, as a page yields it and as mobility.json stores it. */
  datatype ChartSeries = ChartSeries(points: seq<DailyPoint>)

  /** The dates that occur in a series. */
  function DateSet(s: seq<DailyPoint>): set<string>
  {
    set p | p in s :: p.date
  }

  /** No date occurs twice. */
  predicate DistinctDates(s: seq<DailyPoint>)
  {
    forall i, j :: 0 <= i < j < |s| ==> s[i].date != s[j].date
  }

  /** The position of the first point that carries date `d`. */
  function FirstIndex(s: seq<DailyPoint>, d: string): (i: nat)
    requires d in DateSet(s)
    ensures i < |s| && s[i].date == d
    ensures forall j :: 0 <= j < i ==> s[j].date != d
  {
    if s[0].date == d then 0
    else
      assert exists p :: p in s[1..] && p.date == d by {
        var p :| p in s && p.date == d;
        var k :| 0 <= k < |s| && s[k] == p;
        assert k != 0 && s[1..][k - 1] == p;
      }
      FirstIndex(s[1..], d) + 1
  }

  /** The position of the last point that carries date `d`. */
  function LastIndex(s: seq<DailyPoint>, d: string): (i: nat)
    requires d in DateSet(s)
    ensures i < |s| && s[i].date == d
    ensures forall j :: i < j < |s| ==> s[j].date != d
  {
    if s[|s| - 1].date == d then |s| - 1
    else
      assert exists p :: p in s[..|s| - 1] && p.date == d by {
        var p :| p in s && p.date == d;
        var k :| 0 <= k < |s| && s[k] == p;
        assert k != |s| - 1 && s[..|s| - 1][k] == p;
      }
      LastIndex(s[..|s| - 1], d)
  }

  /** The series read back to front. */
  function Reverse(s: seq<DailyPoint>): seq<DailyPoint>
  {
    seq(|s|, i requires 0 <= i < |s| => s[|s| - 1 - i])
  }

  /**
   * Scan front to back and keep a point only when its date has not been
   * kept yet: the first point of every date survives, in scan order.
   */
  function UniqByDate(s: seq<DailyPoint>): seq<DailyPoint>
  {
    if s == [] then []
    else
      var kept := UniqByDate(s[..|s| - 1]);
      if s[|s| - 1].date in DateSet(kept) then kept else kept + [s[|s| - 1]]
  }

  lemma ReverseDates(s: seq<DailyPoint>)
    ensures DateSet(Reverse(s)) == DateSet(s)
    ensures DistinctDates(s) ==> DistinctDates(Reverse(s))
  {
    var r := Reverse(s);
    forall p | p in s ensures p in r {
      var k :| 0 <= k < |s| && s[k] == p;
      assert r[|s| - 1 - k] == p;
    }
    forall p | p in r ensures p in s {
      var k :| 0 <= k < |r| && r[k] == p;
      assert s[|s| - 1 - k] == p;
    }
  }

  /** The first occurrence in the reversed series is the last occurrence in the series. */
  lemma FirstIndexOfReverse(s: seq<DailyPoint>, d: string)
    requires d in DateSet(s)
    ensures d in DateSet(Reverse(s)) && FirstIndex(Reverse(s), d) == |s| - 1 - LastIndex(s, d)
  {
    FirstIndexUnique(Reverse(s), d, |s| - 1 - LastIndex(s, d));
  }

  lemma FirstIndexUnique(s: seq<DailyPoint>, d: string, i: nat)
    requires i < |s| && s[i].date == d
    requires forall j :: 0 <= j < i ==> s[j].date != d
    ensures d in DateSet(s) && FirstIndex(s, d) == i
  {
    assert s[i] in s;
  }

  lemma FirstIndexPrefix(s: seq<DailyPoint>, t: seq<DailyPoint>, d: string)
    requires d in DateSet(s)
    ensures d in DateSet(s + t) && FirstIndex(s + t, d) == FirstIndex(s, d)
  {
    var i := FirstIndex(s, d);
    FirstIndexUnique(s + t, d, i);
  }

  lemma DateSetConcat(s: seq<DailyPoint>, t: seq<DailyPoint>)
    ensures DateSet(s + t) == DateSet(s) + DateSet(t)
  {
    assert forall p :: p in s + t <==> p in s || p in t;
  }

  lemma FirstIndexSuffix(s: seq<DailyPoint>, t: seq<DailyPoint>, d: string)
    requires d !in DateSet(s) && d in DateSet(t)
    ensures d in DateSet(s + t) && FirstIndex(s + t, d) == |s| + FirstIndex(t, d)
  {
    forall j | 0 <= j < |s| ensures (s + t)[j].date != d {
      assert s[j] in s;
    }
    FirstIndexUnique(s + t, d, |s| + FirstIndex(t, d));
  }

  lemma DateSetAppend(s: seq<DailyPoint>, x: DailyPoint)
    ensures DateSet(s + [x]) == DateSet(s) + {x.date}
  {
    assert forall p :: p in s + [x] <==> p in s || p == x;
  }

  /** Keeping the first occurrences loses no date and adds none. */
  lemma {:induction false} UniqByDateDates(s: seq<DailyPoint>)
    ensures DateSet(UniqByDate(s)) == DateSet(s)
    ensures |UniqByDate(s)| <= |s|
  {
    if s != [] {
      var s', x := s[..|s| - 1], s[|s| - 1];
      assert s == s' + [x];
      UniqByDateDates(s');
      DateSetAppend(s', x);
      DateSetAppend(UniqByDate(s'), x);
    }
  }

  /** No date is kept twice. */
  lemma {:induction false} UniqByDateDistinct(s: seq<DailyPoint>)
    ensures DistinctDates(UniqByDate(s))
  {
    if s != [] {
      var s', x := s[..|s| - 1], s[|s| - 1];
      UniqByDateDistinct(s');
      var u' := UniqByDate(s');
      if x.date !in DateSet(u') {
        var u := u' + [x];
        forall i, j | 0 <= i < j < |u| ensures u[i].date != u[j].date {
          if j == |u'| {
            assert u[i] in u';
          } else {
            assert u[i] == u'[i] && u[j] == u'[j];
          }
        }
      }
    }
  }

  /** The point kept for a date is the first point in `s` with that date. */
  lemma {:induction false} UniqByDateFirstWins(s: seq<DailyPoint>)
    ensures forall p :: p in UniqByDate(s) ==>
      p.date in DateSet(s) && p == s[FirstIndex(s, p.date)]
  {
    if s != [] {
      var s', x := s[..|s| - 1], s[|s| - 1];
      assert s == s' + [x];
      UniqByDateFirstWins(s');
      UniqByDateDates(s');
      var u' := UniqByDate(s');
      forall p | p in UniqByDate(s)
        ensures p.date in DateSet(s) && p == s[FirstIndex(s, p.date)]
      {
        if p in u' {
          FirstIndexPrefix(s', [x], p.date);
        } else {
          assert p == x && x.date !in DateSet(s');
          forall j | 0 <= j < |s'| ensures s[j].date != x.date {
            assert s'[j] in s';
          }
          FirstIndexUnique(s, x.date, |s'|);
        }
      }
    }
  }

  /** The first-occurrence property for one kept point. */
  lemma UniqByDateFirstWinsAt(s: seq<DailyPoint>, p: DailyPoint)
    requires p in UniqByDate(s)
    ensures p.date in DateSet(s) && p == s[FirstIndex(s, p.date)]
  {
    UniqByDateFirstWins(s);
  }

  /** A point kept from `s` keeps its first-occurrence position once more points follow. */
  lemma KeptFirstIndex(s: seq<DailyPoint>, x: DailyPoint, p: DailyPoint)
    requires p in UniqByDate(s)
    ensures p.date in DateSet(s) && p.date in DateSet(s + [x])
    ensures FirstIndex(s + [x], p.date) == FirstIndex(s, p.date) < |s|
  {
    UniqByDateDates(s);
    assert p.date in DateSet(UniqByDate(s));
    FirstIndexPrefix(s, [x], p.date);
  }

  /** A point whose date is new first occurs at the end. */
  lemma NewFirstIndex(s: seq<DailyPoint>, x: DailyPoint)
    requires x.date !in DateSet(s)
    ensures x.date in DateSet(s + [x]) && FirstIndex(s + [x], x.date) == |s|
  {
    forall k | 0 <= k < |s| ensures (s + [x])[k].date != x.date {
      assert s[k] in s;
    }
    FirstIndexUnique(s + [x], x.date, |s|);
  }

  /** The points kept from `s` appear in the order in which their dates first occur. */
  predicate KeptInFirstOrder(s: seq<DailyPoint>)
  {
    && (forall p :: p in UniqByDate(s) ==> p.date in DateSet(s))
    && (forall i, j :: 0 <= i < j < |UniqByDate(s)| ==>
          FirstIndex(s, UniqByDate(s)[i].date) < FirstIndex(s, UniqByDate(s)[j].date))
  }

  /** Kept points appear in the order in which their dates first occur in `s`. */
  lemma {:induction false} UniqByDateOrder(s: seq<DailyPoint>)
    ensures forall p :: p in UniqByDate(s) ==> p.date in DateSet(s)
    ensures forall i, j :: 0 <= i < j < |UniqByDate(s)| ==>
      FirstIndex(s, UniqByDate(s)[i].date) < FirstIndex(s, UniqByDate(s)[j].date)
  {
    KeptInFirstOrderHolds(s);
  }

  lemma {:induction false} KeptInFirstOrderHolds(s: seq<DailyPoint>)
    ensures KeptInFirstOrder(s)
  {
    if s != [] {
      var s', x := s[..|s| - 1], s[|s| - 1];
      assert s == s' + [x];
      KeptInFirstOrderHolds(s');
      if x.date in DateSet(UniqByDate(s')) {
        KeptInFirstOrderOld(s', x);
      } else {
        KeptInFirstOrderNew(s', x);
      }
    }
  }

  lemma KeptInFirstOrderOld(s: seq<DailyPoint>, x: DailyPoint)
    requires KeptInFirstOrder(s) && x.date in DateSet(UniqByDate(s))
    ensures KeptInFirstOrder(s + [x])
  {
    var u := UniqByDate(s);
    assert (s + [x])[..|s + [x]| - 1] == s;
    assert UniqByDate(s + [x]) == u;
    forall p | p in u ensures p.date in DateSet(s + [x]) {
      KeptFirstIndex(s, x, p);
    }
    forall i, j | 0 <= i < j < |u|
      ensures FirstIndex(s + [x], u[i].date) < FirstIndex(s + [x], u[j].date)
    {
      KeptFirstIndex(s, x, u[i]);
      KeptFirstIndex(s, x, u[j]);
    }
  }

  lemma KeptInFirstOrderNew(s: seq<DailyPoint>, x: DailyPoint)
    requires KeptInFirstOrder(s) && x.date !in DateSet(UniqByDate(s))
    ensures KeptInFirstOrder(s + [x])
  {
    var u' := UniqByDate(s);
    var u := u' + [x];
    assert (s + [x])[..|s + [x]| - 1] == s;
    assert UniqByDate(s + [x]) == u;
    UniqByDateDates(s);
    NewFirstIndex(s, x);
    forall p | p in u ensures p.date in DateSet(s + [x]) {
      if p != x {
        KeptFirstIndex(s, x, p);
      }
    }
    forall i, j | 0 <= i < j < |u|
      ensures FirstIndex(s + [x], u[i].date) < FirstIndex(s + [x], u[j].date)
    {
      assert u[i] == u'[i];
      KeptFirstIndex(s, x, u'[i]);
      if j < |u'| {
        assert u[j] == u'[j];
        KeptFirstIndex(s, x, u'[j]);
      }
    }
  }

  /** A series whose dates are already distinct is left as it is. */
  lemma {:induction false} UniqByDateOfDistinct(s: seq<DailyPoint>)
    requires DistinctDates(s)
    ensures UniqByDate(s) == s
  {
    if s != [] {
      var s', x := s[..|s| - 1], s[|s| - 1];
      assert s == s' + [x];
      UniqByDateOfDistinct(s');
      UniqByDateDates(s');
    }
  }

  /** Appending points whose dates are all already present changes nothing. */
  lemma {:induction false} UniqByDateAbsorbs(s: seq<DailyPoint>, t: seq<DailyPoint>)
    requires DateSet(t) <= DateSet(s)
    ensures UniqByDate(s + t) == UniqByDate(s)
  {
    if t == [] {
      assert s + t == s;
    } else {
      var t', x := t[..|t| - 1], t[|t| - 1];
      assert t == t' + [x];
      DateSetAppend(t', x);
      UniqByDateAbsorbs(s, t');
      assert (s + t)[..|s + t| - 1] == s + t';
      UniqByDateDates(s);
      assert x in t;
    }
  }

  // ---------------------------------------------------------------------
  // Ordering of date strings and the descending sort.

  /** JavaScript's `<` on strings: lexicographic comparison of characters. */
  predicate StrLess(a: string, b: string)
  {
    if |a| == 0 then |b| > 0
    else |b| > 0 && (a[0] < b[0] || (a[0] == b[0] && StrLess(a[1..], b[1..])))
  }

  lemma {:induction false} StrLessIrreflexive(a: string)
    ensures !StrLess(a, a)
  {
    if |a| > 0 {
      StrLessIrreflexive(a[1..]);
    }
  }

  lemma {:induction false} StrLessTransitive(a: string, b: string, c: string)
    requires StrLess(a, b) && StrLess(b, c)
    ensures StrLess(a, c)
  {
    if |a| > 0 && a[0] == b[0] && b[0] == c[0] {
      StrLessTransitive(a[1..], b[1..], c[1..]);
    }
  }

  lemma {:induction false} StrLessTotal(a: string, b: string)
    ensures a == b || StrLess(a, b) || StrLess(b, a)
  {
    if |a| > 0 && |b| > 0 && a[0] == b[0] {
      StrLessTotal(a[1..], b[1..]);
      if a[1..] == b[1..] {
        assert a == [a[0]] + a[1..] && b == [b[0]] + b[1..];
      }
    }
  }

  lemma StrLessAsymmetric(a: string, b: string)
    requires StrLess(a, b)
    ensures !StrLess(b, a)
  {
    if StrLess(b, a) {
      StrLessTransitive(a, b, a);
      StrLessIrreflexive(a);
    }
  }

  /** Every later point carries a strictly earlier date. */
  predicate StrictlyDescending(s: seq<DailyPoint>)
  {
    forall i, j :: 0 <= i < j < |s| ==> StrLess(s[j].date, s[i].date)
  }

  /** Insert `x` before the first point whose date is earlier than `x`'s. */
  function InsertByDateDesc(x: DailyPoint, s: seq<DailyPoint>): seq<DailyPoint>
  {
    if s == [] then [x]
    else if StrLess(s[0].date, x.date) then [x] + s
    else [s[0]] + InsertByDateDesc(x, s[1..])
  }

  /**
   * `points.sort((a, b) => time(b.date) - time(a.date))`: a stable sort,
   * latest date first.
   */
  function SortByDateDesc(s: seq<DailyPoint>): seq<DailyPoint>
  {
    if s == [] then []
    else InsertByDateDesc(s[|s| - 1], SortByDateDesc(s[..|s| - 1]))
  }

  lemma {:induction false} InsertByDateDescPermutes(x: DailyPoint, s: seq<DailyPoint>)
    ensures multiset(InsertByDateDesc(x, s)) == multiset(s) + multiset{x}
  {
    if s != [] && !StrLess(s[0].date, x.date) {
      InsertByDateDescPermutes(x, s[1..]);
      assert s == [s[0]] + s[1..];
    }
  }

  lemma {:induction false} InsertByDateDescMembers(x: DailyPoint, s: seq<DailyPoint>)
    ensures forall p :: p in InsertByDateDesc(x, s) <==> p == x || p in s
  {
    InsertByDateDescPermutes(x, s);
    assert forall p :: p in InsertByDateDesc(x, s) <==> p in multiset(InsertByDateDesc(x, s));
  }

  lemma HeadIsLatest(s: seq<DailyPoint>, p: DailyPoint)
    requires StrictlyDescending(s) && |s| > 0 && p in s[1..]
    ensures StrLess(p.date, s[0].date)
  {
    var k :| 0 <= k < |s[1..]| && s[1..][k] == p;
    assert s[k + 1] == p;
  }

  lemma {:induction false} InsertByDateDescSorted(x: DailyPoint, s: seq<DailyPoint>)
    requires StrictlyDescending(s) && x.date !in DateSet(s)
    ensures StrictlyDescending(InsertByDateDesc(x, s))
  {
    if s == [] {
    } else if StrLess(s[0].date, x.date) {
      var r := [x] + s;
      forall i, j | 0 <= i < j < |r| ensures StrLess(r[j].date, r[i].date) {
        if i == 0 && j > 1 {
          StrLessTransitive(s[j - 1].date, s[0].date, x.date);
        } else if i > 0 {
          assert r[i] == s[i - 1] && r[j] == s[j - 1];
        }
      }
    } else {
      assert s[0] in s;
      StrLessTotal(s[0].date, x.date);
      assert StrLess(x.date, s[0].date);
      var rest := InsertByDateDesc(x, s[1..]);
      assert DateSet(s[1..]) <= DateSet(s) by {
        forall p | p in s[1..] ensures p in s { }
      }
      InsertByDateDescSorted(x, s[1..]);
      InsertByDateDescMembers(x, s[1..]);
      var r := [s[0]] + rest;
      forall i, j | 0 <= i < j < |r| ensures StrLess(r[j].date, r[i].date) {
        if i == 0 {
          assert r[j] in rest;
          if r[j] != x {
            HeadIsLatest(s, r[j]);
          }
        } else {
          assert r[i] == rest[i - 1] && r[j] == rest[j - 1];
        }
      }
    }
  }

  /** Sorting rearranges the points and nothing else. */
  lemma {:induction false} SortByDateDescPermutes(s: seq<DailyPoint>)
    ensures multiset(SortByDateDesc(s)) == multiset(s)
  {
    if s != [] {
      var s', x := s[..|s| - 1], s[|s| - 1];
      assert s == s' + [x];
      SortByDateDescPermutes(s');
      InsertByDateDescPermutes(x, SortByDateDesc(s'));
    }
  }

  lemma DateSetOfPermutation(s: seq<DailyPoint>, t: seq<DailyPoint>)
    requires multiset(s) == multiset(t)
    ensures DateSet(s) == DateSet(t)
  {
    assert forall p :: p in s <==> p in multiset(s);
    assert forall p :: p in t <==> p in multiset(t);
  }

  /** Sorting points with distinct dates orders them strictly latest first. */
  lemma {:induction false} SortByDateDescSorted(s: seq<DailyPoint>)
    requires DistinctDates(s)
    ensures StrictlyDescending(SortByDateDesc(s))
  {
    if s != [] {
      var s', x := s[..|s| - 1], s[|s| - 1];
      assert s == s' + [x];
      SortByDateDescSorted(s');
      SortByDateDescPermutes(s');
      DateSetOfPermutation(s', SortByDateDesc(s'));
      InsertByDateDescSorted(x, SortByDateDesc(s'));
    }
  }

  lemma {:induction false} InsertByDateDescAtEnd(x: DailyPoint, s: seq<DailyPoint>)
    requires forall p :: p in s ==> StrLess(x.date, p.date)
    ensures InsertByDateDesc(x, s) == s + [x]
  {
    if s != [] {
      assert s[0] in s;
      StrLessAsymmetric(x.date, s[0].date);
      assert forall p :: p in s[1..] ==> p in s;
      InsertByDateDescAtEnd(x, s[1..]);
      assert s == [s[0]] + s[1..];
    }
  }

  /** A series already strictly latest-first is its own sort. */
  lemma {:induction false} SortByDateDescOfSorted(s: seq<DailyPoint>)
    requires StrictlyDescending(s)
    ensures SortByDateDesc(s) == s
  {
    if s != [] {
      var s', x := s[..|s| - 1], s[|s| - 1];
      assert s == s' + [x];
      assert StrictlyDescending(s');
      SortByDateDescOfSorted(s');
      forall p | p in s' ensures StrLess(x.date, p.date) {
        var k :| 0 <= k < |s'| && s'[k] == p;
        assert s[k] == p;
      }
      InsertByDateDescAtEnd(x, s');
    }
  }

  /** A strictly descending series has distinct dates. */
  lemma DescendingIsDistinct(s: seq<DailyPoint>)
    requires StrictlyDescending(s)
    ensures DistinctDates(s)
  {
    forall i, j | 0 <= i < j < |s| ensures s[i].date != s[j].date {
      StrLessIrreflexive(s[i].date);
    }
  }
}
