/** Lists of byte ranges and the sets of offsets they stand for. */
module Ranges {
  import opened Common

  datatype Range = Range(lo: nat, hi: nat)

  predicate Between(lo: int, x: int, hi: int) {
    lo <= x < hi
  }

  ghost function Span(lo: int, hi: int): set<int> {
    set x | lo <= x < hi && Between(lo, x, hi)
  }

  ghost function Points(rs: seq<Range>): set<int> {
    if rs == [] then {} else Points(rs[..|rs| - 1]) + Span(rs[|rs| - 1].lo, rs[|rs| - 1].hi)
  }

  /** Non-empty, in order, and with a gap between neighbours. */
  ghost predicate Tidy(rs: seq<Range>) {
    && (forall i :: 0 <= i < |rs| ==> rs[i].lo < rs[i].hi)
    && forall i, j :: 0 <= i < j < |rs| ==> rs[i].hi < rs[j].lo
  }

  lemma {:induction false} SpanSize(lo: int, hi: int)
    ensures |Span(lo, hi)| == if lo <= hi then hi - lo else 0
    decreases hi - lo
  {
    if lo < hi {
      SpanSize(lo, hi - 1);
      assert Span(lo, hi) == Span(lo, hi - 1) + {hi - 1};
    } else {
      assert Span(lo, hi) == {};
    }
  }

  lemma SpanMeet(lo: int, hi: int, a: int, b: int)
    ensures Span(lo, hi) * Span(a, b) == Span(Max(a, lo), Min(b, hi))
  {
  }

  lemma {:induction false} PointsAre(rs: seq<Range>, x: int)
    ensures x in Points(rs) <==> exists i :: 0 <= i < |rs| && rs[i].lo <= x < rs[i].hi
    decreases |rs|
  {
    if rs != [] {
      var front, last := rs[..|rs| - 1], rs[|rs| - 1];
      PointsAre(front, x);
      if x in Points(front) {
        var i :| 0 <= i < |front| && front[i].lo <= x < front[i].hi;
        assert rs[i] == front[i];
      }
      if i :| 0 <= i < |rs| && rs[i].lo <= x < rs[i].hi && i < |front| {
        assert front[i].lo <= x < front[i].hi;
      }
    }
  }

  lemma PointsSnoc(rs: seq<Range>, r: Range)
    ensures Points(rs + [r]) == Points(rs) + Span(r.lo, r.hi)
  {
    assert (rs + [r])[..|rs|] == rs;
  }

  // ----- counting

  function Overlap(r: Range, a: int, b: int): nat {
    Max(0, Min(b, r.hi) - Max(a, r.lo))
  }

  function OverlapSum(rs: seq<Range>, a: int, b: int): nat {
    if rs == [] then 0 else OverlapSum(rs[..|rs| - 1], a, b) + Overlap(rs[|rs| - 1], a, b)
  }

  lemma TidyFront(rs: seq<Range>)
    requires Tidy(rs) && rs != []
    ensures Tidy(rs[..|rs| - 1])
    ensures Points(rs[..|rs| - 1]) !! Span(rs[|rs| - 1].lo, rs[|rs| - 1].hi)
  {
    var front := rs[..|rs| - 1];
    forall x | x in Points(front)
      ensures x < rs[|rs| - 1].lo
    {
      PointsAre(front, x);
    }
  }

  /** The overlaps with a window add up to the number of offsets in both. */
  lemma {:induction false} OverlapCounts(rs: seq<Range>, a: int, b: int)
    requires Tidy(rs)
    ensures OverlapSum(rs, a, b) == |Points(rs) * Span(a, b)|
    decreases |rs|
  {
    if rs == [] {
      assert Points(rs) * Span(a, b) == {};
    } else {
      var front, last := rs[..|rs| - 1], rs[|rs| - 1];
      TidyFront(rs);
      hide Span, Tidy;
      OverlapCounts(front, a, b);
      assert Points(rs) * Span(a, b) == Points(front) * Span(a, b) + Span(last.lo, last.hi) * Span(a, b);
      SpanMeet(last.lo, last.hi, a, b);
      SpanSize(Max(a, last.lo), Min(b, last.hi));
    }
  }

  lemma MissingCounts(rs: seq<Range>, a: int, b: int)
    requires Tidy(rs) && a <= b
    ensures |Span(a, b) - Points(rs)| == b - a - OverlapSum(rs, a, b)
  {
    OverlapCounts(rs, a, b);
    SpanSize(a, b);
    assert Span(a, b) == (Span(a, b) - Points(rs)) + Points(rs) * Span(a, b);
  }

  function SumLen(rs: seq<Range>): int {
    if rs == [] then 0 else SumLen(rs[..|rs| - 1]) + (rs[|rs| - 1].hi - rs[|rs| - 1].lo)
  }

  lemma {:induction false} SumLenCounts(rs: seq<Range>)
    requires Tidy(rs)
    ensures SumLen(rs) == |Points(rs)|
    decreases |rs|
  {
    if rs != [] {
      TidyFront(rs);
      SumLenCounts(rs[..|rs| - 1]);
      SpanSize(rs[|rs| - 1].lo, rs[|rs| - 1].hi);
    }
  }

  lemma {:induction false} NoLaterOverlap(rs: seq<Range>, k: nat, a: int, b: int)
    requires Tidy(rs) && k <= |rs| && (k < |rs| ==> b <= rs[k].lo)
    ensures OverlapSum(rs, a, b) == OverlapSum(rs[..k], a, b)
    decreases |rs|
  {
    if k == |rs| {
      assert rs[..k] == rs;
    } else {
      var front := rs[..|rs| - 1];
      if k < |front| {
        NoLaterOverlap(front, k, a, b);
        assert front[..k] == rs[..k];
      } else {
        assert rs[..k] == front;
      }
    }
  }

  // ----- sorting and merging

  predicate Leq(a: Range, b: Range) {
    a.lo < b.lo || (a.lo == b.lo && a.hi <= b.hi)
  }

  predicate InOrder(rs: seq<Range>) {
    forall i, j :: 0 <= i < j < |rs| ==> Leq(rs[i], rs[j])
  }

  function Insert(r: Range, s: seq<Range>): (t: seq<Range>)
    ensures multiset(t) == multiset(s) + multiset{r}
  {
    if s == [] then [r]
    else if Leq(r, s[0]) then [r] + s
    else
      assert s == [s[0]] + s[1..];
      [s[0]] + Insert(r, s[1..])
  }

  function Sort(s: seq<Range>): (t: seq<Range>)
    ensures multiset(t) == multiset(s)
  {
    if s == [] then []
    else
      assert s == [s[0]] + s[1..];
      Insert(s[0], Sort(s[1..]))
  }

  lemma {:induction false} InsertOrders(r: Range, s: seq<Range>)
    requires InOrder(s)
    ensures InOrder(Insert(r, s))
  {
    if s != [] && !Leq(r, s[0]) {
      InsertOrders(r, s[1..]);
      var t := Insert(r, s[1..]);
      forall j | 0 <= j < |t|
        ensures Leq(s[0], t[j])
      {
        assert t[j] in multiset(t);
        assert t[j] == r || t[j] in s[1..];
      }
    }
  }

  lemma {:induction false} SortOrders(s: seq<Range>)
    ensures InOrder(Sort(s))
  {
    if s != [] {
      SortOrders(s[1..]);
      InsertOrders(s[0], Sort(s[1..]));
    }
  }

  /** A set of offsets depends only on which ranges there are. */
  lemma PointsOfSame(s: seq<Range>, t: seq<Range>)
    requires multiset(s) == multiset(t)
    ensures Points(s) == Points(t)
  {
    forall x
      ensures x in Points(s) <==> x in Points(t)
    {
      PointsAre(s, x);
      PointsAre(t, x);
      if i :| 0 <= i < |s| && s[i].lo <= x < s[i].hi {
        assert s[i] in multiset(t);
      }
      if i :| 0 <= i < |t| && t[i].lo <= x < t[i].hi {
        assert t[i] in multiset(s);
      }
    }
  }

  /** One range onto the end of a merged list. */
  function Absorb(merged: seq<Range>, r: Range): seq<Range> {
    if merged != [] && r.lo <= merged[|merged| - 1].hi then
      var last := merged[|merged| - 1];
      merged[..|merged| - 1] + [Range(last.lo, Max(last.hi, r.hi))]
    else merged + [r]
  }

  lemma AbsorbKeeps(merged: seq<Range>, r: Range)
    requires Tidy(merged) && r.lo < r.hi && (merged != [] ==> merged[|merged| - 1].lo <= r.lo)
    ensures var m := Absorb(merged, r);
      Tidy(m) && Points(m) == Points(merged) + Span(r.lo, r.hi) && m != [] && m[|m| - 1].lo <= r.lo
  {
    if merged != [] && r.lo <= merged[|merged| - 1].hi {
      var front, last := merged[..|merged| - 1], merged[|merged| - 1];
      var wide := Range(last.lo, Max(last.hi, r.hi));
      PointsSnoc(front, wide);
      assert Span(wide.lo, wide.hi) == Span(last.lo, last.hi) + Span(r.lo, r.hi);
    } else {
      PointsSnoc(merged, r);
    }
  }

  /** Merges an ordered list into a tidy one. */
  method Merge(ranges: seq<Range>) returns (merged: seq<Range>)
    requires InOrder(ranges) && forall i :: 0 <= i < |ranges| ==> ranges[i].lo < ranges[i].hi
    ensures Tidy(merged) && Points(merged) == Points(ranges)
  {
    hide Points, Span, Absorb;
    merged := [];
    assert Points(ranges[..0]) == Points(merged);
    for i := 0 to |ranges|
      invariant Tidy(merged) && Points(merged) == Points(ranges[..i])
      invariant merged != [] ==> i > 0 && merged[|merged| - 1].lo <= ranges[i - 1].lo
    {
      var r := ranges[i];
      AbsorbKeeps(merged, r);
      assert ranges[..i + 1] == ranges[..i] + [r];
      PointsSnoc(ranges[..i], r);
      merged := Absorb(merged, r);
    }
    assert ranges[..|ranges|] == ranges;
  }

  /** Pushes one range, sorts and merges. */
  method AddAndMerge(ranges: seq<Range>, r: Range) returns (merged: seq<Range>)
    requires Tidy(ranges) && r.lo < r.hi
    ensures Tidy(merged) && Points(merged) == Points(ranges) + Span(r.lo, r.hi)
  {
    var pushed := ranges + [r];
    var sorted := Sort(pushed);
    SortOrders(pushed);
    PointsSnoc(ranges, r);
    PointsOfSame(pushed, sorted);
    forall i | 0 <= i < |sorted|
      ensures sorted[i].lo < sorted[i].hi
    {
      assert sorted[i] in multiset(pushed);
    }
    merged := Merge(sorted);
  }
}
