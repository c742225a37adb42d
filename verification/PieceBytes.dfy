/** Exact accounting of the bytes received for one piece. */
module PieceBytes {
  import opened Common
  import opened Ranges

  class PieceBytes {
    var ranges: seq<Range>
    var total: nat

    ghost predicate Valid()
      reads this
    {
      Tidy(ranges) && total == |Points(ranges)|
    }

    /** The offsets received so far. */
    ghost function Received(): set<int>
      reads this
    {
      Points(ranges)
    }

    constructor ()
      ensures Valid() && Received() == {}
    {
      ranges, total := [], 0;
    }

    /** Adds a window; returns how many of its bytes were missing. */
    method Add(start: nat, end: nat) returns (fresh_: nat)
      requires Valid()
      modifies this
      ensures Valid() && Received() == old(Received()) + Span(start, end)
      ensures fresh_ == |Span(start, end) - old(Received())| && total == old(total) + fresh_
    {
      if end <= start {
        assert Span(start, end) == {};
        return 0;
      }
      MissingCounts(ranges, start, end);
      fresh_ := CountMissing(start, end);
      if fresh_ == 0 {
        assert Span(start, end) - Received() == {};
        assert Received() == old(Received()) + Span(start, end) by { Subset(start, end, Received()); }
        return;
      }
      assert Points(ranges) + Span(start, end) == Points(ranges) + (Span(start, end) - Points(ranges));
      ranges := AddAndMerge(ranges, Range(start, end));
      total := total + fresh_;
    }

    method CountMissing(start: nat, end: nat) returns (missing: nat)
      requires Valid() && start < end
      ensures missing == end - start - OverlapSum(ranges, start, end)
    {
      missing := end - start;
      var i := 0;
      assert ranges[..0] == [];
      while i < |ranges|
        invariant 0 <= i <= |ranges|
        invariant missing == end - start - OverlapSum(ranges[..i], start, end)
      {
        var r := ranges[i];
        assert ranges[..i + 1][..i] == ranges[..i];
        if r.hi > start {
          if r.lo >= end {
            NoLaterOverlap(ranges, i, start, end);
            return;
          }
          OverlapBound(ranges, i + 1, start, end);
          var overlap := Min(end, r.hi) - Max(start, r.lo);
          missing := SaturatingSub(missing, overlap);
        }
        i := i + 1;
      }
      assert ranges[..i] == ranges;
    }

    /** Whether a non-empty window is fully received. */
    method Covers(start: nat, end: nat) returns (covered: bool)
      requires Valid()
      ensures start < end ==> (covered <==> Span(start, end) <= Received())
    {
      var i := 0;
      while i < |ranges|
        invariant 0 <= i <= |ranges|
        invariant start < end ==> forall j :: 0 <= j < i ==> ranges[j].lo <= start && ranges[j].hi < end
      {
        var r := ranges[i];
        if r.lo <= start && end <= r.hi {
          assert Span(start, end) <= Received() by { InsideOne(ranges, i, start, end); }
          return true;
        }
        if r.lo > start {
          break;
        }
        i := i + 1;
      }
      covered := false;
      if start < end {
        NotCovered(ranges, i, start, end);
      }
    }

    /** The parts of a window that are still missing. */
    method NewRanges(start: nat, end: nat) returns (out: seq<Range>)
      requires Valid()
      ensures Tidy(out) && Points(out) == Span(start, end) - Received()
      ensures SumLen(out) == |Span(start, end) - Received()|
    {
      hide Points, Span, SumLen, Tidy;
      out := Missing(ranges, start, end);
      SumLenCounts(out);
    }
  }

  // ----- scanning for the missing parts

  /** Ranges below `i` are done: `out` is what is missing between `start` and `cur`. */
  ghost predicate Scanned(rs: seq<Range>, i: nat, start: int, end: int, cur: int, out: seq<Range>) {
    && Tidy(rs) && i <= |rs| && start <= cur && (cur > start ==> cur <= end)
    && Tidy(out) && (out != [] ==> out[|out| - 1].hi < cur)
    && Points(out) == Span(start, cur) - Points(rs)
    && (forall j :: 0 <= j < i ==> rs[j].hi <= cur || cur >= end)
    && (cur > start ==> forall j :: i <= j < |rs| ==> cur < rs[j].lo)
  }

  lemma ScanStarts(rs: seq<Range>, start: int, end: int)
    requires Tidy(rs)
    ensures Scanned(rs, 0, start, end, start, [])
  {
  }

  lemma ScanSkips(rs: seq<Range>, i: nat, start: int, end: int, cur: int, out: seq<Range>)
    requires i < |rs| && Scanned(rs, i, start, end, cur, out) && rs[i].hi <= cur
    ensures Scanned(rs, i + 1, start, end, cur, out)
  {
  }

  lemma ScanKeeps(rs: seq<Range>, i: nat, start: nat, end: nat, cur: nat, out: seq<Range>)
    requires i < |rs| && Scanned(rs, i, start, end, cur, out) && cur < rs[i].hi && rs[i].lo < end
    ensures var out' := if rs[i].lo > cur then out + [Range(cur, Min(rs[i].lo, end))] else out;
      Scanned(rs, i + 1, start, end, Max(cur, Min(rs[i].hi, end)), out')
  {
    hide Points, Span;
    var r := rs[i];
    var next := Max(cur, Min(r.hi, end));
    if r.lo > cur {
      Gap(rs, i, start, cur, r.lo, out);
      Covered(rs, i, start, r.lo, next);
    } else {
      Covered(rs, i, start, cur, next);
    }
  }

  lemma ScanEnds(rs: seq<Range>, i: nat, start: nat, end: nat, cur: nat, out: seq<Range>)
    requires Scanned(rs, i, start, end, cur, out) && (i < |rs| && cur < end ==> end <= rs[i].lo)
    ensures var out' := if cur < end then out + [Range(cur, end)] else out;
      Tidy(out') && Points(out') == Span(start, end) - Points(rs)
  {
    hide Points, Span;
    if cur < end {
      Gap(rs, i, start, cur, end, out);
    } else {
      SpanOver(start, cur, end);
    }
  }

  /** One pass over the ranges collects the gaps of the window. */
  method Missing(ranges: seq<Range>, start: nat, end: nat) returns (out: seq<Range>)
    requires Tidy(ranges)
    ensures Tidy(out) && Points(out) == Span(start, end) - Points(ranges)
  {
    hide Scanned, Points, Span, Tidy;
    out := [];
    var cur: nat := start;
    var i := 0;
    ScanStarts(ranges, start, end);
    while i < |ranges|
      invariant 0 <= i <= |ranges| && Scanned(ranges, i, start, end, cur, out)
    {
      var r := ranges[i];
      if r.hi > cur {
        if r.lo >= end {
          break;
        }
        ScanKeeps(ranges, i, start, end, cur, out);
        if r.lo > cur {
          out := out + [Range(cur, Min(r.lo, end))];
        }
        cur := Max(cur, Min(r.hi, end));
        if cur >= end {
          i := i + 1;
          break;
        }
      } else {
        ScanSkips(ranges, i, start, end, cur, out);
      }
      i := i + 1;
    }
    ScanEnds(ranges, i, start, end, cur, out);
    if cur < end {
      out := out + [Range(cur, end)];
    }
  }

  lemma Subset(start: int, end: int, s: set<int>)
    requires Span(start, end) - s == {}
    ensures s == s + Span(start, end)
  {
    forall x | x in Span(start, end)
      ensures x in s
    {
      assert x !in Span(start, end) - s;
    }
  }

  lemma SpanOver(start: int, cur: int, end: int)
    requires cur == start >= end || cur == end
    ensures Span(start, cur) == Span(start, end)
  {
  }

  lemma OverlapBound(rs: seq<Range>, k: nat, a: int, b: int)
    requires Tidy(rs) && k <= |rs| && a <= b
    ensures OverlapSum(rs[..k], a, b) <= b - a
  {
    MissingCounts(rs[..k], a, b);
  }

  /** Between `cur` and `mid` nothing is received: the stretch joins the missing part. */
  lemma Gap(rs: seq<Range>, i: nat, start: int, cur: nat, mid: nat, out: seq<Range>)
    requires Tidy(rs) && i <= |rs| && start <= cur < mid
    requires forall j :: 0 <= j < i ==> rs[j].hi <= cur
    requires i < |rs| ==> mid <= rs[i].lo
    requires Points(out) == Span(start, cur) - Points(rs)
    ensures Points(out + [Range(cur, mid)]) == Span(start, mid) - Points(rs)
  {
    PointsSnoc(out, Range(cur, mid));
    forall x | x in Span(cur, mid)
      ensures x !in Points(rs)
    {
      PointsAre(rs, x);
    }
    assert Span(start, mid) == Span(start, cur) + Span(cur, mid);
  }

  /** Between `cur` and `next` everything is received: the missing part stays as it is. */
  lemma Covered(rs: seq<Range>, i: nat, start: int, cur: int, next: int)
    requires i < |rs| && start <= cur <= next && (cur < next ==> rs[i].lo <= cur && next <= rs[i].hi)
    ensures Span(start, next) - Points(rs) == Span(start, cur) - Points(rs)
  {
    forall x | x in Span(cur, next)
      ensures x in Points(rs)
    {
      PointsAre(rs, x);
    }
    assert Span(start, next) == Span(start, cur) + Span(cur, next);
  }

  lemma InsideOne(rs: seq<Range>, i: nat, start: int, end: int)
    requires i < |rs| && rs[i].lo <= start && end <= rs[i].hi
    ensures Span(start, end) <= Points(rs)
  {
    forall x | x in Span(start, end)
      ensures x in Points(rs)
    {
      PointsAre(rs, x);
    }
  }

  /** Ranges that start at or before the window but end inside it, then only later ones: some byte is missing. */
  lemma NotCovered(rs: seq<Range>, i: nat, start: int, end: int)
    requires Tidy(rs) && i <= |rs| && start < end
    requires forall j :: 0 <= j < i ==> rs[j].lo <= start && rs[j].hi < end
    requires i < |rs| ==> rs[i].lo > start
    ensures !(Span(start, end) <= Points(rs))
  {
    var x := if i > 0 && rs[i - 1].hi > start then rs[i - 1].hi else start;
    assert x in Span(start, end);
    PointsAre(rs, x);
    assert forall j :: 0 <= j < i - 1 ==> rs[j].hi < rs[i - 1].lo;
  }
}
