/**
  The evidence behind download receipts. Hashing and signing are left abstract: a receipt carries
  the sample hashes that its data proof is the digest of.
*/
module ReceiptBook {
  import opened Common
  import opened Ranges

  const MIN_COVERAGE_PERMILLE := 900

  type Hash = Bytes
  datatype Sample = Sample(offset: nat, hash: Hash)
  datatype Receipt = Receipt(start: nat, end: nat, bytesReceived: nat, proof: seq<Hash>)

  /** Hashes of the samples inside a range, in the order they were recorded. */
  function Inside(samples: seq<Sample>, start: nat, end: nat): seq<Hash> {
    if samples == [] then []
    else Inside(samples[..|samples| - 1], start, end)
         + if start <= samples[|samples| - 1].offset < end then [samples[|samples| - 1].hash] else []
  }

  lemma {:induction false} InsideMeans(samples: seq<Sample>, start: nat, end: nat)
    ensures Inside(samples, start, end) != [] <==> exists i :: 0 <= i < |samples| && start <= samples[i].offset < end
  {
    if samples != [] {
      InsideMeans(samples[..|samples| - 1], start, end);
      if start <= samples[|samples| - 1].offset < end {
        assert Inside(samples, start, end) != [];
      }
    }
  }

  ghost predicate HasSample(samples: seq<Sample>, start: nat, end: nat) {
    exists i :: 0 <= i < |samples| && start <= samples[i].offset < end
  }

  class Book {
    var ranges: seq<Range>
    var samples: seq<Sample>
    var bytes: nat

    ghost predicate Valid()
      reads this
    {
      Tidy(ranges)
    }

    /** The distinct offsets recorded. */
    ghost function Recorded(): set<int>
      reads this
    {
      Points(ranges)
    }

    constructor ()
      ensures Valid() && Recorded() == {} && samples == [] && bytes == 0
    {
      ranges, samples, bytes := [], [], 0;
    }

    /** Records a window; the running byte count counts repeats. */
    method RecordRange(start: nat, end: nat)
      requires Valid()
      modifies this`ranges, this`bytes
      ensures Valid() && Recorded() == old(Recorded()) + Span(start, end)
      ensures bytes == old(bytes) + if start < end then end - start else 0
    {
      if end <= start {
        assert Span(start, end) == {};
        return;
      }
      ranges := AddAndMerge(ranges, Range(start, end));
      bytes := bytes + (end - start);
    }

    /** Any sequence of windows, in any order and with any overlap. */
    method RecordAll(windows: seq<Range>)
      requires Valid()
      modifies this`ranges, this`bytes
      ensures Valid() && Recorded() == old(Recorded()) + Points(windows)
    {
      for i := 0 to |windows|
        invariant Valid() && Recorded() == old(Recorded()) + Points(windows[..i])
      {
        assert windows[..i + 1] == windows[..i] + [windows[i]];
        PointsSnoc(windows[..i], windows[i]);
        RecordRange(windows[i].lo, windows[i].hi);
      }
      assert windows[..|windows|] == windows;
    }

    /** Records a sample unless its offset is taken. */
    method RecordSample(offset: nat, hash: Hash)
      modifies this`samples
      ensures (exists i :: 0 <= i < |old(samples)| && old(samples)[i].offset == offset) ==> samples == old(samples)
      ensures (forall i :: 0 <= i < |old(samples)| ==> old(samples)[i].offset != offset) ==>
        samples == old(samples) + [Sample(offset, hash)]
    {
      for i := 0 to |samples|
        invariant forall j :: 0 <= j < i ==> samples[j].offset != offset
      {
        if samples[i].offset == offset {
          return;
        }
      }
      samples := samples + [Sample(offset, hash)];
    }

    /** Number of distinct recorded bytes in a window. */
    method Coverage(start: nat, end: nat) returns (covered: nat)
      requires Valid()
      ensures covered == |Recorded() * Span(start, end)|
    {
      covered := 0;
      for i := 0 to |ranges|
        invariant covered == OverlapSum(ranges[..i], start, end)
      {
        assert ranges[..i + 1][..i] == ranges[..i];
        var lo, hi := Max(ranges[i].lo, start), Min(ranges[i].hi, end);
        if hi > lo {
          covered := covered + (hi - lo);
        }
      }
      assert ranges[..|ranges|] == ranges;
      OverlapCounts(ranges, start, end);
    }

    /** The samples a data proof is built from, if any lies in the range. */
    method DataProof(start: nat, end: nat) returns (proof: Option<seq<Hash>>)
      ensures proof.Some? <==> HasSample(samples, start, end)
      ensures proof.Some? ==> proof.value == Inside(samples, start, end)
    {
      var inside: seq<Hash> := [];
      for i := 0 to |samples|
        invariant inside == Inside(samples[..i], start, end)
      {
        assert samples[..i + 1][..i] == samples[..i];
        if start <= samples[i].offset < end {
          inside := inside + [samples[i].hash];
        }
      }
      assert samples[..|samples|] == samples;
      InsideMeans(samples, start, end);
      proof := if inside == [] then None else Some(inside);
    }

    /**
      A receipt is built exactly when nine tenths of the distinct bytes of a non-empty range were
      recorded and a sample lies inside it; it states exactly the number of those bytes.
    */
    method BuildReceipt(start: nat, end: nat) returns (receipt: Option<Receipt>)
      requires Valid()
      ensures receipt.Some? <==>
        start < end && 10 * |Recorded() * Span(start, end)| >= 9 * (end - start) && HasSample(samples, start, end)
      ensures receipt.Some? ==>
        && receipt.value.start == start && receipt.value.end == end
        && receipt.value.bytesReceived == |Recorded() * Span(start, end)|
        && receipt.value.proof == Inside(samples, start, end)
    {
      var total := if end > start then end - start else 0;
      var covered := Coverage(start, end);
      if total == 0 {
        return None;
      }
      PermilleFloor(covered, total);
      if covered * 1000 / total < MIN_COVERAGE_PERMILLE {
        return None;
      }
      var proof := DataProof(start, end);
      if proof.None? {
        return None;
      }
      receipt := Some(Receipt(start, end, covered, proof.value));
    }
  }

  lemma PermilleFloor(covered: nat, total: nat)
    requires total > 0
    ensures covered * 1000 / total < MIN_COVERAGE_PERMILLE <==> 10 * covered < 9 * total
  {
    var q := covered * 1000 / total;
    assert q * total <= covered * 1000 < (q + 1) * total;
    if q < MIN_COVERAGE_PERMILLE {
      assert (q + 1) * total <= MIN_COVERAGE_PERMILLE * total;
    } else {
      assert MIN_COVERAGE_PERMILLE * total <= q * total;
    }
  }

  /** Below offset 2^40 the scaled count fits a 64-bit integer. */
  lemma ScaledCountFits(recorded: set<int>, start: nat, end: nat)
    requires start <= end < 0x100_0000_0000
    ensures |recorded * Span(start, end)| * 1000 < 0x1_0000_0000_0000_0000
  {
    SpanSize(start, end);
    assert Span(start, end) == recorded * Span(start, end) + (Span(start, end) - recorded);
  }
}
