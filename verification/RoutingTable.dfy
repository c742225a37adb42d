/**
 * The routing table as the program keeps it (`src/dht.rs`): 160 vectors
 * edited in place, and the search for the nodes closest to a target.
 */
module RoutingTable {
  import opened Common
  import opened NodeIds
  import opened Routing

  // ---------------------------------------------------------------------
  // What `closest` returns
  // ---------------------------------------------------------------------

  lemma {:induction false} PlaceOnce(e: Entry, s: Nodes, target: Id)
    requires OnceEach(s) && forall n :: n in s ==> n.id != e.id
    ensures OnceEach(Place(e, s, target))
  {
    hide Nearer;
    if s != [] && !Nearer(e, s[0], target) {
      assert forall n :: n in s[1..] ==> n.id != s[0].id;
      PlaceOnce(e, s[1..], target);
      assert forall n :: n in Place(e, s[1..], target) ==> n.id != s[0].id;
    }
  }

  lemma {:induction false} SortedOnce(s: Nodes, target: Id)
    requires OnceEach(s)
    ensures OnceEach(Sorted(s, target))
  {
    if s != [] {
      SortedOnce(s[..|s| - 1], target);
      PlaceOnce(s[|s| - 1], Sorted(s[..|s| - 1], target), target);
    }
  }

  lemma {:induction false} FlatOnce(own: Id, k: nat, t: Table)
    requires forall i: nat :: i < |t| ==> BucketOk(own, k, i, t[i])
    ensures OnceEach(Flat(t))
    ensures forall n :: n in Flat(t) ==> BucketIndex(own, n.id) < |t|
  {
    hide BucketIndex;
    if t != [] {
      var init, last := t[..|t| - 1], t[|t| - 1];
      assert forall i: nat :: i < |init| ==> init[i] == t[i];
      FlatOnce(own, k, init);
      assert BucketOk(own, k, |t| - 1, last);
      assert forall n :: n in last ==> BucketIndex(own, n.id) == |t| - 1;
      Join(Flat(init), last);
    }
  }

  lemma Join(a: Nodes, b: Nodes)
    requires OnceEach(a) && OnceEach(b)
    requires forall m, n :: m in a && n in b ==> m.id != n.id
    ensures OnceEach(a + b)
  {
    forall p, q | 0 <= p < q < |a + b| ensures (a + b)[p].id != (a + b)[q].id {
      if p < |a| <= q {
        assert a[p] in a && b[q - |a|] in b;
      }
    }
  }

  lemma StrictlyOrdered(s: Nodes, target: Id)
    requires OnceEach(s) && Ordered(s, target)
    ensures Rising(s, target)
  {
    hide Dist;
    forall p, q | 0 <= p < q < |s| ensures Dist(s[p].id, target) < Dist(s[q].id, target) {
      if Dist(s[p].id, target) == Dist(s[q].id, target) {
        DistIsInjective(s[p].id, s[q].id, target);
      }
    }
  }

  /** A cut through a rising list leaves the nearer part before it. */
  lemma CutSplits(s: Nodes, m: nat, target: Id)
    requires Rising(s, target) && m <= |s|
    ensures Rising(s[..m], target)
    ensures forall e, x :: e in s && e !in s[..m] && x in s[..m] ==> Dist(x.id, target) < Dist(e.id, target)
  {
    hide Dist;
    var r := s[..m];
    assert forall q :: 0 <= q < m ==> s[q] == r[q];
    forall e, x | e in s && e !in r && x in r ensures Dist(x.id, target) < Dist(e.id, target) {
      var q :| 0 <= q < |s| && s[q] == e;
      var p :| 0 <= p < m && s[p] == x;
    }
  }

  /** Sorting everything and cutting after n is what `closest` promises. */
  lemma SortedCutIsClosest(own: Id, k: nat, t: Table, target: Id, n: nat)
    requires Kept(own, k, t)
    ensures var s := Sorted(Flat(t), target);
            IsClosest(t, target, n, s[..Min(n, |s|)])
  {
    var all := Flat(t);
    var s := Sorted(all, target);
    assert forall e :: e in s <==> Has(t, e);
    FlatOnce(own, k, t);
    SortedOnce(all, target);
    SortedIsOrdered(all, target);
    StrictlyOrdered(s, target);
    CutSplits(s, Min(n, |s|), target);
    hide Sorted, Flat, Dist, Kept, Has, OnceEach, Ordered, Rising;
  }

  /** Two such lists cannot part. */
  lemma NoParting(t: Table, target: Id, n: nat, a: Nodes, b: Nodes, i: nat)
    requires IsClosest(t, target, n, a) && IsClosest(t, target, n, b)
    requires i < |a| == |b| && forall p :: 0 <= p < i ==> a[p] == b[p]
    ensures Dist(b[i].id, target) >= Dist(a[i].id, target)
  {
    hide Dist, Flat, Has;
    assert b[i] in b && a[i] in a;
  }

  lemma SameNext(own: Id, k: nat, t: Table, target: Id, n: nat, a: Nodes, b: Nodes, i: nat)
    requires Kept(own, k, t)
    requires IsClosest(t, target, n, a) && IsClosest(t, target, n, b)
    requires i < |a| == |b| && forall p :: 0 <= p < i ==> a[p] == b[p]
    ensures a[i] == b[i]
  {
    hide Dist, Flat, Kept, Rising, Has;
    NoParting(t, target, n, a, b, i);
    NoParting(t, target, n, b, a, i);
    DistIsInjective(a[i].id, b[i].id, target);
    assert a[i] in a && b[i] in b;
    OneEntryPerId(own, k, t, a[i], b[i]);
  }

  /** There is only one list of the n nearest entries. */
  lemma ClosestIsUnique(own: Id, k: nat, t: Table, target: Id, n: nat, a: Nodes, b: Nodes)
    requires Kept(own, k, t)
    requires IsClosest(t, target, n, a) && IsClosest(t, target, n, b)
    ensures a == b
  {
    assert |a| == |b|;
    hide IsClosest, Kept;
    var i := 0;
    while i < |a|
      invariant i <= |a| && forall p :: 0 <= p < i ==> a[p] == b[p]
    {
      SameNext(own, k, t, target, n, a, b, i);
      i := i + 1;
    }
  }

  // ---------------------------------------------------------------------
  // In place
  // ---------------------------------------------------------------------

  lemma {:induction false} FindSeesIds(a: Nodes, b: Nodes, id: Id)
    requires |a| == |b| && forall p :: 0 <= p < |a| ==> a[p].id == b[p].id
    ensures Find(a, id) == Find(b, id)
  {
    if a != [] {
      FindSeesIds(a[1..], b[1..], id);
    }
  }

  lemma FailureStays(own: Id, k: nat, t: Table, id: Id, now: nat)
    requires Kept(own, k, t)
    ensures Kept(own, k, Failed(own, t, id, now))
  {
    FailureKeeps(own, k, t, id, now);
  }

  class RoutingTable {
    const id: Id
    const k: nat
    var buckets: Table

    ghost predicate Valid()
      reads this
    {
      Kept(id, k, buckets)
    }

    constructor (id: Id, k: nat)
      ensures this.id == id && this.k == k
      ensures Valid() && buckets == Empty(160)
    {
      this.id, this.k := id, k;
      var list: Table := [];
      for i := 0 to 160
        invariant list == Empty(i)
      {
        list := list + [[]];
      }
      buckets := list;
    }

    /** Drop every entry at an endpoint. */
    method Retain(addr: Endpoint)
      requires |buckets| == 160
      modifies this
      ensures buckets == DropEndpoint(old(buckets), addr)
    {
      ghost var all := DropEndpoint(buckets, addr);
      for i := 0 to 160
        invariant |buckets| == 160
        invariant forall j :: 0 <= j < i ==> buckets[j] == all[j]
        invariant forall j :: i <= j < 160 ==> buckets[j] == old(buckets)[j]
      {
        buckets := buckets[i := Without(buckets[i], addr)];
      }
      assert buckets == all;
    }

    method InsertNode(e: Entry, now: nat) returns (ok: bool)
      requires Valid()
      modifies this
      ensures Valid()
      ensures (buckets, ok) == Insert(id, k, old(buckets), e, now)
    {
      InsertKeeps(id, k, buckets, e, now);
      hide BucketInsert, BucketOk, Apart;
      if e.id == id {
        return false;
      }
      if e.id != ZERO {
        Retain(e.addr);
      }
      var i := FindBucket(id, e.id);
      var r := BucketInsert(buckets[i], e, now, k);
      buckets := buckets[i := r.0];
      ok := r.1;
    }

    method Contains(other: Id) returns (r: bool)
      requires Valid()
      ensures r <==> exists n :: Has(buckets, n) && n.id == other
    {
      var i := FindBucket(id, other);
      var at := Find(buckets[i], other);
      r := at.Some?;
      if at.Some? {
        assert Has(buckets, buckets[i][at.value]);
      }
      hide BucketIndex;
      forall n | Has(buckets, n) && n.id == other ensures r {
        OneEntryPerId(id, k, buckets, n, n);
      }
    }

    method OnFailure(other: Id, now: nat)
      requires Valid()
      modifies this
      ensures Valid()
      ensures buckets == Failed(id, old(buckets), other, now)
    {
      FailureStays(id, k, buckets, other, now);
      hide BucketOk, Apart, BucketIndex;
      var i := FindBucket(id, other);
      var nodes := buckets[i];
      var at := Find(nodes, other);
      if at.Some? {
        var n := Failing(nodes[at.value], now);
        nodes := nodes[at.value := n];
        if n.failed > 3 {
          FindSeesIds(buckets[i], nodes, other);
          hide Find;
          var again := Find(nodes, other);
          if again.Some? {
            nodes := RemoveAt(nodes, again.value);
          }
        }
        buckets := buckets[i := nodes];
      }
    }

    method OnResponse(other: Id, addr: Endpoint, now: nat)
      requires Valid()
      modifies this
      ensures Valid()
      ensures buckets == Insert(id, k, old(buckets), Entry(other, addr, now, 0), now).0
    {
      var _ := InsertNode(Entry(other, addr, now, 0), now);
    }

    /** The n known nodes nearest to the target, nearest first. */
    method Closest(target: Id, n: nat) returns (r: Nodes)
      requires Valid()
      ensures IsClosest(buckets, target, n, r)
    {
      var all: Nodes := [];
      for i := 0 to 160
        invariant all == Flat(buckets[..i])
      {
        assert buckets[..i + 1][..i] == buckets[..i];
        all := all + buckets[i];
      }
      assert buckets[..160] == buckets;
      SortedCutIsClosest(id, k, buckets, target, n);
      hide IsClosest;
      var s := Sorted(all, target);
      r := s[..Min(n, |s|)];
    }
  }
}
