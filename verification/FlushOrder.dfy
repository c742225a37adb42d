/**
  The order in which the cache writes dirty runs out, how many bytes a bounded flush frees, and
  when that is within its bound.
*/
module FlushOrder {
  import opened Common
  import opened CacheRuns

  // ----- key order

  predicate Before(a: Loc, b: Loc) {
    a.disk < b.disk || (a.disk == b.disk && a.off < b.off)
  }

  predicate Least(keys: set<Loc>, k: Loc) {
    k in keys && forall j :: j in keys ==> j == k || Before(k, j)
  }

  lemma {:induction false} LeastExists(keys: set<Loc>)
    requires keys != {}
    ensures exists k :: Least(keys, k)
    decreases |keys|
  {
    var x :| x in keys;
    var rest := keys - {x};
    assert forall j :: j in keys ==> j == x || j in rest;
    if rest == {} {
      assert Least(keys, x);
    } else {
      LeastExists(rest);
      var k :| Least(rest, k);
      assert Least(keys, if Before(x, k) then x else k);
    }
  }

  /** The keys of a map, lowest first. */
  ghost function KeyOrder(keys: set<Loc>): (ks: seq<Loc>)
    ensures |ks| == |keys| && forall k :: k in ks <==> k in keys
  {
    if keys == {} then []
    else
      LeastExists(keys);
      var k :| Least(keys, k);
      [k] + KeyOrder(keys - {k})
  }

  lemma KeyOrderStarts(keys: set<Loc>, k: Loc)
    requires Least(keys, k)
    ensures KeyOrder(keys) == [k] + KeyOrder(keys - {k})
  {
  }

  lemma {:induction false} KeyOrderRises(keys: set<Loc>)
    ensures forall i, j :: 0 <= i < j < |KeyOrder(keys)| ==> Before(KeyOrder(keys)[i], KeyOrder(keys)[j])
    decreases |keys|
  {
    hide KeyOrder;
    if keys != {} {
      LeastExists(keys);
      var k :| Least(keys, k);
      KeyOrderStarts(keys, k);
      KeyOrderRises(keys - {k});
      assert forall j :: j in KeyOrder(keys - {k}) ==> Before(k, j);
    }
  }

  method KeysInOrder(keys: set<Loc>) returns (ks: seq<Loc>)
    ensures ks == KeyOrder(keys)
  {
    hide KeyOrder;
    ks := [];
    var rest := keys;
    while rest != {}
      invariant ks + KeyOrder(rest) == KeyOrder(keys)
      decreases |rest|
    {
      LeastExists(rest);
      var k :| k in rest && Least(rest, k);
      KeyOrderStarts(rest, k);
      ks := ks + [k];
      rest := rest - {k};
    }
  }

  // ----- how many bytes

  ghost function TotalBytes(m: Runs): nat
    decreases |m|
  {
    if m == map[] then 0
    else
      var k :| k in m;
      |m[k]| + TotalBytes(m - {k})
  }

  lemma {:induction false} TotalWithout(m: Runs, k: Loc)
    requires k in m
    ensures TotalBytes(m) == |m[k]| + TotalBytes(m - {k})
    decreases |m|
  {
    var j :| j in m && TotalBytes(m) == |m[j]| + TotalBytes(m - {j});
    if j != k {
      TotalWithout(m - {j}, k);
      TotalWithout(m - {k}, j);
      assert m - {j} - {k} == m - {k} - {j};
    }
  }

  lemma TotalPut(m: Runs, k: Loc, data: Bytes)
    ensures TotalBytes(m[k := data]) == |data| + TotalBytes(m - {k})
  {
    TotalWithout(m[k := data], k);
    assert m[k := data] - {k} == m - {k};
  }

  /** The bytes of the runs at these keys. */
  ghost function SumRuns(m: Runs, ks: seq<Loc>): nat
    requires forall k :: k in ks ==> k in m
  {
    if ks == [] then 0 else SumRuns(m, ks[..|ks| - 1]) + |m[ks[|ks| - 1]]|
  }

  lemma {:induction false} SumGrows(m: Runs, ks: seq<Loc>, i: nat, j: nat)
    requires i <= j <= |ks| && forall k :: k in ks ==> k in m
    ensures SumRuns(m, ks[..i]) <= SumRuns(m, ks[..j])
    decreases j
  {
    if i < j {
      assert ks[..j][..j - 1] == ks[..j - 1];
      SumGrows(m, ks, i, j - 1);
    }
  }

  lemma SumOne(m: Runs, ks: seq<Loc>, i: nat)
    requires i < |ks| && forall k :: k in ks ==> k in m
    ensures SumRuns(m, ks[..i + 1]) == SumRuns(m, ks[..i]) + |m[ks[i]]|
  {
    assert ks[..i + 1][..i] == ks[..i];
  }

  lemma {:induction false} SumCons(m: Runs, k: Loc, ks: seq<Loc>)
    requires k in m && forall j :: j in ks ==> j in m
    ensures SumRuns(m, [k] + ks) == |m[k]| + SumRuns(m, ks)
    decreases |ks|
  {
    if ks == [] {
      assert [k] + ks == [k] && [k][..0] == [];
    } else {
      var front := ks[..|ks| - 1];
      assert ([k] + ks)[..|ks|] == [k] + front;
      SumCons(m, k, front);
    }
  }

  lemma {:induction false} SumSame(m: Runs, m': Runs, ks: seq<Loc>)
    requires forall k :: k in ks ==> k in m && k in m' && m[k] == m'[k]
    ensures SumRuns(m, ks) == SumRuns(m', ks)
    decreases |ks|
  {
    if ks != [] {
      SumSame(m, m', ks[..|ks| - 1]);
    }
  }

  /** All runs in key order hold all bytes. */
  lemma {:induction false} SumIsTotal(m: Runs)
    ensures SumRuns(m, KeyOrder(m.Keys)) == TotalBytes(m)
    decreases |m|
  {
    if m != map[] {
      LeastExists(m.Keys);
      var k :| Least(m.Keys, k);
      KeyOrderStarts(m.Keys, k);
      var rest := m - {k};
      assert rest.Keys == m.Keys - {k};
      SumIsTotal(rest);
      hide KeyOrder, TotalBytes;
      TotalWithout(m, k);
      SumSame(m, rest, KeyOrder(rest.Keys));
      SumCons(m, k, KeyOrder(rest.Keys));
    }
  }

  /** How many keys a flush takes: up to the first point where enough is freed. */
  ghost function StopAt(m: Runs, ks: seq<Loc>, bound: nat, i: nat): (n: nat)
    requires i <= |ks| && forall k :: k in ks ==> k in m
    ensures i <= n <= |ks| && (n < |ks| ==> SumRuns(m, ks[..n]) >= bound)
    ensures n > i ==> SumRuns(m, ks[..n - 1]) < bound
    decreases |ks| - i
  {
    if i == |ks| || SumRuns(m, ks[..i]) >= bound then i else StopAt(m, ks, bound, i + 1)
  }

  /** The bytes a flush with this bound frees. */
  ghost function Freed(m: Runs, bound: nat): nat {
    var ks := KeyOrder(m.Keys);
    SumRuns(m, ks[..StopAt(m, ks, bound, 0)])
  }

  /** Some lowest runs together are exactly as long as the bound. */
  ghost predicate MeetsExactly(m: Runs, bound: nat) {
    exists i :: 0 <= i <= |KeyOrder(m.Keys)| && SumRuns(m, KeyOrder(m.Keys)[..i]) == bound
  }

  /** A flush frees at least its bound or everything, and goes over by less than the last run it takes. */
  lemma FreedIsClose(m: Runs, bound: nat)
    ensures bound <= Freed(m, bound) <= TotalBytes(m) || Freed(m, bound) == TotalBytes(m)
    ensures Freed(m, bound) > bound ==>
      var ks := KeyOrder(m.Keys);
      var n := StopAt(m, ks, bound, 0);
      n > 0 && Freed(m, bound) - bound < |m[ks[n - 1]]|
  {
    hide KeyOrder, TotalBytes, SumRuns, StopAt;
    var ks := KeyOrder(m.Keys);
    var n := StopAt(m, ks, bound, 0);
    SumIsTotal(m);
    assert ks[..|ks|] == ks;
    SumGrows(m, ks, n, |ks|);
    if n > 0 {
      SumOne(m, ks, n - 1);
    } else {
      SumNone(m, ks);
    }
  }

  lemma SumNone(m: Runs, ks: seq<Loc>)
    requires forall k :: k in ks ==> k in m
    ensures SumRuns(m, ks[..0]) == 0
  {
  }

  lemma ExactIsKept(m: Runs, bound: nat)
    requires MeetsExactly(m, bound)
    ensures Freed(m, bound) == bound
  {
    hide KeyOrder, SumRuns, StopAt;
    var ks := KeyOrder(m.Keys);
    var n := StopAt(m, ks, bound, 0);
    var i :| 0 <= i <= |ks| && SumRuns(m, ks[..i]) == bound;
    assert ks[..|ks|] == ks;
    if n <= i {
      SumGrows(m, ks, n, i);
      if n == |ks| {
        SumGrows(m, ks, i, n);
      }
    } else {
      SumGrows(m, ks, i, n - 1);
    }
  }

  /** A flush stays within its bound exactly when everything fits or the lowest runs add up to the bound. */
  lemma BoundIsKept(m: Runs, bound: nat)
    ensures Freed(m, bound) <= bound <==> TotalBytes(m) <= bound || MeetsExactly(m, bound)
  {
    FreedIsClose(m, bound);
    if MeetsExactly(m, bound) {
      ExactIsKept(m, bound);
    }
    hide KeyOrder, TotalBytes, SumRuns;
    if Freed(m, bound) == bound {
      var ks := KeyOrder(m.Keys);
      assert SumRuns(m, ks[..StopAt(m, ks, bound, 0)]) == bound;
    }
  }

  /** One run of two bytes against a bound of one: two bytes are written. */
  lemma FlushOvershoots(k: Loc, a: byte, b: byte)
    ensures Freed(map[k := [a, b]], 1) == 2
  {
    var m: Runs := map[k := [a, b]];
    assert m.Keys == {k} && Least(m.Keys, k);
    KeyOrderStarts(m.Keys, k);
    assert m.Keys - {k} == {};
    var ks := KeyOrder(m.Keys);
    assert ks == [k];
    assert ks[..0] == [] && ks[..1] == [k];
    SumOne(m, ks, 0);
  }

  // ----- the loop that takes runs out

  /** The dirty runs left after the first i keys are taken. */
  ghost function Rest(m: Runs, ks: seq<Loc>, i: nat): Runs
    requires i <= |ks|
  {
    map k | k in m && k !in ks[..i] :: m[k]
  }

  lemma TakeNone(m: Runs, ks: seq<Loc>, bound: Option<nat>)
    requires ks == KeyOrder(m.Keys)
    ensures Rest(m, ks, 0) == m && SumRuns(m, ks[..0]) == 0
  {
    hide KeyOrder;
  }

  lemma TakeOne(m: Runs, ks: seq<Loc>, i: nat, bound: Option<nat>)
    requires ks == KeyOrder(m.Keys) && i < |ks|
    ensures ks[i] in Rest(m, ks, i) && Rest(m, ks, i)[ks[i]] == m[ks[i]]
    ensures Rest(m, ks, i + 1) == Rest(m, ks, i) - {ks[i]}
    ensures SumRuns(m, ks[..i + 1]) == SumRuns(m, ks[..i]) + |m[ks[i]]|
    ensures bound.Some? && SumRuns(m, ks[..i]) < bound.value ==>
      StopAt(m, ks, bound.value, i) == StopAt(m, ks, bound.value, i + 1)
  {
    SumOne(m, ks, i);
    hide KeyOrder, SumRuns;
    KeyOrderRises(m.Keys);
    RestNext(m, ks, i);
    hide Rest;
  }

  lemma RestNext(m: Runs, ks: seq<Loc>, i: nat)
    requires i < |ks| && ks[i] in m && forall j :: 0 <= j < i ==> Before(ks[j], ks[i])
    ensures ks[i] in Rest(m, ks, i) && Rest(m, ks, i)[ks[i]] == m[ks[i]]
    ensures Rest(m, ks, i + 1) == Rest(m, ks, i) - {ks[i]}
  {
    assert ks[..i + 1] == ks[..i] + [ks[i]];
    assert ks[i] !in ks[..i];
  }

  /** What is left and what was taken are all there was. */
  lemma {:induction false} RestTotals(m: Runs, ks: seq<Loc>, i: nat)
    requires ks == KeyOrder(m.Keys) && i <= |ks|
    ensures SumRuns(m, ks[..i]) + TotalBytes(Rest(m, ks, i)) == TotalBytes(m)
    ensures |Rest(m, ks, i)| == |m| - i
  {
    hide KeyOrder, TotalBytes, SumRuns, StopAt, Rest;
    if i == 0 {
      TakeNone(m, ks, None);
    } else {
      RestTotals(m, ks, i - 1);
      TakeOne(m, ks, i - 1, None);
      TotalWithout(Rest(m, ks, i - 1), ks[i - 1]);
      var before := Rest(m, ks, i - 1);
      assert (before - {ks[i - 1]}).Keys == before.Keys - {ks[i - 1]};
    }
  }

  lemma TakeDone(m: Runs, ks: seq<Loc>, i: nat, bound: Option<nat>)
    requires ks == KeyOrder(m.Keys) && i <= |ks|
    requires i == |ks| || (bound.Some? && SumRuns(m, ks[..i]) >= bound.value)
    requires bound.Some? ==> StopAt(m, ks, bound.value, i) == StopAt(m, ks, bound.value, 0)
    ensures SumRuns(m, ks[..i]) + TotalBytes(Rest(m, ks, i)) == TotalBytes(m)
    ensures bound.Some? ==> SumRuns(m, ks[..i]) == Freed(m, bound.value)
    ensures i == |ks| ==> Rest(m, ks, i) == map[]
    ensures SumRuns(m, ks[..i]) > 0 ==> |Rest(m, ks, i)| < |m|
  {
    RestTotals(m, ks, i);
    if bound.Some? {
      assert StopAt(m, ks, bound.value, i) == i;
    }
    if i == 0 {
      TakeNone(m, ks, bound);
    }
    hide KeyOrder, TotalBytes, SumRuns, StopAt;
    if i == |ks| {
      assert |Rest(m, ks, i)| == 0;
    }
  }
}
