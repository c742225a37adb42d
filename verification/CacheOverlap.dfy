/**
  Writes that overlap dirty data: where the cache looks a byte up afterwards, and exactly when that
  is right.
*/
module CacheOverlap {
  import opened Common
  import opened CacheRuns

  /** Some run starts behind the first byte of the window, inside it. */
  ghost predicate Inside(m: Runs, k: Loc, n: nat) {
    exists j :: j in m && j.disk == k.disk && k.off < j.off < k.off + n
  }

  /** Some run reaches from the start of the window, or before it, past its end. */
  ghost predicate Beyond(m: Runs, k: Loc, n: nat) {
    exists j :: j in m && j.disk == k.disk && j.off <= k.off && j.off + |m[j]| > k.off + n
  }

  /** A byte of the window is looked up in the run that took the write, any other where there was one before. */
  ghost predicate LooksRight(m: Runs, m': Runs, c: Loc, k: Loc, n: nat, l: Loc) {
    && (Within(k, n, l) ==> RunAt(m', l) == Some(c))
    && (!Within(k, n, l) ==> (RunAt(m', l).Some? <==> RunAt(m, l).Some?))
  }

  ghost predicate Lands(m: Runs, k: Loc, data: Bytes) {
    forall l :: LooksRight(m, Coalesce(m, k, data), CoalescedKey(m, k), k, |data|, l)
  }

  /** The floor is the key with no other between it and the place. */
  lemma FloorIs(keys: set<Loc>, l: Loc, f: Loc)
    requires f in keys && f.disk == l.disk && f.off <= l.off
    requires forall j :: j in keys && j.disk == l.disk && f.off < j.off ==> l.off < j.off
    ensures Floor(keys, l) == Some(f)
  {
    hide Floor;
    var g := Floor(keys, l);
    assert g.Some? && g.value.off == f.off;
  }

  lemma SameFloor(keys: set<Loc>, keys': set<Loc>, l: Loc)
    requires forall j: Loc :: j.disk == l.disk && j.off <= l.off ==> (j in keys <==> j in keys')
    ensures Floor(keys, l) == Floor(keys', l)
  {
    hide Floor;
    var f, g := Floor(keys, l), Floor(keys', l);
    if f.Some? {
      assert g.Some? && g.value in keys;
    }
    if g.Some? {
      assert f.Some? && f.value in keys';
    }
  }

  // ----- the write lands when nothing is inside and nothing reaches beyond

  lemma ReplaceLands(m: Runs, k: Loc, data: Bytes, l: Loc)
    requires Disjoint(m) && data != [] && k in m && !Inside(m, k, |data|) && !Beyond(m, k, |data|)
    ensures LooksRight(m, m[k := data], k, k, |data|, l)
  {
    hide Floor;
    var m' := m[k := data];
    assert m'.Keys == m.Keys;
    if Within(k, |data|, l) {
      FloorIs(m.Keys, l, k);
    }
  }

  lemma AppendLands(m: Runs, p: Loc, k: Loc, data: Bytes, l: Loc)
    requires Disjoint(m) && data != [] && k !in m && !Inside(m, k, |data|)
    requires p in m && p.disk == k.disk && p.off < k.off && p.off + |m[p]| == k.off
    ensures LooksRight(m, m[p := m[p] + data], p, k, |data|, l)
  {
    hide Floor;
    var m' := m[p := m[p] + data];
    assert m'.Keys == m.Keys;
    if Within(k, |data|, l) {
      forall j | j in m && j.disk == l.disk && p.off < j.off
        ensures l.off < j.off
      {
        assert p.off + |m[p]| <= j.off;
        assert j.off == k.off ==> j == k;
      }
      FloorIs(m.Keys, l, p);
    }
  }

  lemma PrependLands(m: Runs, k: Loc, data: Bytes, l: Loc)
    requires Disjoint(m) && data != [] && k !in m && At(k, |data|) in m && !Inside(m, k, |data|)
    ensures LooksRight(m, (m - {At(k, |data|)})[k := data + m[At(k, |data|)]], k, k, |data|, l)
  {
    hide Floor;
    var s := At(k, |data|);
    var m' := (m - {s})[k := data + m[s]];
    assert m'.Keys == m.Keys - {s} + {k};
    if l.disk != k.disk || l.off < k.off {
      SameFloor(m.Keys, m'.Keys, l);
    } else if l.off < s.off + |m[s]| {
      forall j | j in m' && j.disk == l.disk && k.off < j.off
        ensures l.off < j.off
      {
        assert j != s && j in m;
        if j.off > s.off {
          assert s.off + |m[s]| <= j.off;
        }
      }
      FloorIs(m'.Keys, l, k);
      if !Within(k, |data|, l) {
        RunAtIs(m, s, l);
      }
    } else {
      PastSuccessor(m, k, data, l);
    }
  }

  lemma PastSuccessor(m: Runs, k: Loc, data: Bytes, l: Loc)
    requires Disjoint(m) && data != [] && k !in m && At(k, |data|) in m && !Inside(m, k, |data|)
    requires l.disk == k.disk && l.off >= k.off + |data| + |m[At(k, |data|)]|
    ensures LooksRight(m, (m - {At(k, |data|)})[k := data + m[At(k, |data|)]], k, k, |data|, l)
  {
    hide Floor;
    var s := At(k, |data|);
    var m' := (m - {s})[k := data + m[s]];
    var f := Floor(m.Keys, l);
    assert f.Some? && f.value.off >= s.off;
    if f == Some(s) {
      forall j | j in m' && j.disk == l.disk && k.off < j.off
        ensures l.off < j.off
      {
        assert j != s && j in m;
      }
      FloorIs(m'.Keys, l, k);
    } else {
      assert f.value in m' && m'[f.value] == m[f.value];
      FloorIs(m'.Keys, l, f.value);
    }
  }

  lemma InsertLands(m: Runs, k: Loc, data: Bytes, l: Loc)
    requires data != [] && k !in m && !Inside(m, k, |data|) && !Beyond(m, k, |data|)
    ensures LooksRight(m, m[k := data], k, k, |data|, l)
  {
    hide Floor;
    var m' := m[k := data];
    assert m'.Keys == m.Keys + {k};
    if l.disk != k.disk || l.off < k.off {
      SameFloor(m.Keys, m'.Keys, l);
    } else {
      var f := Floor(m.Keys, l);
      if f.Some? && f.value.off > k.off {
        FloorIs(m'.Keys, l, f.value);
      } else {
        forall j | j in m' && j.disk == l.disk && k.off < j.off
          ensures l.off < j.off
        {
          assert j in m;
        }
        FloorIs(m'.Keys, l, k);
      }
    }
  }

  lemma ClearLands(m: Runs, k: Loc, data: Bytes)
    requires Disjoint(m) && data != [] && !Inside(m, k, |data|) && !Beyond(m, k, |data|)
    ensures Lands(m, k, data)
  {
    hide Disjoint, Inside, Beyond, LooksRight, Predecessor, Floor;
    forall l
      ensures LooksRight(m, Coalesce(m, k, data), CoalescedKey(m, k), k, |data|, l)
    {
      if k in m {
        ReplaceLands(m, k, data, l);
      } else if Predecessor(m, k).Some? {
        AppendLands(m, Predecessor(m, k).value, k, data, l);
      } else if At(k, |data|) in m {
        PrependLands(m, k, data, l);
      } else {
        InsertLands(m, k, data, l);
      }
    }
  }

  // ----- and only then

  lemma InsideMisleads(m: Runs, k: Loc, data: Bytes, j: Loc)
    requires Disjoint(m) && j in m && j.disk == k.disk && k.off < j.off < k.off + |data|
    ensures !LooksRight(m, Coalesce(m, k, data), CoalescedKey(m, k), k, |data|, j)
  {
    var m' := Coalesce(m, k, data);
    assert j in m' && m'[j] != [];
    FloorIs(m'.Keys, j, j);
    hide Floor;
  }

  /** The write takes the place of the start of the run that reaches past it, or goes inside it. */
  lemma BeyondReplaces(m: Runs, k: Loc, data: Bytes, j: Loc)
    requires Disjoint(m) && data != [] && j in m && j.disk == k.disk && j.off <= k.off && j.off + |m[j]| > k.off + |data|
    ensures Coalesce(m, k, data) == m[k := data] && At(k, |data|) !in m
  {
    hide Floor;
    assert k in m ==> j == k;
    assert Predecessor(m, k).None? || k in m;
  }

  lemma ShortRunLoses(m: Runs, k: Loc, data: Bytes)
    requires !Inside(m, k, |data|) && At(k, |data|) !in m
    ensures RunAt(m[k := data], At(k, |data|)) == None
  {
    hide Floor;
    var l := At(k, |data|);
    var m' := m[k := data];
    forall i | i in m' && i.disk == l.disk && k.off < i.off
      ensures l.off < i.off
    {
      assert i in m;
      assert i.off == l.off ==> i == l;
    }
    FloorIs(m'.Keys, l, k);
  }

  lemma BeyondLoses(m: Runs, k: Loc, data: Bytes, j: Loc)
    requires Disjoint(m) && data != [] && !Inside(m, k, |data|)
    requires j in m && j.disk == k.disk && j.off <= k.off && j.off + |m[j]| > k.off + |data|
    ensures !LooksRight(m, Coalesce(m, k, data), CoalescedKey(m, k), k, |data|, At(k, |data|))
  {
    hide Disjoint, Inside, Coalesce, CoalescedKey, RunAt;
    BeyondReplaces(m, k, data, j);
    ShortRunLoses(m, k, data);
    RunAtIs(m, j, At(k, |data|));
  }

  /**
    A write over dirty data, whatever it overlaps, is found again and hides no other dirty byte
    exactly when no run starts inside its window and none reaches past it.
  */
  lemma OverlapIsExact(m: Runs, k: Loc, data: Bytes)
    requires Disjoint(m) && data != []
    ensures Lands(m, k, data) <==> !Inside(m, k, |data|) && !Beyond(m, k, |data|)
  {
    if Inside(m, k, |data|) {
      var j :| j in m && j.disk == k.disk && k.off < j.off < k.off + |data|;
      InsideMisleads(m, k, data, j);
    } else if Beyond(m, k, |data|) {
      var j :| j in m && j.disk == k.disk && j.off <= k.off && j.off + |m[j]| > k.off + |data|;
      BeyondLoses(m, k, data, j);
    } else {
      ClearLands(m, k, data);
    }
    hide LooksRight, Coalesce, Disjoint;
  }
}
