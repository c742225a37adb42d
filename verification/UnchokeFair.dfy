/** What the selection of unchoked peers guarantees when connection ids are distinct. */
module UnchokeFair {
  import opened Common
  import opened Unchoke

  predicate Distinct(all: seq<Cand>) {
    forall i, j :: 0 <= i < j < |all| ==> all[i].id != all[j].id
  }

  predicate NoDup(acc: seq<Id>) {
    forall i, j :: 0 <= i < j < |acc| ==> acc[i] != acc[j]
  }

  predicate Known(all: seq<Cand>, acc: seq<Id>) {
    forall id :: id in acc ==> ScoreOf(all, id).Some?
  }

  function Score(all: seq<Cand>, id: Id): int {
    if ScoreOf(all, id).Some? then ScoreOf(all, id).value else 0
  }

  lemma {:induction false} ScoreAt(all: seq<Cand>, i: nat)
    requires Distinct(all) && i < |all|
    ensures ScoreOf(all, all[i].id) == Some(all[i].score)
    decreases |all|
  {
    if i > 0 {
      assert all[0].id != all[i].id;
      ScoreAt(all[1..], i - 1);
    }
  }

  lemma {:induction false} IndexOf(all: seq<Cand>, id: Id) returns (i: nat)
    requires ScoreOf(all, id).Some?
    ensures i < |all| && all[i] == Cand(id, ScoreOf(all, id).value)
  {
    if all[0].id == id {
      i := 0;
    } else {
      i := IndexOf(all[1..], id);
      i := i + 1;
    }
  }

  // ----- the helpers of the displacement step

  /** A member that can be displaced. */
  predicate Plain(p: Policy, id: Id) {
    p.optimistic != Some(id)
  }

  lemma {:induction false} WeakestIs(all: seq<Cand>, p: Policy, acc: seq<Id>)
    requires Known(all, acc)
    ensures var w := Weakest(all, p, acc);
      && (w.None? ==> forall id :: id in acc ==> !Plain(p, id))
      && (w.Some? ==> forall id :: id in acc && Plain(p, id) ==> w.value <= Score(all, id))
      && (w.Some? ==> Victim(all, p, acc, w.value).Some?)
  {
    if acc != [] {
      WeakestIs(all, p, acc[1..]);
      var w := Weakest(all, p, acc);
      forall id | id in acc && Plain(p, id)
        ensures w.Some? && w.value <= Score(all, id)
      {
        assert id == acc[0] || id in acc[1..];
      }
    }
  }

  lemma {:induction false} VictimIs(all: seq<Cand>, p: Policy, acc: seq<Id>, w: int)
    ensures var v := Victim(all, p, acc, w);
      v.Some? ==> v.value in acc && Plain(p, v.value) && ScoreOf(all, v.value) == Some(w)
  {
    if acc != [] {
      VictimIs(all, p, acc[1..], w);
    }
  }

  lemma {:induction false} WithoutIs(acc: seq<Id>, id: Id)
    requires NoDup(acc)
    ensures NoDup(Without(acc, id))
    ensures forall x :: x in Without(acc, id) <==> x in acc && x != id
    ensures id in acc ==> |Without(acc, id)| == |acc| - 1
    ensures id !in acc ==> Without(acc, id) == acc
  {
    if acc != [] {
      WithoutIs(acc[1..], id);
      assert forall x :: x in acc <==> x == acc[0] || x in acc[1..];
      assert acc[0] !in acc[1..];
    }
  }

  // ----- keeping the incumbents

  predicate Incumbent(p: Policy, id: Id) {
    id in p.unchoked && Plain(p, id)
  }

  /** Up to the cut every incumbent is kept; after it none is added. */
  lemma {:induction false} KeepCuts(all: seq<Cand>, p: Policy, i: nat, acc: seq<Id>) returns (n: nat)
    requires i <= |all| && Distinct(all) && NoDup(acc) && Known(all, acc) && |acc| <= p.slots
    ensures var r := Keep(all, p, i, acc);
      && i <= n <= |all| && acc <= r && NoDup(r) && Known(all, r) && |r| <= p.slots
      && (forall id :: id in r ==> id in acc || (Incumbent(p, id) && exists j :: i <= j < n && all[j].id == id))
      && (forall j :: i <= j < n && Incumbent(p, all[j].id) ==> all[j].id in r)
      && (n < |all| ==> |r| == p.slots)
    decreases |all| - i
  {
    n := i;
    if i < |all| && |acc| < p.slots {
      var id := all[i].id;
      ScoreAt(all, i);
      if Incumbent(p, id) && id !in acc {
        n := KeepCuts(all, p, i + 1, acc + [id]);
        assert all[i].id in acc + [id];
      } else {
        n := KeepCuts(all, p, i + 1, acc);
      }
    }
  }

  // ----- the newcomers

  /** A rejected newcomer with score `x` is no match for a member with score `s`. */
  predicate NoMatch(p: Policy, x: int, s: int) {
    if p.margin > 0 then x < s + p.margin else x <= s
  }

  predicate Newcomer(p: Policy, id: Id) {
    id !in p.unchoked
  }

  ghost predicate SizeOk(all: seq<Cand>, p: Policy, acc: seq<Id>) {
    NoDup(acc) && Known(all, acc) && |acc| <= p.slots
  }

  /** Newcomers heard before `i` are in, or the set is full and they match no displaceable member. */
  ghost predicate Settled(all: seq<Cand>, p: Policy, i: nat, acc: seq<Id>) {
    forall j :: 0 <= j < i <= |all| && Newcomer(p, all[j].id) && all[j].id !in acc ==> Rejected(all, p, all[j].score, acc)
  }

  ghost predicate Rejected(all: seq<Cand>, p: Policy, x: int, acc: seq<Id>) {
    |acc| == p.slots && forall id :: id in acc && Plain(p, id) ==> NoMatch(p, x, Score(all, id))
  }

  /** Incumbents leave in order of score, and only when the set is full. */
  ghost predicate Orderly(all: seq<Cand>, p: Policy, acc: seq<Id>) {
    forall d :: ScoreOf(all, d).Some? && Incumbent(p, d) && d !in acc ==> Outranked(all, p, Score(all, d), acc)
  }

  ghost predicate Outranked(all: seq<Cand>, p: Policy, x: int, acc: seq<Id>) {
    |acc| == p.slots && forall k :: k in acc && Incumbent(p, k) ==> x <= Score(all, k)
  }

  ghost predicate Fair(all: seq<Cand>, p: Policy, i: nat, acc: seq<Id>) {
    SizeOk(all, p, acc) && Settled(all, p, i, acc) && Orderly(all, p, acc)
  }

  /** Scores are 64-bit integers. */
  predicate InRange(all: seq<Cand>) {
    forall i :: 0 <= i < |all| ==> I64_MIN <= all[i].score <= I64_MAX
  }

  lemma BeatsMeans(p: Policy, x: int, w: int)
    requires I64_MIN <= w <= I64_MAX
    ensures Beats(p, x, w) ==> w <= x
    ensures !Beats(p, x, w) ==> NoMatch(p, x, w)
  {
  }

  /** Displacing the weakest member, whoever it is, leaves nobody with a grievance. */
  lemma DisplaceKeeps(all: seq<Cand>, p: Policy, i: nat, acc: seq<Id>, victim: Id, w: int)
    requires Distinct(all) && i < |all| && Fair(all, p, i, acc) && |acc| == p.slots
    requires all[i].id !in acc && Newcomer(p, all[i].id) && w <= all[i].score
    requires victim in acc && Plain(p, victim) && Score(all, victim) == w
    requires forall id :: id in acc && Plain(p, id) ==> w <= Score(all, id)
    ensures Fair(all, p, i + 1, Without(acc, victim) + [all[i].id])
  {
    ScoreAt(all, i);
    WithoutIs(acc, victim);
    hide ScoreOf, Without;
    var acc' := Without(acc, victim) + [all[i].id];
    forall id | id in acc' && Plain(p, id)
      ensures w <= Score(all, id)
    {
    }
    forall j | 0 <= j < i + 1 && Newcomer(p, all[j].id) && all[j].id !in acc'
      ensures Rejected(all, p, all[j].score, acc')
    {
      ScoreAt(all, j);
      if all[j].id in acc {
        assert all[j].id == victim;
      } else {
        assert Rejected(all, p, all[j].score, acc);
      }
    }
    forall d | ScoreOf(all, d).Some? && Incumbent(p, d) && d !in acc'
      ensures Outranked(all, p, Score(all, d), acc')
    {
      if d !in acc {
        assert Outranked(all, p, Score(all, d), acc);
      }
    }
  }

  lemma ChallengeKeeps(all: seq<Cand>, p: Policy, i: nat, acc: seq<Id>)
    requires Distinct(all) && InRange(all) && i < |all| && Fair(all, p, i, acc)
    ensures Fair(all, p, i + 1, Challenge(all, p, all[i], acc))
  {
    hide Weakest, Victim, Without, ScoreOf;
    var c := all[i];
    ScoreAt(all, i);
    if c.id in acc || c.id in p.unchoked {
    } else if |acc| < p.slots {
      assert forall id :: id in acc + [c.id] <==> id in acc || id == c.id;
    } else {
      WeakestIs(all, p, acc);
      var w := Weakest(all, p, acc);
      if w.Some? {
        VictimIs(all, p, acc, w.value);
        var victim := Victim(all, p, acc, w.value).value;
        var j := IndexOf(all, victim);
        BeatsMeans(p, c.score, w.value);
        if Beats(p, c.score, w.value) {
          DisplaceKeeps(all, p, i, acc, victim, w.value);
        } else {
          assert Rejected(all, p, c.score, acc);
        }
      }
    }
  }

  lemma {:induction false} ChallengesKeep(all: seq<Cand>, p: Policy, i: nat, acc: seq<Id>)
    requires Distinct(all) && InRange(all) && i <= |all| && Fair(all, p, i, acc)
    ensures Fair(all, p, |all|, Challenges(all, p, i, acc))
    decreases |all| - i
  {
    hide Fair, Challenge;
    if i < |all| {
      ChallengeKeeps(all, p, i, acc);
      ChallengesKeep(all, p, i + 1, Challenge(all, p, all[i], acc));
    }
  }

  /** After the incumbents have been kept the invariant holds with no newcomer heard. */
  lemma KeepIsFair(all: seq<Cand>, p: Policy, opening: seq<Id>)
    requires Distinct(all) && Ranked(all) && p.slots > 0
    requires opening == [] || (p.optimistic.Some? && opening == [p.optimistic.value] && ScoreOf(all, opening[0]).Some?)
    ensures Fair(all, p, 0, Keep(all, p, 0, opening))
  {
    var n := KeepCuts(all, p, 0, opening);
    var r := Keep(all, p, 0, opening);
    forall d | ScoreOf(all, d).Some? && Incumbent(p, d) && d !in r
      ensures Outranked(all, p, Score(all, d), r)
    {
      var i := IndexOf(all, d);
      assert i >= n;
      forall k | k in r && Incumbent(p, k)
        ensures Score(all, d) <= Score(all, k)
      {
        var j :| 0 <= j < n && all[j].id == k;
        ScoreAt(all, j);
        assert Ahead(all[j], all[i]);
      }
    }
  }

  // ----- distinct connections

  predicate DistinctViews(views: seq<View>) {
    forall i, j :: 0 <= i < j < |views| ==> views[i].id != views[j].id
  }

  lemma {:induction false} CandidateIsView(views: seq<View>, seeding: bool, cfg: Config, c: Cand)
    requires c in Candidates(views, seeding, cfg)
    ensures exists v :: v in views && Eligible(cfg, seeding, v) && c == Cand(v.id, ChokeScore(cfg, seeding, v))
  {
    var v := views[0];
    if Eligible(cfg, seeding, v) && c == Cand(v.id, ChokeScore(cfg, seeding, v)) {
    } else {
      CandidateIsView(views[1..], seeding, cfg, c);
    }
  }

  lemma {:induction false} CandidatesDistinct(views: seq<View>, seeding: bool, cfg: Config)
    requires DistinctViews(views)
    ensures Distinct(Candidates(views, seeding, cfg))
  {
    if views != [] {
      CandidatesDistinct(views[1..], seeding, cfg);
      var rest := Candidates(views[1..], seeding, cfg);
      forall j | 0 <= j < |rest|
        ensures rest[j].id != views[0].id
      {
        CandidateIsView(views[1..], seeding, cfg, rest[j]);
      }
    }
  }

  /** Distinctness of ids depends only on which candidates there are. */
  lemma {:induction false} InsertDistinct(c: Cand, s: seq<Cand>)
    requires Distinct(s) && forall i :: 0 <= i < |s| ==> s[i].id != c.id
    ensures Distinct(Insert(c, s))
  {
    if s != [] && !Ahead(c, s[0]) {
      InsertDistinct(c, s[1..]);
      var r := Insert(c, s[1..]);
      forall j | 0 <= j < |r|
        ensures r[j].id != s[0].id
      {
        assert r[j] in multiset(r);
        assert r[j] == c || r[j] in s[1..];
      }
    }
  }

  lemma {:induction false} SortDistinct(s: seq<Cand>)
    requires Distinct(s)
    ensures Distinct(Sort(s))
  {
    if s != [] {
      SortDistinct(s[1..]);
      var r := Sort(s[1..]);
      forall j | 0 <= j < |r|
        ensures r[j].id != s[0].id
      {
        assert r[j] in multiset(r);
        assert r[j] in s[1..];
      }
      InsertDistinct(s[0], r);
    }
  }

  // ----- the guarantees

  /** All scores of this call fit the source's integers. */
  predicate ScoresFit(views: seq<View>, seeding: bool, cfg: Config) {
    InRange(Ranking(views, seeding, cfg))
  }

  lemma SelectionIsFair(views: seq<View>, seeding: bool, cfg: Config, unchoked: set<Id>, optimistic: Option<Id>)
    requires DistinctViews(views) && ScoresFit(views, seeding, cfg)
    requires views != [] && PolicyOf(seeding, cfg, unchoked, optimistic).slots > 0
    ensures var all := Ranking(views, seeding, cfg);
      Distinct(all) && Fair(all, PolicyOf(seeding, cfg, unchoked, optimistic), |all|, Selection(views, seeding, cfg, unchoked, optimistic))
  {
    hide Fair, Sort, Candidates, Keep, Challenges;
    var p := PolicyOf(seeding, cfg, unchoked, optimistic);
    var all := Ranking(views, seeding, cfg);
    CandidatesDistinct(views, seeding, cfg);
    SortDistinct(Candidates(views, seeding, cfg));
    SortRanks(Candidates(views, seeding, cfg));
    var opening := Opening(views, cfg, all, optimistic);
    KeepIsFair(all, p, opening);
    ChallengesKeep(all, p, 0, Keep(all, p, 0, opening));
  }

  /** At most `slots` peers, no peer twice, every one an eligible view. */
  lemma SelectionIsEligible(views: seq<View>, seeding: bool, cfg: Config, unchoked: set<Id>, optimistic: Option<Id>)
    requires DistinctViews(views) && ScoresFit(views, seeding, cfg)
    ensures var r := Selection(views, seeding, cfg, unchoked, optimistic);
      && |r| <= PolicyOf(seeding, cfg, unchoked, optimistic).slots && NoDup(r)
      && forall id :: id in r ==> exists v :: v in views && v.id == id && Eligible(cfg, seeding, v)
  {
    var p := PolicyOf(seeding, cfg, unchoked, optimistic);
    var r := Selection(views, seeding, cfg, unchoked, optimistic);
    if views != [] && p.slots > 0 {
      SelectionIsFair(views, seeding, cfg, unchoked, optimistic);
      var all := Ranking(views, seeding, cfg);
      forall id | id in r
        ensures exists v :: v in views && v.id == id && Eligible(cfg, seeding, v)
      {
        var i := IndexOf(all, id);
        assert all[i] in multiset(all);
        CandidateIsView(views, seeding, cfg, all[i]);
      }
    }
  }

  /**
    A rejected newcomer scores below every displaceable member plus the margin; a dropped incumbent
    scores no more than any kept one.
  */
  lemma RejectionsAreJust(views: seq<View>, seeding: bool, cfg: Config, unchoked: set<Id>, optimistic: Option<Id>, id: Id, m: Id)
    requires DistinctViews(views) && ScoresFit(views, seeding, cfg)
    requires var r := Selection(views, seeding, cfg, unchoked, optimistic);
      ScoreOf(Ranking(views, seeding, cfg), id).Some? && id !in r && m in r && optimistic != Some(m)
    ensures var all := Ranking(views, seeding, cfg);
      && (id !in unchoked && cfg.antiFlap > 0 ==> Score(all, id) < Score(all, m) + cfg.antiFlap)
      && (id !in unchoked && cfg.antiFlap <= 0 ==> Score(all, id) <= Score(all, m))
      && (id in unchoked && optimistic != Some(id) && m in unchoked ==> Score(all, id) <= Score(all, m))
  {
    hide Selection;
    var p := PolicyOf(seeding, cfg, unchoked, optimistic);
    var all := Ranking(views, seeding, cfg);
    var r := Selection(views, seeding, cfg, unchoked, optimistic);
    NonTrivial(views, seeding, cfg, unchoked, optimistic, m);
    SelectionIsFair(views, seeding, cfg, unchoked, optimistic);
    var i := IndexOf(all, id);
    if id !in unchoked {
      assert Rejected(all, p, all[i].score, r);
    } else if Incumbent(p, id) {
      assert Outranked(all, p, Score(all, id), r);
    }
  }

  lemma NonTrivial(views: seq<View>, seeding: bool, cfg: Config, unchoked: set<Id>, optimistic: Option<Id>, m: Id)
    requires m in Selection(views, seeding, cfg, unchoked, optimistic)
    ensures views != [] && PolicyOf(seeding, cfg, unchoked, optimistic).slots > 0
  {
  }

  /** While slots are free no candidate is left out, save an unchoked optimistic peer that lost its privilege. */
  lemma FreeSlotsMeanNoRejection(views: seq<View>, seeding: bool, cfg: Config, unchoked: set<Id>, optimistic: Option<Id>, id: Id)
    requires DistinctViews(views) && ScoresFit(views, seeding, cfg)
    requires var all := Ranking(views, seeding, cfg);
      var r := Selection(views, seeding, cfg, unchoked, optimistic);
      |r| < PolicyOf(seeding, cfg, unchoked, optimistic).slots && ScoreOf(all, id).Some? && id !in r
    ensures optimistic == Some(id) && id in unchoked && !OptimisticFits(views, cfg, Ranking(views, seeding, cfg), id)
  {
    var p := PolicyOf(seeding, cfg, unchoked, optimistic);
    var all := Ranking(views, seeding, cfg);
    CandidatesOf(views, seeding, cfg, id);
    SelectionIsFair(views, seeding, cfg, unchoked, optimistic);
    var i := IndexOf(all, id);
    var r := Selection(views, seeding, cfg, unchoked, optimistic);
    assert id !in unchoked ==> Rejected(all, p, all[i].score, r);
    assert Incumbent(p, id) ==> Outranked(all, p, Score(all, id), r);
    if OptimisticFits(views, cfg, all, id) {
      OptimisticStays(views, seeding, cfg, unchoked, optimistic, id);
    }
  }

  lemma CandidatesOf(views: seq<View>, seeding: bool, cfg: Config, id: Id)
    requires ScoreOf(Ranking(views, seeding, cfg), id).Some?
    ensures views != []
  {
  }

  lemma ChallengeKeepsOptimistic(all: seq<Cand>, p: Policy, c: Cand, acc: seq<Id>, id: Id)
    requires id in acc && p.optimistic == Some(id)
    ensures id in Challenge(all, p, c, acc)
  {
    hide Weakest, Victim, Without;
    var w := Weakest(all, p, acc);
    if w.Some? {
      VictimIs(all, p, acc, w.value);
      WithoutOther(acc, Victim(all, p, acc, w.value), id);
    }
  }

  lemma {:induction false} ChallengesKeepOptimistic(all: seq<Cand>, p: Policy, i: nat, acc: seq<Id>, id: Id)
    requires i <= |all| && id in acc && p.optimistic == Some(id)
    ensures id in Challenges(all, p, i, acc)
    decreases |all| - i
  {
    hide Challenge;
    if i < |all| {
      ChallengeKeepsOptimistic(all, p, all[i], acc, id);
      ChallengesKeepOptimistic(all, p, i + 1, Challenge(all, p, all[i], acc), id);
    }
  }

  lemma {:induction false} WithoutOther(acc: seq<Id>, victim: Option<Id>, id: Id)
    requires id in acc && victim != Some(id)
    ensures victim.Some? ==> id in Without(acc, victim.value)
  {
    if acc[0] != id {
      WithoutOther(acc[1..], victim, id);
    }
  }

  lemma {:induction false} KeepExtends(all: seq<Cand>, p: Policy, i: nat, acc: seq<Id>)
    requires i <= |all|
    ensures acc <= Keep(all, p, i, acc)
    decreases |all| - i
  {
    if i < |all| && |acc| < p.slots {
      var id := all[i].id;
      if id in p.unchoked && p.optimistic != Some(id) && id !in acc {
        KeepExtends(all, p, i + 1, acc + [id]);
      } else {
        KeepExtends(all, p, i + 1, acc);
      }
    }
  }

  /** A fitting optimistic peer always has its slot. */
  lemma OptimisticStays(views: seq<View>, seeding: bool, cfg: Config, unchoked: set<Id>, optimistic: Option<Id>, id: Id)
    requires optimistic == Some(id) && OptimisticFits(views, cfg, Ranking(views, seeding, cfg), id)
    requires PolicyOf(seeding, cfg, unchoked, optimistic).slots > 0
    ensures id in Selection(views, seeding, cfg, unchoked, optimistic)
  {
    var p := PolicyOf(seeding, cfg, unchoked, optimistic);
    var all := Ranking(views, seeding, cfg);
    var opening := Opening(views, cfg, all, optimistic);
    CandidatesOf(views, seeding, cfg, id);
    KeepExtends(all, p, 0, opening);
    var kept := Keep(all, p, 0, opening);
    assert kept[0] == id;
    ChallengesKeepOptimistic(all, p, 0, kept, id);
  }
}
