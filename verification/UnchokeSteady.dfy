/**
  What keeps the selection steady: who is a candidate at all, and that a kept incumbent loses its
  slot only to a newcomer that beats it by the margin.
*/
module UnchokeSteady {
  import opened Common
  import opened Unchoke
  import opened UnchokeFair

  // ----- who is a candidate

  lemma {:induction false} ViewIsCandidate(views: seq<View>, seeding: bool, cfg: Config, v: View)
    requires v in views && Eligible(cfg, seeding, v)
    ensures Cand(v.id, ChokeScore(cfg, seeding, v)) in Candidates(views, seeding, cfg)
  {
    hide ChokeScore, Eligible;
    if v != views[0] {
      ViewIsCandidate(views[1..], seeding, cfg, v);
    }
  }

  /** A known leech client from the internet, past probation, that has given too little. */
  predicate Shunned(cfg: Config, v: View) {
    cfg.blockLeechClients && v.client == Some(Leech) && v.source != Lsd
    && !(v.ageMs < cfg.recipGraceMs) && !(v.given >= cfg.freeRideFloor)
  }

  lemma {:induction false} Scored(all: seq<Cand>, c: Cand)
    requires Distinct(all) && c in all
    ensures ScoreOf(all, c.id) == Some(c.score)
  {
    var i :| 0 <= i < |all| && all[i] == c;
    ScoreAt(all, i);
  }

  /** The candidates are exactly the peers that are not shunned and, while seeding, interested; each with its own score. */
  lemma CandidatesAreExact(views: seq<View>, seeding: bool, cfg: Config, v: View)
    requires DistinctViews(views) && v in views
    ensures ScoreOf(Ranking(views, seeding, cfg), v.id)
      == if (seeding && !v.interested) || Shunned(cfg, v) then None else Some(ChokeScore(cfg, seeding, v))
  {
    hide ChokeScore, Candidates;
    var cands := Candidates(views, seeding, cfg);
    var all := Ranking(views, seeding, cfg);
    CandidatesDistinct(views, seeding, cfg);
    SortDistinct(cands);
    assert multiset(all) == multiset(cands);
    hide Sort, ScoreOf;
    if Eligible(cfg, seeding, v) {
      ViewIsCandidate(views, seeding, cfg, v);
      var c := Cand(v.id, ChokeScore(cfg, seeding, v));
      assert c in multiset(all);
      Scored(all, c);
    } else if ScoreOf(all, v.id).Some? {
      var i := IndexOf(all, v.id);
      assert all[i] in multiset(all);
      CandidateIsView(views, seeding, cfg, all[i]);
      var u :| u in views && Eligible(cfg, seeding, u) && all[i] == Cand(u.id, ChokeScore(cfg, seeding, u));
      SameView(views, u, v);
    }
  }

  lemma SameView(views: seq<View>, u: View, v: View)
    requires DistinctViews(views) && u in views && v in views && u.id == v.id
    ensures u == v
  {
    var i :| 0 <= i < |views| && views[i] == u;
    var j :| 0 <= j < |views| && views[j] == v;
  }

  /** The optimistic peer has its slot exactly when it is a candidate, not snubbed, and below the corruption limit. */
  lemma OptimisticIsExact(views: seq<View>, seeding: bool, cfg: Config, v: View)
    requires DistinctViews(views) && v in views
    ensures OptimisticFits(views, cfg, Ranking(views, seeding, cfg), v.id)
      <==> !(seeding && !v.interested) && !Shunned(cfg, v) && !v.snubbed && v.corrupt < cfg.corruptBanThreshold
  {
    hide ChokeScore, Ranking;
    CandidatesAreExact(views, seeding, cfg, v);
    FirstViewIs(views, v);
  }

  lemma {:induction false} FirstViewIs(views: seq<View>, v: View)
    requires DistinctViews(views) && v in views
    ensures FirstView(views, v.id) == Some(v)
  {
    if views[0] != v {
      var j :| 0 <= j < |views| && views[j] == v;
      FirstViewIs(views[1..], v);
    }
  }

  // ----- what a score is made of

  lemma SameReward(cfg: Config, v: View, w: View)
    requires v.given == w.given && v.rateUp == w.rateUp
    ensures SeedReward(cfg, v) == SeedReward(cfg, w)
  {
  }

  /** Being snubbed costs its penalty. */
  lemma SnubbingCosts(cfg: Config, seeding: bool, v: View)
    requires !Shunned(cfg, v)
    ensures ChokeScore(cfg, seeding, v.(snubbed := true)) == ChokeScore(cfg, seeding, v.(snubbed := false)) - cfg.snubPenalty
  {
    SameReward(cfg, v.(snubbed := true), v.(snubbed := false));
    hide SeedReward, TruncDiv, Permyriad;
  }

  /** Every corrupt piece costs its penalty once. */
  lemma CorruptionCosts(cfg: Config, seeding: bool, v: View)
    requires !Shunned(cfg, v)
    ensures ChokeScore(cfg, seeding, v.(corrupt := v.corrupt + 1)) == ChokeScore(cfg, seeding, v) - cfg.corruptPenalty
  {
    SameReward(cfg, v.(corrupt := v.corrupt + 1), v);
    assert (v.corrupt + 1) * cfg.corruptPenalty == v.corrupt * cfg.corruptPenalty + cfg.corruptPenalty;
    hide SeedReward, TruncDiv, Permyriad;
  }

  /** A leech client pays for its name, unless it is local or shunned altogether. */
  lemma LeechingCosts(cfg: Config, seeding: bool, v: View)
    requires !Shunned(cfg, v.(client := Some(Leech)))
    ensures ChokeScore(cfg, seeding, v.(client := Some(Leech)))
      == ChokeScore(cfg, seeding, v.(client := None)) - if v.source == Lsd then 0 else cfg.clientLeechPenalty
  {
    SameReward(cfg, v.(client := Some(Leech)), v.(client := None));
    hide SeedReward, TruncDiv, Permyriad;
  }

  /** Sitting idle on a slot costs its penalty, to interested peers past probation that were served nothing. */
  lemma IdlingCosts(cfg: Config, seeding: bool, v: View)
    requires !Shunned(cfg, v) && v.interested && v.ageMs >= cfg.recipGraceMs && v.idleMs >= cfg.idleSlotTimeoutMs
    ensures ChokeScore(cfg, seeding, v.(served := 0)) == ChokeScore(cfg, seeding, v.(served := 1)) - cfg.idleSlotPenalty
  {
    SameReward(cfg, v.(served := 0), v.(served := 1));
    hide SeedReward, TruncDiv, Permyriad;
  }

  /** Taking without giving costs its penalty past probation, and nothing before. */
  lemma FreeRidingCosts(cfg: Config, v: View)
    requires !Shunned(cfg, v) && !Shunned(cfg, v.(ageMs := 0)) && v.given == 0 && v.taken >= cfg.freeRideFloor && v.taken > 0
    requires cfg.recipGraceMs > 0 && v.ageMs >= cfg.recipGraceMs && !v.interested && cfg.minSharePermyriad > 0
    ensures ChokeScore(cfg, false, v) == ChokeScore(cfg, false, v.(ageMs := 0)) - cfg.nonrecipPenalty
    ensures ChokeScore(cfg, true, v) == ChokeScore(cfg, true, v.(ageMs := 0)) - cfg.freeRidePenalty
  {
    SameReward(cfg, v, v.(ageMs := 0));
    assert Permyriad(v.given, v.taken) == 0;
    hide SeedReward, TruncDiv, Permyriad;
  }

  /** Without faults the score is the reward, and the reward never exceeds its cap. */
  lemma RewardIsCapped(cfg: Config, seeding: bool, v: View)
    requires !Shunned(cfg, v) && cfg.freeRidePenalty >= 0 && cfg.nonrecipPenalty >= 0 && cfg.idleSlotPenalty >= 0
    requires cfg.snubPenalty >= 0 && cfg.clientLeechPenalty >= 0 && cfg.corruptPenalty >= 0
    ensures ChokeScore(cfg, seeding, v) <= cfg.maxReward
  {
    assert v.corrupt * cfg.corruptPenalty >= 0;
    hide TruncDiv, Permyriad;
  }

  // ----- hysteresis

  /** A newcomer at x may take the slot of a member at s: by the margin if there is one, else strictly. */
  predicate Clears(margin: int, x: int, s: int) {
    if margin > 0 then x >= Min(s + margin, I64_MAX) else x > s
  }

  lemma BeatsIsClears(p: Policy, x: int, w: int)
    requires I64_MIN <= w <= I64_MAX
    ensures Beats(p, x, w) <==> Clears(p.margin, x, w)
  {
  }

  lemma ClearsChains(margin: int, x: int, y: int, s: int)
    requires Clears(margin, x, y) && Clears(margin, y, s) && y <= I64_MAX
    ensures Clears(margin, x, s)
  {
  }

  ghost predicate Answered(all: seq<Cand>, p: Policy, acc: seq<Id>, d: Id) {
    exists m :: m in acc && Newcomer(p, m) && Clears(p.margin, Score(all, m), Score(all, d))
  }

  /** Every kept incumbent is still in, or a newcomer is in that clears it. */
  ghost predicate Steady(all: seq<Cand>, p: Policy, kept: seq<Id>, acc: seq<Id>) {
    forall d :: d in kept && Incumbent(p, d) && d !in acc ==> Answered(all, p, acc, d)
  }

  lemma InRangeScore(all: seq<Cand>, id: Id)
    requires InRange(all) && ScoreOf(all, id).Some?
    ensures I64_MIN <= Score(all, id) <= I64_MAX
  {
    var i := IndexOf(all, id);
  }

  lemma DisplaceIsSteady(all: seq<Cand>, p: Policy, kept: seq<Id>, acc: seq<Id>, c: Cand, victim: Id)
    requires Steady(all, p, kept, acc) && InRange(all) && NoDup(acc) && Known(all, acc)
    requires ScoreOf(all, c.id) == Some(c.score) && Newcomer(p, c.id)
    requires victim in acc && Clears(p.margin, c.score, Score(all, victim))
    ensures Steady(all, p, kept, Without(acc, victim) + [c.id])
  {
    WithoutIs(acc, victim);
    hide ScoreOf, Without, Clears;
    var acc' := Without(acc, victim) + [c.id];
    assert c.id in acc';
    forall d | d in kept && Incumbent(p, d) && d !in acc'
      ensures Answered(all, p, acc', d)
    {
      if d != victim {
        assert d !in acc;
        var m :| m in acc && Newcomer(p, m) && Clears(p.margin, Score(all, m), Score(all, d));
        if m == victim {
          InRangeScore(all, m);
          ClearsChains(p.margin, c.score, Score(all, m), Score(all, d));
        } else {
          assert m in acc';
        }
      }
    }
  }

  lemma ChallengeIsSteady(all: seq<Cand>, p: Policy, kept: seq<Id>, acc: seq<Id>, i: nat)
    requires Steady(all, p, kept, acc) && InRange(all) && Distinct(all) && i < |all| && NoDup(acc) && Known(all, acc)
    ensures Steady(all, p, kept, Challenge(all, p, all[i], acc))
  {
    hide Weakest, Victim, Without, ScoreOf, Clears, Beats;
    var c := all[i];
    ScoreAt(all, i);
    if c.id in acc || c.id in p.unchoked {
    } else if |acc| < p.slots {
      forall d | d in kept && Incumbent(p, d) && d !in acc + [c.id]
        ensures Answered(all, p, acc + [c.id], d)
      {
        assert Answered(all, p, acc, d);
        var m :| m in acc && Newcomer(p, m) && Clears(p.margin, Score(all, m), Score(all, d));
        assert m in acc + [c.id];
      }
    } else {
      var w := Weakest(all, p, acc);
      if w.Some? && Beats(p, c.score, w.value) {
        WeakestIs(all, p, acc);
        VictimIs(all, p, acc, w.value);
        var victim := Victim(all, p, acc, w.value).value;
        InRangeScore(all, victim);
        BeatsIsClears(p, c.score, w.value);
        DisplaceIsSteady(all, p, kept, acc, c, victim);
      }
    }
  }

  lemma {:induction false} ChallengesAreSteady(all: seq<Cand>, p: Policy, kept: seq<Id>, acc: seq<Id>, i: nat)
    requires Distinct(all) && InRange(all) && i <= |all| && Fair(all, p, i, acc) && Steady(all, p, kept, acc)
    ensures Steady(all, p, kept, Challenges(all, p, i, acc))
    decreases |all| - i
  {
    if i < |all| {
      ChallengeKeeps(all, p, i, acc);
      ChallengeIsSteady(all, p, kept, acc, i);
      hide Steady, Settled, Orderly, Challenge;
      ChallengesAreSteady(all, p, kept, Challenge(all, p, all[i], acc), i + 1);
    }
  }

  /** Incumbents among the candidates from i up to j. */
  function Incumbents(all: seq<Cand>, p: Policy, i: nat, j: nat): nat
    requires i <= j <= |all|
    decreases j - i
  {
    if i == j then 0 else (if Incumbent(p, all[i].id) then 1 else 0) + Incumbents(all, p, i + 1, j)
  }

  lemma {:induction false} KeepExtendsBy(all: seq<Cand>, p: Policy, i: nat, acc: seq<Id>, id: Id)
    requires i <= |all| && id in acc
    ensures id in Keep(all, p, i, acc)
    decreases |all| - i
  {
    KeepExtends(all, p, i, acc);
  }

  /** An incumbent with fewer incumbents ahead of it than there are slots left is kept. */
  lemma {:induction false} KeepTakes(all: seq<Cand>, p: Policy, i: nat, j: nat, acc: seq<Id>)
    requires i <= j < |all| && Incumbent(p, all[j].id) && |acc| + Incumbents(all, p, i, j) < p.slots
    ensures all[j].id in Keep(all, p, i, acc)
    decreases j - i
  {
    var id := all[i].id;
    var acc' := if Incumbent(p, id) && id !in acc then acc + [id] else acc;
    assert Keep(all, p, i, acc) == Keep(all, p, i + 1, acc');
    if i == j {
      assert id in acc';
      KeepExtendsBy(all, p, i + 1, acc', id);
    } else {
      KeepTakes(all, p, i + 1, j, acc');
    }
  }

  /**
    An unchoked peer with a slot of its own, other than the optimistic one, is dropped only if a newcomer
    got in that clears it: by the margin, cut at the largest score, or strictly where there is no margin.
  */
  lemma IncumbentsAreSteady(views: seq<View>, seeding: bool, cfg: Config, unchoked: set<Id>, optimistic: Option<Id>, i: nat)
    requires DistinctViews(views) && ScoresFit(views, seeding, cfg)
    requires i < |Ranking(views, seeding, cfg)|
    requires var all := Ranking(views, seeding, cfg);
      var p := PolicyOf(seeding, cfg, unchoked, optimistic);
      && all[i].id in unchoked && optimistic != Some(all[i].id)
      && |Opening(views, cfg, all, optimistic)| + Incumbents(all, p, 0, i) < p.slots
      && all[i].id !in Selection(views, seeding, cfg, unchoked, optimistic)
    ensures var all := Ranking(views, seeding, cfg);
      exists m :: m in Selection(views, seeding, cfg, unchoked, optimistic) && m !in unchoked
        && (cfg.antiFlap > 0 ==> Score(all, m) >= Min(all[i].score + cfg.antiFlap, I64_MAX))
        && (cfg.antiFlap <= 0 ==> Score(all, m) > all[i].score)
  {
    hide Sort, Candidates, Keep, Challenges, Ranking;
    var p := PolicyOf(seeding, cfg, unchoked, optimistic);
    var all := Ranking(views, seeding, cfg);
    var d := all[i].id;
    RankingFacts(views, seeding, cfg);
    var opening := Opening(views, cfg, all, optimistic);
    var kept := Keep(all, p, 0, opening);
    ScoreAt(all, i);
    KeepIsFair(all, p, opening);
    KeepTakes(all, p, 0, i, opening);
    ChallengesAreSteady(all, p, kept, kept, 0);
    var r := Selection(views, seeding, cfg, unchoked, optimistic);
    assert r == Challenges(all, p, 0, kept);
    assert Answered(all, p, r, d);
    hide ScoreOf;
    var m :| m in r && Newcomer(p, m) && Clears(p.margin, Score(all, m), Score(all, d));
  }

  lemma RankingFacts(views: seq<View>, seeding: bool, cfg: Config)
    requires DistinctViews(views)
    ensures Distinct(Ranking(views, seeding, cfg)) && Ranked(Ranking(views, seeding, cfg))
    ensures Ranking(views, seeding, cfg) != [] ==> views != []
  {
    CandidatesDistinct(views, seeding, cfg);
    SortDistinct(Candidates(views, seeding, cfg));
    SortRanks(Candidates(views, seeding, cfg));
  }
}
