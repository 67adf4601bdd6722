/** The social population scheduler (`Social_Population`) instantiated with
    Patriot agents: creation, neighbourhoods, population averages, the
    season reset, the split into groups, the learning pass and one run.
    Every random draw is a parameter. */
module Social {
  import opened Wrappers
  import opened Num
  import opened Individual
  import Ledger
  import Learner
  import Memory
  import Patriot
  import Population

  // ---------------------------------------------------------------------------
  // Creation
  // ---------------------------------------------------------------------------

  /** The draws of one agent's creation: `randint(0, AgeMax)` for its age and
      one `randint(0, 100)` per feature. */
  datatype Birth = Birth(ageDraw: int, featureDraws: seq<int>)

  predicate BirthOk(cfg: Config, b: Birth) {
    0 <= b.ageDraw <= cfg.learning.ageMax && Learner.FeatureDrawsOk(b.featureDraws, FeatureCount)
  }

  /** Patriot `Individual(IdNb, maxQuality)`: empty ledgers, a learner reset
      as a non-newborn (which also runs `reinit`), then the quality
      recalibrated from the BottomCompetence floor. */
  function NewAgent(cfg: Config, id: nat, n: nat, b: Birth): (a: Agent)
    requires id < n && BirthOk(cfg, b) && Learner.ParamsOk(cfg.learning)
    ensures AgentValid(cfg, n, id, a)
    ensures a.quality == PatriotQuality(id, n, cfg.bottomCompetence) as real
    ensures 0 <= a.learner.age <= cfg.learning.ageMax && a.learner.performance == []
    ensures a.friends.entries == [] && a.reputable.entries == [] && a.disreputable.entries == []
    ensures a.points == 0.0 && a.outrages == 0 && a.signal.None?
  {
    var p := cfg.learning;
    var blank := Agent(BaseQuality(id, n),
                       Learner.Learner(0, [0.0, 0.0], Memory.Empty(p.memorySpan), []),
                       0.0, Ledger.Empty(cfg.maxFriends), Ledger.Empty(cfg.maxFriends), Ledger.Empty(cfg.maxFriends),
                       None, 0.0, 0);
    var reset := Patriot.Reset(cfg, blank, false, b.ageDraw, b.featureDraws);
    reset.(quality := PatriotQuality(id, n, cfg.bottomCompetence) as real)
  }

  /** `Social_Population.__init__`: agent `k` is created with identity `k`. */
  function CreatePopulation(cfg: Config, births: seq<Birth>): (pop: seq<Agent>)
    requires Learner.ParamsOk(cfg.learning)
    requires forall k :: 0 <= k < |births| ==> BirthOk(cfg, births[k])
    ensures |pop| == |births| && PopValid(cfg, pop)
    ensures forall k :: 0 <= k < |pop| ==> pop[k].quality == PatriotQuality(k, |pop|, cfg.bottomCompetence) as real
    ensures forall k :: 0 <= k < |pop| ==> pop[k].points == 0.0 && pop[k].learner.performance == []
  {
    var n := |births|;
    seq(n, k requires 0 <= k < n => NewAgent(cfg, k, n, births[k]))
  }

  /** Agents are created in order of non-decreasing quality, so that
      population order is quality order. */
  lemma CreatedByQuality(cfg: Config, births: seq<Birth>)
    requires Learner.ParamsOk(cfg.learning) && cfg.bottomCompetence <= 100
    requires forall k :: 0 <= k < |births| ==> BirthOk(cfg, births[k])
    ensures var pop := CreatePopulation(cfg, births);
            forall a, b :: 0 <= a < b < |pop| ==> pop[a].quality <= pop[b].quality
  {
    var pop := CreatePopulation(cfg, births);
    forall a, b | 0 <= a < b < |pop| ensures pop[a].quality <= pop[b].quality {
      PatriotQualityMonotone(a, b, |pop|, cfg.bottomCompetence);
    }
  }

  // ---------------------------------------------------------------------------
  // Neighbourhoods and averages
  // ---------------------------------------------------------------------------

  /** `neighbours(Agent)`: the agents just before and just after in population order. */
  function Neighbours(n: nat, k: nat): (ns: seq<nat>)
    requires k < n
    ensures |ns| <= 2
    ensures forall m: nat :: m in ns <==> m < n && (m + 1 == k || m == k + 1)
    ensures forall a, b :: 0 <= a < b < |ns| ==> ns[a] < ns[b]
  {
    if k >= 1 && k + 1 < n then [k - 1, k + 1]
    else if k >= 1 then [k - 1]
    else if k + 1 < n then [k + 1]
    else []
  }

  /** Being neighbours is symmetric. */
  lemma NeighboursSymmetric(n: nat, k: nat, m: nat)
    requires k < n && m < n
    ensures m in Neighbours(n, k) <==> k in Neighbours(n, m)
  {
  }

  function NeighbourLearners(pop: seq<Agent>, k: nat): (ls: seq<Learner.Learner>)
    requires k < |pop|
    ensures |ls| == |Neighbours(|pop|, k)|
    ensures forall m :: 0 <= m < |ls| ==> ls[m] == pop[Neighbours(|pop|, k)[m]].learner
  {
    var ns := Neighbours(|pop|, k);
    seq(|ns|, m requires 0 <= m < |ns| => pop[ns[m]].learner)
  }

  /** The values of feature `f` across the population. */
  function FeatureValues(pop: seq<Agent>, f: nat): (vs: seq<real>)
    requires forall k :: 0 <= k < |pop| ==> f < |pop[k].learner.features|
    ensures |vs| == |pop| && forall k :: 0 <= k < |pop| ==> vs[k] == pop[k].learner.features[f]
  {
    seq(|pop|, k requires 0 <= k < |pop| => pop[k].learner.features[f])
  }

  /** `FeatureAvg(Feature)`: the mean of the feature, 0 for an empty population. */
  function FeatureAvg(pop: seq<Agent>, f: nat): (r: real)
    requires forall k :: 0 <= k < |pop| ==> f < |pop[k].learner.features|
    ensures |pop| == 0 ==> r == 0.0
    ensures |pop| > 0 ==> exists a :: 0 <= a < |pop| && pop[a].learner.features[f] <= r
    ensures |pop| > 0 ==> exists b :: 0 <= b < |pop| && r <= pop[b].learner.features[f]
    ensures IsMeanOf(r, FeatureValues(pop, f))
  {
    var vs := FeatureValues(pop, f);
    MeanTimesCount(vs);
    if |vs| > 0 then
      assert vs[ArgMin(vs)] <= Mean(vs) <= vs[ArgMax(vs)];
      Mean(vs)
    else Mean(vs)
  }

  /** The average of a feature held in [lo, hi] by everyone lies in [lo, hi]. */
  lemma FeatureAvgWithin(pop: seq<Agent>, f: nat, lo: real, hi: real)
    requires forall k :: 0 <= k < |pop| ==> f < |pop[k].learner.features|
    requires forall k :: 0 <= k < |pop| ==> lo <= pop[k].learner.features[f] <= hi
    requires |pop| > 0
    ensures lo <= FeatureAvg(pop, f) <= hi
  {
    MeanWithin(FeatureValues(pop, f), lo, hi);
  }

  /** Whether an agent has a best friend (`if BF:`). */
  predicate HasFriend(a: Agent) {
    Ledger.BestFriend(a.friends).Some?
  }

  /** Every best friend is an agent of the population. */
  predicate FriendsListed(pop: seq<Agent>) {
    forall k :: 0 <= k < |pop| && HasFriend(pop[k]) ==> Ledger.BestFriend(pop[k].friends).value < |pop|
  }

  lemma PopFriendsListed(cfg: Config, pop: seq<Agent>)
    requires PopValid(cfg, pop)
    ensures FriendsListed(pop)
  {
    forall k | 0 <= k < |pop| && HasFriend(pop[k]) ensures Ledger.BestFriend(pop[k].friends).value < |pop| {
      Patriot.BestFriendIsPeer(cfg, pop, k, pop[k].friends);
    }
  }

  /** The agents among the first `n` that have a best friend, in population order. */
  function Friended(pop: seq<Agent>, n: nat): (ks: seq<nat>)
    requires n <= |pop|
    ensures forall i, j :: 0 <= i < j < |ks| ==> ks[i] < ks[j]
    ensures forall i :: 0 <= i < |ks| ==> ks[i] < n && HasFriend(pop[ks[i]])
    ensures forall k :: 0 <= k < n && HasFriend(pop[k]) ==> k in ks
    decreases n
  {
    if n == 0 then []
    else Friended(pop, n - 1) + (if HasFriend(pop[n - 1]) then [n - 1] else [])
  }

  /** `abs(I.Quality - BF.Quality)` for agent `k` and its best friend `BF`. */
  function FriendGap(pop: seq<Agent>, k: nat): (x: real)
    requires FriendsListed(pop) && k < |pop| && HasFriend(pop[k])
    ensures var bf := Ledger.BestFriend(pop[k].friends).value;
            bf < |pop| && x == Abs(pop[k].quality - pop[bf].quality)
    ensures x >= 0.0
    ensures (forall m :: 0 <= m < |pop| ==> 0.0 <= pop[m].quality <= 100.0) ==> x <= 100.0
  {
    var bf := Ledger.BestFriend(pop[k].friends).value;
    Abs(pop[k].quality - pop[bf].quality)
  }

  /** The list `FD` after the first `n` agents: one gap per agent that has a
      best friend, in population order. */
  function FriendGaps(pop: seq<Agent>, n: nat): (gs: seq<real>)
    requires FriendsListed(pop) && n <= |pop|
    ensures var ks := Friended(pop, n);
            |gs| == |ks| && forall g :: 0 <= g < |gs| ==> gs[g] == FriendGap(pop, ks[g])
    decreases n
  {
    if n == 0 then []
    else
      var earlier := FriendGaps(pop, n - 1);
      var gs := if HasFriend(pop[n - 1]) then earlier + [FriendGap(pop, n - 1)] else earlier;
      GapsStep(pop, n, earlier, gs);
      gs
  }

  /** Agent `n - 1` adds its gap when it has a friend. */
  lemma GapsStep(pop: seq<Agent>, n: nat, earlier: seq<real>, gs: seq<real>)
    requires FriendsListed(pop) && 0 < n <= |pop|
    requires var ks := Friended(pop, n - 1);
             |earlier| == |ks| && forall g :: 0 <= g < |earlier| ==> earlier[g] == FriendGap(pop, ks[g])
    requires gs == if HasFriend(pop[n - 1]) then earlier + [FriendGap(pop, n - 1)] else earlier
    ensures var ks := Friended(pop, n);
            |gs| == |ks| && forall g :: 0 <= g < |gs| ==> gs[g] == FriendGap(pop, ks[g])
  {
    var ks := Friended(pop, n);
    assert ks == Friended(pop, n - 1) + (if HasFriend(pop[n - 1]) then [n - 1] else []);
  }

  /** The gaps are non-negative, none exactly when nobody has a best friend,
      and at most 100 for qualities in [0, 100]. */
  lemma FriendGapsBounds(pop: seq<Agent>)
    requires FriendsListed(pop)
    ensures var gs := FriendGaps(pop, |pop|);
            && (forall g :: 0 <= g < |gs| ==> gs[g] >= 0.0)
            && ((forall k :: 0 <= k < |pop| ==> !HasFriend(pop[k])) <==> |gs| == 0)
            && ((forall k :: 0 <= k < |pop| ==> 0.0 <= pop[k].quality <= 100.0) ==> forall g :: 0 <= g < |gs| ==> gs[g] <= 100.0)
  {
    GapsWithin(pop, forall k :: 0 <= k < |pop| ==> 0.0 <= pop[k].quality <= 100.0);
    NoGaps(pop);
  }

  lemma GapsWithin(pop: seq<Agent>, bounded: bool)
    requires FriendsListed(pop)
    requires bounded ==> forall k :: 0 <= k < |pop| ==> 0.0 <= pop[k].quality <= 100.0
    ensures var gs := FriendGaps(pop, |pop|);
            forall g :: 0 <= g < |gs| ==> gs[g] >= 0.0 && (bounded ==> gs[g] <= 100.0)
  {
    var gs := FriendGaps(pop, |pop|);
    var ks := Friended(pop, |pop|);
    forall g | 0 <= g < |gs| ensures gs[g] >= 0.0 && (bounded ==> gs[g] <= 100.0) {
      assert gs[g] == FriendGap(pop, ks[g]);
    }
  }

  lemma NoGaps(pop: seq<Agent>)
    requires FriendsListed(pop)
    ensures (forall k :: 0 <= k < |pop| ==> !HasFriend(pop[k])) <==> |FriendGaps(pop, |pop|)| == 0
  {
    assert |FriendGaps(pop, |pop|)| == |Friended(pop, |pop|)|;
    FriendedEmpty(pop, |pop|);
  }

  /** Nobody among the first `n` agents is listed exactly when none of them has a best friend. */
  lemma FriendedEmpty(pop: seq<Agent>, n: nat)
    requires n <= |pop|
    ensures |Friended(pop, n)| == 0 <==> forall k :: 0 <= k < n ==> !HasFriend(pop[k])
  {
    var ks := Friended(pop, n);
    if |ks| > 0 {
      assert ks[0] < n && HasFriend(pop[ks[0]]);
    } else {
      forall k | 0 <= k < n ensures !HasFriend(pop[k]) {
        assert HasFriend(pop[k]) ==> k in ks;
      }
    }
  }

  /** `FriendDistance()`: the mean quality gap to the best friend over the
      agents that have one, 0 when nobody has a friend. */
  function FriendDistance(cfg: Config, pop: seq<Agent>): (r: real)
    requires PopValid(cfg, pop)
    ensures FriendsListed(pop)
    // `sum(FD) / len(FD)` over the gaps of the agents that have a best friend
    ensures var gs := FriendGaps(pop, |pop|);
            |gs| == |Friended(pop, |pop|)| && IsMeanOf(r, gs)
    ensures r >= 0.0
    ensures (forall k :: 0 <= k < |pop| ==> !HasFriend(pop[k])) ==> r == 0.0
    ensures (forall k :: 0 <= k < |pop| ==> 0.0 <= pop[k].quality <= 100.0) ==> r <= 100.0
  {
    PopFriendsListed(cfg, pop);
    var gs := FriendGaps(pop, |pop|);
    MeanTimesCount(gs);
    GapsMeanBounds(pop);
    Mean(gs)
  }

  lemma GapsMeanBounds(pop: seq<Agent>)
    requires FriendsListed(pop)
    ensures var r := Mean(FriendGaps(pop, |pop|));
            && r >= 0.0
            && ((forall k :: 0 <= k < |pop| ==> !HasFriend(pop[k])) ==> r == 0.0)
            && ((forall k :: 0 <= k < |pop| ==> 0.0 <= pop[k].quality <= 100.0) ==> r <= 100.0)
  {
    var gs := FriendGaps(pop, |pop|);
    FriendGapsBounds(pop);
    GapMeanWithin(gs, forall k :: 0 <= k < |pop| ==> 0.0 <= pop[k].quality <= 100.0);
  }

  lemma GapMeanWithin(gs: seq<real>, bounded: bool)
    requires forall g :: 0 <= g < |gs| ==> gs[g] >= 0.0
    requires bounded ==> forall g :: 0 <= g < |gs| ==> gs[g] <= 100.0
    ensures Mean(gs) >= 0.0
    ensures bounded ==> Mean(gs) <= 100.0
  {
    if |gs| > 0 {
      if bounded {
        MeanWithin(gs, 0.0, 100.0);
      } else {
        MeanWithin(gs, 0.0, gs[ArgMax(gs)]);
      }
    }
  }

  // ---------------------------------------------------------------------------
  // Season start and groups
  // ---------------------------------------------------------------------------

  /** `season_initialization()`: every agent runs Patriot `reinit`. */
  function SeasonInit(cfg: Config, pop: seq<Agent>): (r: seq<Agent>)
    requires PopValid(cfg, pop)
    ensures |r| == |pop| && PopValid(cfg, r)
    ensures forall k :: 0 <= k < |pop| ==>
              r[k].points == 0.0 && r[k].outrages == 0 && r[k].signal.None? &&
              r[k].quality == pop[k].quality && r[k].learner == pop[k].learner &&
              r[k].policing == Pow(pop[k].learner.features[PolicingFeature] / 100.0, 4)
    ensures cfg.eraseNetwork ==> forall k :: 0 <= k < |pop| ==>
              r[k].friends.entries == [] && r[k].reputable.entries == [] && r[k].disreputable.entries == []
    ensures !cfg.eraseNetwork ==> forall k :: 0 <= k < |pop| ==>
              r[k].friends == pop[k].friends && r[k].reputable == pop[k].reputable && r[k].disreputable == pop[k].disreputable
  {
    Patriot.ValidIsSized(cfg, pop);
    var r := seq(|pop|, k requires 0 <= k < |pop| => Reinit(cfg, pop[k]));
    assert PopValid(cfg, r) by {
      forall k | 0 <= k < |pop| ensures AgentValid(cfg, |r|, k, r[k]) {
        assert AgentValid(cfg, |pop|, k, pop[k]);
        ReinitValid(cfg, |pop|, k, pop[k]);
      }
    }
    r
  }

  /** A second season start changes nothing: `reinit` is idempotent. */
  lemma SeasonInitIdempotent(cfg: Config, pop: seq<Agent>)
    requires PopValid(cfg, pop)
    ensures SeasonInit(cfg, SeasonInit(cfg, pop)) == SeasonInit(cfg, pop)
  {
    var s := SeasonInit(cfg, pop);
    var s2 := SeasonInit(cfg, s);
    forall k | 0 <= k < |pop| ensures s2[k] == s[k] {
      assert s[k].friends.entries == s2[k].friends.entries;
      assert s[k].reputable.entries == s2[k].reputable.entries;
      assert s[k].disreputable.entries == s2[k].disreputable.entries;
    }
  }

  function Range(n: nat): (r: seq<nat>)
    ensures |r| == n && forall k :: 0 <= k < n ==> r[k] == k
  {
    seq(n, k requires 0 <= k < n => k)
  }

  /** `Pop[groupID * GroupLength : (groupID + 1) * GroupLength]` for each group,
      with `GroupLength = len(Pop) // NbGroup`: the agents past the last full
      group take part in no interaction this run. */
  function Groups(order: seq<nat>, nbGroup: nat): (gs: seq<seq<nat>>)
    requires nbGroup >= 1
    ensures |gs| == nbGroup
    ensures forall g :: 0 <= g < nbGroup ==> |gs[g]| == |order| / nbGroup
  {
    var len := |order| / nbGroup;
    assert nbGroup * len <= |order|;
    seq(nbGroup, g requires 0 <= g < nbGroup => Slice(order, g, len))
  }

  function Slice(order: seq<nat>, g: nat, len: nat): (s: seq<nat>)
    requires (g + 1) * len <= |order|
    ensures |s| == len
    ensures forall i :: 0 <= i < len ==> s[i] == order[g * len + i]
  {
    order[g * len..(g + 1) * len]
  }

  lemma SliceFits(order: seq<nat>, nbGroup: nat, g: nat)
    requires nbGroup >= 1 && g < nbGroup
    ensures (g + 1) * (|order| / nbGroup) <= |order|
  {
    var len := |order| / nbGroup;
    assert nbGroup * len <= |order|;
    MulMonotoneInt(g + 1, nbGroup, len);
  }

  /** Member `i` of group `g` is agent `order[g * len + i]`: groups cut
      consecutive, non-overlapping stretches of the order, so with a
      duplicate-free order no agent is in two groups or twice in one, and
      agents at positions from `nbGroup * len` on are in none. */
  lemma GroupsPartition(order: seq<nat>, nbGroup: nat, g: nat, h: nat, i: nat, j: nat)
    requires nbGroup >= 1 && Population.Distinct(order)
    requires g < nbGroup && h < nbGroup
    requires i < |order| / nbGroup && j < |order| / nbGroup
    requires (g, i) != (h, j)
    ensures Groups(order, nbGroup)[g][i] != Groups(order, nbGroup)[h][j]
  {
    var len := |order| / nbGroup;
    var a := GroupMemberPosition(order, nbGroup, g, i);
    var b := GroupMemberPosition(order, nbGroup, h, j);
    if g < h {
      StretchesApart(g, h, len, i, j);
    } else if h < g {
      StretchesApart(h, g, len, j, i);
    }
    DistinctAt(order, a, b);
  }

  lemma DistinctAt(order: seq<nat>, a: nat, b: nat)
    requires Population.Distinct(order) && a < |order| && b < |order| && a != b
    ensures order[a] != order[b]
  {
  }

  /** Position `i` of stretch `g` comes before position `j` of a later stretch `h`. */
  lemma StretchesApart(g: nat, h: nat, len: nat, i: nat, j: nat)
    requires g < h && i < len && j < len
    ensures g * len + i < h * len + j
  {
    assert (g + 1) * len == g * len + len;
    MulMonotoneInt(g + 1, h, len);
  }

  /** Member `i` of group `g` sits at position `g * len + i` of the order,
      before the first position no group covers. */
  lemma GroupMemberPosition(order: seq<nat>, nbGroup: nat, g: nat, i: nat) returns (pos: nat)
    requires nbGroup >= 1 && g < nbGroup && i < |order| / nbGroup
    ensures pos == g * (|order| / nbGroup) + i
    ensures pos < nbGroup * (|order| / nbGroup) <= |order|
    ensures Groups(order, nbGroup)[g][i] == order[pos]
  {
    var len := |order| / nbGroup;
    SliceFits(order, nbGroup, g);
    MulMonotoneInt(g + 1, nbGroup, len);
    assert nbGroup * len <= |order|;
    pos := g * len + i;
  }

  // ---------------------------------------------------------------------------
  // Learning
  // ---------------------------------------------------------------------------

  /** One agent's `Learns(neighbours, hot=hot)` with the agent's own features
      bounded by [0, 100]. A learner past AgeMax is first reborn through
      Patriot `Reset(Newborn=True)`, which also erases its friends and runs
      `reinit`; Learner's own rebirth is then a no-op. */
  function AgentLearns(cfg: Config, pop: seq<Agent>, k: nat, hot: bool, d: Learner.LearnDraws): (r: Agent)
    requires PopValid(cfg, pop) && k < |pop|
    requires Learner.ParamsOk(cfg.learning) && Learner.DrawsOk(FeatureCount, d)
    ensures AgentValid(cfg, |pop|, k, r)
    ensures r.quality == pop[k].quality
    ensures r.learner.performance == []
    ensures |r.learner.scores.past| > 0 && Memory.Last(r.learner.scores).perf == Mean(pop[k].learner.performance)
    ensures pop[k].learner.age <= cfg.learning.ageMax ==>
              r.learner.age == pop[k].learner.age + 1 && r.(learner := pop[k].learner) == pop[k]
    ensures pop[k].learner.age > cfg.learning.ageMax ==>
              r.learner.age == 1 && r.friends.entries == [] && r.points == 0.0 && r.outrages == 0 && r.signal.None?
  {
    var p := cfg.learning;
    var a := pop[k];
    assert AgentValid(cfg, |pop|, k, a);
    var reborn := a.learner.age > p.ageMax;
    var a1 := if reborn then Patriot.Reset(cfg, a, true, 0, d.resetFeatures) else a;
    if reborn then Patriot.ResetValid(cfg, |pop|, k, a, true, 0, d.resetFeatures); LearnsAs(cfg, pop, k, a1, hot, d)
    else LearnsAs(cfg, pop, k, a1, hot, d)
  }

  /** The learning step proper, applied to the (possibly reborn) agent `a`. */
  function LearnsAs(cfg: Config, pop: seq<Agent>, k: nat, a: Agent, hot: bool, d: Learner.LearnDraws): (r: Agent)
    requires PopValid(cfg, pop) && k < |pop| && AgentValid(cfg, |pop|, k, a)
    requires Learner.ParamsOk(cfg.learning) && Learner.DrawsOk(FeatureCount, d)
    ensures AgentValid(cfg, |pop|, k, r)
    ensures r.(learner := a.learner) == a
    ensures var b := Learner.Rebirth(cfg.learning, a.learner, d);
            r.learner.age == b.age + 1 && r.learner.performance == [] &&
            |r.learner.scores.past| > 0 && Memory.Last(r.learner.scores) == Learner.Record(b.features, Mean(a.learner.performance))
  {
    Patriot.ValidIsSized(cfg, pop);
    var ns := NeighbourLearners(pop, k);
    var res := Learner.Learns(cfg.learning, a.learner, ns, None, hot, 0.0, 100.0, d);
    a.(learner := res.learner)
  }

  /** A learner that has just learned: its performance list is empty and its
      newest record holds the mean of the performances it had before. */
  predicate Refreshed(l: Learner.Learner, before: Learner.Learner) {
    && l.performance == []
    && |l.scores.past| > 0
    && Memory.Last(l.scores).perf == Mean(before.performance)
  }

  /** Agent `k`'s turn in the learning pass: its `assessment()`, then, when it
      was drawn as a learner, its learning step. */
  function LearnTurn(cfg: Config, pop: seq<Agent>, learners: set<nat>, hot: bool, d: Learner.LearnDraws, k: nat): (r: seq<Agent>)
    requires PopValid(cfg, pop) && k < |pop| && Learner.ParamsOk(cfg.learning) && Learner.DrawsOk(FeatureCount, d)
    ensures |r| == |pop| && PopValid(cfg, r)
    ensures forall m :: 0 <= m < |pop| ==> r[m].quality == pop[m].quality
    ensures forall m :: 0 <= m < |pop| && (m != k || k !in learners) ==> r[m].learner == pop[m].learner
    ensures k in learners ==> Refreshed(r[k].learner, pop[k].learner)
  {
    var assessed := Patriot.Assess(cfg, pop, k);
    LearnIf(cfg, assessed, learners, hot, d, k)
  }

  /** Agent `k` learns when it was drawn as a learner. */
  function LearnIf(cfg: Config, pop: seq<Agent>, learners: set<nat>, hot: bool, d: Learner.LearnDraws, k: nat): (r: seq<Agent>)
    requires PopValid(cfg, pop) && k < |pop| && Learner.ParamsOk(cfg.learning) && Learner.DrawsOk(FeatureCount, d)
    ensures |r| == |pop| && PopValid(cfg, r)
    ensures forall m :: 0 <= m < |pop| ==> r[m].quality == pop[m].quality
    ensures forall m :: 0 <= m < |pop| && (m != k || k !in learners) ==> r[m].learner == pop[m].learner
    ensures k in learners ==> Refreshed(r[k].learner, pop[k].learner)
  {
    if k in learners then
      var a := AgentLearns(cfg, pop, k, hot, d);
      var r := pop[k := a];
      assert PopValid(cfg, r) by {
        forall m | 0 <= m < |r| ensures AgentValid(cfg, |r|, m, r[m]) {
          if m != k { assert AgentValid(cfg, |pop|, m, pop[m]); }
        }
      }
      r
    else pop
  }

  /** After the turns of agents `0..t-1`: every agent that has not had its
      turn, and every agent not drawn as a learner, keeps its learner; each
      learner that has had its turn is refreshed. */
  predicate PassedUpTo(pop: seq<Agent>, r: seq<Agent>, learners: set<nat>, t: nat)
    requires |r| == |pop|
  {
    && (forall k :: 0 <= k < |pop| && (t <= k || k !in learners) ==> r[k].learner == pop[k].learner)
    && (forall k :: 0 <= k < t && k < |pop| && k in learners ==> Refreshed(r[k].learner, pop[k].learner))
  }

  /** The first `t` agents of the learning pass, each taking its turn against
      the population as the earlier agents have left it. */
  function LearnPass(cfg: Config, pop: seq<Agent>, learners: set<nat>, hot: bool, draws: seq<Learner.LearnDraws>, t: nat): (r: seq<Agent>)
    requires PopValid(cfg, pop) && t <= |pop| && Learner.ParamsOk(cfg.learning)
    requires |draws| == |pop| && forall k :: 0 <= k < |draws| ==> Learner.DrawsOk(FeatureCount, draws[k])
    ensures |r| == |pop| && PopValid(cfg, r)
    ensures forall k :: 0 <= k < |pop| ==> r[k].quality == pop[k].quality
    ensures PassedUpTo(pop, r, learners, t)
    decreases t
  {
    if t == 0 then pop
    else
      var before := LearnPass(cfg, pop, learners, hot, draws, t - 1);
      var r := LearnTurn(cfg, before, learners, hot, draws[t - 1], t - 1);
      PassStep(pop, before, r, learners, t - 1);
      r
  }

  /** Agent `k`'s turn extends the pass over agents `0..k-1` to `0..k`. */
  lemma PassStep(pop: seq<Agent>, before: seq<Agent>, r: seq<Agent>, learners: set<nat>, k: nat)
    requires |before| == |pop| && |r| == |pop| && k < |pop|
    requires PassedUpTo(pop, before, learners, k)
    requires forall m :: 0 <= m < |pop| && (m != k || k !in learners) ==> r[m].learner == before[m].learner
    requires k in learners ==> Refreshed(r[k].learner, before[k].learner)
    requires forall m :: 0 <= m < |pop| ==> before[m].quality == pop[m].quality
    requires forall m :: 0 <= m < |pop| ==> r[m].quality == before[m].quality
    ensures PassedUpTo(pop, r, learners, k + 1)
    ensures forall m :: 0 <= m < |pop| ==> r[m].quality == pop[m].quality
  {
  }

  /** `wins(Points)` for every agent once the cross-benefits are settled. */
  function WinAll(pop: seq<Agent>): (r: seq<Agent>)
    ensures |r| == |pop|
    ensures forall k :: 0 <= k < |pop| ==> r[k].learner.performance == pop[k].learner.performance + [pop[k].points]
    ensures forall k :: 0 <= k < |pop| ==> r[k].learner.(performance := pop[k].learner.performance) == pop[k].learner
    ensures forall k :: 0 <= k < |pop| ==> r[k].(learner := pop[k].learner) == pop[k]
  {
    seq(|pop|, k requires 0 <= k < |pop| => pop[k].(learner := Learner.Wins(pop[k].learner, pop[k].points)))
  }

  /** `learning()`: the assessment and learning pass, then every agent stores
      its final points. A learner starts a fresh performance list holding only
      these points, after recording the mean of its previous ones; everyone
      else appends them. */
  function Learning(cfg: Config, pop: seq<Agent>, learners: set<nat>, hot: bool, draws: seq<Learner.LearnDraws>): (r: seq<Agent>)
    requires PopValid(cfg, pop) && Learner.ParamsOk(cfg.learning)
    requires |draws| == |pop| && forall k :: 0 <= k < |draws| ==> Learner.DrawsOk(FeatureCount, draws[k])
    ensures |r| == |pop| && PopValid(cfg, r)
    ensures forall k :: 0 <= k < |pop| ==> r[k].quality == pop[k].quality
    ensures forall k :: 0 <= k < |pop| ==>
              r[k].learner.performance == (if k in learners then [] else pop[k].learner.performance) + [r[k].points]
    ensures forall k :: 0 <= k < |pop| && k !in learners ==>
              r[k].learner.(performance := pop[k].learner.performance) == pop[k].learner
    ensures forall k :: 0 <= k < |pop| && k in learners ==>
              |r[k].learner.scores.past| > 0 && Memory.Last(r[k].learner.scores).perf == Mean(pop[k].learner.performance)
  {
    var passed := LearnPass(cfg, pop, learners, hot, draws, |pop|);
    WinAllValid(cfg, passed);
    var r := WinAll(passed);
    PassThenWin(pop, passed, r, learners);
    r
  }

  lemma WinAllValid(cfg: Config, pop: seq<Agent>)
    requires PopValid(cfg, pop)
    ensures PopValid(cfg, WinAll(pop))
  {
    var r := WinAll(pop);
    forall k | 0 <= k < |r| ensures AgentValid(cfg, |r|, k, r[k]) {
      assert AgentValid(cfg, |pop|, k, pop[k]);
    }
  }

  /** The learning pass followed by `wins(Points)`, agent by agent. */
  lemma PassThenWin(pop: seq<Agent>, passed: seq<Agent>, r: seq<Agent>, learners: set<nat>)
    requires |passed| == |pop| && |r| == |pop|
    requires PassedUpTo(pop, passed, learners, |pop|)
    requires forall k :: 0 <= k < |pop| ==> r[k].learner.performance == passed[k].learner.performance + [passed[k].points]
    requires forall k :: 0 <= k < |pop| ==> r[k].learner.(performance := passed[k].learner.performance) == passed[k].learner
    requires forall k :: 0 <= k < |pop| ==> r[k].(learner := passed[k].learner) == passed[k]
    ensures forall k :: 0 <= k < |pop| ==>
              r[k].learner.performance == (if k in learners then [] else pop[k].learner.performance) + [r[k].points]
    ensures forall k :: 0 <= k < |pop| && k !in learners ==>
              r[k].learner.(performance := pop[k].learner.performance) == pop[k].learner
    ensures forall k :: 0 <= k < |pop| && k in learners ==>
              |r[k].learner.scores.past| > 0 && Memory.Last(r[k].learner.scores).perf == Mean(pop[k].learner.performance)
  {
  }

  // ---------------------------------------------------------------------------
  // One run
  // ---------------------------------------------------------------------------

  /** The draws of one group's `interactions(group)`: the shuffled order of
      each encounter and one draw per ordered interaction. */
  datatype GroupDraws = GroupDraws(orders: seq<seq<nat>>, interact: seq<Patriot.InteractDraw>)

  /** The draws of one run: the shuffled population order (used when there
      is more than one group), each group's draws, the agents sampled as
      learners and each agent's learning draws. */
  datatype RunDraws = RunDraws(order: seq<nat>, groups: seq<GroupDraws>, learners: set<nat>,
                               learn: seq<Learner.LearnDraws>)

  /** `order` lists each of the agents `0..n-1` exactly once. */
  predicate IsPermutation(order: seq<nat>, n: nat) {
    |order| == n && Population.Distinct(order) && forall i :: 0 <= i < |order| ==> order[i] < n
  }

  predicate GroupDrawsOk(cfg: Config, group: seq<nat>, gd: GroupDraws) {
    && |gd.orders| == cfg.nbInteractions
    && Population.Shuffles(gd.orders, group)
    && |gd.interact| == |Population.Schedule(gd.orders)|
  }

  /** The order groups are cut from: a shuffled copy of the population with
      several groups, the population order itself with one. */
  function RunOrder(cfg: Config, n: nat, d: RunDraws): (order: seq<nat>)
    ensures cfg.nbGroup <= 1 ==> order == Range(n)
    ensures (cfg.nbGroup <= 1 || IsPermutation(d.order, n)) ==> IsPermutation(order, n)
  {
    if cfg.nbGroup > 1 then d.order else Range(n)
  }

  predicate RunDrawsOk(cfg: Config, n: nat, d: RunDraws) {
    && cfg.nbGroup >= 1
    && (cfg.nbGroup > 1 ==> IsPermutation(d.order, n))
    && |d.groups| == cfg.nbGroup
    && (forall g :: 0 <= g < cfg.nbGroup ==> GroupDrawsOk(cfg, Groups(RunOrder(cfg, n, d), cfg.nbGroup)[g], d.groups[g]))
    && |d.learn| == n
    && forall k :: 0 <= k < n ==> Learner.DrawsOk(FeatureCount, d.learn[k])
  }

  lemma RunOrderIsPermutation(cfg: Config, n: nat, d: RunDraws)
    requires RunDrawsOk(cfg, n, d)
    ensures IsPermutation(RunOrder(cfg, n, d), n)
  {
  }

  /** The agents of the first `g` groups. */
  function Members(gs: seq<seq<nat>>, g: nat): set<nat>
    requires g <= |gs|
  {
    set h, i | 0 <= h < g && 0 <= i < |gs[h]| :: gs[h][i]
  }

  lemma MembersGrow(gs: seq<seq<nat>>, g: nat, group: seq<nat>)
    requires 0 < g <= |gs| && group == gs[g - 1]
    ensures Members(gs, g - 1) + (set v | v in group) <= Members(gs, g)
  {
    forall v | v in group ensures v in Members(gs, g) {
      var i :| 0 <= i < |group| && group[i] == v;
    }
  }

  /** The groups' `interactions(group)` one after the other: only signal
      caches and the opinions of group members change. */
  function InteractGroups(cfg: Config, pop: seq<Agent>, gs: seq<seq<nat>>, gd: seq<GroupDraws>, g: nat): (r: seq<Agent>)
    requires PopValid(cfg, pop) && |gd| == |gs| && g <= |gs|
    requires forall h, i :: 0 <= h < |gs| && 0 <= i < |gs[h]| ==> gs[h][i] < |pop|
    requires forall h :: 0 <= h < |gs| ==> GroupDrawsOk(cfg, gs[h], gd[h])
    ensures |r| == |pop| && PopValid(cfg, r)
    ensures Population.OnlyOpinions(cfg, pop, r, Members(gs, g))
    decreases g
  {
    if g == 0 then
      Patriot.ValidIsSized(cfg, pop);
      pop
    else
      var before := InteractGroups(cfg, pop, gs, gd, g - 1);
      var group := gs[g - 1];
      var r := Population.GroupInteractions(cfg, before, group, gd[g - 1].orders, gd[g - 1].interact);
      Population.OnlyOpinionsCompose(cfg, pop, before, r, Members(gs, g - 1), set v | v in group);
      MembersGrow(gs, g, group);
      Population.OnlyOpinionsWiden(cfg, pop, r, Members(gs, g - 1) + (set v | v in group), Members(gs, g));
      r
  }

  /** Every group member is one of the agents listed by the order. */
  lemma GroupsWithin(order: seq<nat>, nbGroup: nat, n: nat)
    requires nbGroup >= 1 && forall i :: 0 <= i < |order| ==> order[i] < n
    ensures var gs := Groups(order, nbGroup);
            forall h, i :: 0 <= h < |gs| && 0 <= i < |gs[h]| ==> gs[h][i] < n
  {
    var gs := Groups(order, nbGroup);
    forall h, i | 0 <= h < |gs| && 0 <= i < |gs[h]| ensures gs[h][i] < n {
      var pos := GroupMemberPosition(order, nbGroup, h, i);
    }
  }

  /** An agent placed after the last full group belongs to no group. */
  lemma LeftOverInNoGroup(order: seq<nat>, nbGroup: nat, p: nat)
    requires nbGroup >= 1 && Population.Distinct(order)
    requires nbGroup * (|order| / nbGroup) <= p < |order|
    ensures order[p] !in Members(Groups(order, nbGroup), nbGroup)
  {
    var gs := Groups(order, nbGroup);
    forall h, i | 0 <= h < nbGroup && 0 <= i < |gs[h]| ensures gs[h][i] != order[p] {
      LeftOverNotAt(order, nbGroup, p, h, i);
    }
  }

  lemma LeftOverNotAt(order: seq<nat>, nbGroup: nat, p: nat, h: nat, i: nat)
    requires nbGroup >= 1 && Population.Distinct(order)
    requires nbGroup * (|order| / nbGroup) <= p < |order|
    requires h < nbGroup && i < |order| / nbGroup
    ensures Groups(order, nbGroup)[h][i] != order[p]
  {
    var pos := GroupMemberPosition(order, nbGroup, h, i);
  }

  /** The interaction phase of a run: `season_initialization()`, then each
      group's interactions. */
  function Season(cfg: Config, pop: seq<Agent>, d: RunDraws): (r: seq<Agent>)
    requires PopValid(cfg, pop) && RunDrawsOk(cfg, |pop|, d)
    ensures |r| == |pop| && PopValid(cfg, r)
    ensures forall k :: 0 <= k < |pop| ==> r[k].learner == pop[k].learner && r[k].quality == pop[k].quality
  {
    var s := SeasonInit(cfg, pop);
    var gs := Groups(RunOrder(cfg, |pop|, d), cfg.nbGroup);
    GroupsWithin(RunOrder(cfg, |pop|, d), cfg.nbGroup, |pop|);
    var r := InteractGroups(cfg, s, gs, d.groups, cfg.nbGroup);
    OpinionsKeepLearners(cfg, pop, s, r, Members(gs, cfg.nbGroup));
    r
  }

  /** Beyond the season start, the interaction phase changes only the
      opinions of agents that belong to a group. */
  lemma SeasonChangesOnlyOpinions(cfg: Config, pop: seq<Agent>, d: RunDraws)
    requires PopValid(cfg, pop) && RunDrawsOk(cfg, |pop|, d)
    ensures Population.OnlyOpinions(cfg, SeasonInit(cfg, pop), Season(cfg, pop, d),
                                    Members(Groups(RunOrder(cfg, |pop|, d), cfg.nbGroup), cfg.nbGroup))
  {
    GroupsWithin(RunOrder(cfg, |pop|, d), cfg.nbGroup, |pop|);
  }

  lemma OpinionsKeepLearners(cfg: Config, pop: seq<Agent>, s: seq<Agent>, r: seq<Agent>, ls: set<nat>)
    requires |s| == |pop| && forall k :: 0 <= k < |pop| ==> s[k].learner == pop[k].learner && s[k].quality == pop[k].quality
    requires Population.OnlyOpinions(cfg, s, r, ls)
    ensures forall k :: 0 <= k < |pop| ==> r[k].learner == pop[k].learner && r[k].quality == pop[k].quality
  {
    forall k | 0 <= k < |pop| ensures r[k].learner == pop[k].learner && r[k].quality == pop[k].quality {
      assert r[k].(signal := s[k].signal, reputable := s[k].reputable, disreputable := s[k].disreputable) == s[k];
    }
  }

  /** The agents left over by the cut into groups interact with nobody: their
      opinions stay as the season start left them. */
  lemma LeftOversKeepOpinions(cfg: Config, pop: seq<Agent>, d: RunDraws, p: nat)
    requires PopValid(cfg, pop) && RunDrawsOk(cfg, |pop|, d)
    requires cfg.nbGroup * (|pop| / cfg.nbGroup) <= p < |pop|
    ensures var k := RunOrder(cfg, |pop|, d)[p];
            var r := Season(cfg, pop, d);
            var s := SeasonInit(cfg, pop);
            r[k].reputable == s[k].reputable && r[k].disreputable == s[k].disreputable
  {
    var order := RunOrder(cfg, |pop|, d);
    RunOrderIsPermutation(cfg, |pop|, d);
    LeftOverInNoGroup(order, cfg.nbGroup, p);
    SeasonChangesOnlyOpinions(cfg, pop, d);
  }

  /** One run of `One_Run`: the interaction phase, then `learning()`. */
  function Run(cfg: Config, pop: seq<Agent>, hot: bool, d: RunDraws): (r: seq<Agent>)
    requires PopValid(cfg, pop) && Learner.ParamsOk(cfg.learning) && RunDrawsOk(cfg, |pop|, d)
    ensures |r| == |pop| && PopValid(cfg, r)
    ensures forall k :: 0 <= k < |pop| ==> r[k].quality == pop[k].quality
    ensures forall k :: 0 <= k < |pop| && k !in d.learners ==>
              r[k].learner.(performance := pop[k].learner.performance) == pop[k].learner
  {
    var s := Season(cfg, pop, d);
    Learning(cfg, s, d.learners, hot, d.learn)
  }

  /** `One_Run()`: `NbRunPerYear` runs. Qualities never change, and an agent
      never drawn as a learner keeps its features and its history. */
  function OneRun(cfg: Config, pop: seq<Agent>, hot: bool, runs: seq<RunDraws>): (r: seq<Agent>)
    requires PopValid(cfg, pop) && Learner.ParamsOk(cfg.learning)
    requires forall t :: 0 <= t < |runs| ==> RunDrawsOk(cfg, |pop|, runs[t])
    requires |runs| == cfg.nbRunPerYear
    ensures |r| == |pop| && PopValid(cfg, r)
    ensures forall k :: 0 <= k < |pop| ==> r[k].quality == pop[k].quality
    ensures forall k :: 0 <= k < |pop| && (forall t :: 0 <= t < |runs| ==> k !in runs[t].learners) ==>
              r[k].learner.features == pop[k].learner.features && r[k].learner.scores == pop[k].learner.scores &&
              r[k].learner.age == pop[k].learner.age
  {
    Runs(cfg, pop, hot, runs)
  }

  function Runs(cfg: Config, pop: seq<Agent>, hot: bool, runs: seq<RunDraws>): (r: seq<Agent>)
    requires PopValid(cfg, pop) && Learner.ParamsOk(cfg.learning)
    requires forall t :: 0 <= t < |runs| ==> RunDrawsOk(cfg, |pop|, runs[t])
    ensures |r| == |pop| && PopValid(cfg, r)
    ensures forall k :: 0 <= k < |pop| ==> r[k].quality == pop[k].quality
    ensures forall k :: 0 <= k < |pop| && (forall t :: 0 <= t < |runs| ==> k !in runs[t].learners) ==>
              r[k].learner.features == pop[k].learner.features && r[k].learner.scores == pop[k].learner.scores &&
              r[k].learner.age == pop[k].learner.age
    decreases |runs|
  {
    if |runs| == 0 then pop
    else
      var init := runs[..|runs| - 1];
      SplitLast(runs);
      var before := Runs(cfg, pop, hot, init);
      var r := Run(cfg, before, hot, runs[|runs| - 1]);
      RunsStep(pop, before, r, init, runs[|runs| - 1]);
      r
  }

  /** The last run extends what the earlier runs kept. */
  lemma RunsStep(pop: seq<Agent>, before: seq<Agent>, r: seq<Agent>, init: seq<RunDraws>, last: RunDraws)
    requires |before| == |pop| && |r| == |pop|
    requires forall k :: 0 <= k < |pop| && (forall t :: 0 <= t < |init| ==> k !in init[t].learners) ==>
               before[k].learner.features == pop[k].learner.features && before[k].learner.scores == pop[k].learner.scores &&
               before[k].learner.age == pop[k].learner.age
    requires forall k :: 0 <= k < |pop| && k !in last.learners ==>
               r[k].learner.(performance := before[k].learner.performance) == before[k].learner
    ensures var runs := init + [last];
            forall k :: 0 <= k < |pop| && (forall t :: 0 <= t < |runs| ==> k !in runs[t].learners) ==>
              r[k].learner.features == pop[k].learner.features && r[k].learner.scores == pop[k].learner.scores &&
              r[k].learner.age == pop[k].learner.age
  {
    var runs := init + [last];
    forall k | 0 <= k < |pop| && (forall t :: 0 <= t < |runs| ==> k !in runs[t].learners)
      ensures r[k].learner.features == pop[k].learner.features && r[k].learner.scores == pop[k].learner.scores &&
              r[k].learner.age == pop[k].learner.age
    {
      assert k !in runs[|init|].learners;
      forall t | 0 <= t < |init| ensures k !in init[t].learners {
        assert runs[t] == init[t];
      }
    }
  }
}
