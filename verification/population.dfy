/** The Patriot population: the all-pairs encounter schedule within a group,
    the interactions it drives, the end-of-run dump of agents sorted by
    quality, and the construction of the quantization levels. */
module Population {
  import opened Wrappers
  import opened Num
  import opened Individual
  import Ledger
  import Learner
  import Patriot
  import Sorting

  // ---------------------------------------------------------------------------
  // The encounter schedule of `Population.interactions(group)`
  // ---------------------------------------------------------------------------

  /** `for Partner in group: if Partner.ID != Player.ID`: the ordered pairs
      in which `p` speaks to every other member of `o`, in `o`'s order. */
  function Partners(p: nat, o: seq<nat>): (r: seq<(nat, nat)>)
    ensures forall k :: 0 <= k < |r| ==> r[k].0 == p && r[k].1 != p && r[k].1 in o
    decreases |o|
  {
    if |o| == 0 then []
    else
      var q := o[|o| - 1];
      Partners(p, o[..|o| - 1]) + (if q != p then [(p, q)] else [])
  }

  /** `for Player in group: ...`: one encounter after a shuffle that put the group in order `o`. */
  function Round(players: seq<nat>, o: seq<nat>): (r: seq<(nat, nat)>)
    ensures forall k :: 0 <= k < |r| ==> r[k].0 in players && r[k].1 in o && r[k].0 != r[k].1
    decreases |players|
  {
    if |players| == 0 then []
    else
      var r0 := Round(players[..|players| - 1], o);
      var r1 := Partners(players[|players| - 1], o);
      assert forall k :: 0 <= k < |r1| ==> r1[k].0 == players[|players| - 1];
      r0 + r1
  }

  /** `for encounter in range(NbInteractions)`: `orders[e]` is the group's
      order after the `e`-th `random.shuffle`. */
  function Schedule(orders: seq<seq<nat>>): (r: seq<(nat, nat)>)
    ensures forall k :: 0 <= k < |r| ==> r[k].0 != r[k].1
    decreases |orders|
  {
    if |orders| == 0 then []
    else
      var o := orders[|orders| - 1];
      Schedule(orders[..|orders| - 1]) + Round(o, o)
  }

  lemma {:induction false} CountPartners(p: nat, o: seq<nat>, x: nat, y: nat)
    ensures Count(Partners(p, o), (x, y)) == if x == p && y != p then Count(o, y) else 0
    decreases |o|
  {
    if |o| > 0 {
      var q := o[|o| - 1];
      CountPartners(p, o[..|o| - 1], x, y);
      CountAppend(Partners(p, o[..|o| - 1]), if q != p then [(p, q)] else [], (x, y));
      assert Count([(p, q)], (x, y)) == if (p, q) == (x, y) then 1 else 0 by {
        assert [(p, q)][..0] == [];
      }
      var none: seq<(nat, nat)> := [];
      assert Count(none, (x, y)) == 0;
    }
  }

  lemma {:induction false} CountRound(players: seq<nat>, o: seq<nat>, x: nat, y: nat)
    ensures Count(Round(players, o), (x, y)) == Count(players, x) * (if x != y then Count(o, y) else 0)
    decreases |players|
  {
    if |players| > 0 {
      var init := players[..|players| - 1];
      var last := players[|players| - 1];
      var c := if x != y then Count(o, y) else 0;
      var b := if last == x then 1 else 0;
      CountRound(init, o, x, y);
      CountAppend(Round(init, o), Partners(last, o), (x, y));
      CountPartners(last, o, x, y);
      assert Count(Partners(last, o), (x, y)) == b * c;
      assert Count(players, x) == Count(init, x) + b;
      Distribute(Count(init, x), b, c);
    }
  }

  lemma Distribute(a: int, b: int, c: int)
    ensures (a + b) * c == a * c + b * c
  {
  }

  /** Python's shuffle permutes the group: the new order holds the same members. */
  predicate Shuffles(orders: seq<seq<nat>>, group: seq<nat>) {
    forall e :: 0 <= e < |orders| ==> multiset(orders[e]) == multiset(group)
  }

  lemma {:induction false} CountIsMultiplicity<T>(s: seq<T>, x: T)
    ensures Count(s, x) == multiset(s)[x]
  {
    if |s| > 0 {
      assert s == s[..|s| - 1] + [s[|s| - 1]];
      CountIsMultiplicity(s[..|s| - 1], x);
    }
  }

  /** Each encounter makes every ordered pair of members interact once per
      copy of each: after `|orders|` encounters a speaker `x` has addressed
      a listener `y` exactly `|orders| * mult(x) * mult(y)` times, and never itself. */
  /** One encounter: every ordered pair of distinct agents, counted with multiplicity. */
  lemma CountShuffledRound(o: seq<nat>, group: seq<nat>, x: nat, y: nat)
    requires multiset(o) == multiset(group)
    ensures Count(Round(o, o), (x, y)) == if x == y then 0 else Count(group, x) * Count(group, y)
  {
    CountRound(o, o, x, y);
    CountIsMultiplicity(o, x);
    CountIsMultiplicity(o, y);
    CountIsMultiplicity(group, x);
    CountIsMultiplicity(group, y);
  }

  /** Over all encounters, a speaker `x` addresses a listener `y` once per
      encounter and per copy of each in the group, and never itself. */
  lemma {:induction false} CountSchedule(orders: seq<seq<nat>>, group: seq<nat>, x: nat, y: nat)
    requires Shuffles(orders, group)
    ensures Count(Schedule(orders), (x, y)) == |orders| * (if x == y then 0 else Count(group, x) * Count(group, y))
    decreases |orders|
  {
    if |orders| > 0 {
      var init := orders[..|orders| - 1];
      var o := orders[|orders| - 1];
      assert Shuffles(init, group) by {
        forall e | 0 <= e < |init| ensures multiset(init[e]) == multiset(group) {
          assert init[e] == orders[e];
        }
      }
      var m := if x == y then 0 else Count(group, x) * Count(group, y);
      CountSchedule(init, group, x, y);
      CountAppend(Schedule(init), Round(o, o), (x, y));
      CountShuffledRound(o, group, x, y);
      Distribute(|init|, 1, m);
    }
  }

  predicate Distinct(s: seq<nat>) {
    forall a, b :: 0 <= a < b < |s| ==> s[a] != s[b]
  }

  /** In a group of distinct agents, each member addresses each other member
      exactly once per encounter, and no pair outside the group ever meets. */
  lemma MeetsOncePerEncounter(orders: seq<seq<nat>>, group: seq<nat>, x: nat, y: nat)
    requires Shuffles(orders, group) && Distinct(group)
    ensures x in group && y in group && x != y ==> Count(Schedule(orders), (x, y)) == |orders|
    ensures x !in group || y !in group || x == y ==> Count(Schedule(orders), (x, y)) == 0
  {
    CountSchedule(orders, group, x, y);
    CountInDistinct(group, x);
    CountInDistinct(group, y);
    ScaleByIndicator(|orders|, Count(group, x), Count(group, y), x == y);
  }

  lemma CountInDistinct(group: seq<nat>, x: nat)
    requires Distinct(group)
    ensures Count(group, x) == if x in group then 1 else 0
  {
    if x in group { CountDistinct(group, x); } else { CountAbsent(group, x); }
  }

  lemma ScaleByIndicator(n: int, a: int, b: int, same: bool)
    requires (a == 0 || a == 1) && (b == 0 || b == 1)
    ensures n * (if same then 0 else a * b) == if !same && a == 1 && b == 1 then n else 0
  {
  }

  // ---------------------------------------------------------------------------
  // Interactions along a schedule
  // ---------------------------------------------------------------------------

  /** Every scheduled pair names two different agents of a population of `n`. */
  predicate PairsIn(pairs: seq<(nat, nat)>, n: nat) {
    forall k :: 0 <= k < |pairs| ==> pairs[k].0 < n && pairs[k].1 < n && pairs[k].0 != pairs[k].1
  }

  /** The agents that are ever addressed as partner. */
  function Listeners(pairs: seq<(nat, nat)>): set<nat> {
    set k | 0 <= k < |pairs| :: pairs[k].1
  }

  /** What interactions may change between `pop` and `r`: only signal caches
      (filled, never altered) and the opinion ledgers of the agents in `ls`. */
  predicate OnlyOpinions(cfg: Config, pop: seq<Agent>, r: seq<Agent>, ls: set<nat>) {
    && |r| == |pop| && Patriot.Sized(pop) && Patriot.Sized(r)
    && (forall k :: 0 <= k < |pop| ==>
          r[k].(signal := pop[k].signal, reputable := pop[k].reputable, disreputable := pop[k].disreputable) == pop[k])
    && (forall k :: 0 <= k < |pop| && k !in ls ==>
          r[k].reputable == pop[k].reputable && r[k].disreputable == pop[k].disreputable)
    && (forall k :: 0 <= k < |pop| ==> CurrentSignal(cfg, r[k]) == CurrentSignal(cfg, pop[k]))
    && (forall k :: 0 <= k < |pop| && pop[k].signal.Some? ==> r[k].signal == pop[k].signal)
  }

  lemma OnlyOpinionsCompose(cfg: Config, a: seq<Agent>, b: seq<Agent>, c: seq<Agent>, ls: set<nat>, ls': set<nat>)
    requires OnlyOpinions(cfg, a, b, ls) && OnlyOpinions(cfg, b, c, ls')
    ensures OnlyOpinions(cfg, a, c, ls + ls')
  {
    forall k | 0 <= k < |a|
      ensures c[k].(signal := a[k].signal, reputable := a[k].reputable, disreputable := a[k].disreputable) == a[k]
    {
      assert b[k].(signal := a[k].signal, reputable := a[k].reputable, disreputable := a[k].disreputable) == a[k];
      assert c[k].(signal := b[k].signal, reputable := b[k].reputable, disreputable := b[k].disreputable) == b[k];
    }
  }

  lemma ListenersSnoc(pairs: seq<(nat, nat)>)
    requires |pairs| > 0
    ensures Listeners(pairs) == Listeners(pairs[..|pairs| - 1]) + {pairs[|pairs| - 1].1}
  {
    var n := |pairs| - 1;
    var init := pairs[..n];
    forall v ensures v in Listeners(pairs) <==> v in Listeners(init) + {pairs[n].1} {
      if v in Listeners(pairs) {
        var k :| 0 <= k < |pairs| && pairs[k].1 == v;
        if k < n { assert init[k] == pairs[k]; }
      }
      if v in Listeners(init) {
        var k :| 0 <= k < n && init[k].1 == v;
        assert pairs[k] == init[k];
      }
    }
  }

  /** `Player.Interact(Partner)` for each scheduled pair in turn, each with its own draws. */
  function Interactions(cfg: Config, pop: seq<Agent>, pairs: seq<(nat, nat)>, draws: seq<Patriot.InteractDraw>): (r: seq<Agent>)
    requires PopValid(cfg, pop) && PairsIn(pairs, |pop|) && |draws| == |pairs|
    ensures |r| == |pop| && PopValid(cfg, r)
    // only signal caches and the opinions of agents addressed as partner change;
    // a signal once cached keeps its value for the season
    ensures OnlyOpinions(cfg, pop, r, Listeners(pairs))
    // everyone who spoke or listened has its signal cached
    ensures forall k :: 0 <= k < |pairs| ==> r[pairs[k].0].signal.Some? && r[pairs[k].1].signal.Some?
    decreases |pairs|
  {
    Patriot.ValidIsSized(cfg, pop);
    if |pairs| == 0 then pop
    else
      var n := |pairs| - 1;
      var init := pairs[..n];
      assert forall k :: 0 <= k < n ==> pairs[k] == init[k];
      ListenersSnoc(pairs);
      var before := Interactions(cfg, pop, init, draws[..n]);
      var after := Patriot.Interact(cfg, before, pairs[n].0, pairs[n].1, draws[n]).pop;
      InteractOnlyOpinions(cfg, before, pairs[n].0, pairs[n].1, draws[n]);
      OnlyOpinionsCompose(cfg, pop, before, after, Listeners(init), {pairs[n].1});
      StillCached(cfg, before, after, pairs);
      after
  }

  lemma InteractOnlyOpinions(cfg: Config, pop: seq<Agent>, i: nat, j: nat, d: Patriot.InteractDraw)
    requires Patriot.Interacting(cfg, pop, i, j)
    ensures OnlyOpinions(cfg, pop, Patriot.Interact(cfg, pop, i, j, d).pop, {j})
    ensures Patriot.Interact(cfg, pop, i, j, d).pop[i].signal.Some?
    ensures Patriot.Interact(cfg, pop, i, j, d).pop[j].signal.Some?
  {
    Patriot.ValidIsSized(cfg, pop);
    var r := Patriot.Interact(cfg, pop, i, j, d).pop;
    Patriot.ValidIsSized(cfg, r);
  }

  /** The caches filled by earlier pairs survive the last interaction, which fills its own. */
  lemma StillCached(cfg: Config, before: seq<Agent>, after: seq<Agent>, pairs: seq<(nat, nat)>)
    requires |pairs| > 0 && PairsIn(pairs, |before|)
    requires OnlyOpinions(cfg, before, after, {pairs[|pairs| - 1].1})
    requires var init := pairs[..|pairs| - 1];
             forall k :: 0 <= k < |init| ==> before[init[k].0].signal.Some? && before[init[k].1].signal.Some?
    requires after[pairs[|pairs| - 1].0].signal.Some? && after[pairs[|pairs| - 1].1].signal.Some?
    ensures forall k :: 0 <= k < |pairs| ==> after[pairs[k].0].signal.Some? && after[pairs[k].1].signal.Some?
  {
    forall k | 0 <= k < |pairs| ensures after[pairs[k].0].signal.Some? && after[pairs[k].1].signal.Some? {
      if k < |pairs| - 1 {
        assert pairs[..|pairs| - 1][k] == pairs[k];
        assert before[pairs[k].0].signal.Some?;
        assert before[pairs[k].1].signal.Some?;
      }
    }
  }

  /** Scheduled pairs are made of group members. */
  lemma {:induction false} ScheduleWithin(orders: seq<seq<nat>>, group: seq<nat>)
    requires Shuffles(orders, group)
    ensures forall k :: 0 <= k < |Schedule(orders)| ==>
              Schedule(orders)[k].0 in group && Schedule(orders)[k].1 in group
    decreases |orders|
  {
    if |orders| > 0 {
      var init := orders[..|orders| - 1];
      var o := orders[|orders| - 1];
      assert Shuffles(init, group) by {
        forall e | 0 <= e < |init| ensures multiset(init[e]) == multiset(group) {
          assert init[e] == orders[e];
        }
      }
      ScheduleWithin(init, group);
      assert multiset(o) == multiset(group);
      forall v | v in o ensures v in group {
        assert v in multiset(o);
      }
    }
  }

  lemma OnlyOpinionsWiden(cfg: Config, pop: seq<Agent>, r: seq<Agent>, ls: set<nat>, ls': set<nat>)
    requires OnlyOpinions(cfg, pop, r, ls) && ls <= ls'
    ensures OnlyOpinions(cfg, pop, r, ls')
  {
  }

  /** Patriot `interactions(group)`: NbInteractions encounters; before each the
      group is shuffled, then every member in turn interacts with every other
      member. Only group members' opinions change, and every member of a group
      of two or more ends the encounters with its season signal fixed. */
  function GroupInteractions(cfg: Config, pop: seq<Agent>, group: seq<nat>, orders: seq<seq<nat>>,
                             draws: seq<Patriot.InteractDraw>): (r: seq<Agent>)
    requires PopValid(cfg, pop)
    requires forall k :: 0 <= k < |group| ==> group[k] < |pop|
    requires |orders| == cfg.nbInteractions && Shuffles(orders, group)
    requires |draws| == |Schedule(orders)|
    ensures |r| == |pop| && PopValid(cfg, r)
    ensures OnlyOpinions(cfg, pop, r, set v | v in group)
    ensures cfg.nbInteractions > 0 && Distinct(group) && |group| >= 2 ==>
              forall k :: 0 <= k < |group| ==> r[group[k]].signal.Some?
  {
    var pairs := Schedule(orders);
    ScheduleWithin(orders, group);
    assert Listeners(pairs) <= set v | v in group;
    var r := Interactions(cfg, pop, pairs, draws);
    OnlyOpinionsWiden(cfg, pop, r, Listeners(pairs), set v | v in group);
    if cfg.nbInteractions > 0 && Distinct(group) && |group| >= 2 then
      assert forall k :: 0 <= k < |group| ==> r[group[k]].signal.Some? by {
        forall k | 0 <= k < |group| ensures r[group[k]].signal.Some? {
          MembersSpeak(orders, group, k);
        }
      }
      r
    else r
  }

  /** With at least one encounter, every member of a group of two or more speaks at least once. */
  lemma MembersSpeak(orders: seq<seq<nat>>, group: seq<nat>, k: nat)
    requires Shuffles(orders, group)
    requires |orders| > 0 && Distinct(group) && |group| >= 2 && k < |group|
    ensures exists m :: 0 <= m < |Schedule(orders)| && Schedule(orders)[m].0 == group[k]
  {
    var other := if k == 0 then group[1] else group[0];
    assert other in group && other != group[k];
    MeetsOncePerEncounter(orders, group, group[k], other);
    CountPositiveIsMember(Schedule(orders), (group[k], other));
    var m :| 0 <= m < |Schedule(orders)| && Schedule(orders)[m] == (group[k], other);
    assert Schedule(orders)[m].0 == group[k];
  }

  lemma {:induction false} CountPositiveIsMember<T>(s: seq<T>, x: T)
    requires Count(s, x) > 0
    ensures exists k :: 0 <= k < |s| && s[k] == x
  {
    if x !in s {
      CountAbsent(s, x);
    }
  }

  // ---------------------------------------------------------------------------
  // `Dump(Slot)`: one cell per agent, sorted by quality
  // ---------------------------------------------------------------------------

  datatype Cell = Header(slot: string) | Value(v: real) | Distance(d: int) | Blank

  /** A learnable feature, by name and position, or the distance to the best friend. */
  datatype Slot = FeatureSlot(name: string, f: nat) | DistanceToBestFriend

  function SlotName(slot: Slot): string {
    match slot
    case FeatureSlot(name, _) => name
    case DistanceToBestFriend => "DistanceToBestFriend"
  }

  /** The sort key of a dump row: the agent's quality. */
  function RowQuality(row: (real, Cell)): real {
    row.0
  }

  /** An adult with a best friend has its distance dumped; others get a blank. */
  predicate Measured(cfg: Config, a: Agent) {
    Learner.Adult(cfg.learning, a.learner) && Ledger.BestFriend(a.friends).Some?
  }

  /** The row agent `k` contributes to the dump of `slot`. */
  function AgentRow(cfg: Config, pop: seq<Agent>, slot: Slot, k: nat): (row: (real, Cell))
    requires PopValid(cfg, pop) && k < |pop|
    requires slot.FeatureSlot? ==> slot.f < FeatureCount
    ensures row.0 == pop[k].quality
    ensures slot.FeatureSlot? ==> row.1 == Value(pop[k].learner.features[slot.f])
    ensures slot.DistanceToBestFriend? && !Measured(cfg, pop[k]) ==> row.1 == Blank
    ensures slot.DistanceToBestFriend? && Measured(cfg, pop[k]) ==> row.1.Distance? && row.1.d >= 0
    // `"%d" % abs(best friend's Quality - Quality)`: the whole part of the quality gap
    ensures slot.DistanceToBestFriend? && Measured(cfg, pop[k]) ==>
              var bf := Ledger.BestFriend(pop[k].friends).value;
              bf < |pop| && row.1.Distance? &&
              row.1.d as real <= Abs(pop[bf].quality - pop[k].quality) < row.1.d as real + 1.0
  {
    assert AgentValid(cfg, |pop|, k, pop[k]);
    match slot
    case FeatureSlot(_, f) => (pop[k].quality, Value(pop[k].learner.features[f]))
    case DistanceToBestFriend =>
      if Measured(cfg, pop[k]) then
        Patriot.BestFriendIsPeer(cfg, pop, k, pop[k].friends);
        var bf := Ledger.BestFriend(pop[k].friends).value;
        (pop[k].quality, Distance(Trunc(Abs(pop[bf].quality - pop[k].quality))))
      else (pop[k].quality, Blank)
  }

  /** One row per agent, in population order. */
  function AgentRows(cfg: Config, pop: seq<Agent>, slot: Slot): (rows: seq<(real, Cell)>)
    requires PopValid(cfg, pop)
    requires slot.FeatureSlot? ==> slot.f < FeatureCount
    ensures |rows| == |pop| && forall k :: 0 <= k < |pop| ==> rows[k] == AgentRow(cfg, pop, slot, k)
  {
    seq(|pop|, k requires 0 <= k < |pop| => AgentRow(cfg, pop, slot, k))
  }

  /** The elements of `xs` whose flag is `want`, in order (a list comprehension's filter). */
  function Select<T>(xs: seq<T>, flags: seq<bool>, want: bool): (r: seq<T>)
    requires |flags| == |xs|
    decreases |xs|
  {
    if |xs| == 0 then []
    else
      var n := |xs| - 1;
      Select(xs[..n], flags[..n], want) + (if flags[n] == want then [xs[n]] else [])
  }

  /** The kept elements followed by the dropped ones are a permutation of the input. */
  lemma {:induction false} SelectPartition<T>(xs: seq<T>, flags: seq<bool>)
    requires |flags| == |xs|
    ensures multiset(Select(xs, flags, true) + Select(xs, flags, false)) == multiset(xs)
    decreases |xs|
  {
    if |xs| > 0 {
      var n := |xs| - 1;
      var init := xs[..n];
      var t0, f0 := Select(init, flags[..n], true), Select(init, flags[..n], false);
      var t, f := Select(xs, flags, true), Select(xs, flags, false);
      SelectPartition(init, flags[..n]);
      SelectStep(xs, flags, true);
      SelectStep(xs, flags, false);
      assert multiset(t0 + f0) == multiset(t0) + multiset(f0);
      assert multiset(t + f) == multiset(t) + multiset(f);
      MultisetSplitLast(xs);
    }
  }

  /** The last element joins the selection its flag names. */
  lemma SelectStep<T>(xs: seq<T>, flags: seq<bool>, want: bool)
    requires |flags| == |xs| > 0
    ensures var n := |xs| - 1;
            multiset(Select(xs, flags, want)) ==
            multiset(Select(xs[..n], flags[..n], want)) + (if flags[n] == want then multiset{xs[n]} else multiset{})
  {
  }

  function MeasuredFlags(cfg: Config, pop: seq<Agent>): (flags: seq<bool>)
    ensures |flags| == |pop| && forall k :: 0 <= k < |pop| ==> flags[k] == Measured(cfg, pop[k])
  {
    seq(|pop|, k requires 0 <= k < |pop| => Measured(cfg, pop[k]))
  }

  /** The rows `Dump(Slot)` sorts: for a feature, every agent in population
      order; for the distance, measured agents first, then the others. */
  function UnsortedRows(cfg: Config, pop: seq<Agent>, slot: Slot): (rows: seq<(real, Cell)>)
    requires PopValid(cfg, pop)
    requires slot.FeatureSlot? ==> slot.f < FeatureCount
    ensures multiset(rows) == multiset(AgentRows(cfg, pop, slot))
  {
    match slot
    case FeatureSlot(_, _) => AgentRows(cfg, pop, slot)
    case DistanceToBestFriend =>
      var all := AgentRows(cfg, pop, slot);
      SelectPartition(all, MeasuredFlags(cfg, pop));
      Select(all, MeasuredFlags(cfg, pop), true) + Select(all, MeasuredFlags(cfg, pop), false)
  }

  /** The dumped rows: sorted by quality, one per agent. */
  function DumpRows(cfg: Config, pop: seq<Agent>, slot: Slot): (rows: seq<(real, Cell)>)
    requires PopValid(cfg, pop)
    requires slot.FeatureSlot? ==> slot.f < FeatureCount
    ensures Sorting.SortedBy(rows, RowQuality)
    ensures multiset(rows) == multiset(AgentRows(cfg, pop, slot))
    ensures |rows| == |pop|
  {
    Sorting.SortBy(UnsortedRows(cfg, pop, slot), RowQuality)
  }

  /** Rows of equal quality keep their order in `UnsortedRows`: measured
      agents' cells come before blank ones, and each group stays in
      population order. */
  lemma DumpRowsStable(cfg: Config, pop: seq<Agent>, slot: Slot, v: real)
    requires PopValid(cfg, pop)
    requires slot.FeatureSlot? ==> slot.f < FeatureCount
    ensures Sorting.FilterKey(DumpRows(cfg, pop, slot), RowQuality, v) == Sorting.FilterKey(UnsortedRows(cfg, pop, slot), RowQuality, v)
  {
    Sorting.SortByStable(UnsortedRows(cfg, pop, slot), RowQuality, v);
  }

  function Cells(rows: seq<(real, Cell)>): (cs: seq<Cell>)
    ensures |cs| == |rows| && forall k :: 0 <= k < |rows| ==> cs[k] == rows[k].1
  {
    seq(|rows|, k requires 0 <= k < |rows| => rows[k].1)
  }

  /** `Dump(Slot)`: the slot name, then one cell per agent by increasing quality. */
  function Dump(cfg: Config, pop: seq<Agent>, slot: Slot): (cs: seq<Cell>)
    requires PopValid(cfg, pop)
    requires slot.FeatureSlot? ==> slot.f < FeatureCount
    ensures |cs| == |pop| + 1 && cs[0] == Header(SlotName(slot))
    ensures cs[1..] == Cells(DumpRows(cfg, pop, slot))
  {
    [Header(SlotName(slot))] + Cells(DumpRows(cfg, pop, slot))
  }

  /** When qualities already increase along the population, as they do at
      creation, a feature dump lists the agents in population order. */
  lemma FeatureDumpInPopulationOrder(cfg: Config, pop: seq<Agent>, name: string, f: nat)
    requires PopValid(cfg, pop) && f < FeatureCount
    requires forall a, b :: 0 <= a < b < |pop| ==> pop[a].quality <= pop[b].quality
    ensures forall k :: 0 <= k < |pop| ==> Dump(cfg, pop, FeatureSlot(name, f))[k + 1] == Value(pop[k].learner.features[f])
  {
    var rows := AgentRows(cfg, pop, FeatureSlot(name, f));
    assert Sorting.SortedBy(rows, RowQuality);
    Sorting.SortBySorted(rows, RowQuality);
  }

  /** Every agent's row appears in the dump, and nothing else does: in a
      distance dump, a measured agent's cell is a non-negative distance and
      everyone else's is blank. */
  lemma DumpHoldsEveryAgent(cfg: Config, pop: seq<Agent>, slot: Slot, k: nat)
    requires PopValid(cfg, pop) && k < |pop|
    requires slot.FeatureSlot? ==> slot.f < FeatureCount
    ensures AgentRow(cfg, pop, slot, k) in DumpRows(cfg, pop, slot)
    ensures forall row :: row in DumpRows(cfg, pop, slot) ==>
              exists m :: 0 <= m < |pop| && row == AgentRow(cfg, pop, slot, m)
  {
    var rows := DumpRows(cfg, pop, slot);
    var all := AgentRows(cfg, pop, slot);
    PermutationMembers(all, rows);
    assert all[k] == AgentRow(cfg, pop, slot, k);
    forall row | row in rows ensures exists m :: 0 <= m < |pop| && row == AgentRow(cfg, pop, slot, m) {
      var m :| 0 <= m < |all| && all[m] == row;
      assert all[m] == AgentRow(cfg, pop, slot, m);
    }
  }

  // ---------------------------------------------------------------------------
  // Quantization levels from `LevelBase` (B) and `SignalLevels` (SLN)
  // ---------------------------------------------------------------------------

  lemma {:induction false} PowNonZero(b: real, n: nat)
    requires b != 0.0
    ensures Pow(b, n) != 0.0
  {
    if n > 0 {
      PowNonZero(b, n - 1);
    }
  }

  /** A negative base raised to an odd power is the opposite of its absolute
      value raised to that power; to an even power, it is equal to it. */
  lemma {:induction false} PowOfNegative(b: real, n: nat)
    requires b < 0.0
    ensures Pow(b, n) == if n % 2 == 0 then Pow(-b, n) else -Pow(-b, n)
  {
    if n > 0 {
      PowOfNegative(b, n - 1);
    }
  }

  /** Powers of a base of at least 1 grow with the exponent, from 1 up. */
  lemma {:induction false} PowGrows(b: real, m: nat, n: nat)
    requires b >= 1.0 && m <= n
    ensures 1.0 <= Pow(b, m) <= Pow(b, n)
    decreases n
  {
    if m < n {
      PowGrows(b, m, n - 1);
      MulMonotone(1.0, b, Pow(b, n - 1));
    } else if n > 0 {
      PowGrows(b, n - 1, n - 1);
      MulMonotone(1.0, b, Pow(b, n - 1));
    }
  }

  function Identity(x: real): real {
    x
  }

  /** `B**level * 90 / B**SLN`, for B > 0. */
  function GeometricLevel(b: int, sln: nat, level: nat): real
    requires b > 0
  {
    PowPositive(b as real, sln);
    Pow(b as real, level) * 90.0 / Pow(b as real, sln)
  }

  /** `level * 90 / SLN`, for B = 0. */
  function EvenLevel(sln: nat, level: nat): real
    requires sln > 0
  {
    level as real * 90.0 / sln as real
  }

  /** `90 - abs(B)**level * 90 / B**SLN`, for B < 0, as the source writes it. */
  function NegativeLevelAsWritten(b: int, sln: nat, level: nat): real
    requires b < 0
  {
    PowNonZero(b as real, sln);
    90.0 - Pow(Abs(b as real), level) * 90.0 / Pow(b as real, sln)
  }

  /** `90 - abs(B)**level * 90 / abs(B)**SLN`: the levels mirror the B > 0 ones. */
  function NegativeLevel(b: int, sln: nat, level: nat): real
    requires b < 0
  {
    PowPositive(Abs(b as real), sln);
    90.0 - Pow(Abs(b as real), level) * 90.0 / Pow(Abs(b as real), sln)
  }

  /** Levels 1 .. SLN before sorting, one per branch of the construction. */
  function GeometricLevels(b: int, sln: nat): (raw: seq<real>)
    requires b > 0
    ensures |raw| == sln && forall k :: 0 <= k < sln ==> raw[k] == GeometricLevel(b, sln, k + 1)
  {
    seq(sln, k requires 0 <= k < sln => GeometricLevel(b, sln, k + 1))
  }

  function EvenLevels(sln: nat): (raw: seq<real>)
    ensures |raw| == sln && forall k :: 0 <= k < sln ==> raw[k] == EvenLevel(sln, k + 1)
  {
    seq(sln, k requires 0 <= k < sln => EvenLevel(sln, k + 1))
  }

  function NegativeLevelsAsWritten(b: int, sln: nat): (raw: seq<real>)
    requires b < 0
    ensures |raw| == sln && forall k :: 0 <= k < sln ==> raw[k] == NegativeLevelAsWritten(b, sln, k + 1)
  {
    seq(sln, k requires 0 <= k < sln => NegativeLevelAsWritten(b, sln, k + 1))
  }

  function NegativeLevels(b: int, sln: nat): (raw: seq<real>)
    requires b < 0
    ensures |raw| == sln && forall k :: 0 <= k < sln ==> raw[k] == NegativeLevel(b, sln, k + 1)
  {
    seq(sln, k requires 0 <= k < sln => NegativeLevel(b, sln, k + 1))
  }

  /** `Gbl['Levels']` as built by the main program, for levels 1 .. SLN. */
  function LevelsAsWritten(b: int, sln: nat): (ls: seq<real>)
    ensures |ls| == sln
  {
    if b > 0 then GeometricLevels(b, sln)
    else if b < 0 then Sorting.SortBy(NegativeLevelsAsWritten(b, sln), Identity)
    else EvenLevels(sln)
  }

  /** The levels with the B < 0 branch dividing by `abs(B)**SLN`; the other branches are unchanged. */
  function Levels(b: int, sln: nat): (ls: seq<real>)
    ensures |ls| == sln
  {
    if b < 0 then Sorting.SortBy(NegativeLevels(b, sln), Identity)
    else LevelsAsWritten(b, sln)
  }

  /** As written, a negative base with an odd number of levels puts every
      level above 90, since `B**SLN` is then negative. */
  lemma LevelsAsWrittenAboveRange(b: int, sln: nat)
    requires b < 0 && sln % 2 == 1
    ensures forall k :: 0 <= k < sln ==> LevelsAsWritten(b, sln)[k] > 90.0
  {
    var raw := NegativeLevelsAsWritten(b, sln);
    var ls := Sorting.SortBy(raw, Identity);
    forall k | 0 <= k < sln ensures raw[k] > 90.0 {
      NegativeLevelAsWrittenAbove(b, sln, k + 1);
    }
    forall k | 0 <= k < sln ensures ls[k] > 90.0 {
      Sorting.SortByMembers(raw, Identity, ls[k]);
    }
  }

  lemma NegativeLevelAsWrittenAbove(b: int, sln: nat, level: nat)
    requires b < 0 && sln % 2 == 1
    ensures NegativeLevelAsWritten(b, sln, level) > 90.0
  {
    var a := Abs(b as real);
    PowOfNegative(b as real, sln);
    PowPositive(a, level);
    PowPositive(a, sln);
    assert Pow(b as real, sln) == -Pow(a, sln);
    var x := Pow(a, level) * 90.0;
    assert x > 0.0;
    assert x / Pow(b as real, sln) == -(x / Pow(a, sln));
    DivPositive(x, Pow(a, sln));
  }

  lemma DivPositive(x: real, y: real)
    requires x > 0.0 && y > 0.0
    ensures x / y > 0.0
  {
  }

  /** Consequently every signal in [0, 90] is quantized to 0: nobody can display. */
  lemma LevelsAsWrittenSilenceSignals(b: int, sln: nat, s: real)
    requires b < 0 && sln % 2 == 1
    requires 0.0 <= s <= 90.0
    ensures Quantize(LevelsAsWritten(b, sln), s) == 0.0
  {
    LevelsAsWrittenAboveRange(b, sln);
  }

  lemma PowersOfTwo()
    ensures Abs(-2.0) == 2.0
    ensures Pow(2.0, 1) == 2.0 && Pow(2.0, 2) == 4.0 && Pow(2.0, 3) == 8.0
    ensures Pow(-2.0, 3) == -8.0
  {
    assert Pow(-2.0, 1) == -2.0 && Pow(-2.0, 2) == 4.0;
  }

  /** B = -2, SLN = 3: the levels come out as 112.5, 135 and 180, so a
      signal of 70 is displayed as 0. */
  lemma LevelsAsWrittenExample()
    ensures multiset(LevelsAsWritten(-2, 3)) == multiset{112.5, 135.0, 180.0}
    ensures Quantize(LevelsAsWritten(-2, 3), 70.0) == 0.0
  {
    PowersOfTwo();
    assert NegativeLevelAsWritten(-2, 3, 1) == 112.5;
    assert NegativeLevelAsWritten(-2, 3, 2) == 135.0;
    assert NegativeLevelAsWritten(-2, 3, 3) == 180.0;
    var raw := NegativeLevelsAsWritten(-2, 3);
    assert raw == [112.5, 135.0, 180.0];
    LevelsAsWrittenSilenceSignals(-2, 3, 70.0);
  }

  /** With the same B = -2, SLN = 3 the corrected levels are 0, 45 and 67.5,
      and a signal of 70 is displayed as 67.5. */
  lemma LevelsExample()
    ensures multiset(Levels(-2, 3)) == multiset{67.5, 45.0, 0.0}
    ensures Quantize(Levels(-2, 3), 70.0) == 67.5
  {
    PowersOfTwo();
    assert NegativeLevel(-2, 3, 1) == 67.5;
    assert NegativeLevel(-2, 3, 2) == 45.0;
    assert NegativeLevel(-2, 3, 3) == 0.0;
    var fixed := NegativeLevels(-2, 3);
    assert fixed == [67.5, 45.0, 0.0];
    var ls := Levels(-2, 3);
    assert multiset(ls) == multiset{67.5, 45.0, 0.0};
    LevelsExampleSignal(ls);
  }

  /** Ascending levels 0, 45 and 67.5 in any arrangement display 70 as 67.5. */
  lemma LevelsExampleSignal(ls: seq<real>)
    requires multiset(ls) == multiset{67.5, 45.0, 0.0} && Ascending(ls)
    ensures Quantize(ls, 70.0) == 67.5
  {
    assert 67.5 in multiset(ls);
    var i :| 0 <= i < |ls| && ls[i] == 67.5;
    QuantizeLargestLevel(ls, 70.0, i);
    var q := Quantize(ls, 70.0);
    assert q in multiset(ls);
  }

  /** The corrected levels are ascending and lie in [0, 90]. */
  lemma LevelsWithin(b: int, sln: nat)
    ensures Ascending(Levels(b, sln))
    ensures forall k :: 0 <= k < sln ==> 0.0 <= Levels(b, sln)[k] <= 90.0
  {
    if b < 0 {
      NegativeLevelsWithin(b, sln);
    } else if b > 0 {
      GeometricLevelsWithin(b, sln);
    } else {
      EvenLevelsWithin(sln);
    }
  }

  lemma NegativeLevelsWithin(b: int, sln: nat)
    requires b < 0
    ensures Ascending(Levels(b, sln))
    ensures forall k :: 0 <= k < sln ==> 0.0 <= Levels(b, sln)[k] <= 90.0
  {
    var raw := NegativeLevels(b, sln);
    forall k | 0 <= k < sln ensures 0.0 <= raw[k] <= 90.0 {
      NegativeLevelWithin(b, sln, k + 1);
    }
    SortedLevelsWithin(raw, 0.0, 90.0);
  }

  /** Sorting levels makes them ascending and keeps them within any bounds. */
  lemma SortedLevelsWithin(raw: seq<real>, lo: real, hi: real)
    requires forall k :: 0 <= k < |raw| ==> lo <= raw[k] <= hi
    ensures Ascending(Sorting.SortBy(raw, Identity))
    ensures forall k :: 0 <= k < |raw| ==> lo <= Sorting.SortBy(raw, Identity)[k] <= hi
  {
    var ls := Sorting.SortBy(raw, Identity);
    forall k | 0 <= k < |ls| ensures lo <= ls[k] <= hi {
      Sorting.SortByMembers(raw, Identity, ls[k]);
    }
    forall x, y | 0 <= x < y < |ls| ensures ls[x] <= ls[y] {
      assert Identity(ls[x]) <= Identity(ls[y]);
    }
  }

  lemma GeometricLevelsWithin(b: int, sln: nat)
    requires b > 0
    ensures Ascending(GeometricLevels(b, sln))
    ensures forall k :: 0 <= k < sln ==> 0.0 <= GeometricLevels(b, sln)[k] <= 90.0
  {
    var ls := GeometricLevels(b, sln);
    forall k | 0 <= k < sln ensures 0.0 <= ls[k] <= 90.0 {
      GeometricLevelWithin(b, sln, k + 1);
    }
    forall x, y | 0 <= x < y < sln ensures ls[x] <= ls[y] {
      GeometricLevelsAscend(b, sln, x + 1, y + 1);
    }
  }

  lemma EvenLevelsWithin(sln: nat)
    ensures Ascending(EvenLevels(sln))
    ensures forall k :: 0 <= k < sln ==> 0.0 <= EvenLevels(sln)[k] <= 90.0
  {
    var ls := EvenLevels(sln);
    forall k | 0 <= k < sln ensures 0.0 <= ls[k] <= 90.0 {
      EvenLevelWithin(sln, k + 1);
    }
    forall x, y | 0 <= x < y < sln ensures ls[x] <= ls[y] {
      EvenLevelsAscend(sln, x + 1, y + 1);
    }
  }

  lemma NegativeLevelWithin(b: int, sln: nat, level: nat)
    requires b < 0 && level <= sln
    ensures 0.0 <= NegativeLevel(b, sln, level) <= 90.0
  {
    var a := Abs(b as real);
    PowGrows(a, level, sln);
    UnitRatio(Pow(a, level), Pow(a, sln));
  }

  lemma GeometricLevelWithin(b: int, sln: nat, level: nat)
    requires b > 0 && level <= sln
    ensures 0.0 <= GeometricLevel(b, sln, level) <= 90.0
  {
    PowGrows(b as real, level, sln);
    UnitRatio(Pow(b as real, level), Pow(b as real, sln));
  }

  lemma GeometricLevelsAscend(b: int, sln: nat, x: nat, y: nat)
    requires b > 0 && x <= y
    ensures GeometricLevel(b, sln, x) <= GeometricLevel(b, sln, y)
  {
    PowGrows(b as real, x, y);
    PowPositive(b as real, sln);
    DivMonotoneReal(Pow(b as real, x) * 90.0, Pow(b as real, y) * 90.0, Pow(b as real, sln));
  }

  lemma EvenLevelWithin(sln: nat, level: nat)
    requires 0 < sln && level <= sln
    ensures 0.0 <= EvenLevel(sln, level) <= 90.0
  {
    UnitRatio(level as real, sln as real);
  }

  lemma EvenLevelsAscend(sln: nat, x: nat, y: nat)
    requires 0 < sln && x <= y
    ensures EvenLevel(sln, x) <= EvenLevel(sln, y)
  {
    DivMonotoneReal(x as real * 90.0, y as real * 90.0, sln as real);
  }

  /** `x * 90 / y` lies in [0, 90] when `0 <= x <= y`. */
  lemma UnitRatio(x: real, y: real)
    requires 0.0 <= x <= y && y > 0.0
    ensures 0.0 <= x * 90.0 / y <= 90.0
    ensures 0.0 <= 90.0 - x * 90.0 / y <= 90.0
  {
    DivBounds(x * 90.0, y, 0.0, 90.0);
  }

  lemma DivMonotoneReal(x: real, y: real, d: real)
    requires x <= y && d > 0.0
    ensures x / d <= y / d
  {
    MulMonotone(x, y, 1.0 / d);
  }

  /** Every corrected level is displayed as itself. */
  lemma LevelsAreFixedPoints(b: int, sln: nat, k: nat)
    requires k < sln
    ensures Quantize(Levels(b, sln), Levels(b, sln)[k]) == Levels(b, sln)[k]
  {
    LevelsWithin(b, sln);
    QuantizeLargestLevel(Levels(b, sln), Levels(b, sln)[k], k);
  }

  /** With an even number of levels the two constructions agree: the defect
      is confined to a negative base with an odd number of levels. */
  lemma EvenLevelCountsAgree(b: int, sln: nat)
    requires b < 0 && sln % 2 == 0
    ensures LevelsAsWritten(b, sln) == Levels(b, sln)
  {
    var raw := NegativeLevelsAsWritten(b, sln);
    var fixed := NegativeLevels(b, sln);
    PowOfNegative(b as real, sln);
    assert raw == fixed;
  }
}
