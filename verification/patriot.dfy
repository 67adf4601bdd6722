/** The gossip and reputation protocol of the Patriot simulation. In a triadic
    interaction `self` (agent `i`) talks to its partner (agent `j`): when it
    polices, it denounces its most despised peer and, having done so, praises
    its most admired one; when it is observed (after gossip, or by a
    visibility draw) the partner judges `self` by comparing signals. Only the
    partner's admired/despised ledgers are ever written, and only with
    strict signal comparisons. Assessment then turns ledger heads into points. */
module Patriot {
  import opened Wrappers
  import opened Num
  import Ledger
  import Learner
  import opened Individual

  /** Every agent carries both learnable features. */
  predicate Sized(pop: seq<Agent>) {
    forall k :: 0 <= k < |pop| ==> |pop[k].learner.features| == FeatureCount
  }

  lemma ValidIsSized(cfg: Config, pop: seq<Agent>)
    requires PopValid(cfg, pop)
    ensures Sized(pop)
  {
    forall k | 0 <= k < |pop| ensures |pop[k].learner.features| == FeatureCount {
      assert AgentValid(cfg, |pop|, k, pop[k]);
    }
  }

  /** The season's signal of agent `k`. */
  function Sig(cfg: Config, pop: seq<Agent>, k: nat): real
    requires Sized(pop) && k < |pop|
  {
    CurrentSignal(cfg, pop[k])
  }

  /** Draws of one `Interact` call: `random()` for the policing test,
      `randint(0, 100)` for the visibility test (consulted only without
      gossip), and the answer of the partner's friendship admission probe
      `F_follow(0, self, SSignal)`. */
  datatype InteractDraw = InteractDraw(policing: real, visibility: int, followOk: bool)

  predicate InteractDrawOk(d: InteractDraw) {
    0.0 <= d.policing < 1.0 && 0 <= d.visibility <= 100
  }

  /** The partner's two opinion ledgers. */
  datatype Opinions = Opinions(reputable: Ledger.Ledger, disreputable: Ledger.Ledger)

  datatype Gossiped = Gossiped(told: bool, ops: Opinions)

  predicate Interacting(cfg: Config, pop: seq<Agent>, i: nat, j: nat) {
    PopValid(cfg, pop) && i < |pop| && j < |pop| && i != j
  }

  /** A peer named by one of agent `i`'s ledgers is another agent of the population. */
  lemma BestFriendIsPeer(cfg: Config, pop: seq<Agent>, i: nat, l: Ledger.Ledger)
    requires PopValid(cfg, pop) && i < |pop|
    requires l == pop[i].reputable || l == pop[i].disreputable || l == pop[i].friends
    requires Ledger.BestFriend(l).Some?
    ensures Ledger.BestFriend(l).value < |pop| && Ledger.BestFriend(l).value != i
  {
    assert AgentValid(cfg, |pop|, i, pop[i]);
    var k :| 0 <= k < |l.entries| && l.entries[k].peer == Ledger.BestFriend(l).value;
    assert l.entries[k] in l.entries;
  }

  /** The partner hears that agent `o` is despised: it despises `o` too,
      scored by minus `o`'s signal, if `o` signals less than the partner. */
  function Denounce(cfg: Config, pop: seq<Agent>, j: nat, o: nat): (r: Ledger.Ledger)
    requires Sized(pop) && j < |pop| && o < |pop|
    requires LedgerOk(cfg, |pop|, j, pop[j].disreputable)
    ensures LedgerOk(cfg, |pop|, j, r)
    ensures forall e :: e in r.entries && e !in pop[j].disreputable.entries ==>
              e.peer == o && Sig(cfg, pop, o) < Sig(cfg, pop, j) && e.score == -Sig(cfg, pop, o)
    ensures !(Sig(cfg, pop, o) < Sig(cfg, pop, j)) ==> r == pop[j].disreputable
    ensures Sig(cfg, pop, o) < Sig(cfg, pop, j) && Ledger.Admits(pop[j].disreputable, o, -Sig(cfg, pop, o)) ==>
              Ledger.Entry(o, -Sig(cfg, pop, o)) in r.entries
  {
    if Sig(cfg, pop, j) > Sig(cfg, pop, o) then Ledger.Follow(pop[j].disreputable, o, -Sig(cfg, pop, o))
    else pop[j].disreputable
  }

  /** The partner hears that agent `o` is admired: it admires `o` too, scored
      by `o`'s signal, if `o` signals more than the partner. */
  function Praise(cfg: Config, pop: seq<Agent>, j: nat, o: nat): (r: Ledger.Ledger)
    requires Sized(pop) && j < |pop| && o < |pop|
    requires LedgerOk(cfg, |pop|, j, pop[j].reputable)
    ensures LedgerOk(cfg, |pop|, j, r)
    ensures forall e :: e in r.entries && e !in pop[j].reputable.entries ==>
              e.peer == o && Sig(cfg, pop, j) < Sig(cfg, pop, o) && e.score == Sig(cfg, pop, o)
    ensures !(Sig(cfg, pop, j) < Sig(cfg, pop, o)) ==> r == pop[j].reputable
    ensures Sig(cfg, pop, j) < Sig(cfg, pop, o) && Ledger.Admits(pop[j].reputable, o, Sig(cfg, pop, o)) ==>
              Ledger.Entry(o, Sig(cfg, pop, o)) in r.entries
  {
    if Sig(cfg, pop, j) < Sig(cfg, pop, o) then Ledger.Follow(pop[j].reputable, o, Sig(cfg, pop, o))
    else pop[j].reputable
  }

  /** The policing branch of `Interact`: when policing, self names its most
      despised peer to the partner and, only if it had one, its most admired
      peer as well. */
  function Gossip(cfg: Config, pop: seq<Agent>, i: nat, j: nat, policing: bool): (r: Gossiped)
    requires Interacting(cfg, pop, i, j)
    ensures Sized(pop)
    ensures r.told <==> policing && Ledger.BestFriend(pop[i].disreputable).Some?
    ensures !r.told ==> r.ops == Opinions(pop[j].reputable, pop[j].disreputable)
    ensures LedgerOk(cfg, |pop|, j, r.ops.reputable) && LedgerOk(cfg, |pop|, j, r.ops.disreputable)
    ensures r.told ==>
              && Ledger.BestFriend(pop[i].disreputable).value < |pop|
              && r.ops.disreputable == Denounce(cfg, pop, j, Ledger.BestFriend(pop[i].disreputable).value)
    ensures r.told && Ledger.BestFriend(pop[i].reputable).Some? ==>
              && Ledger.BestFriend(pop[i].reputable).value < |pop|
              && r.ops.reputable == Praise(cfg, pop, j, Ledger.BestFriend(pop[i].reputable).value)
    ensures r.told && Ledger.BestFriend(pop[i].reputable).None? ==> r.ops.reputable == pop[j].reputable
    // a peer the partner newly despises or admires is never self
    ensures forall e :: e in r.ops.disreputable.entries && e !in pop[j].disreputable.entries ==> e.peer != i
    ensures forall e :: e in r.ops.reputable.entries && e !in pop[j].reputable.entries ==> e.peer != i
  {
    ValidIsSized(cfg, pop);
    assert AgentValid(cfg, |pop|, j, pop[j]);
    var worst := Ledger.BestFriend(pop[i].disreputable);
    var best := Ledger.BestFriend(pop[i].reputable);
    if !policing || worst.None? then Gossiped(false, Opinions(pop[j].reputable, pop[j].disreputable))
    else
      BestFriendIsPeer(cfg, pop, i, pop[i].disreputable);
      var dis := Denounce(cfg, pop, j, worst.value);
      if best.Some? then
        BestFriendIsPeer(cfg, pop, i, pop[i].reputable);
        Gossiped(true, Opinions(Praise(cfg, pop, j, best.value), dis))
      else
        Gossiped(true, Opinions(pop[j].reputable, dis))
  }

  /** The observation branch of `Interact`: if the partner's friendship probe
      accepts self, the partner admires self when self signals more than the
      partner; otherwise the partner despises self when self signals less.
      Equal signals leave both ledgers as they are. */
  function Reciprocity(cfg: Config, pop: seq<Agent>, i: nat, j: nat, ops: Opinions, followOk: bool): (r: Opinions)
    requires Sized(pop) && i < |pop| && j < |pop| && i != j
    requires LedgerOk(cfg, |pop|, j, ops.reputable) && LedgerOk(cfg, |pop|, j, ops.disreputable)
    ensures LedgerOk(cfg, |pop|, j, r.reputable) && LedgerOk(cfg, |pop|, j, r.disreputable)
    ensures followOk ==> r.disreputable == ops.disreputable
    ensures !followOk ==> r.reputable == ops.reputable
    ensures Sig(cfg, pop, i) == Sig(cfg, pop, j) ==> r == ops
    ensures forall e :: e in r.reputable.entries && e !in ops.reputable.entries ==>
              e == Ledger.Entry(i, Sig(cfg, pop, i)) && followOk && Sig(cfg, pop, j) < Sig(cfg, pop, i)
    ensures forall e :: e in r.disreputable.entries && e !in ops.disreputable.entries ==>
              e == Ledger.Entry(i, -Sig(cfg, pop, i)) && !followOk && Sig(cfg, pop, i) < Sig(cfg, pop, j)
    ensures followOk && Sig(cfg, pop, j) < Sig(cfg, pop, i) && Ledger.Admits(ops.reputable, i, Sig(cfg, pop, i)) ==>
              Ledger.Entry(i, Sig(cfg, pop, i)) in r.reputable.entries
    ensures !followOk && Sig(cfg, pop, i) < Sig(cfg, pop, j) && Ledger.Admits(ops.disreputable, i, -Sig(cfg, pop, i)) ==>
              Ledger.Entry(i, -Sig(cfg, pop, i)) in r.disreputable.entries
  {
    var sSig := Sig(cfg, pop, i);
    var pSig := Sig(cfg, pop, j);
    if followOk then
      if pSig < sSig then Opinions(Ledger.Follow(ops.reputable, i, sSig), ops.disreputable) else ops
    else
      if pSig > sSig then Opinions(ops.reputable, Ledger.Follow(ops.disreputable, i, -sSig)) else ops
  }

  datatype Verdict = Verdict(happened: bool, ops: Opinions)

  /** The outcome of `Interact` for the partner's ledgers, and its return value. */
  function Judge(cfg: Config, pop: seq<Agent>, i: nat, j: nat, d: InteractDraw): (v: Verdict)
    requires Interacting(cfg, pop, i, j)
    ensures Sized(pop)
    ensures v.happened <==>
              (d.policing < pop[i].policing && Ledger.BestFriend(pop[i].disreputable).Some?) ||
              (d.visibility as real) < cfg.visibility
    ensures !v.happened ==> v.ops == Opinions(pop[j].reputable, pop[j].disreputable)
    ensures LedgerOk(cfg, |pop|, j, v.ops.reputable) && LedgerOk(cfg, |pop|, j, v.ops.disreputable)
    // fixed polarity: the partner admires only higher signals and despises only lower ones
    ensures forall e :: e in v.ops.reputable.entries && e !in pop[j].reputable.entries ==>
              e.peer < |pop| && Sig(cfg, pop, j) < Sig(cfg, pop, e.peer) && e.score == Sig(cfg, pop, e.peer)
    ensures forall e :: e in v.ops.disreputable.entries && e !in pop[j].disreputable.entries ==>
              e.peer < |pop| && Sig(cfg, pop, e.peer) < Sig(cfg, pop, j) && e.score == -Sig(cfg, pop, e.peer)
    // self enters the partner's ledgers only through the probe's verdict
    ensures forall e :: e in v.ops.reputable.entries && e !in pop[j].reputable.entries && e.peer == i ==> d.followOk
    ensures forall e :: e in v.ops.disreputable.entries && e !in pop[j].disreputable.entries && e.peer == i ==> !d.followOk
  {
    ValidIsSized(cfg, pop);
    var g := Gossip(cfg, pop, i, j, d.policing < pop[i].policing);
    var visible := g.told || (d.visibility as real) < cfg.visibility;
    if visible then Verdict(true, Reciprocity(cfg, pop, i, j, g.ops, d.followOk))
    else Verdict(false, g.ops)
  }

  /** Stores the signal of every agent in `ks`, as each call of `Signal()` does. */
  function CacheAll(cfg: Config, pop: seq<Agent>, ks: set<nat>): (r: seq<Agent>)
    requires Sized(pop)
    ensures |r| == |pop| && Sized(r)
    ensures forall k :: 0 <= k < |pop| ==> r[k].(signal := pop[k].signal) == pop[k]
    ensures forall k :: 0 <= k < |pop| ==> CurrentSignal(cfg, r[k]) == CurrentSignal(cfg, pop[k])
    ensures forall k :: k in ks && k < |pop| ==> r[k].signal.Some?
    ensures forall k :: 0 <= k < |pop| && pop[k].signal.Some? ==> r[k].signal == pop[k].signal
  {
    seq(|pop|, k requires 0 <= k < |pop| => if k in ks then Cache(cfg, pop[k]) else pop[k])
  }

  datatype Interaction = Interaction(happened: bool, pop: seq<Agent>)

  /** The agents whose `Signal()` an interaction consults. */
  function Consulted(cfg: Config, pop: seq<Agent>, i: nat, j: nat, d: InteractDraw): set<nat>
    requires i < |pop|
  {
    var worst := Ledger.BestFriend(pop[i].disreputable);
    var best := Ledger.BestFriend(pop[i].reputable);
    var told := d.policing < pop[i].policing && worst.Some?;
    {i, j} + (if told then {worst.value} else {}) + (if told && best.Some? then {best.value} else {})
  }

  /** `Interact(Partner)`: agent `i` meets agent `j`. */
  function Interact(cfg: Config, pop: seq<Agent>, i: nat, j: nat, d: InteractDraw): (r: Interaction)
    requires Interacting(cfg, pop, i, j)
    ensures |r.pop| == |pop| && PopValid(cfg, r.pop) && Sized(pop)
    ensures r.happened == Judge(cfg, pop, i, j, d).happened
    // only signal caches and the partner's two opinion ledgers change
    ensures forall k :: 0 <= k < |pop| ==>
              r.pop[k].(signal := pop[k].signal, reputable := pop[k].reputable, disreputable := pop[k].disreputable) == pop[k]
    ensures forall k :: 0 <= k < |pop| && k != j ==>
              r.pop[k].reputable == pop[k].reputable && r.pop[k].disreputable == pop[k].disreputable
    ensures r.pop[j].reputable == Judge(cfg, pop, i, j, d).ops.reputable
    ensures r.pop[j].disreputable == Judge(cfg, pop, i, j, d).ops.disreputable
    // caching fixes signals without changing them; both parties' signals are now fixed for the season
    ensures forall k :: 0 <= k < |pop| ==> CurrentSignal(cfg, r.pop[k]) == CurrentSignal(cfg, pop[k])
    ensures r.pop[i].signal.Some? && r.pop[j].signal.Some?
    ensures forall k :: 0 <= k < |pop| && pop[k].signal.Some? ==> r.pop[k].signal == pop[k].signal
  {
    ValidIsSized(cfg, pop);
    var v := Judge(cfg, pop, i, j, d);
    var cached := CacheAll(cfg, pop, Consulted(cfg, pop, i, j, d));
    var pop' := cached[j := cached[j].(reputable := v.ops.reputable, disreputable := v.ops.disreputable)];
    InteractValid(cfg, pop, pop', j);
    Interaction(v.happened, pop')
  }

  /** Replacing the partner's ledgers by well-formed ones keeps the population valid. */
  lemma InteractValid(cfg: Config, pop: seq<Agent>, pop': seq<Agent>, j: nat)
    requires PopValid(cfg, pop) && j < |pop| && |pop'| == |pop|
    requires forall k :: 0 <= k < |pop| ==>
               pop'[k].(signal := pop[k].signal, reputable := pop[k].reputable, disreputable := pop[k].disreputable) == pop[k]
    requires forall k :: 0 <= k < |pop| && k != j ==>
               pop'[k].reputable == pop[k].reputable && pop'[k].disreputable == pop[k].disreputable
    requires LedgerOk(cfg, |pop|, j, pop'[j].reputable) && LedgerOk(cfg, |pop|, j, pop'[j].disreputable)
    ensures PopValid(cfg, pop')
  {
    forall k | 0 <= k < |pop'| ensures AgentValid(cfg, |pop'|, k, pop'[k]) {
      assert AgentValid(cfg, |pop|, k, pop[k]);
      assert pop'[k].learner == pop[k].learner && pop'[k].friends == pop[k].friends;
    }
  }

  /** Adds `x` points to every agent named in `names`. */
  function Reward(pop: seq<Agent>, names: seq<nat>, x: real): (r: seq<Agent>)
    requires forall m :: 0 <= m < |names| ==> names[m] < |pop|
    requires forall a, b :: 0 <= a < b < |names| ==> names[a] != names[b]
    ensures |r| == |pop|
    ensures forall k :: 0 <= k < |pop| ==> r[k] == pop[k].(points := pop[k].points + (if k in names then x else 0.0))
  {
    if |names| == 0 then pop
    else
      var init := names[..|names| - 1];
      var last := names[|names| - 1];
      var r0 := Reward(pop, init, x);
      assert last !in init;
      assert forall k :: k in names <==> k in init || k == last;
      r0[last := r0[last].(points := r0[last].points + x)]
  }

  /** The points an agent keeps after `assessment`: signalling cost paid,
      policing cost term added, truncated to an integer. */
  function AssessedPoints(cfg: Config, a: Agent): (p: real)
    requires |a.learner.features| == FeatureCount
    ensures Abs(p - (a.points - SignallingCost(cfg, a) + cfg.policingCost * a.learner.features[PolicingFeature] / 100.0)) < 1.0
    ensures p.Floor as real == p
    // `int()` truncates toward zero
    ensures Abs(p) <= Abs(a.points - SignallingCost(cfg, a) + cfg.policingCost * a.learner.features[PolicingFeature] / 100.0)
  {
    Trunc(a.points - SignallingCost(cfg, a) + cfg.policingCost * a.learner.features[PolicingFeature] / 100.0) as real
  }

  function BonusIf(b: bool, x: real): real {
    if b then x else 0.0
  }

  /** `assessment()` of agent `k`: its own points are settled, then its most
      admired peer gains AdmirationImpact, its most despised peer gains
      ContemptImpact and one outrage, and every friend gains FriendshipImpact. */
  function Assess(cfg: Config, pop: seq<Agent>, k: nat): (r: seq<Agent>)
    requires PopValid(cfg, pop) && k < |pop|
    ensures |r| == |pop| && PopValid(cfg, r)
    ensures Sized(pop)
    ensures forall m :: 0 <= m < |pop| ==> r[m].learner == pop[m].learner && r[m].quality == pop[m].quality
    ensures r[k] == Cache(cfg, pop[k]).(points := AssessedPoints(cfg, pop[k]))
    ensures forall m :: 0 <= m < |pop| && m != k ==>
              r[m] == pop[m].(points := pop[m].points
                                        + BonusIf(Ledger.BestFriend(pop[k].reputable) == Some(m), cfg.admirationImpact)
                                        + BonusIf(Ledger.BestFriend(pop[k].disreputable) == Some(m), cfg.contemptImpact)
                                        + BonusIf(m in Ledger.Names(pop[k].friends), cfg.friendshipImpact),
                              outrages := pop[m].outrages + (if Ledger.BestFriend(pop[k].disreputable) == Some(m) then 1 else 0))
  {
    ValidIsSized(cfg, pop);
    var a := pop[k];
    var best := Ledger.BestFriend(a.reputable);
    var worst := Ledger.BestFriend(a.disreputable);
    FriendsArePeers(cfg, pop, k);
    var p1 := pop[k := Cache(cfg, a).(points := AssessedPoints(cfg, a))];
    var p2 := Bump(p1, best, cfg.admirationImpact, false);
    var p3 := Bump(p2, worst, cfg.contemptImpact, true);
    var r := Reward(p3, Ledger.Names(a.friends), cfg.friendshipImpact);
    AssessSettles(cfg, pop, k, p1, p2, p3, r);
    r
  }

  /** The three reward passes of an assessment touch only the other agents. */
  lemma AssessSettles(cfg: Config, pop: seq<Agent>, k: nat, p1: seq<Agent>, p2: seq<Agent>, p3: seq<Agent>, r: seq<Agent>)
    requires PopValid(cfg, pop) && k < |pop| && AgentValid(cfg, |pop|, k, pop[k])
    requires p1 == pop[k := Cache(cfg, pop[k]).(points := AssessedPoints(cfg, pop[k]))]
    requires p2 == Bump(p1, Ledger.BestFriend(pop[k].reputable), cfg.admirationImpact, false)
    requires p3 == Bump(p2, Ledger.BestFriend(pop[k].disreputable), cfg.contemptImpact, true)
    requires r == Reward(p3, Ledger.Names(pop[k].friends), cfg.friendshipImpact)
    ensures |r| == |pop| && PopValid(cfg, r)
    ensures r[k] == Cache(cfg, pop[k]).(points := AssessedPoints(cfg, pop[k]))
    ensures forall m :: 0 <= m < |pop| && m != k ==>
              r[m] == pop[m].(points := pop[m].points
                                        + BonusIf(Ledger.BestFriend(pop[k].reputable) == Some(m), cfg.admirationImpact)
                                        + BonusIf(Ledger.BestFriend(pop[k].disreputable) == Some(m), cfg.contemptImpact)
                                        + BonusIf(m in Ledger.Names(pop[k].friends), cfg.friendshipImpact),
                              outrages := pop[m].outrages + (if Ledger.BestFriend(pop[k].disreputable) == Some(m) then 1 else 0))
  {
    FriendsArePeers(cfg, pop, k);
    assert k !in Ledger.Names(pop[k].friends);
    assert r[k] == p1[k];
    AssessOthers(cfg, pop, k, p1, p2, p3, r);
    forall m | 0 <= m < |pop|
      ensures r[m].(points := pop[m].points, outrages := pop[m].outrages, signal := pop[m].signal) == pop[m]
    {
    }
    AssessValid(cfg, pop, k, r);
  }

  lemma AssessOthers(cfg: Config, pop: seq<Agent>, k: nat, p1: seq<Agent>, p2: seq<Agent>, p3: seq<Agent>, r: seq<Agent>)
    requires PopValid(cfg, pop) && k < |pop| && AgentValid(cfg, |pop|, k, pop[k])
    requires p1 == pop[k := Cache(cfg, pop[k]).(points := AssessedPoints(cfg, pop[k]))]
    requires p2 == Bump(p1, Ledger.BestFriend(pop[k].reputable), cfg.admirationImpact, false)
    requires p3 == Bump(p2, Ledger.BestFriend(pop[k].disreputable), cfg.contemptImpact, true)
    requires r == Reward(p3, Ledger.Names(pop[k].friends), cfg.friendshipImpact)
    ensures forall m :: 0 <= m < |pop| && m != k ==>
              r[m] == pop[m].(points := pop[m].points
                                        + BonusIf(Ledger.BestFriend(pop[k].reputable) == Some(m), cfg.admirationImpact)
                                        + BonusIf(Ledger.BestFriend(pop[k].disreputable) == Some(m), cfg.contemptImpact)
                                        + BonusIf(m in Ledger.Names(pop[k].friends), cfg.friendshipImpact),
                              outrages := pop[m].outrages + (if Ledger.BestFriend(pop[k].disreputable) == Some(m) then 1 else 0))
  {
    forall m | 0 <= m < |pop| && m != k
      ensures r[m] == pop[m].(points := pop[m].points
                                        + BonusIf(Ledger.BestFriend(pop[k].reputable) == Some(m), cfg.admirationImpact)
                                        + BonusIf(Ledger.BestFriend(pop[k].disreputable) == Some(m), cfg.contemptImpact)
                                        + BonusIf(m in Ledger.Names(pop[k].friends), cfg.friendshipImpact),
                              outrages := pop[m].outrages + (if Ledger.BestFriend(pop[k].disreputable) == Some(m) then 1 else 0))
    {
      assert p1[m] == pop[m];
    }
  }

  /** Adds `x` points (and with `outrage` one outrage) to the agent `o` names, if any. */
  function Bump(pop: seq<Agent>, o: Option<nat>, x: real, outrage: bool): (r: seq<Agent>)
    requires o.Some? ==> o.value < |pop|
    ensures |r| == |pop|
    ensures forall m :: 0 <= m < |pop| ==>
              r[m] == pop[m].(points := pop[m].points + BonusIf(o == Some(m), x),
                              outrages := pop[m].outrages + (if outrage && o == Some(m) then 1 else 0))
  {
    match o
    case None => pop
    case Some(w) =>
      pop[w := pop[w].(points := pop[w].points + x, outrages := pop[w].outrages + (if outrage then 1 else 0))]
  }

  /** The peers an assessment rewards are other agents of the population. */
  lemma FriendsArePeers(cfg: Config, pop: seq<Agent>, k: nat)
    requires PopValid(cfg, pop) && k < |pop|
    ensures Ledger.BestFriend(pop[k].reputable).Some? ==>
              Ledger.BestFriend(pop[k].reputable).value < |pop| && Ledger.BestFriend(pop[k].reputable).value != k
    ensures Ledger.BestFriend(pop[k].disreputable).Some? ==>
              Ledger.BestFriend(pop[k].disreputable).value < |pop| && Ledger.BestFriend(pop[k].disreputable).value != k
    ensures var names := Ledger.Names(pop[k].friends);
            (forall m :: 0 <= m < |names| ==> names[m] < |pop| && names[m] != k) &&
            (forall a, b :: 0 <= a < b < |names| ==> names[a] != names[b])
  {
    assert AgentValid(cfg, |pop|, k, pop[k]);
    if Ledger.BestFriend(pop[k].reputable).Some? {
      BestFriendIsPeer(cfg, pop, k, pop[k].reputable);
    }
    if Ledger.BestFriend(pop[k].disreputable).Some? {
      BestFriendIsPeer(cfg, pop, k, pop[k].disreputable);
    }
    var l := pop[k].friends;
    forall m | 0 <= m < |l.entries| ensures l.entries[m].peer < |pop| && l.entries[m].peer != k {
      assert l.entries[m] in l.entries;
    }
  }

  /** Changing only points, outrages and the signal cache keeps the population valid. */
  lemma AssessValid(cfg: Config, pop: seq<Agent>, k: nat, r: seq<Agent>)
    requires PopValid(cfg, pop) && |r| == |pop| && k < |pop|
    requires forall m :: 0 <= m < |pop| ==>
               r[m].(points := pop[m].points, outrages := pop[m].outrages, signal := pop[m].signal) == pop[m]
    ensures PopValid(cfg, r)
  {
    forall m | 0 <= m < |r| ensures AgentValid(cfg, |r|, m, r[m]) {
      assert AgentValid(cfg, |pop|, m, pop[m]);
      assert r[m].learner == pop[m].learner && r[m].friends == pop[m].friends;
      assert r[m].reputable == pop[m].reputable && r[m].disreputable == pop[m].disreputable;
    }
  }

  /** Patriot `Reset(Newborn)`, run at creation and at rebirth: friendships
      are forgotten, the learner is reset, then the season state is
      reinitialised as by `reinit`. */
  function Reset(cfg: Config, a: Agent, newborn: bool, ageDraw: int, featureDraws: seq<int>): (r: Agent)
    requires Learner.FeatureDrawsOk(featureDraws, |a.learner.features|)
    requires !newborn ==> 0 <= ageDraw <= cfg.learning.ageMax
    requires |a.learner.features| == FeatureCount
    ensures r.learner == Learner.Reset(cfg.learning, a.learner, newborn, ageDraw, featureDraws)
    ensures r.friends.entries == [] && r.friends.capacity == a.friends.capacity
    ensures r.points == 0.0 && r.outrages == 0 && r.signal.None? && r.quality == a.quality
    ensures r.policing == Pow(r.learner.features[PolicingFeature] / 100.0, 4)
    ensures (cfg.learning.start == -1.0 || newborn) ==> 0.0 <= r.policing <= 1.0
    ensures cfg.eraseNetwork ==> r.reputable.entries == [] && r.disreputable.entries == []
    ensures !cfg.eraseNetwork ==> r.reputable == a.reputable && r.disreputable == a.disreputable
    ensures r.reputable.capacity == a.reputable.capacity && r.disreputable.capacity == a.disreputable.capacity
  {
    var l := Learner.Reset(cfg.learning, a.learner, newborn, ageDraw, featureDraws);
    Reinit(cfg, a.(friends := Ledger.Detach(a.friends), learner := l))
  }

  /** A reset agent is a valid agent of the same population. */
  lemma ResetValid(cfg: Config, n: nat, k: nat, a: Agent, newborn: bool, ageDraw: int, featureDraws: seq<int>)
    requires AgentValid(cfg, n, k, a)
    requires Learner.FeatureDrawsOk(featureDraws, FeatureCount)
    requires !newborn ==> 0 <= ageDraw <= cfg.learning.ageMax
    ensures AgentValid(cfg, n, k, Reset(cfg, a, newborn, ageDraw, featureDraws))
  {
    var r := Reset(cfg, a, newborn, ageDraw, featureDraws);
    assert r.learner.scores.past == [];
  }
}
