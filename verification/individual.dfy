/** A social individual of the reputation simulation: a learner with two
    learnable features (policing probability and signal), three peer ledgers
    (friends, admired, despised), accumulated points and a signal computed at
    most once per season. Agents are identified by their position in the
    population, which is also their identity number. */
module Individual {
  import opened Wrappers
  import opened Num
  import Ledger
  import Learner

  /** Feature keys in dictionary order: `PolicingProbability`, then `Signal`. */
  const PolicingFeature: nat := 0
  const SignalFeature: nat := 1
  const FeatureCount: nat := 2

  datatype Config = Config(
    learning: Learner.Params,
    maxFriends: nat,            // capacity of every ledger
    eraseNetwork: bool,         // ledgers are emptied at each season start
    levels: seq<real>,          // quantization thresholds `Levels`
    visibility: real,           // percentage chance of being observed without gossip
    policingCost: real,
    admirationImpact: real,
    contemptImpact: real,
    friendshipImpact: real,
    signallingCost: real,
    costDecrease: real -> real, // cost coefficient as a function of quality, `ET.decrease(Q, 100, CostDecrease)`
    bottomCompetence: int,
    nbInteractions: nat,
    nbRunPerYear: nat,
    nbGroup: nat)

  datatype Agent = Agent(
    quality: real,
    learner: Learner.Learner,
    points: real,
    friends: Ledger.Ledger,       // the inherited Follower friendship list
    reputable: Ledger.Ledger,     // admired peers, scored by their signal
    disreputable: Ledger.Ledger,  // despised peers, scored by minus their signal
    signal: Option<real>,         // the season's cached signal
    policing: real,               // PolicingProbability, in [0, 1]
    outrages: nat)

  /** A ledger of agent `k` in a population of `n`: valid, of the configured
      capacity, listing only other agents of the population. */
  predicate LedgerOk(cfg: Config, n: nat, k: nat, l: Ledger.Ledger) {
    && Ledger.Valid(l)
    && l.capacity == cfg.maxFriends
    && forall e :: e in l.entries ==> e.peer < n && e.peer != k
  }

  predicate AgentValid(cfg: Config, n: nat, k: nat, a: Agent) {
    && LedgerOk(cfg, n, k, a.friends)
    && LedgerOk(cfg, n, k, a.reputable)
    && LedgerOk(cfg, n, k, a.disreputable)
    && Learner.Valid(cfg.learning, a.learner)
    && |a.learner.features| == FeatureCount
    && 0 <= a.learner.age <= cfg.learning.ageMax + 1
  }

  predicate PopValid(cfg: Config, pop: seq<Agent>) {
    // the explicit trigger keeps the solver from unfolding every agent's
    // validity at each population index it meets; feature counts, needed
    // everywhere, are stated separately
    && (forall k {:trigger AgentValid(cfg, |pop|, k, pop[k])} :: 0 <= k < |pop| ==> AgentValid(cfg, |pop|, k, pop[k]))
    && (forall k :: 0 <= k < |pop| ==> |pop[k].learner.features| == FeatureCount)
  }

  /** `Social_Individual` quality: `100.0 * IdNb / maxQuality`. */
  function BaseQuality(id: nat, maxQuality: nat): (q: real)
    requires maxQuality > 0
    ensures id < maxQuality ==> 0.0 <= q < 100.0
    ensures id == 0 ==> q == 0.0
  {
    BaseQualityRange(id, maxQuality);
    100.0 * id as real / maxQuality as real
  }

  lemma BaseQualityRange(id: nat, maxQuality: nat)
    requires maxQuality > 0
    ensures id < maxQuality ==> 0.0 <= 100.0 * id as real / maxQuality as real < 100.0
  {
    var m := maxQuality as real;
    if id < maxQuality {
      var total := 100.0 * id as real;
      assert total < m * 100.0;
      BelowBound(total, m, 100.0);
      DivNonNegative(total, m);
    }
  }

  lemma DivNonNegative(a: real, b: real)
    requires a >= 0.0 && b > 0.0
    ensures a / b >= 0.0
  {
    var q := a / b;
    assert q * b == a;
    if q < 0.0 {
      MulStrict(q, 0.0, b);
    }
  }

  lemma BelowBound(total: real, n: real, hi: real)
    requires n > 0.0 && total < n * hi
    ensures total / n < hi
  {
    var q := total / n;
    assert q * n == total;
    if q >= hi {
      MulMonotone(hi, q, n);
    }
  }

  /** Base quality strictly increases with the identity number. */
  lemma BaseQualityIncreasing(id: nat, id': nat, maxQuality: nat)
    requires maxQuality > 0 && id < id'
    ensures BaseQuality(id, maxQuality) < BaseQuality(id', maxQuality)
  {
    var m := maxQuality as real;
    var a := 100.0 * id as real / m;
    var b := 100.0 * id' as real / m;
    assert a * m == 100.0 * id as real;
    assert b * m == 100.0 * id' as real;
    if a >= b {
      MulMonotone(b, a, m);
    }
  }

  lemma DivMonotone(a: int, b: int, d: int)
    requires a <= b && d > 0
    ensures a / d <= b / d
  {
    var qa, qb := a / d, b / d;
    assert d * qa + a % d == a;
    assert d * qb + b % d == b;
    if qa > qb {
      assert d * qa >= d * (qb + 1) by {
        MulMonotoneInt(qb + 1, qa, d);
      }
    }
  }

  lemma MulMonotoneInt(a: int, b: int, c: int)
    requires a <= b && c >= 0
    ensures c * a <= c * b
  {
    assert c * b - c * a == c * (b - a);
  }

  /** Patriot's recalibrated integer quality: `Q = (100 * IdNb) // maxQuality`,
      then `(100 - BQ) * Q // 100 + BQ`. */
  function PatriotQuality(id: nat, maxQuality: nat, bottom: int): (q: int)
    requires maxQuality > 0
    ensures id < maxQuality && 0 <= bottom <= 100 ==> bottom <= q <= 100
    ensures bottom == 100 ==> q == 100
    ensures id == 0 ==> q == bottom
  {
    // Python's `//` floors; Dafny's `/` agrees for the positive divisors used here.
    var base := (100 * id) / maxQuality;
    PatriotQualityRange(id, maxQuality, bottom);
    (100 - bottom) * base / 100 + bottom
  }

  lemma PatriotQualityRange(id: nat, maxQuality: nat, bottom: int)
    requires maxQuality > 0
    ensures var base := (100 * id) / maxQuality;
            id < maxQuality && 0 <= bottom <= 100 ==> 0 <= (100 - bottom) * base / 100 <= 100 - bottom
  {
    if id < maxQuality && 0 <= bottom <= 100 {
      PercentBound(id, maxQuality);
      ScaledBound((100 * id) / maxQuality, 100 - bottom);
    }
  }

  /** `(100 * id) // maxQuality` is a percentage for `id < maxQuality`. */
  lemma PercentBound(id: nat, maxQuality: nat)
    requires id < maxQuality
    ensures 0 <= (100 * id) / maxQuality <= 100
  {
    DivMonotone(100 * id, 100 * maxQuality, maxQuality);
    assert (100 * maxQuality) / maxQuality == 100;
  }

  /** Scaling a percentage by `c / 100` stays within [0, c]. */
  lemma ScaledBound(base: int, c: int)
    requires 0 <= base <= 100 && c >= 0
    ensures 0 <= c * base / 100 <= c
  {
    MulMonotoneInt(base, 100, c);
    MulMonotoneInt(0, base, c);
    DivMonotone(c * base, c * 100, 100);
    DivMonotone(0, c * base, 100);
    assert c * 100 / 100 == c;
  }

  /** Recalibrated quality never decreases with the identity number. */
  lemma PatriotQualityMonotone(id: nat, id': nat, maxQuality: nat, bottom: int)
    requires maxQuality > 0 && id <= id' && bottom <= 100
    ensures PatriotQuality(id, maxQuality, bottom) <= PatriotQuality(id', maxQuality, bottom)
  {
    var b := (100 * id) / maxQuality;
    var b' := (100 * id') / maxQuality;
    DivMonotone(100 * id, 100 * id', maxQuality);
    MulMonotoneInt(b, b', 100 - bottom);
    DivMonotone((100 - bottom) * b, (100 - bottom) * b', 100);
  }

  /** `quantization(signal)`: the first level, scanning `levels` from the
      end, that the signal reaches; otherwise the signal itself if negative,
      else 0. */
  function Quantize(levels: seq<real>, s: real): (r: real)
    ensures r <= s
    ensures r in levels || r == 0.0 || (r == s && s < 0.0)
    ensures (forall k :: 0 <= k < |levels| ==> s < levels[k]) ==> r == (if s < 0.0 then s else 0.0)
  {
    if |levels| == 0 then (if s < 0.0 then s else 0.0)
    else if s >= levels[|levels| - 1] then levels[|levels| - 1]
    else Quantize(levels[..|levels| - 1], s)
  }

  /** Quantizing a quantized signal changes nothing, whatever the order of the levels. */
  lemma {:induction false} QuantizeIdempotent(levels: seq<real>, s: real)
    ensures Quantize(levels, Quantize(levels, s)) == Quantize(levels, s)
  {
    if |levels| > 0 {
      var init := levels[..|levels| - 1];
      var last := levels[|levels| - 1];
      if s < last {
        QuantizeIdempotent(init, s);
        var q := Quantize(init, s);
        assert q <= s < last;
      }
    }
  }

  predicate Ascending(levels: seq<real>) {
    forall a, b :: 0 <= a < b < |levels| ==> levels[a] <= levels[b]
  }

  /** With ascending levels, a signal that reaches some level is quantized to
      the largest level it reaches. */
  lemma {:induction false} QuantizeLargestLevel(levels: seq<real>, s: real, k: nat)
    requires Ascending(levels)
    requires k < |levels| && levels[k] <= s
    ensures Quantize(levels, s) in levels
    ensures levels[k] <= Quantize(levels, s)
  {
    var last := levels[|levels| - 1];
    if s < last {
      assert k < |levels| - 1;
      var init := levels[..|levels| - 1];
      assert init[k] == levels[k];
      QuantizeLargestLevel(init, s, k);
    } else {
      assert levels[k] <= last;
    }
  }

  /** `Signal()`: the cached value, or the quantized Signal feature. */
  function CurrentSignal(cfg: Config, a: Agent): (r: real)
    requires SignalFeature < |a.learner.features|
    ensures a.signal.Some? ==> r == a.signal.value
    ensures a.signal.None? ==> r <= a.learner.features[SignalFeature]
  {
    match a.signal
    case Some(v) => v
    case None => Quantize(cfg.levels, a.learner.features[SignalFeature])
  }

  /** The side effect of `Signal()`: the value is stored for the season. */
  function Cache(cfg: Config, a: Agent): (r: Agent)
    requires SignalFeature < |a.learner.features|
    ensures r.signal == Some(CurrentSignal(cfg, a))
    ensures r.(signal := a.signal) == a
  {
    a.(signal := Some(CurrentSignal(cfg, a)))
  }

  /** Once computed, the signal stays fixed whatever later happens to the
      features, until `reinit` clears the cache. */
  lemma SignalStable(cfg: Config, a: Agent, l: Learner.Learner)
    requires SignalFeature < |a.learner.features| && SignalFeature < |l.features|
    ensures CurrentSignal(cfg, Cache(cfg, a).(learner := l)) == CurrentSignal(cfg, a)
  {
  }

  /** Patriot `reinit`: points, outrages and the signal cache cleared, the
      policing probability recomputed as `(feature / 100) ** 4`, and with
      EraseNetwork all three ledgers emptied. */
  function Reinit(cfg: Config, a: Agent): (r: Agent)
    requires PolicingFeature < |a.learner.features|
    ensures r.points == 0.0 && r.outrages == 0 && r.signal.None?
    ensures r.policing == Pow(a.learner.features[PolicingFeature] / 100.0, 4)
    ensures 0.0 <= a.learner.features[PolicingFeature] <= 100.0 ==> 0.0 <= r.policing <= 1.0
    ensures cfg.eraseNetwork ==>
              r.friends.entries == [] && r.reputable.entries == [] && r.disreputable.entries == []
    ensures !cfg.eraseNetwork ==>
              r.friends == a.friends && r.reputable == a.reputable && r.disreputable == a.disreputable
    ensures r.friends.capacity == a.friends.capacity && r.reputable.capacity == a.reputable.capacity &&
            r.disreputable.capacity == a.disreputable.capacity
    ensures r.quality == a.quality && r.learner == a.learner
  {
    var x := a.learner.features[PolicingFeature] / 100.0;
    if 0.0 <= a.learner.features[PolicingFeature] <= 100.0 then
      PowUnit(x, 4);
      Reinit1(cfg, a, x)
    else Reinit1(cfg, a, x)
  }

  function Reinit1(cfg: Config, a: Agent, x: real): Agent {
    var erased := if cfg.eraseNetwork then
                    a.(friends := Ledger.Detach(a.friends), reputable := Ledger.Detach(a.reputable),
                       disreputable := Ledger.Detach(a.disreputable))
                  else a;
    erased.(points := 0.0, signal := None, policing := Pow(x, 4), outrages := 0)
  }

  /** Reinit keeps an agent valid. */
  lemma ReinitValid(cfg: Config, n: nat, k: nat, a: Agent)
    requires AgentValid(cfg, n, k, a)
    ensures AgentValid(cfg, n, k, Reinit(cfg, a))
  {
  }

  /** `Social_Individual.reinit`: points cleared, friendships erased only
      under EraseNetwork; nothing else changes. */
  function SocialReinit(cfg: Config, a: Agent): (r: Agent)
    ensures r.points == 0.0
    ensures cfg.eraseNetwork ==> r.friends.entries == [] && r.friends.capacity == a.friends.capacity
    ensures r.(points := a.points, friends := a.friends) == a
    ensures !cfg.eraseNetwork ==> r.friends == a.friends
  {
    var erased := if cfg.eraseNetwork then a.(friends := Ledger.Detach(a.friends)) else a;
    erased.(points := 0.0)
  }

  /** `Colour()`: a display colour index in [22, 27], lower for keener policers. */
  function Colour(a: Agent): (c: int)
    ensures a.policing >= 0.0 ==> 22 <= c <= 27
    ensures 0.0 <= a.policing < 0.2 ==> c == 27
    ensures a.policing >= 1.0 ==> c == 22
  {
    var t := Trunc(a.policing * 5.0);
    if 27 - t >= 22 then 27 - t else 22
  }

  /** `SignallingCost()`: the cost coefficient for the agent's quality times
      the configured cost times the season's signal. */
  function SignallingCost(cfg: Config, a: Agent): (r: real)
    requires SignalFeature < |a.learner.features|
    ensures CurrentSignal(cfg, a) == 0.0 ==> r == 0.0
    ensures cfg.signallingCost >= 0.0 && cfg.costDecrease(a.quality) >= 0.0 && CurrentSignal(cfg, a) >= 0.0 ==> r >= 0.0
  {
    var c := cfg.signallingCost * cfg.costDecrease(a.quality);
    if cfg.signallingCost >= 0.0 && cfg.costDecrease(a.quality) >= 0.0 && CurrentSignal(cfg, a) >= 0.0 then
      ProductNonNegative(cfg.signallingCost, cfg.costDecrease(a.quality));
      ProductNonNegative(c, CurrentSignal(cfg, a));
      c * CurrentSignal(cfg, a)
    else c * CurrentSignal(cfg, a)
  }
}
