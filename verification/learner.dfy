/** Trial-and-error learning of continuous features. A learner remembers a
    bounded history of (feature snapshot, average performance) records; at
    each learning step it moves toward adult neighbours (imitation), then
    re-centres each feature on the best remembered value, perturbs it and
    blends the result back toward the current value (exploration).

    Features are indexed by their position in the learner's feature
    dictionary, whose key order never changes. Random draws are parameters. */
module Learner {
  import opened Wrappers
  import opened Num
  import Global
  import Memory

  datatype Params = Params(
    memorySpan: nat,        // capacity of the history
    ageMax: int,            // age beyond which the learner is reborn
    infancy: real,          // percentage of lifetime spent as a child
    imitation: real,        // ImitationStrength, a percentage
    speed: real,            // default learning speed
    jumpProbability: real,  // percentage chance of a maximal exploration
    conservatism: real,     // percentage of the old value kept when exploring
    similarity: real,       // LearningSimilarity, the distance unit of smoothing
    toric: bool,            // features wrap around instead of being clamped
    start: real)            // LearningStart; -1 means random initial features

  /** A remembered trial: the features in use and the points they earned. */
  datatype Record = Record(snapshot: seq<real>, perf: real)

  datatype Learner = Learner(
    age: int,
    features: seq<real>,
    scores: Memory.Memory<Record>,
    performance: seq<real>)  // points won since the last learning step

  datatype LearnResult = LearnResult(learned: bool, learner: Learner)

  /** Draws consumed by one learning step: `randint(0,100)` per feature for a
      rebirth, one `randint(0,100)` for the jump test, one `random()` per
      feature for the perturbation. */
  datatype LearnDraws = LearnDraws(resetFeatures: seq<int>, jump: int, perturb: seq<real>)

  /** Parameter values for which the source's divisions and draws are defined. */
  predicate ParamsOk(p: Params) {
    && p.memorySpan >= 1
    && p.ageMax >= 0
    && p.similarity + 0.001 > 0.0
  }

  predicate Valid(p: Params, l: Learner) {
    && l.scores.capacity == p.memorySpan
    && Memory.Valid(l.scores)
    && forall k :: 0 <= k < |l.scores.past| ==> |l.scores.past[k].snapshot| == |l.features|
  }

  predicate FeatureDrawsOk(draws: seq<int>, n: nat) {
    |draws| == n && forall k :: 0 <= k < |draws| ==> 0 <= draws[k] <= 100
  }

  predicate DrawsOk(n: nat, d: LearnDraws) {
    && FeatureDrawsOk(d.resetFeatures, n)
    && 0 <= d.jump <= 100
    && |d.perturb| == n
    && forall k :: 0 <= k < |d.perturb| ==> 0.0 <= d.perturb[k] < 1.0
  }

  /** `Reset(Newborn)`: a newborn has age 0, otherwise the age is the draw in
      [0, AgeMax]; features are fresh `randint(0, 100)` draws unless a start
      value is configured and the learner is not a newborn; history is emptied. */
  function Reset(p: Params, l: Learner, newborn: bool, ageDraw: int, featureDraws: seq<int>): (r: Learner)
    requires FeatureDrawsOk(featureDraws, |l.features|)
    requires !newborn ==> 0 <= ageDraw <= p.ageMax
    ensures newborn ==> r.age == 0
    ensures !newborn ==> 0 <= r.age <= p.ageMax
    ensures |r.features| == |l.features|
    ensures p.start == -1.0 || newborn ==>
              forall k :: 0 <= k < |r.features| ==> r.features[k] == featureDraws[k] as real && 0.0 <= r.features[k] <= 100.0
    ensures p.start != -1.0 && !newborn ==> forall k :: 0 <= k < |r.features| ==> r.features[k] == 100.0 * p.start
    ensures |r.scores.past| == 0 && r.scores.capacity == l.scores.capacity
    ensures r.performance == l.performance
  {
    var n := |l.features|;
    var initial := seq(n, k requires 0 <= k < n =>
                       if p.start == -1.0 || newborn then featureDraws[k] as real else 100.0 * p.start);
    Learner(if newborn then 0 else ageDraw, initial, Memory.Reset(l.scores), l.performance)
  }

  /** A learner as constructed: `Reset(Newborn=False)` on `n` features. */
  function NewLearner(p: Params, n: nat, ageDraw: int, featureDraws: seq<int>): (r: Learner)
    requires 0 <= ageDraw <= p.ageMax
    requires FeatureDrawsOk(featureDraws, n)
    ensures Valid(p, r) && |r.features| == n
    ensures 0 <= r.age <= p.ageMax
    ensures |r.scores.past| == 0 && r.performance == []
  {
    Reset(p, Learner(0, seq(n, _ => 0.0), Memory.Empty(p.memorySpan), []), false, ageDraw, featureDraws)
  }

  /** `adult()`: older than the infancy share of the lifetime. */
  predicate Adult(p: Params, l: Learner) {
    l.age as real > p.ageMax as real * p.infancy / 100.0
  }

  /** `Learner.Limitate`: wraps modulo `hi` when toric (ignoring `lo`), clamps otherwise. */
  function Limitate(p: Params, x: real, lo: real, hi: real): (r: real)
    requires !p.toric || hi != 0.0
    ensures !p.toric && lo <= hi ==> lo <= r <= hi
    ensures !p.toric && lo <= x <= hi ==> r == x
    ensures p.toric && hi > 0.0 ==> 0.0 <= r < hi
    ensures p.toric && 0.0 <= x < hi ==> r == x
  {
    if p.toric then RealMod(x, hi) else Global.Limitate(x, lo, hi)
  }

  /** Values of feature `f` among the adult models, in model order. */
  function AdultValues(p: Params, models: seq<Learner>, f: nat): (vs: seq<real>)
    requires forall k :: 0 <= k < |models| ==> f < |models[k].features|
    ensures |vs| <= |models|
    ensures |vs| == 0 <==> forall k :: 0 <= k < |models| ==> !Adult(p, models[k])
    ensures forall j :: 0 <= j < |vs| ==>
              exists k :: 0 <= k < |models| && Adult(p, models[k]) && models[k].features[f] == vs[j]
  {
    if |models| == 0 then []
    else
      var rest := AdultValues(p, models[..|models| - 1], f);
      var m := models[|models| - 1];
      if Adult(p, m) then rest + [m.features[f]] else rest
  }

  /** `imitate`: feature `f` moved toward the mean of the adult models' values
      by the imitation strength; unchanged when no model is adult. */
  function Imitate(p: Params, l: Learner, models: seq<Learner>, f: nat): (r: real)
    requires f < |l.features|
    requires forall k :: 0 <= k < |models| ==> f < |models[k].features|
    ensures (forall k :: 0 <= k < |models| ==> !Adult(p, models[k])) ==> r == l.features[f]
    ensures p.imitation == 0.0 ==> r == l.features[f]
    ensures 0.0 <= p.imitation <= 100.0 && |AdultValues(p, models, f)| > 0 ==>
              Between(r, l.features[f], Mean(AdultValues(p, models, f)))
    ensures p.imitation == 100.0 && |AdultValues(p, models, f)| > 0 ==> r == Mean(AdultValues(p, models, f))
  {
    var adults := AdultValues(p, models, f);
    if |models| > 0 && |adults| > 0 then Global.Closer(l.features[f], Mean(adults), p.imitation)
    else l.features[f]
  }

  function Perfs(rs: seq<Record>): (ps: seq<real>)
    ensures |ps| == |rs|
    ensures forall k :: 0 <= k < |rs| ==> ps[k] == rs[k].perf
  {
    seq(|rs|, k requires 0 <= k < |rs| => rs[k].perf)
  }

  /** `bestRecord(second)`: None for an empty history, the only record when
      there is one, otherwise the first record of maximal performance or, with
      `second`, the best of the remaining records. */
  function BestRecord(l: Learner, second: bool): (r: Option<Record>)
    ensures r.None? <==> |l.scores.past| == 0
    ensures |l.scores.past| == 1 ==> r == Some(l.scores.past[0])
    ensures |l.scores.past| >= 2 && !second ==>
              r.value in l.scores.past &&
              forall k :: 0 <= k < |l.scores.past| ==> l.scores.past[k].perf <= r.value.perf
    ensures |l.scores.past| >= 2 && second ==>
              var past := l.scores.past;
              var b := ArgMax(Perfs(past));
              (exists k :: 0 <= k < |past| && k != b && past[k] == r.value) &&
              (forall m :: 0 <= m < |past| && m != b ==> past[m].perf <= r.value.perf)
  {
    var past := l.scores.past;
    if |past| == 0 then None
    else if |past| == 1 then Some(Memory.Last(l.scores))
    else
      var b := ArgMax(Perfs(past));
      if !second then Some(past[b])
      else
        // `past.remove(Best)` drops the first record equal to `Best`: that is
        // record `b`, since every earlier record has a strictly lower score.
        var rest := Without(past, b);
        var b2 := ArgMax(Perfs(rest));
        SecondBestIsOther(past, b, rest, b2);
        Some(rest[b2])
  }

  /** The sequence with the element at `b` removed. */
  function Without<T>(s: seq<T>, b: nat): (r: seq<T>)
    requires b < |s|
    ensures |r| == |s| - 1
    ensures forall m :: 0 <= m < b ==> r[m] == s[m]
    ensures forall m :: b <= m < |r| ==> r[m] == s[m + 1]
  {
    s[..b] + s[b + 1..]
  }

  lemma SecondBestIsOther(past: seq<Record>, b: nat, rest: seq<Record>, b2: nat)
    requires b < |past| && rest == Without(past, b) && b2 < |rest|
    requires forall j :: 0 <= j < |rest| ==> rest[j].perf <= rest[b2].perf
    ensures exists k :: 0 <= k < |past| && k != b && past[k] == rest[b2]
    ensures forall m :: 0 <= m < |past| && m != b ==> past[m].perf <= rest[b2].perf
  {
    if b2 < b {
      assert past[b2] == rest[b2];
    } else {
      assert past[b2 + 1] == rest[b2];
    }
    forall m | 0 <= m < |past| && m != b ensures past[m].perf <= rest[b2].perf {
      if m < b {
        assert past[m] == rest[m];
      } else {
        assert past[m] == rest[m - 1];
      }
    }
  }

  /** Distance between two values of a feature, in units of LearningSimilarity. */
  function Distance(p: Params, a: real, b: real): (d: real)
    requires p.similarity + 0.001 > 0.0
    ensures d >= 0.0
    ensures a == b ==> d == 0.0
  {
    DivNonNegative(Abs(a - b), 0.001 + p.similarity);
    Abs(a - b) / (0.001 + p.similarity)
  }

  lemma DivNonNegative(a: real, b: real)
    requires a >= 0.0 && b > 0.0
    ensures a / b >= 0.0
  {
    var q := a / b;
    assert q * b == a;
    if q < 0.0 {
      MulStrict(q, 0.0, b);
    }
  }

  /** One smoothing step `(perf + other / (1 + d)) * (1 + d) / (2 + d)`: the
      average of `perf` (weight 1 + d) and `other` (weight 1). */
  function SmoothStep(perf: real, other: real, d: real): (r: real)
    requires d >= 0.0
    ensures Between(r, perf, other)
    ensures d == 0.0 ==> r == (perf + other) / 2.0
  {
    SmoothStepIsAverage(perf, other, d);
    (perf + other / (1.0 + d)) * (1.0 + d) / (2.0 + d)
  }

  lemma SmoothStepIsAverage(perf: real, other: real, d: real)
    requires d >= 0.0
    ensures (perf + other / (1.0 + d)) * (1.0 + d) / (2.0 + d) == perf + (other - perf) / (2.0 + d)
    ensures Between(perf + (other - perf) / (2.0 + d), perf, other)
  {
    var w := 1.0 / (2.0 + d);
    assert (perf + other / (1.0 + d)) * (1.0 + d) == perf * (1.0 + d) + other;
    assert (perf * (1.0 + d) + other) / (2.0 + d) == perf + (other - perf) / (2.0 + d);
    assert (other - perf) / (2.0 + d) == (other - perf) * w;
    assert 0.0 < w <= 1.0;
    if perf <= other {
      ProductNonNegative(other - perf, w);
      ProductNonNegative(other - perf, 1.0 - w);
    } else {
      ProductNonNegative(perf - other, w);
      ProductNonNegative(perf - other, 1.0 - w);
    }
  }

  predicate SnapshotsHave(recs: seq<Record>, f: nat) {
    forall k :: 0 <= k < |recs| ==> f < |recs[k].snapshot|
  }

  /** The inner loop of `bestFeatureRecord`: `perf` revised by every record
      of `others`, in order, weighted by distance to value `v`. */
  function Smooth(p: Params, perf: real, v: real, others: seq<Record>, f: nat): real
    requires p.similarity + 0.001 > 0.0
    requires SnapshotsHave(others, f)
    decreases |others|
  {
    if |others| == 0 then perf
    else Smooth(p, SmoothStep(perf, others[0].perf, Distance(p, v, others[0].snapshot[f])), v, others[1..], f)
  }

  /** Smoothing never leaves the range of the performances involved. */
  lemma {:induction false} SmoothWithin(p: Params, perf: real, v: real, others: seq<Record>, f: nat, lo: real, hi: real)
    requires p.similarity + 0.001 > 0.0
    requires SnapshotsHave(others, f)
    requires lo <= perf <= hi
    requires forall k :: 0 <= k < |others| ==> lo <= others[k].perf <= hi
    ensures lo <= Smooth(p, perf, v, others, f) <= hi
    decreases |others|
  {
    if |others| > 0 {
      var next := SmoothStep(perf, others[0].perf, Distance(p, v, others[0].snapshot[f]));
      SmoothWithin(p, next, v, others[1..], f, lo, hi);
    }
  }

  /** The revised score of record `i` against the whole history. */
  function Score(p: Params, recs: seq<Record>, f: nat, i: nat): real
    requires p.similarity + 0.001 > 0.0
    requires SnapshotsHave(recs, f) && i < |recs|
  {
    Smooth(p, recs[i].perf, recs[i].snapshot[f], recs, f)
  }

  /** Record `i` is the last one with its value of feature `f`. */
  predicate LastWithValue(recs: seq<Record>, f: nat, i: nat)
    requires SnapshotsHave(recs, f) && i < |recs|
  {
    forall m :: i < m < |recs| ==> recs[m].snapshot[f] != recs[i].snapshot[f]
  }

  /** Among the first `n` values, value `i` is not repeated later. */
  predicate LastOccurrence(xs: seq<real>, n: nat, i: nat)
    requires i < n <= |xs|
  {
    forall m :: i < m < n ==> xs[m] != xs[i]
  }

  /** A Python dictionary from feature values to scores: keys in insertion order. */
  datatype Table = Table(keys: seq<real>, vals: map<real, real>)

  predicate TableOk(t: Table) {
    && (forall k :: 0 <= k < |t.keys| ==> t.keys[k] in t.vals)
    && (forall x :: x in t.vals ==> x in t.keys)
    && forall a, b :: 0 <= a < b < |t.keys| ==> t.keys[a] != t.keys[b]
  }

  /** `Best[key] = v`: an existing key keeps its position, a new key goes last. */
  function Put(t: Table, key: real, v: real): (t': Table)
    requires TableOk(t)
    ensures TableOk(t')
    ensures t'.vals == t.vals[key := v]
  {
    if key in t.vals then Table(t.keys, t.vals[key := v]) else Table(t.keys + [key], t.vals[key := v])
  }

  /** The dictionary after `Best[xs[i]] = vs[i]` for each `i < n` in turn. */
  function BuildTable(xs: seq<real>, vs: seq<real>, n: nat): (t: Table)
    requires |xs| == |vs| && n <= |xs|
    ensures TableOk(t)
  {
    if n == 0 then Table([], map[]) else Put(BuildTable(xs, vs, n - 1), xs[n - 1], vs[n - 1])
  }

  /** Every value stored is a key of the dictionary. */
  lemma {:induction false} BuildTableKeys(xs: seq<real>, vs: seq<real>, n: nat)
    requires |xs| == |vs| && n <= |xs|
    ensures forall i :: 0 <= i < n ==> xs[i] in BuildTable(xs, vs, n).vals
  {
    if n > 0 {
      BuildTableKeys(xs, vs, n - 1);
    }
  }

  /** Each key holds the value stored last under it. */
  lemma {:induction false} BuildTableLast(xs: seq<real>, vs: seq<real>, n: nat)
    requires |xs| == |vs| && n <= |xs|
    ensures forall i :: 0 <= i < n && LastOccurrence(xs, n, i) ==>
              xs[i] in BuildTable(xs, vs, n).vals && BuildTable(xs, vs, n).vals[xs[i]] == vs[i]
  {
    if n > 0 {
      BuildTableLast(xs, vs, n - 1);
      forall i | 0 <= i < n - 1 && LastOccurrence(xs, n, i)
        ensures LastOccurrence(xs, n - 1, i) && xs[i] != xs[n - 1]
      {
      }
    }
  }

  /** Every key was stored by some last occurrence. */
  lemma {:induction false} BuildTableWitness(xs: seq<real>, vs: seq<real>, n: nat)
    requires |xs| == |vs| && n <= |xs|
    ensures forall x :: x in BuildTable(xs, vs, n).vals ==> exists i :: 0 <= i < n && xs[i] == x && LastOccurrence(xs, n, i)
  {
    if n > 0 {
      BuildTableWitness(xs, vs, n - 1);
      var t0 := BuildTable(xs, vs, n - 1);
      forall x | x in BuildTable(xs, vs, n).vals
        ensures exists i :: 0 <= i < n && xs[i] == x && LastOccurrence(xs, n, i)
      {
        if x == xs[n - 1] {
          assert LastOccurrence(xs, n, n - 1);
        } else {
          assert x in t0.vals;
          var i :| 0 <= i < n - 1 && xs[i] == x && LastOccurrence(xs, n - 1, i);
          assert LastOccurrence(xs, n, i);
        }
      }
    }
  }

  function FeatureValues(recs: seq<Record>, f: nat): (xs: seq<real>)
    requires SnapshotsHave(recs, f)
    ensures |xs| == |recs| && forall i :: 0 <= i < |recs| ==> xs[i] == recs[i].snapshot[f]
  {
    seq(|recs|, i requires 0 <= i < |recs| => recs[i].snapshot[f])
  }

  function Scores(p: Params, recs: seq<Record>, f: nat): (vs: seq<real>)
    requires p.similarity + 0.001 > 0.0
    requires SnapshotsHave(recs, f)
    ensures |vs| == |recs| && forall i :: 0 <= i < |recs| ==> vs[i] == Score(p, recs, f, i)
  {
    seq(|recs|, i requires 0 <= i < |recs| => Score(p, recs, f, i))
  }

  /** The first key of maximal value is stored by a last occurrence whose
      value is maximal among all last occurrences. */
  lemma TableMax(xs: seq<real>, ss: seq<real>, t: Table, vs: seq<real>, b: nat)
    requires |xs| == |ss| && |xs| > 0
    requires TableOk(t)
    // what `BuildTableLast` and `BuildTableWitness` establish for the full table
    requires forall i :: 0 <= i < |xs| && LastOccurrence(xs, |xs|, i) ==> xs[i] in t.vals && t.vals[xs[i]] == ss[i]
    requires forall x :: x in t.vals ==> exists i :: 0 <= i < |xs| && xs[i] == x && LastOccurrence(xs, |xs|, i)
    requires |vs| == |t.keys| && forall k :: 0 <= k < |t.keys| ==> t.keys[k] in t.vals && vs[k] == t.vals[t.keys[k]]
    requires b < |vs| && forall k :: 0 <= k < |vs| ==> vs[k] <= vs[b]
    ensures exists i :: 0 <= i < |xs| && xs[i] == t.keys[b] && LastOccurrence(xs, |xs|, i) &&
                        forall j :: 0 <= j < |xs| && LastOccurrence(xs, |xs|, j) ==> ss[j] <= ss[i]
  {
    var x := t.keys[b];
    var i :| 0 <= i < |xs| && xs[i] == x && LastOccurrence(xs, |xs|, i);
    assert vs[b] == ss[i];
    forall j | 0 <= j < |xs| && LastOccurrence(xs, |xs|, j)
      ensures ss[j] <= ss[i]
    {
      var y := xs[j];
      assert y in t.keys;
      var k :| 0 <= k < |t.keys| && t.keys[k] == y;
      assert vs[k] == ss[j];
    }
  }

  /** `bestFeatureRecord(F)`: None for an empty history; otherwise a value of
      feature `f` found in the history whose revised score (that of the last
      record carrying it) is maximal among all remembered values. */
  function BestFeatureRecord(p: Params, l: Learner, f: nat): (r: Option<real>)
    requires p.similarity + 0.001 > 0.0
    requires SnapshotsHave(l.scores.past, f)
    ensures r.None? <==> |l.scores.past| == 0
    ensures r.Some? ==>
              var past := l.scores.past;
              exists i :: 0 <= i < |past| && past[i].snapshot[f] == r.value && LastWithValue(past, f, i) &&
                          forall j :: 0 <= j < |past| && LastWithValue(past, f, j) ==>
                                      Score(p, past, f, j) <= Score(p, past, f, i)
  {
    var past := l.scores.past;
    if |past| == 0 then None
    else
      var xs := FeatureValues(past, f);
      var ss := Scores(p, past, f);
      var r := BestKey(xs, ss);
      BestKeyIsBestRecord(p, past, f, r);
      Some(r)
  }

  /** `max(Best, key=Best.get)` for the dictionary built from values `xs` and
      scores `ss`: a value whose last score is maximal among last scores. */
  function BestKey(xs: seq<real>, ss: seq<real>): (r: real)
    requires |xs| == |ss| && |xs| > 0
    ensures exists i :: 0 <= i < |xs| && xs[i] == r && LastOccurrence(xs, |xs|, i) &&
                        forall j :: 0 <= j < |xs| && LastOccurrence(xs, |xs|, j) ==> ss[j] <= ss[i]
  {
    var t := BuildTable(xs, ss, |xs|);
    BuildTableKeys(xs, ss, |xs|);
    assert xs[0] in t.vals;
    assert |t.keys| > 0;
    var vs := seq(|t.keys|, k requires 0 <= k < |t.keys| => t.vals[t.keys[k]]);
    var b := ArgMax(vs);
    BuildTableLast(xs, ss, |xs|);
    BuildTableWitness(xs, ss, |xs|);
    TableMax(xs, ss, t, vs, b);
    t.keys[b]
  }

  lemma BestKeyIsBestRecord(p: Params, past: seq<Record>, f: nat, r: real)
    requires p.similarity + 0.001 > 0.0 && SnapshotsHave(past, f) && |past| > 0
    requires var xs := FeatureValues(past, f);
             var ss := Scores(p, past, f);
             exists i :: 0 <= i < |xs| && xs[i] == r && LastOccurrence(xs, |xs|, i) &&
                         forall j :: 0 <= j < |xs| && LastOccurrence(xs, |xs|, j) ==> ss[j] <= ss[i]
    ensures exists i :: 0 <= i < |past| && past[i].snapshot[f] == r && LastWithValue(past, f, i) &&
                        forall j :: 0 <= j < |past| && LastWithValue(past, f, j) ==>
                                    Score(p, past, f, j) <= Score(p, past, f, i)
  {
    var xs := FeatureValues(past, f);
    var ss := Scores(p, past, f);
    LastOccurrenceIsLastWithValue(past, f);
    var i :| 0 <= i < |xs| && xs[i] == r && LastOccurrence(xs, |xs|, i) &&
             forall j :: 0 <= j < |xs| && LastOccurrence(xs, |xs|, j) ==> ss[j] <= ss[i];
    assert LastWithValue(past, f, i);
    forall j | 0 <= j < |past| && LastWithValue(past, f, j)
      ensures Score(p, past, f, j) <= Score(p, past, f, i)
    {
      assert LastOccurrence(xs, |xs|, j);
      assert ss[j] <= ss[i];
    }
  }

  lemma LastOccurrenceIsLastWithValue(recs: seq<Record>, f: nat)
    requires SnapshotsHave(recs, f)
    ensures forall i :: 0 <= i < |recs| ==>
              (LastOccurrence(FeatureValues(recs, f), |recs|, i) <==> LastWithValue(recs, f, i))
  {
  }

  /** `avgRecord()`: mean remembered performance, 0 for an empty history. */
  function AvgRecord(l: Learner): (r: real)
    ensures |l.scores.past| == 0 ==> r == 0.0
    ensures |l.scores.past| > 0 ==>
              var ps := Perfs(l.scores.past);
              ps[ArgMin(ps)] <= r <= ps[ArgMax(ps)]
    ensures IsMeanOf(r, Perfs(l.scores.past))
  {
    MeanTimesCount(Perfs(l.scores.past));
    Mean(Perfs(l.scores.past))
  }

  /** `loser()`: full experience and no remembered trial scored above zero. */
  function Loser(l: Learner): (r: bool)
    requires Memory.Valid(l.scores) && l.scores.capacity > 0
    ensures r <==> Memory.Complete(l.scores) && forall k :: 0 <= k < |l.scores.past| ==> l.scores.past[k].perf <= 0.0
  {
    Memory.Complete(l.scores) && BestRecord(l, false).value.perf <= 0.0
  }

  /** The exploration target: the best remembered value of `f`, perturbed by
      up to `speed` and brought back within bounds. */
  function ExploreTarget(p: Params, l: Learner, f: nat, speed: real, bottom: real, top: real, u: real): (t: real)
    requires p.similarity + 0.001 > 0.0
    requires |l.scores.past| > 0 && SnapshotsHave(l.scores.past, f)
    requires 0.0 <= u < 1.0
    requires !p.toric || top != 0.0
    ensures !p.toric && bottom <= top ==> bottom <= t <= top
    ensures p.toric && top > 0.0 ==> 0.0 <= t < top
    ensures !p.toric && bottom <= BestFeatureRecord(p, l, f).value <= top ==>
              Abs(t - BestFeatureRecord(p, l, f).value) <= Abs(speed)
  {
    var best := BestFeatureRecord(p, l, f).value;
    Limitate(p, Global.Perturbate(best, speed, u), bottom, top)
  }

  /** `explore(F, Speed, Bottom, Top)`: the target blended back toward the
      current value by Conservatism, rounded to two decimals. The history must
      be non-empty: on an empty history the source adds a number to None. */
  function Explore(p: Params, l: Learner, f: nat, speed: real, bottom: real, top: real, u: real): (r: real)
    requires p.similarity + 0.001 > 0.0
    requires |l.scores.past| > 0 && SnapshotsHave(l.scores.past, f)
    requires f < |l.features|
    requires 0.0 <= u < 1.0
    requires !p.toric || top != 0.0
    ensures p.conservatism == 0.0 ==> r == Round2(ExploreTarget(p, l, f, speed, bottom, top, u))
    ensures p.conservatism == 100.0 ==> r == Round2(l.features[f])
    ensures 0.0 <= p.conservatism <= 100.0 ==>
              var t := ExploreTarget(p, l, f, speed, bottom, top, u);
              Min(t, l.features[f]) - 0.005 <= r <= Max(t, l.features[f]) + 0.005
    ensures (!p.toric && 0.0 <= p.conservatism <= 100.0 && bottom <= top && IsCent(bottom) && IsCent(top) &&
             bottom <= l.features[f] <= top) ==> bottom <= r <= top
  {
    var t := ExploreTarget(p, l, f, speed, bottom, top, u);
    var blended := Global.Closer(t, l.features[f], p.conservatism);
    if !p.toric && 0.0 <= p.conservatism <= 100.0 && bottom <= top && IsCent(bottom) && IsCent(top) &&
       bottom <= l.features[f] <= top then
      Round2Within(blended, bottom, top);
      Round2(blended)
    else Round2(blended)
  }

  /** `Age > AgeMax` triggers a newborn `Reset` before learning. */
  function Rebirth(p: Params, l: Learner, d: LearnDraws): (r: Learner)
    requires FeatureDrawsOk(d.resetFeatures, |l.features|)
    ensures l.age > p.ageMax ==> r == Reset(p, l, true, 0, d.resetFeatures)
    ensures l.age <= p.ageMax ==> r == l
    ensures Valid(p, l) ==> Valid(p, r)
    ensures |r.features| == |l.features|
  {
    if l.age > p.ageMax then Reset(p, l, true, 0, d.resetFeatures) else l
  }

  /** The exploration speed: damped from 100 toward `speed` for a child in a
      hot phase, forced to `top` by a jump draw. */
  function LearningSpeed(p: Params, l: Learner, speed: real, hot: bool, jump: int, top: real): (r: real)
    requires p.ageMax >= 0 && l.age >= 1
    ensures (jump as real) < p.jumpProbability ==> r == top
    ensures !((jump as real) < p.jumpProbability) && !(hot && !Adult(p, l)) ==> r == speed
    ensures !((jump as real) < p.jumpProbability) && hot && !Adult(p, l) ==> r >= speed
    ensures !((jump as real) < p.jumpProbability) && hot && !Adult(p, l) && speed <= 100.0 ==> r <= 100.0
  {
    var s := if hot && !Adult(p, l) then ChildSpeed(p, l, speed) else speed;
    if (jump as real) < p.jumpProbability then top else s
  }

  /** `Decrease(Age, Infancy, Speed)` for a child: a child of age >= 1 implies
      a positive infancy, so the division is defined. */
  function ChildSpeed(p: Params, l: Learner, speed: real): (r: real)
    requires p.ageMax >= 0 && l.age >= 1 && !Adult(p, l)
    ensures r >= speed
    ensures speed <= 100.0 ==> r <= 100.0
  {
    InfancyPositive(p, l);
    Global.Decrease(l.age as real, p.infancy, speed)
  }

  lemma InfancyPositive(p: Params, l: Learner)
    requires p.ageMax >= 0 && l.age >= 1 && !Adult(p, l)
    ensures p.infancy > 0.0
  {
    var a := p.ageMax as real;
    assert a * p.infancy / 100.0 >= 1.0;
    if p.infancy <= 0.0 {
      ProductNonNegative(a, -p.infancy);
    }
  }

  /** History push and age increment of a learning step. */
  function Pushed(p: Params, l: Learner, d: LearnDraws): (r: Learner)
    requires p.memorySpan >= 1 && Valid(p, l)
    requires FeatureDrawsOk(d.resetFeatures, |l.features|)
    ensures Valid(p, r) && |r.features| == |l.features|
    ensures |r.scores.past| > 0
  {
    var b := Rebirth(p, l, d);
    var rec := Record(b.features, Mean(l.performance));
    var m := Memory.Push(b.scores, rec);
    PushValid(p, b, rec);
    Learner(b.age + 1, b.features, m, [])
  }

  /** Pushing a snapshot of the current features keeps the history valid. */
  lemma PushValid(p: Params, b: Learner, rec: Record)
    requires p.memorySpan >= 1 && Valid(p, b) && rec.snapshot == b.features
    ensures Valid(p, Learner(b.age + 1, b.features, Memory.Push(b.scores, rec), []))
    ensures |Memory.Push(b.scores, rec).past| > 0
  {
    var m := Memory.Push(b.scores, rec);
    forall k | 0 <= k < |m.past| ensures |m.past[k].snapshot| == |b.features| {
      assert m.past[k] in m.past;
    }
  }

  /** The imitation phase: every feature moved toward the adult neighbours'
      mean for that feature; nothing moves at strength 0 or without an adult. */
  function ImitateAll(p: Params, l: Learner, neighbours: seq<Learner>): (fs: seq<real>)
    requires forall k :: 0 <= k < |neighbours| ==> |neighbours[k].features| == |l.features|
    ensures |fs| == |l.features|
    ensures forall f :: 0 <= f < |fs| ==> fs[f] == Imitate(p, l, neighbours, f)
    ensures p.imitation == 0.0 ==> fs == l.features
    ensures (forall k :: 0 <= k < |neighbours| ==> !Adult(p, neighbours[k])) ==> fs == l.features
    ensures 0.0 <= p.imitation <= 100.0 ==>
              forall f :: 0 <= f < |fs| && |AdultValues(p, neighbours, f)| > 0 ==>
                Between(fs[f], l.features[f], Mean(AdultValues(p, neighbours, f)))
  {
    var n := |l.features|;
    seq(n, f requires 0 <= f < n => Imitate(p, l, neighbours, f))
  }

  /** With a strength in [0, 100], imitation keeps features within any bounds
      that hold the learner and all its neighbours. */
  lemma ImitationWithin(p: Params, l: Learner, neighbours: seq<Learner>, lo: real, hi: real)
    requires forall k :: 0 <= k < |neighbours| ==> |neighbours[k].features| == |l.features|
    requires 0.0 <= p.imitation <= 100.0
    requires forall f :: 0 <= f < |l.features| ==> lo <= l.features[f] <= hi
    requires forall k, f :: 0 <= k < |neighbours| && 0 <= f < |l.features| ==> lo <= neighbours[k].features[f] <= hi
    ensures forall f :: 0 <= f < |l.features| ==> lo <= ImitateAll(p, l, neighbours)[f] <= hi
  {
    forall f | 0 <= f < |l.features|
      ensures lo <= Imitate(p, l, neighbours, f) <= hi
    {
      var vs := AdultValues(p, neighbours, f);
      if |vs| > 0 {
        forall j | 0 <= j < |vs| ensures lo <= vs[j] <= hi {
          var k :| 0 <= k < |neighbours| && Adult(p, neighbours[k]) && neighbours[k].features[f] == vs[j];
        }
        MeanWithin(vs, lo, hi);
      }
    }
  }

  /** The exploration phase, one perturbation draw per feature. */
  function ExploreAll(p: Params, l: Learner, speed: real, bottom: real, top: real, us: seq<real>): (fs: seq<real>)
    requires p.similarity + 0.001 > 0.0
    requires |l.scores.past| > 0
    requires forall k :: 0 <= k < |l.scores.past| ==> |l.scores.past[k].snapshot| == |l.features|
    requires |us| == |l.features| && forall k :: 0 <= k < |us| ==> 0.0 <= us[k] < 1.0
    requires !p.toric || top != 0.0
    ensures |fs| == |l.features|
    ensures forall f :: 0 <= f < |fs| ==> fs[f] == Explore(p, l, f, speed, bottom, top, us[f])
    ensures (!p.toric && 0.0 <= p.conservatism <= 100.0 && bottom <= top && IsCent(bottom) && IsCent(top) &&
             forall f :: 0 <= f < |l.features| ==> bottom <= l.features[f] <= top)
            ==> forall f :: 0 <= f < |fs| ==> bottom <= fs[f] <= top
  {
    var n := |l.features|;
    seq(n, f requires 0 <= f < n => Explore(p, l, f, speed, bottom, top, us[f]))
  }

  /** `Learns(neighbours, Speed, hot, BottomValue, TopValue)`. */
  function Learns(p: Params, l: Learner, neighbours: seq<Learner>, speed: Option<real>, hot: bool,
                  bottom: real, top: real, d: LearnDraws): (r: LearnResult)
    requires ParamsOk(p) && Valid(p, l) && l.age >= 0
    requires DrawsOk(|l.features|, d)
    requires forall k :: 0 <= k < |neighbours| ==> |neighbours[k].features| == |l.features|
    requires !p.toric || top != 0.0
    ensures Valid(p, r.learner) && |r.learner.features| == |l.features|
    ensures 1 <= r.learner.age <= p.ageMax + 1
    ensures r.learner.age == Rebirth(p, l, d).age + 1
    ensures r.learner.performance == []
    // the newest history record: the features at push time with the mean of the accumulated points
    ensures var b := Rebirth(p, l, d);
            r.learner.scores == Memory.Push(b.scores, Record(b.features, Mean(l.performance)))
    ensures |r.learner.scores.past| > 0 &&
            Memory.Last(r.learner.scores) == Record(Rebirth(p, l, d).features, Mean(l.performance))
    ensures !r.learned <==> r.learner.age == 1
    ensures !r.learned ==> r.learner.features == Rebirth(p, l, d).features
  {
    var pushed := Pushed(p, l, d);
    if pushed.age == 1 then LearnResult(false, pushed)
    else
      var imitated := Imitated(p, pushed, neighbours);
      var s := match speed case Some(v) => v case None => p.speed;
      var ls := LearningSpeed(p, imitated, s, hot, d.jump, top);
      if |l.features| == 0 then LearnResult(true, imitated)
      else LearnResult(true, imitated.(features := ExploreAll(p, imitated, ls, bottom, top, d.perturb)))
  }

  /** With ImitationStrength 0 the neighbours play no part in learning. */
  lemma NoImitationIgnoresNeighbours(p: Params, l: Learner, n1: seq<Learner>, n2: seq<Learner>,
                                     speed: Option<real>, hot: bool, bottom: real, top: real, d: LearnDraws)
    requires ParamsOk(p) && Valid(p, l) && l.age >= 0 && DrawsOk(|l.features|, d)
    requires forall k :: 0 <= k < |n1| ==> |n1[k].features| == |l.features|
    requires forall k :: 0 <= k < |n2| ==> |n2[k].features| == |l.features|
    requires !p.toric || top != 0.0
    requires p.imitation == 0.0
    ensures Learns(p, l, n1, speed, hot, bottom, top, d) == Learns(p, l, n2, speed, hot, bottom, top, d)
  {
  }

  /** Bounded features stay bounded: with clamping, percentages in [0, 100] for
      imitation and conservatism, and bounds on whole hundredths, a learning
      step keeps every feature within [bottom, top] when the learner (after a
      possible rebirth) and its neighbours were within them. */
  lemma LearnsStaysWithinBounds(p: Params, l: Learner, neighbours: seq<Learner>, speed: Option<real>,
                                hot: bool, bottom: real, top: real, d: LearnDraws)
    requires ParamsOk(p) && Valid(p, l) && l.age >= 0 && DrawsOk(|l.features|, d)
    requires forall k :: 0 <= k < |neighbours| ==> |neighbours[k].features| == |l.features|
    requires !p.toric && bottom <= top && IsCent(bottom) && IsCent(top)
    requires 0.0 <= p.imitation <= 100.0 && 0.0 <= p.conservatism <= 100.0
    requires forall f :: 0 <= f < |l.features| ==> bottom <= Rebirth(p, l, d).features[f] <= top
    requires forall k, f :: 0 <= k < |neighbours| && 0 <= f < |l.features| ==> bottom <= neighbours[k].features[f] <= top
    ensures var r := Learns(p, l, neighbours, speed, hot, bottom, top, d).learner;
            forall f :: 0 <= f < |r.features| ==> bottom <= r.features[f] <= top
  {
    LearnsPhases(p, l, neighbours, speed, hot, bottom, top, d);
    var pushed := Pushed(p, l, d);
    if pushed.age != 1 {
      var imitated := Imitated(p, pushed, neighbours);
      ImitatedWithin(p, pushed, neighbours, bottom, top);
      if |l.features| != 0 {
        var s := match speed case Some(v) => v case None => p.speed;
        ExploredWithin(p, imitated, LearningSpeed(p, imitated, s, hot, d.jump, top), bottom, top, d.perturb);
      }
    }
  }

  /** The learner after the imitation phase (unchanged when imitation is off). */
  function Imitated(p: Params, pushed: Learner, neighbours: seq<Learner>): (r: Learner)
    requires forall k :: 0 <= k < |neighbours| ==> |neighbours[k].features| == |pushed.features|
    ensures r.(features := pushed.features) == pushed && |r.features| == |pushed.features|
  {
    if p.imitation != 0.0 then pushed.(features := ImitateAll(p, pushed, neighbours)) else pushed
  }

  lemma ImitatedWithin(p: Params, pushed: Learner, neighbours: seq<Learner>, lo: real, hi: real)
    requires forall k :: 0 <= k < |neighbours| ==> |neighbours[k].features| == |pushed.features|
    requires 0.0 <= p.imitation <= 100.0
    requires forall f :: 0 <= f < |pushed.features| ==> lo <= pushed.features[f] <= hi
    requires forall k, f :: 0 <= k < |neighbours| && 0 <= f < |pushed.features| ==> lo <= neighbours[k].features[f] <= hi
    ensures forall f :: 0 <= f < |pushed.features| ==> lo <= Imitated(p, pushed, neighbours).features[f] <= hi
  {
    if p.imitation != 0.0 {
      ImitationWithin(p, pushed, neighbours, lo, hi);
    }
  }

  lemma ExploredWithin(p: Params, l: Learner, speed: real, bottom: real, top: real, us: seq<real>)
    requires p.similarity + 0.001 > 0.0
    requires |l.scores.past| > 0
    requires forall k :: 0 <= k < |l.scores.past| ==> |l.scores.past[k].snapshot| == |l.features|
    requires |us| == |l.features| && forall k :: 0 <= k < |us| ==> 0.0 <= us[k] < 1.0
    requires !p.toric && 0.0 <= p.conservatism <= 100.0 && bottom <= top && IsCent(bottom) && IsCent(top)
    requires forall f :: 0 <= f < |l.features| ==> bottom <= l.features[f] <= top
    ensures forall f :: 0 <= f < |l.features| ==> bottom <= ExploreAll(p, l, speed, bottom, top, us)[f] <= top
  {
  }

  /** The features a learning step ends with, phase by phase. */
  lemma LearnsPhases(p: Params, l: Learner, neighbours: seq<Learner>, speed: Option<real>,
                     hot: bool, bottom: real, top: real, d: LearnDraws)
    requires ParamsOk(p) && Valid(p, l) && l.age >= 0 && DrawsOk(|l.features|, d)
    requires forall k :: 0 <= k < |neighbours| ==> |neighbours[k].features| == |l.features|
    requires !p.toric || top != 0.0
    ensures var r := Learns(p, l, neighbours, speed, hot, bottom, top, d).learner;
            var pushed := Pushed(p, l, d);
            var imitated := Imitated(p, pushed, neighbours);
            var s := match speed case Some(v) => v case None => p.speed;
            && (pushed.age != 1 && |l.features| == 0 ==> r.features == imitated.features)
            && (pushed.age == 1 ==> r.features == pushed.features)
            && (pushed.age != 1 && |l.features| != 0 ==>
                  r.features == ExploreAll(p, imitated, LearningSpeed(p, imitated, s, hot, d.jump, top), bottom, top, d.perturb))
  {
  }

  /** `wins(Points)`: the points join the performances gathered for the
      current feature values; nothing else changes. */
  function Wins(l: Learner, points: real): (r: Learner)
    ensures r.performance == l.performance + [points]
    ensures r.(performance := l.performance) == l
  {
    l.(performance := l.performance + [points])
  }

  /** A learner that won `x` once since its last learning step records exactly
      `x` as the performance of the features it tried. */
  lemma SingleWinIsRecorded(p: Params, l: Learner, x: real, neighbours: seq<Learner>, speed: Option<real>,
                            hot: bool, bottom: real, top: real, d: LearnDraws)
    requires ParamsOk(p) && Valid(p, l) && l.age >= 0 && DrawsOk(|l.features|, d)
    requires forall k :: 0 <= k < |neighbours| ==> |neighbours[k].features| == |l.features|
    requires !p.toric || top != 0.0
    requires l.performance == []
    ensures Memory.Last(Learns(p, Wins(l, x), neighbours, speed, hot, bottom, top, d).learner.scores).perf == x
  {
    var w := Wins(l, x);
    assert w.performance == [x];
    assert Sum([x]) == x by {
      assert [x][..0] == [];
    }
  }
}
