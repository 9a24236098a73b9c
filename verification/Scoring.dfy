/** Error rates and multiset scores (evaluation/run_evaluation.py).

    The rounding to six digits that the report applies at the end is not modelled: the values
    here are exact. */
module Scoring {
  import opened Alignment

  // ---------- word and character error rate ----------

  function Rate(errors: nat, referenceUnits: nat, hypothesisUnits: nat): real {
    if referenceUnits != 0 then errors as real / referenceUnits as real
    else if hypothesisUnits == 0 then 0.0
    else 1.0
  }

  function ErrorRate(r: seq<Token>, h: seq<Token>): real {
    Rate(Distance(r, h), |r|, |h|)
  }

  lemma {:induction false} DivisionBounds(a: nat, b: nat, c: nat)
    requires c > 0
    ensures a as real / c as real == 0.0 <==> a == 0
    ensures a <= b ==> a as real / c as real <= b as real / c as real
    ensures c as real / c as real == 1.0
  {
    var q := a as real / c as real;
    assert q * c as real == a as real;
    if a <= b {
      var p := b as real / c as real;
      assert (p - q) * c as real == (b - a) as real;
    }
  }

  /** The rate is zero exactly for a perfect transcript, and it exceeds one only through
      extra hypothesis tokens. */
  lemma {:induction false} ErrorRateMeaning(r: seq<Token>, h: seq<Token>)
    ensures ErrorRate(r, h) == 0.0 <==> r == h
    ensures |h| <= |r| ==> ErrorRate(r, h) <= 1.0
    ensures r != [] ==> ErrorRate(r, h) * |r| as real == Distance(r, h) as real
    ensures r == [] && h != [] ==> ErrorRate(r, h) == 1.0
  {
    DistanceZeroIffEqual(r, h);
    DistanceAtMostLonger(r, h);
    if r != [] {
      DivisionBounds(Distance(r, h), |r|, |r|);
    }
  }

  // ---------- multiset scores ----------

  datatype Score = Score(counters: Counters, precision: real, recall: real, f1: real)

  /** Drops the items that normalise to nothing and counts the rest. */
  function NormalizeItems(values: seq<string>, normalize: string -> string): multiset<string> {
    if values == [] then multiset{}
    else
      var rest := NormalizeItems(values[..|values| - 1], normalize);
      var item := normalize(values[|values| - 1]);
      if item == "" then rest else rest + multiset{item}
  }

  datatype Counters = Counters(expected: nat, predicted: nat, matched: nat)

  function CountersOf(expected: multiset<string>, predicted: multiset<string>): Counters {
    Counters(|expected|, |predicted|, |expected * predicted|)
  }

  function MultisetScore(expected: seq<string>, predicted: seq<string>, normalize: string -> string): Score {
    ScoreOf(CountersOf(NormalizeItems(expected, normalize), NormalizeItems(predicted, normalize)))
  }

  function ScoreOf(c: Counters): Score {
    Score(c, Precision(c), Recall(c), F1(c))
  }

  function Precision(c: Counters): real {
    if c.predicted != 0 then c.matched as real / c.predicted as real else if c.expected == 0 then 1.0 else 0.0
  }

  function Recall(c: Counters): real {
    if c.expected != 0 then c.matched as real / c.expected as real else if c.predicted == 0 then 1.0 else 0.0
  }

  function F1(c: Counters): real {
    var precision, recall := Precision(c), Recall(c);
    if precision + recall != 0.0 then 2.0 * precision * recall / (precision + recall) else 0.0
  }

  /** No more can match than there is on either side. */
  ghost predicate Consistent(c: Counters) {
    c.matched <= c.expected && c.matched <= c.predicted
  }

  lemma {:induction false} IntersectionSize<T>(a: multiset<T>, b: multiset<T>)
    ensures |a * b| <= |a| && |a * b| <= |b|
    ensures |a * b| == |a| == |b| <==> a == b
  {
    assert a == a * b + (a - b);
    assert b == a * b + (b - a);
    if |a * b| == |a| == |b| {
      assert |a - b| == 0 && |b - a| == 0;
      assert a == a * b == b;
    }
    if a == b { assert a * b == a; }
  }

  lemma {:induction false} HarmonicMean(m: real, e: real, p: real)
    requires e > 0.0 && p > 0.0 && 0.0 < m
    ensures m / p + m / e != 0.0
    ensures 2.0 * (m / p) * (m / e) / (m / p + m / e) * (e + p) == 2.0 * m
  {
    var x, y := m / p, m / e;
    assert x * p == m && y * e == m;
    assert x > 0.0 && y > 0.0;
    var f := 2.0 * x * y / (x + y);
    assert f * (x + y) == 2.0 * x * y;
    calc {
      f * (e + p) * (x * y);
      == { assert f * (e + p) * (x * y) == f * ((y * e) * x + (x * p) * y); }
      f * (m * x + m * y);
      == { assert f * (m * x + m * y) == m * (f * (x + y)); }
      m * (2.0 * x * y);
      ==
      2.0 * m * (x * y);
    }
    assert (f * (e + p) - 2.0 * m) * (x * y) == 0.0;
    assert x * y > 0.0;
  }

  /** F1 is twice the matches over both totals. */
  lemma {:induction false} F1Ratio(c: Counters)
    requires Consistent(c) && c.expected + c.predicted != 0
    ensures F1(c) * (c.expected + c.predicted) as real == 2.0 * c.matched as real
  {
    var e, p, m := c.expected as real, c.predicted as real, c.matched as real;
    if c.matched > 0 {
      HarmonicMean(m, e, p);
    } else {
      NothingMatched(c);
    }
  }

  lemma {:induction false} NothingMatched(c: Counters)
    requires c.matched == 0 && c.expected + c.predicted != 0
    ensures F1(c) == 0.0
  {
    if c.expected != 0 { DivisionBounds(0, 0, c.expected); }
    if c.predicted != 0 { DivisionBounds(0, 0, c.predicted); }
  }

  lemma {:induction false} RatioOne(f: real, total: real, twice: real)
    requires total > 0.0 && f * total == twice
    ensures f == 1.0 <==> twice == total
  {
    if twice == total { assert (f - 1.0) * total == 0.0; }
  }

  /** A perfect F1 means that the two collections normalise to the same multiset. */
  lemma {:induction false} PerfectF1(expected: multiset<string>, predicted: multiset<string>)
    ensures Consistent(CountersOf(expected, predicted))
    ensures F1(CountersOf(expected, predicted)) == 1.0 <==> expected == predicted
  {
    IntersectionSize(expected, predicted);
    var c := CountersOf(expected, predicted);
    if c.expected + c.predicted == 0 {
      assert expected == predicted == multiset{};
    } else {
      F1Ratio(c);
      RatioOne(F1(c), (c.expected + c.predicted) as real, 2.0 * c.matched as real);
    }
  }

  // ---------- aggregation over samples ----------

  function Expected(samples: seq<Counters>): nat {
    if samples == [] then 0 else samples[0].expected + Expected(samples[1..])
  }

  function Predicted(samples: seq<Counters>): nat {
    if samples == [] then 0 else samples[0].predicted + Predicted(samples[1..])
  }

  function Matched(samples: seq<Counters>): nat {
    if samples == [] then 0 else samples[0].matched + Matched(samples[1..])
  }

  /** `[item] * count`, which is empty for a negative count. */
  function Repeat(item: string, count: int): seq<string> {
    if count <= 0 then [] else Repeat(item, count - 1) + [item]
  }

  /** The two lists the aggregation rebuilds from totals, counted again. The source uses "x" for
      a placeholder that matches and "y" for one that does not. */
  function Rebuilt(c: Counters, x: string, y: string, normalize: string -> string): Counters {
    CountersOf(RebuiltExpected(c, x, normalize), RebuiltPredicted(c, x, y, normalize))
  }

  function RebuiltExpected(c: Counters, x: string, normalize: string -> string): multiset<string> {
    NormalizeItems(Repeat(x, c.expected), normalize)
  }

  function RebuiltPredicted(c: Counters, x: string, y: string, normalize: string -> string): multiset<string> {
    NormalizeItems(Repeat(x, c.matched) + Repeat(y, c.predicted - c.matched), normalize)
  }

  function Totals(samples: seq<Counters>): Counters {
    Counters(Expected(samples), Predicted(samples), Matched(samples))
  }

  function SumCounters(samples: seq<Counters>, x: string, y: string, normalize: string -> string): Counters {
    Rebuilt(Totals(samples), x, y, normalize)
  }

  lemma {:induction false} AllIntersect<T>(a: multiset<T>, b: multiset<T>)
    ensures |a * b| <= |b| && (|a * b| == |b| <==> b <= a)
  {
    assert b == a * b + (b - a);
    if |a * b| == |b| {
      assert |b - a| == 0;
      assert b == a * b;
    }
    if b <= a { assert a * b == b; }
  }

  /** Perfect precision: nothing predicted was unexpected; perfect recall: nothing expected was
      missed. An empty side is perfect only beside another empty one. */
  lemma {:induction false} PerfectPrecisionAndRecall(expected: multiset<string>, predicted: multiset<string>)
    ensures Precision(CountersOf(expected, predicted)) == 1.0
            <==> predicted <= expected && (|predicted| == 0 ==> |expected| == 0)
    ensures Recall(CountersOf(expected, predicted)) == 1.0
            <==> expected <= predicted && (|expected| == 0 ==> |predicted| == 0)
  {
    AllIntersect(expected, predicted);
    AllIntersect(predicted, expected);
    assert expected * predicted == predicted * expected;
    RatioIsOne(|expected * predicted|, |predicted|);
    RatioIsOne(|expected * predicted|, |expected|);
  }

  /** The scores of two lists: a perfect F1 is perfect precision with perfect recall, and both mean
      that the lists hold the same items once normalised, whatever their order and whatever
      normalises to nothing. */
  lemma {:induction false} PerfectScore(expected: seq<string>, predicted: seq<string>, normalize: string -> string)
    ensures var score := MultisetScore(expected, predicted, normalize);
            && (score.f1 == 1.0 <==> NormalizeItems(expected, normalize) == NormalizeItems(predicted, normalize))
            && (score.f1 == 1.0 <==> score.precision == 1.0 && score.recall == 1.0)
  {
    var e, p := NormalizeItems(expected, normalize), NormalizeItems(predicted, normalize);
    PerfectF1(e, p);
    PerfectPrecisionAndRecall(e, p);
    assert e <= p && p <= e ==> e == p;
  }

  /** Precision is the share of the `p` predicted items that match, recall that of the `e` expected
      ones, and F1 twice the matches over both totals. */
  ghost predicate ScoresFor(score: Score, e: nat, p: nat, m: nat) {
    && score.counters == Counters(e, p, m)
    && (if p == 0 then score.precision == (if e == 0 then 1.0 else 0.0)
        else score.precision * p as real == m as real)
    && (if e == 0 then score.recall == (if p == 0 then 1.0 else 0.0)
        else score.recall * e as real == m as real)
    && (if e + p == 0 then score.f1 == 1.0 else score.f1 * (e + p) as real == 2.0 * m as real)
  }

  lemma {:induction false} ScoreExactly(expected: seq<string>, predicted: seq<string>, normalize: string -> string)
    ensures var e, p := NormalizeItems(expected, normalize), NormalizeItems(predicted, normalize);
            ScoresFor(MultisetScore(expected, predicted, normalize), |e|, |p|, |e * p|)
  {
    var e, p := NormalizeItems(expected, normalize), NormalizeItems(predicted, normalize);
    IntersectionSize(e, p);
    RatiosOf(CountersOf(e, p));
  }

  lemma {:induction false} RatiosOf(c: Counters)
    requires Consistent(c)
    ensures ScoresFor(ScoreOf(c), c.expected, c.predicted, c.matched)
  {
    if c.expected + c.predicted != 0 {
      F1Ratio(c);
    }
  }

  /** The positions of an item, once normalised. */
  function PositionsOf(values: seq<string>, item: string, normalize: string -> string): set<nat> {
    set k: nat | k < |values| && normalize(values[k]) == item
  }

  lemma {:induction false} PositionsNext(values: seq<string>, item: string, normalize: string -> string)
    requires values != []
    ensures var n := |values| - 1;
            |PositionsOf(values, item, normalize)|
            == |PositionsOf(values[..n], item, normalize)| + if normalize(values[n]) == item then 1 else 0
  {
    var n := |values| - 1;
    var before := PositionsOf(values[..n], item, normalize);
    if normalize(values[n]) == item {
      assert PositionsOf(values, item, normalize) == before + {n};
    } else {
      assert PositionsOf(values, item, normalize) == before;
    }
  }

  /** Every item that does not normalise to nothing counts as often as it is given. */
  lemma {:induction false} NormalizedCounts(values: seq<string>, item: string, normalize: string -> string)
    ensures NormalizeItems(values, normalize)[item]
            == if item == "" then 0 else |PositionsOf(values, item, normalize)|
  {
    if values == [] {
    } else {
      NormalizedCounts(values[..|values| - 1], item, normalize);
      PositionsNext(values, item, normalize);
    }
  }

  lemma {:induction false} RatioIsOne(m: nat, n: nat)
    ensures n != 0 ==> (m as real / n as real == 1.0 <==> m == n)
  {
    if n != 0 {
      var q := m as real / n as real;
      assert q * n as real == m as real;
    }
  }

  lemma {:induction false} NormalizeAppend(a: seq<string>, b: seq<string>, normalize: string -> string)
    ensures NormalizeItems(a + b, normalize) == NormalizeItems(a, normalize) + NormalizeItems(b, normalize)
    decreases |b|
  {
    if b == [] {
      assert a + b == a;
    } else {
      assert (a + b)[..|a + b| - 1] == a + b[..|b| - 1];
      NormalizeAppend(a, b[..|b| - 1], normalize);
    }
  }

  lemma {:induction false} NormalizeRepeat(item: string, count: nat, normalize: string -> string)
    requires normalize(item) == item != ""
    ensures NormalizeItems(Repeat(item, count), normalize) == multiset{}[item := count]
  {
    if count == 0 {
    } else {
      NormalizeRepeat(item, count - 1, normalize);
      var r := Repeat(item, count);
      assert r[..|r| - 1] == Repeat(item, count - 1);
    }
  }

  lemma {:induction false} TotalsConsistent(samples: seq<Counters>)
    requires forall k :: 0 <= k < |samples| ==> Consistent(samples[k])
    ensures Consistent(Totals(samples))
  {
    if samples == [] {
    } else {
      assert Consistent(samples[0]);
      TotalsConsistent(samples[1..]);
    }
  }

  /** The rebuilt lists count to the totals, when the two placeholder items survive normalisation. */
  lemma {:induction false} RebuiltCounters(x: string, y: string, c: Counters, normalize: string -> string)
    requires normalize(x) == x != "" && normalize(y) == y != "" && x != y
    requires Consistent(c)
    ensures Rebuilt(c, x, y, normalize) == c
  {
    RebuiltSizes(x, y, c, normalize);
  }

  lemma {:induction false} ExpectedRebuilt(x: string, c: Counters, normalize: string -> string)
    requires normalize(x) == x != ""
    ensures RebuiltExpected(c, x, normalize) == multiset{}[x := c.expected]
  {
    NormalizeRepeat(x, c.expected, normalize);
  }

  lemma {:induction false} PredictedRebuilt(x: string, y: string, c: Counters, normalize: string -> string)
    requires normalize(x) == x != "" && normalize(y) == y != "" && Consistent(c)
    ensures RebuiltPredicted(c, x, y, normalize) == multiset{}[x := c.matched]
            + multiset{}[y := c.predicted - c.matched]
  {
    RebuiltPrediction(x, y, c.matched, c.predicted - c.matched, normalize);
  }

  lemma {:induction false} RebuiltSizes(x: string, y: string, c: Counters, normalize: string -> string)
    requires normalize(x) == x != "" && normalize(y) == y != "" && x != y
    requires Consistent(c)
    ensures |RebuiltExpected(c, x, normalize)| == c.expected && |RebuiltPredicted(c, x, y, normalize)| == c.predicted
    ensures |RebuiltExpected(c, x, normalize) * RebuiltPredicted(c, x, y, normalize)| == c.matched
  {
    ExpectedRebuilt(x, c, normalize);
    PredictedRebuilt(x, y, c, normalize);
    CounterSizes(x, y, c.expected, c.predicted, c.matched);
  }

  lemma {:induction false} RebuiltPrediction(x: string, y: string, m: nat, rest: nat, normalize: string -> string)
    requires normalize(x) == x != "" && normalize(y) == y != ""
    ensures NormalizeItems(Repeat(x, m) + Repeat(y, rest), normalize) == multiset{}[x := m] + multiset{}[y := rest]
  {
    NormalizeRepeat(x, m, normalize);
    NormalizeRepeat(y, rest, normalize);
    NormalizeAppend(Repeat(x, m), Repeat(y, rest), normalize);
  }

  lemma {:induction false} CounterSizes(x: string, y: string, e: nat, p: nat, m: nat)
    requires m <= e && m <= p && x != y
    ensures var left := multiset{}[x := e];
            var right := multiset{}[x := m] + multiset{}[y := p - m];
            |left| == e && |right| == p && |left * right| == m
  {
    var left := multiset{}[x := e];
    var right := multiset{}[x := m] + multiset{}[y := p - m];
    assert left * right == multiset{}[x := m];
    SingletonSize(x, e);
    SingletonSize(x, m);
    SingletonSize(y, p - m);
  }

  /** Pooling: the rebuilt counters are the totals of the samples, so the aggregate score is the
      score of all samples taken together. The placeholders must survive normalisation. */
  lemma {:induction false} SumScoresPools(samples: seq<Counters>, x: string, y: string, normalize: string -> string)
    requires normalize(x) == x != "" && normalize(y) == y != "" && x != y
    requires forall k :: 0 <= k < |samples| ==> Consistent(samples[k])
    ensures SumCounters(samples, x, y, normalize) == Totals(samples)
    ensures Consistent(SumCounters(samples, x, y, normalize))
  {
    TotalsConsistent(samples);
    RebuiltCounters(x, y, Totals(samples), normalize);
  }

  lemma {:induction false} SingletonSize(item: string, count: nat)
    ensures |multiset{}[item := count]| == count
  {
    if count == 0 {
    } else {
      SingletonSize(item, count - 1);
      assert multiset{}[item := count] == multiset{}[item := count - 1] + multiset{item};
    }
  }
}
