/** The composite score: the metric set weighted by a fixed table and scaled to 0..10. */
module ScoreComposer {
  import opened Records

  /** The weight table, in the order the weighted total is accumulated. */
  const Weights: seq<(MetricName, real)> :=
    [(Activity, 0.3), (Diversity, 0.2), (Community, 0.2), (Documentation, 0.15), (CodeQuality, 0.15)]

  /** Sum of the weights of a table. */
  function TotalWeight(table: seq<(MetricName, real)>): real
  {
    if |table| == 0 then 0.0 else TotalWeight(table[..|table| - 1]) + table[|table| - 1].1
  }

  /** Sum of each listed metric times its weight. */
  function WeightedSum(table: seq<(MetricName, real)>, m: Metrics): real
  {
    if |table| == 0 then 0.0
    else WeightedSum(table[..|table| - 1], m) + Get(m, table[|table| - 1].0) * table[|table| - 1].1
  }

  predicate NonNegativeWeights(table: seq<(MetricName, real)>)
  {
    forall i :: 0 <= i < |table| ==> table[i].1 >= 0.0
  }

  /** The composite score: ten times the weighted sum over the weight table. */
  function Score(m: Metrics): real
  {
    WeightedSum(Weights, m) * 10.0
  }

  /** The weights add up to exactly one. */
  lemma WeightsSumToOne()
    ensures NonNegativeWeights(Weights)
    ensures TotalWeight(Weights) == 1.0
  {
    WeightsPrefixes();
    assert TotalWeight(Weights[..1]) == 0.3;
    assert TotalWeight(Weights[..2]) == 0.5;
    assert TotalWeight(Weights[..3]) == 0.7;
    assert TotalWeight(Weights[..4]) == 0.85;
  }

  lemma WeightsPrefixes()
    ensures forall i :: 0 <= i < |Weights| ==> Weights[..i + 1][..i] == Weights[..i]
    ensures Weights[..|Weights|] == Weights
    ensures Weights[..0] == []
  {
  }

  /** The table-driven score is the familiar weighted formula. */
  lemma ScoreClosedForm(m: Metrics)
    ensures Score(m) == 10.0 * (0.3 * m.activity + 0.2 * m.diversity + 0.2 * m.community
                                + 0.15 * m.documentation + 0.15 * m.codeQuality)
  {
    WeightsPrefixes();
    assert WeightedSum(Weights[..1], m) == m.activity * 0.3;
    assert WeightedSum(Weights[..2], m) == m.activity * 0.3 + m.diversity * 0.2;
    assert WeightedSum(Weights[..3], m) == m.activity * 0.3 + m.diversity * 0.2 + m.community * 0.2;
    assert WeightedSum(Weights[..4], m)
        == m.activity * 0.3 + m.diversity * 0.2 + m.community * 0.2 + m.documentation * 0.15;
  }

  /** Metrics in [0, 1] give a score in [0, 10]. */
  lemma ScoreInRange(m: Metrics)
    requires InUnitRange(m)
    ensures 0.0 <= Score(m) <= 10.0
  {
    assert 0.0 <= Get(m, Activity) <= 1.0 && 0.0 <= Get(m, Diversity) <= 1.0;
    assert 0.0 <= Get(m, Community) <= 1.0 && 0.0 <= Get(m, Documentation) <= 1.0;
    assert 0.0 <= Get(m, CodeQuality) <= 1.0;
    ScoreClosedForm(m);
  }

  /** The score is monotone non-decreasing in every metric. */
  lemma ScoreMonotone(m1: Metrics, m2: Metrics)
    requires forall k :: Get(m1, k) <= Get(m2, k)
    ensures Score(m1) <= Score(m2)
  {
    assert Get(m1, Activity) <= Get(m2, Activity) && Get(m1, Diversity) <= Get(m2, Diversity);
    assert Get(m1, Community) <= Get(m2, Community) && Get(m1, Documentation) <= Get(m2, Documentation);
    assert Get(m1, CodeQuality) <= Get(m2, CodeQuality);
    ScoreClosedForm(m1);
    ScoreClosedForm(m2);
  }

  /** Accumulates the weighted total over the weight table, then scales it by 10. */
  method CalculateScore(m: Metrics) returns (score: real)
    ensures score == Score(m)
  {
    var total := 0.0;
    var i := 0;
    while i < |Weights|
      invariant 0 <= i <= |Weights|
      invariant total == WeightedSum(Weights[..i], m)
    {
      assert Weights[..i + 1][..i] == Weights[..i];
      var (metric, weight) := Weights[i];
      total := total + Get(m, metric) * weight;
      i := i + 1;
    }
    assert Weights[..|Weights|] == Weights;
    score := total * 10.0;
  }

  // ---------------------------------------------------------------- rounding

  /** `round(x, 2)`: the nearest multiple of 0.01, ties to the even hundredth. */
  function Round2(x: real): (r: real)
    ensures (r * 100.0).Floor as real == r * 100.0
    ensures x - 0.005 <= r <= x + 0.005
  {
    var y := x * 100.0;
    var k := y.Floor;
    var f := y - k as real;
    var n := if f < 0.5 then k else if f > 0.5 then k + 1 else if k % 2 == 0 then k else k + 1;
    assert 0.0 <= f < 1.0;
    assert y - 0.5 <= n as real <= y + 0.5;
    assert (n as real / 100.0) * 100.0 == n as real;
    n as real / 100.0
  }

  /** Rounding keeps a score inside [0, 10]. */
  lemma Round2KeepsScoreRange(x: real)
    requires 0.0 <= x <= 10.0
    ensures 0.0 <= Round2(x) <= 10.0
  {
    var y := x * 100.0;
    var k := y.Floor;
    assert 0 <= k <= 1000;
    if k == 1000 {
      assert y == 1000.0;
    }
  }

  /** A value that already is a whole number of hundredths is left as it is. */
  lemma Round2Exact(n: int)
    ensures Round2(n as real / 100.0) == n as real / 100.0
  {
    var y := (n as real / 100.0) * 100.0;
    assert y == n as real;
  }

  /** Exact halves go to the even hundredth, as Python's `round` does: the
      value halfway between n and n + 1 hundredths becomes whichever of the two
      is even. */
  lemma Round2TiesToEven(n: int)
    ensures Round2((2 * n + 1) as real / 200.0) == (if n % 2 == 0 then n else n + 1) as real / 100.0
  {
    var y := ((2 * n + 1) as real / 200.0) * 100.0;
    assert y == n as real + 0.5;
    assert y.Floor == n;
  }
}
