/** Feedback derived from the metric set: strengths, weaknesses,
    recommendations, and an appreciation message chosen by the score. */
module Feedback {
  import opened Records

  /** A comparison of a metric value against a fixed bound. */
  datatype Threshold = AtLeast(bound: real) | AtMost(bound: real) | Below(bound: real)

  predicate Meets(v: real, t: Threshold)
  {
    match t
    case AtLeast(b) => v >= b
    case AtMost(b) => v <= b
    case Below(b) => v < b
  }

  /** 70% or higher is a strength. */
  const StrengthThreshold: Threshold := AtLeast(0.7)
  /** 30% or lower is a weakness. */
  const WeaknessThreshold: Threshold := AtMost(0.3)
  /** Below 40% earns a recommendation. */
  const AdviceThreshold: Threshold := Below(0.4)

  /** The listed metrics whose value meets the threshold, in list order. */
  function Select(names: seq<MetricName>, m: Metrics, t: Threshold): (r: seq<MetricName>)
    ensures |r| <= |names|
  {
    if |names| == 0 then []
    else
      var k := names[|names| - 1];
      Select(names[..|names| - 1], m, t) + (if Meets(Get(m, k), t) then [k] else [])
  }

  /** A metric is selected exactly when it is listed and meets the threshold. */
  lemma {:induction false} SelectMembers(names: seq<MetricName>, m: Metrics, t: Threshold, k: MetricName)
    ensures k in Select(names, m, t) <==> k in names && Meets(Get(m, k), t)
  {
    if |names| > 0 {
      var p := names[..|names| - 1];
      SelectMembers(p, m, t, k);
      assert names == p + [names[|names| - 1]];
    }
  }

  /** Metric names listed in strictly increasing iteration order. */
  predicate InOrder(s: seq<MetricName>)
  {
    forall i, j :: 0 <= i < j < |s| ==> Rank(s[i]) < Rank(s[j])
  }

  /** Selecting keeps the order of the list. */
  lemma {:induction false} SelectInOrder(names: seq<MetricName>, m: Metrics, t: Threshold)
    requires InOrder(names)
    ensures InOrder(Select(names, m, t))
  {
    if |names| > 0 {
      var p := names[..|names| - 1];
      var k := names[|names| - 1];
      assert InOrder(p);
      SelectInOrder(p, m, t);
      var s := Select(p, m, t);
      forall i | 0 <= i < |s|
        ensures Rank(s[i]) < Rank(k)
      {
        SelectMembers(p, m, t, s[i]);
        var j :| 0 <= j < |p| && p[j] == s[i];
      }
    }
  }

  /** Selecting over all metrics: exactly the metrics meeting the threshold, in metric order. */
  lemma SelectAll(m: Metrics, t: Threshold)
    ensures forall k :: k in Select(AllMetrics, m, t) <==> Meets(Get(m, k), t)
    ensures InOrder(Select(AllMetrics, m, t))
  {
    assert InOrder(AllMetrics);
    SelectInOrder(AllMetrics, m, t);
    forall k ensures k in Select(AllMetrics, m, t) <==> Meets(Get(m, k), t) {
      SelectMembers(AllMetrics, m, t, k);
      assert AllMetrics[Rank(k)] == k;
    }
  }

  // ------------------------------------------------- strengths and weaknesses

  /** One entry of the strengths or weaknesses list: a metric with its value,
      or the placeholder used when no metric qualifies. */
  datatype Remark = Remark(metric: MetricName, value: real) | NoneIdentified

  function Tag(names: seq<MetricName>, m: Metrics): (r: seq<Remark>)
    ensures |r| == |names|
    ensures forall i :: 0 <= i < |names| ==> r[i] == Remark(names[i], Get(m, names[i]))
  {
    seq(|names|, i requires 0 <= i < |names| => Remark(names[i], Get(m, names[i])))
  }

  lemma TagAppend(names: seq<MetricName>, k: MetricName, m: Metrics)
    ensures Tag(names + [k], m) == Tag(names, m) + [Remark(k, Get(m, k))]
  {
  }

  /** The strengths (or weaknesses) list for a threshold. */
  function RemarksOf(m: Metrics, t: Threshold): seq<Remark>
  {
    var hits := Select(AllMetrics, m, t);
    if hits == [] then [NoneIdentified] else Tag(hits, m)
  }

  /** Walks the metrics in order and notes each one meeting the threshold,
      falling back to the placeholder. */
  method CollectRemarks(m: Metrics, t: Threshold) returns (remarks: seq<Remark>)
    ensures remarks == RemarksOf(m, t)
  {
    remarks := [];
    var i := 0;
    while i < |AllMetrics|
      invariant 0 <= i <= |AllMetrics|
      invariant remarks == Tag(Select(AllMetrics[..i], m, t), m)
    {
      SelectStep(AllMetrics, m, t, i);
      var metric := AllMetrics[i];
      var value := Get(m, metric);
      if Meets(value, t) {
        TagAppend(Select(AllMetrics[..i], m, t), metric, m);
        remarks := remarks + [Remark(metric, value)];
      }
      i := i + 1;
    }
    assert AllMetrics[..|AllMetrics|] == AllMetrics;
    if remarks == [] {
      remarks := [NoneIdentified];
    }
  }

  /** The list is never empty; it holds the placeholder exactly when no metric
      meets the threshold, and otherwise exactly the qualifying metrics with
      their values, in metric order. */
  lemma RemarksCharacterised(m: Metrics, t: Threshold)
    ensures 1 <= |RemarksOf(m, t)| <= |AllMetrics|
    ensures NoneIdentified in RemarksOf(m, t) <==> forall k :: !Meets(Get(m, k), t)
    ensures forall k :: Remark(k, Get(m, k)) in RemarksOf(m, t) <==> Meets(Get(m, k), t)
    ensures forall r :: r in RemarksOf(m, t) && r.Remark? ==> r.value == Get(m, r.metric) && Meets(r.value, t)
    ensures forall i, j :: 0 <= i < j < |RemarksOf(m, t)| ==>
      RemarksOf(m, t)[i].Remark? && RemarksOf(m, t)[j].Remark? &&
      Rank(RemarksOf(m, t)[i].metric) < Rank(RemarksOf(m, t)[j].metric)
  {
    var hits := Select(AllMetrics, m, t);
    SelectAll(m, t);
    if hits != [] {
      assert hits[0] in hits;
      TagFacts(hits, m);
    }
  }

  /** The tagged list holds no placeholder, and exactly the listed metrics with their values, in list order. */
  lemma TagFacts(names: seq<MetricName>, m: Metrics)
    requires InOrder(names)
    ensures NoneIdentified !in Tag(names, m)
    ensures forall r :: r in Tag(names, m) ==> r.Remark? && r.metric in names && r.value == Get(m, r.metric)
    ensures forall k :: Remark(k, Get(m, k)) in Tag(names, m) <==> k in names
    ensures forall i, j :: 0 <= i < j < |names| ==> Rank(Tag(names, m)[i].metric) < Rank(Tag(names, m)[j].metric)
  {
    var r := Tag(names, m);
    forall k | k in names ensures Remark(k, Get(m, k)) in r {
      var i :| 0 <= i < |names| && names[i] == k;
      assert r[i] == Remark(k, Get(m, k));
    }
  }

  /** No metric is both a strength and a weakness. */
  lemma StrengthsAndWeaknessesDisjoint(m: Metrics, k: MetricName, v: real, w: real)
    ensures !(Remark(k, v) in RemarksOf(m, StrengthThreshold) && Remark(k, w) in RemarksOf(m, WeaknessThreshold))
  {
    RemarksCharacterised(m, StrengthThreshold);
    RemarksCharacterised(m, WeaknessThreshold);
  }

  // --------------------------------------------------------- recommendations

  /** One recommendation: the fixed advice for a metric below 40%, or the
      encouraging placeholder used when every metric is at least 40%. */
  datatype Recommendation = Advise(metric: MetricName) | KeepDoing

  /** The text of each recommendation. */
  function Text(r: Recommendation): string
  {
    match r
    case Advise(Activity) => "Increase your activity by making regular commits and repository updates"
    case Advise(Diversity) => "Expand your skill set by working with different programming languages"
    case Advise(Community) =>
      "Engage more with the community by contributing to other projects and following developers"
    case Advise(Documentation) => "Improve documentation by adding README files, wikis, and clear descriptions"
    case Advise(CodeQuality) =>
      "Focus on code quality by creating smaller, focused repositories with good issue tracking"
    case KeepDoing => "Keep doing what you're doing! Your profile is well-balanced"
  }

  function AdviceFor(names: seq<MetricName>): (r: seq<Recommendation>)
    ensures |r| == |names|
    ensures forall i :: 0 <= i < |names| ==> r[i] == Advise(names[i])
  {
    seq(|names|, i requires 0 <= i < |names| => Advise(names[i]))
  }

  /** The recommendations list: one entry per metric below 40%, in metric order,
      or the placeholder when there is none. */
  function RecommendationsOf(m: Metrics): seq<Recommendation>
  {
    var low := Select(AllMetrics, m, AdviceThreshold);
    if low == [] then [KeepDoing] else AdviceFor(low)
  }

  /** Selecting over one more listed metric. */
  lemma SelectStep(names: seq<MetricName>, m: Metrics, t: Threshold, i: nat)
    requires i < |names|
    ensures Select(names[..i + 1], m, t) ==
      Select(names[..i], m, t) + (if Meets(Get(m, names[i]), t) then [names[i]] else [])
  {
    assert names[..i + 1][..i] == names[..i];
  }

  /** The advice selection over the first `i` metrics, one metric at a time. */
  lemma AdvicePrefixes(m: Metrics)
    ensures Select(AllMetrics[..0], m, AdviceThreshold) == []
    ensures Select(AllMetrics[..1], m, AdviceThreshold) ==
      Select(AllMetrics[..0], m, AdviceThreshold) + (if m.activity < 0.4 then [Activity] else [])
    ensures Select(AllMetrics[..2], m, AdviceThreshold) ==
      Select(AllMetrics[..1], m, AdviceThreshold) + (if m.diversity < 0.4 then [Diversity] else [])
    ensures Select(AllMetrics[..3], m, AdviceThreshold) ==
      Select(AllMetrics[..2], m, AdviceThreshold) + (if m.community < 0.4 then [Community] else [])
    ensures Select(AllMetrics[..4], m, AdviceThreshold) ==
      Select(AllMetrics[..3], m, AdviceThreshold) + (if m.documentation < 0.4 then [Documentation] else [])
    ensures Select(AllMetrics, m, AdviceThreshold) ==
      Select(AllMetrics[..4], m, AdviceThreshold) + (if m.codeQuality < 0.4 then [CodeQuality] else [])
  {
    assert AllMetrics[..0] == [];
    assert AllMetrics[..5] == AllMetrics;
    SelectStep(AllMetrics, m, AdviceThreshold, 0);
    SelectStep(AllMetrics, m, AdviceThreshold, 1);
    SelectStep(AllMetrics, m, AdviceThreshold, 2);
    SelectStep(AllMetrics, m, AdviceThreshold, 3);
    SelectStep(AllMetrics, m, AdviceThreshold, 4);
  }

  lemma AdviceAppend(names: seq<MetricName>, k: MetricName)
    ensures AdviceFor(names + [k]) == AdviceFor(names) + [Advise(k)]
  {
  }

  /** Five independent checks, each appending its metric's advice. */
  method GetRecommendations(m: Metrics) returns (recs: seq<Recommendation>)
    ensures recs == RecommendationsOf(m)
  {
    AdvicePrefixes(m);
    recs := [];
    if m.activity < 0.4 {
      AdviceAppend(Select(AllMetrics[..0], m, AdviceThreshold), Activity);
      recs := recs + [Advise(Activity)];
    }
    assert recs == AdviceFor(Select(AllMetrics[..1], m, AdviceThreshold));
    if m.diversity < 0.4 {
      AdviceAppend(Select(AllMetrics[..1], m, AdviceThreshold), Diversity);
      recs := recs + [Advise(Diversity)];
    }
    assert recs == AdviceFor(Select(AllMetrics[..2], m, AdviceThreshold));
    if m.community < 0.4 {
      AdviceAppend(Select(AllMetrics[..2], m, AdviceThreshold), Community);
      recs := recs + [Advise(Community)];
    }
    assert recs == AdviceFor(Select(AllMetrics[..3], m, AdviceThreshold));
    if m.documentation < 0.4 {
      AdviceAppend(Select(AllMetrics[..3], m, AdviceThreshold), Documentation);
      recs := recs + [Advise(Documentation)];
    }
    assert recs == AdviceFor(Select(AllMetrics[..4], m, AdviceThreshold));
    if m.codeQuality < 0.4 {
      AdviceAppend(Select(AllMetrics[..4], m, AdviceThreshold), CodeQuality);
      recs := recs + [Advise(CodeQuality)];
    }
    assert recs == AdviceFor(Select(AllMetrics, m, AdviceThreshold));
    if recs == [] {
      recs := [KeepDoing];
    }
  }

  /** Between one and five recommendations, in metric order; a metric's advice
      appears exactly when it is strictly below 0.4, and the placeholder exactly
      when every metric is at least 0.4. */
  lemma RecommendationsCharacterised(m: Metrics)
    ensures 1 <= |RecommendationsOf(m)| <= 5
    ensures KeepDoing in RecommendationsOf(m) <==> forall k :: Get(m, k) >= 0.4
    ensures forall k :: Advise(k) in RecommendationsOf(m) <==> Get(m, k) < 0.4
    ensures forall i, j :: 0 <= i < j < |RecommendationsOf(m)| ==>
      RecommendationsOf(m)[i].Advise? && RecommendationsOf(m)[j].Advise? &&
      Rank(RecommendationsOf(m)[i].metric) < Rank(RecommendationsOf(m)[j].metric)
  {
    var low := Select(AllMetrics, m, AdviceThreshold);
    SelectAll(m, AdviceThreshold);
    if low != [] {
      assert low[0] in low;
      AdviceFacts(low);
    }
  }

  /** The advice list holds no placeholder, and exactly the advice for the listed metrics, in list order. */
  lemma AdviceFacts(names: seq<MetricName>)
    requires InOrder(names)
    ensures KeepDoing !in AdviceFor(names)
    ensures forall k :: Advise(k) in AdviceFor(names) <==> k in names
    ensures forall i, j :: 0 <= i < j < |names| ==> Rank(AdviceFor(names)[i].metric) < Rank(AdviceFor(names)[j].metric)
  {
    var r := AdviceFor(names);
    forall k | k in names ensures Advise(k) in r {
      var i :| 0 <= i < |names| && names[i] == k;
      assert r[i] == Advise(k);
    }
  }

  /** The boundary values: exactly 0.7 is a strength, exactly 0.3 a weakness,
      and exactly 0.4 earns no recommendation. */
  lemma ThresholdBoundaries(m: Metrics, k: MetricName)
    ensures Get(m, k) == 0.7 ==> Remark(k, 0.7) in RemarksOf(m, StrengthThreshold)
    ensures Get(m, k) == 0.3 ==> Remark(k, 0.3) in RemarksOf(m, WeaknessThreshold)
    ensures Get(m, k) == 0.4 ==> Advise(k) !in RecommendationsOf(m)
  {
    RemarksCharacterised(m, StrengthThreshold);
    RemarksCharacterised(m, WeaknessThreshold);
    RecommendationsCharacterised(m);
  }

  // ------------------------------------------------------------ appreciation

  /** The four appreciation tiers, from the highest. */
  datatype Tier = Outstanding | Great | GoodStart | JustBegun

  function TierRank(t: Tier): nat
  {
    match t
    case JustBegun => 0
    case GoodStart => 1
    case Great => 2
    case Outstanding => 3
  }

  /** The tier reached by a score: one step up for each of the bounds 4, 6
      and 8 that the score reaches. */
  function TierOf(score: real): (r: Tier)
    ensures TierRank(r) == (if score >= 4.0 then 1 else 0) + (if score >= 6.0 then 1 else 0)
                           + (if score >= 8.0 then 1 else 0)
  {
    if score >= 8.0 then Outstanding
    else if score >= 6.0 then Great
    else if score >= 4.0 then GoodStart
    else JustBegun
  }

  /** The message of each tier. The characters after the text are the ones
      the source file holds in UTF-8: emoji whose bytes were decoded once too
      often, so each one reads as three or four other characters. */
  function Message(t: Tier): string
  {
    match t
    case Outstanding => "Outstanding GitHub Profile! \U{F0}\U{178}\U{17D}\U{2030}"
    case Great => "Great GitHub Profile! \U{F0}\U{178}\U{2018}"
    case GoodStart => "Good Start! Keep Improving! \U{F0}\U{178}\U{2019}\U{AA}"
    case JustBegun => "Your GitHub Journey Has Just Begun! \U{F0}\U{178}\U{161}\U{20AC}"
  }

  /** The appreciation message for a score. */
  function Appreciation(score: real): string
  {
    Message(TierOf(score))
  }

  /** Which message each score range gets: at least 8, at least 6, at least 4,
      and below 4. */
  lemma AppreciationText(score: real)
    ensures score >= 8.0 ==> Appreciation(score) == Message(Outstanding)
    ensures 6.0 <= score < 8.0 ==> Appreciation(score) == Message(Great)
    ensures 4.0 <= score < 6.0 ==> Appreciation(score) == Message(GoodStart)
    ensures score < 4.0 ==> Appreciation(score) == Message(JustBegun)
  {
  }

  /** A higher score never earns a lower tier, and the tier rises exactly at 4, 6 and 8. */
  lemma TierMonotone(s1: real, s2: real)
    requires s1 <= s2
    ensures TierRank(TierOf(s1)) <= TierRank(TierOf(s2))
    ensures TierRank(TierOf(s2)) - TierRank(TierOf(s1)) ==
      (if s1 < 4.0 <= s2 then 1 else 0) + (if s1 < 6.0 <= s2 then 1 else 0) + (if s1 < 8.0 <= s2 then 1 else 0)
  {
  }

  /** The tier boundaries are inclusive: 8 is outstanding, 7.99 great, 4 a good start, 3.99 the lowest tier. */
  lemma TierBoundaries()
    ensures TierOf(8.0) == Outstanding && TierOf(7.99) == Great
    ensures TierOf(6.0) == Great && TierOf(5.99) == GoodStart
    ensures TierOf(4.0) == GoodStart && TierOf(3.99) == JustBegun
  {
  }
}
