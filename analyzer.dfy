/** The whole analysis: fetched profile, repositories and events in, a result
    bundle or an "Analysis failed" error out. */
module Analyzer {
  import opened Records
  import opened MetricEngine
  import opened ScoreComposer
  import opened Feedback
  import opened Aggregates

  /** What a successful analysis returns. */
  datatype Bundle = Bundle(
    score: real,
    metrics: Metrics,
    strengths: seq<Remark>,
    weaknesses: seq<Remark>,
    recommendations: seq<Recommendation>,
    appreciation: string,
    avatarUrl: string)

  const FailurePrefix: string := "Analysis failed: "
  const NoRepositories: string := "No repositories found for this user"

  /** Every error leaving the analysis is re-raised with the failure prefix. */
  function Failed(message: string): (r: Result<Bundle>)
    ensures r.Err? && |r.message| == |FailurePrefix| + |message|
    ensures r.message[..|FailurePrefix|] == FailurePrefix && r.message[|FailurePrefix|..] == message
  {
    Err(FailurePrefix + message)
  }

  /** The analysis of the three fetch outcomes at time `now`: the fetches are
      made in the order profile, repositories, events, and the first failure
      wins; an empty repository list fails before any metric is computed. */
  function AnalysisOf(profile: Result<Profile>, repos: Result<seq<Repo>>, events: Result<seq<Event>>, now: int)
    : Result<Bundle>
  {
    if profile.Err? then Failed(profile.message)
    else if repos.Err? then Failed(repos.message)
    else if events.Err? then Failed(events.message)
    else if repos.value == [] then Failed(NoRepositories)
    else
      var m := MetricsOf(profile.value, repos.value, events.value, now);
      var score := Score(m);
      Ok(Bundle(
        Round2(score),
        m,
        RemarksOf(m, StrengthThreshold),
        RemarksOf(m, WeaknessThreshold),
        RecommendationsOf(m),
        Appreciation(score),
        GetOr(profile.value.avatarUrl, "")))
  }

  method AnalyzeProfile(profile: Result<Profile>, repos: Result<seq<Repo>>, events: Result<seq<Event>>, now: int)
    returns (r: Result<Bundle>)
    ensures r == AnalysisOf(profile, repos, events, now)
  {
    if profile.Err? {
      return Failed(profile.message);
    }
    if repos.Err? {
      return Failed(repos.message);
    }
    if events.Err? {
      return Failed(events.message);
    }
    if repos.value == [] {
      return Failed(NoRepositories);
    }
    var metrics := CalculateMetrics(profile.value, repos.value, events.value, now);
    var score := CalculateScore(metrics);
    var strengths := CollectRemarks(metrics, StrengthThreshold);
    var weaknesses := CollectRemarks(metrics, WeaknessThreshold);
    var recommendations := GetRecommendations(metrics);
    r := Ok(Bundle(
      Round2(score),
      metrics,
      strengths,
      weaknesses,
      recommendations,
      Appreciation(score),
      GetOr(profile.value.avatarUrl, "")));
  }

  /** The analysis fails exactly when a fetch failed or there are no
      repositories; every failure message carries the prefix, and an empty
      repository list fails the same way whatever the profile and events are. */
  lemma AnalysisFailures(profile: Result<Profile>, repos: Result<seq<Repo>>, events: Result<seq<Event>>, now: int)
    ensures AnalysisOf(profile, repos, events, now).Err? <==>
      profile.Err? || repos.Err? || events.Err? || repos.value == []
    ensures AnalysisOf(profile, repos, events, now).Err? ==>
      AnalysisOf(profile, repos, events, now).message[..|FailurePrefix|] == FailurePrefix
    ensures profile.Ok? && repos.Ok? && events.Ok? && repos.value == [] ==>
      AnalysisOf(profile, repos, events, now) == Err(FailurePrefix + NoRepositories)
  {
  }

  /** A successful analysis with non-negative counts: metrics in [0, 1], the
      reported score is the rounded composite and lies in [0, 10], the
      appreciation is chosen by the unrounded composite, and the feedback lists
      are never empty. */
  lemma AnalysisSucceeds(profile: Profile, repos: seq<Repo>, events: seq<Event>, now: int)
    requires repos != []
    requires NonNegativeCounts(profile, repos)
    ensures AnalysisOf(Ok(profile), Ok(repos), Ok(events), now).Ok?
    ensures var b := AnalysisOf(Ok(profile), Ok(repos), Ok(events), now).value;
      && InUnitRange(b.metrics)
      && 0.0 <= b.score <= 10.0
      && Score(b.metrics) - 0.005 <= b.score <= Score(b.metrics) + 0.005
      && b.appreciation == Appreciation(Score(b.metrics))
      && |b.strengths| >= 1 && |b.weaknesses| >= 1 && 1 <= |b.recommendations| <= 5
  {
    var m := MetricsOf(profile, repos, events, now);
    MetricsInUnitRange(profile, repos, events, now);
    ScoreInRange(m);
    Round2KeepsScoreRange(Score(m));
    RemarksCharacterised(m, StrengthThreshold);
    RemarksCharacterised(m, WeaknessThreshold);
    RecommendationsCharacterised(m);
  }

  /** The reported score and the appreciation can disagree: a composite of
      7.996 is reported as 8.0 while the message is the one for 6 to 8. */
  lemma AppreciationUsesUnroundedScore()
    ensures var m := Metrics(0.7996, 0.7996, 0.7996, 0.7996, 0.7996);
      Round2(Score(m)) == 8.0 && TierOf(Score(m)) == Great && TierOf(Round2(Score(m))) == Outstanding
  {
    var m := Metrics(0.7996, 0.7996, 0.7996, 0.7996, 0.7996);
    ScoreClosedForm(m);
    assert Score(m) == 7.996;
    assert (799.6).Floor == 799;
  }

  /** A worked case: one small Go repository without topics, description, wiki,
      issues, stars or forks, last updated 200 days ago, no events and no
      followers. Diversity is 0.7 * 1/5, code quality is the size part 0.3, and
      the composite 10 * (0.2 * 0.14 + 0.15 * 0.3) is 0.73. */
  lemma SingleRepositoryExample(now: int)
    ensures
      var repo := Repo(Some("Go"), Some([]), 0, false, false, None, false, 0, 500, now - 200 * Day);
      var r := AnalysisOf(Ok(Profile(Some(0), Some(0), None)), Ok([repo]), Ok([]), now);
      && r.Ok?
      && r.value.metrics == Metrics(0.0, 0.14, 0.0, 0.0, 0.3)
      && r.value.score == 0.73
      && r.value.appreciation == Appreciation(0.73)
  {
    var repo := Repo(Some("Go"), Some([]), 0, false, false, None, false, 0, 500, now - 200 * Day);
    var repos := [repo];
    assert repos[..0] == [];
    assert LanguageSet(repos) == {"Go"};
    assert TopicSet(repos) == {};
    assert DiversityMetric(repos) == 0.14;
    CountIfZero(repos, IsFork);
    assert SumInt(repos, Forks) == 0;
    assert CommunityMetric(Profile(Some(0), Some(0), None), repos) == 0.0;
    assert DocumentationMetric(repos) == 0.0;
    CountIfZero(repos, HasIssues);
    assert SumInt(repos, Stars) == 0;
    assert SumReal(repos, SizeCredit) == 1.0;
    assert CodeQualityMetric(repos) == 0.3;
    var m := Metrics(0.0, 0.14, 0.0, 0.0, 0.3);
    ScoreClosedForm(m);
    assert Score(m) == 0.73;
    Round2Exact(73);
  }
}
