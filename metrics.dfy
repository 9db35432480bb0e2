/** The five sub-metrics of a profile: activity, diversity, community,
    documentation and code quality, each normalised to [0, 1]. */
module MetricEngine {
  import opened Records
  import opened Aggregates

  const Day: int := 86400
  /** Events newer than this many seconds count as recent. */
  const EventWindow: int := 30 * Day
  /** Repositories updated within this many seconds count as recently active. */
  const RepoWindow: int := 90 * Day

  // ---------------------------------------------------------------- activity

  // Record timestamps are UTC with the zone marker dropped, while `now` is the
  // local wall-clock reading; both are taken as seconds on one scale, so on a
  // machine whose clock is not UTC both windows shift by its UTC offset.

  /** Strictly newer than thirty days before `now`. */
  predicate IsRecentEvent(now: int, e: Event)
  {
    e.createdAt > now - EventWindow
  }

  /** Strictly newer than ninety days before `now`. */
  predicate IsRecentRepo(now: int, r: Repo)
  {
    r.updatedAt > now - RepoWindow
  }

  function RecentEvents(events: seq<Event>, now: int): nat
  {
    CountIf(events, e => IsRecentEvent(now, e))
  }

  function RecentRepos(repos: seq<Repo>, now: int): nat
  {
    CountIf(repos, r => IsRecentRepo(now, r))
  }

  /** Activity: zero without events, otherwise 0.6 of the recent-event rate
      (saturating at 30) plus 0.4 of the share of recently updated repositories. */
  function ActivityMetric(events: seq<Event>, repos: seq<Repo>, now: int): (r: real)
    ensures 0.0 <= r <= 1.0
    ensures events == [] ==> r == 0.0
  {
    if events == [] then 0.0
    else
      RatioInUnit(RecentRepos(repos, now), |repos|);
      var eventScore := Min(RecentEvents(events, now) as real / 30.0, 1.0);
      var repoScore := if repos != [] then Min(RecentRepos(repos, now) as real / |repos| as real, 1.0) else 0.0;
      eventScore * 0.6 + repoScore * 0.4
  }

  /** Activity is full exactly when there are at least 30 recent events and
      every repository (of at least one) was updated recently. */
  lemma ActivityFull(events: seq<Event>, repos: seq<Repo>, now: int)
    ensures ActivityMetric(events, repos, now) == 1.0 <==>
      && |events| > 0
      && RecentEvents(events, now) >= 30
      && |repos| > 0
      && forall i :: 0 <= i < |repos| ==> IsRecentRepo(now, repos[i])
  {
    CountIfFull(repos, r => IsRecentRepo(now, r));
    if events != [] && repos != [] {
      var c, n := RecentRepos(repos, now), |repos|;
      RatioInUnit(c, n);
      if c < n {
        assert c as real < n as real;
        assert c as real / n as real < 1.0;
      }
    }
  }

  /** One more recent event never lowers activity. */
  lemma ActivityGrowsWithRecentEvent(events: seq<Event>, repos: seq<Repo>, now: int, e: Event)
    requires IsRecentEvent(now, e)
    ensures ActivityMetric(events + [e], repos, now) >= ActivityMetric(events, repos, now)
  {
    CountIfAppend(events, e, x => IsRecentEvent(now, x));
  }

  // --------------------------------------------------------------- diversity

  /** The language a repository contributes: its language when that is truthy. */
  function LanguagesOf(r: Repo): set<string>
  {
    if Truthy(r.language) then {r.language.value} else {}
  }

  /** The topics a repository contributes. */
  function TopicsOf(r: Repo): set<string>
  {
    if r.topics.Some? then set t | t in r.topics.value else {}
  }

  function LanguageSet(repos: seq<Repo>): set<string>
  {
    if |repos| == 0 then {} else LanguageSet(repos[..|repos| - 1]) + LanguagesOf(repos[|repos| - 1])
  }

  function TopicSet(repos: seq<Repo>): set<string>
  {
    if |repos| == 0 then {} else TopicSet(repos[..|repos| - 1]) + TopicsOf(repos[|repos| - 1])
  }

  /** Diversity from the distinct languages and topics: 0.7 of the language
      count (saturating at 5) plus 0.3 of the topic count (saturating at 10). */
  function DiversityOf(languages: set<string>, topics: set<string>): (r: real)
    ensures 0.0 <= r <= 1.0
    ensures r == 1.0 <==> |languages| >= 5 && |topics| >= 10
  {
    0.7 * Min(|languages| as real / 5.0, 1.0) + 0.3 * Min(|topics| as real / 10.0, 1.0)
  }

  function DiversityMetric(repos: seq<Repo>): (r: real)
    ensures 0.0 <= r <= 1.0
  {
    if repos == [] then 0.0 else DiversityOf(LanguageSet(repos), TopicSet(repos))
  }

  /** A language is counted exactly when some repository names it. */
  lemma {:induction false} LanguageSetMembers(repos: seq<Repo>, l: string)
    ensures l in LanguageSet(repos) <==>
      exists i :: 0 <= i < |repos| && Truthy(repos[i].language) && repos[i].language.value == l
  {
    if |repos| > 0 {
      var t := repos[..|repos| - 1];
      LanguageSetMembers(t, l);
      assert forall i :: 0 <= i < |t| ==> t[i] == repos[i];
    }
  }

  /** A topic is counted exactly when some repository lists it. */
  lemma {:induction false} TopicSetMembers(repos: seq<Repo>, t: string)
    ensures t in TopicSet(repos) <==>
      exists i :: 0 <= i < |repos| && repos[i].topics.Some? && t in repos[i].topics.value
  {
    if |repos| > 0 {
      var p := repos[..|repos| - 1];
      TopicSetMembers(p, t);
      assert forall i :: 0 <= i < |p| ==> p[i] == repos[i];
    }
  }

  /** A repository whose language and topics were all seen already leaves diversity unchanged. */
  lemma DiversityAbsorbsSeenRepo(repos: seq<Repo>, x: Repo)
    requires LanguagesOf(x) <= LanguageSet(repos)
    requires TopicsOf(x) <= TopicSet(repos)
    ensures DiversityMetric(repos + [x]) == DiversityMetric(repos)
  {
    assert (repos + [x])[..|repos + [x]| - 1] == repos;
    assert LanguageSet(repos + [x]) == LanguageSet(repos);
    assert TopicSet(repos + [x]) == TopicSet(repos);
  }

  method CalculateDiversity(repos: seq<Repo>) returns (r: real)
    ensures r == DiversityMetric(repos)
  {
    if |repos| == 0 {
      return 0.0;
    }
    var languages: set<string> := {};
    var i := 0;
    while i < |repos|
      invariant 0 <= i <= |repos|
      invariant languages == LanguageSet(repos[..i])
    {
      assert repos[..i + 1][..i] == repos[..i];
      if Truthy(repos[i].language) {
        languages := languages + {repos[i].language.value};
      }
      i := i + 1;
    }
    var topics: set<string> := {};
    i := 0;
    while i < |repos|
      invariant 0 <= i <= |repos|
      invariant topics == TopicSet(repos[..i])
    {
      assert repos[..i + 1][..i] == repos[..i];
      if repos[i].topics.Some? && repos[i].topics.value != [] {
        topics := topics + set t | t in repos[i].topics.value;
      }
      i := i + 1;
    }
    assert repos[..|repos|] == repos;
    var languageScore := Min(|languages| as real / 5.0, 1.0);
    var topicScore := Min(|topics| as real / 10.0, 1.0);
    r := languageScore * 0.7 + topicScore * 0.3;
  }

  // --------------------------------------------------------------- community

  function Forks(r: Repo): int { r.forksCount }

  predicate IsFork(r: Repo) { r.fork }

  /** Community: followers (saturating at 100), following (at 50), forks
      received (at 5 per repository) and the share of repositories that are forks. */
  function CommunityMetric(profile: Profile, repos: seq<Repo>): real
  {
    var followers := GetOr(profile.followers, 0);
    var following := GetOr(profile.following, 0);
    var forks := SumInt(repos, Forks);
    var collaborations := CountIf(repos, IsFork);
    var followerScore := Min(followers as real / 100.0, 1.0);
    var followingScore := Min(following as real / 50.0, 1.0);
    var forkScore := if repos != [] then Min(forks as real / (|repos| * 5) as real, 1.0) else 0.0;
    var collabScore := if repos != [] then Min(collaborations as real / |repos| as real, 1.0) else 0.0;
    followerScore * 0.3 + followingScore * 0.2 + forkScore * 0.3 + collabScore * 0.2
  }

  lemma CommunityInUnit(profile: Profile, repos: seq<Repo>)
    requires NonNegativeCounts(profile, repos)
    ensures 0.0 <= CommunityMetric(profile, repos) <= 1.0
  {
    SumIntNonNegative(repos, Forks);
    if repos != [] {
      RatioInUnit(CountIf(repos, IsFork), |repos|);
      var n := (|repos| * 5) as real;
      assert SumInt(repos, Forks) as real / n >= 0.0;
    }
  }

  // ----------------------------------------------------------- documentation

  predicate HasWiki(r: Repo) { r.hasWiki }

  /** Any truthy description; taken as a sign that a README exists. */
  predicate HasReadmeSign(r: Repo) { Truthy(r.description) }

  /** A truthy description longer than 20 characters. */
  predicate HasGoodDescription(r: Repo)
  {
    Truthy(r.description) && |r.description.value| > 20
  }

  /** Documentation: 0.5 of the share with a description (the README sign),
      0.3 of the share with a wiki, 0.2 of the share with a long description. */
  function DocumentationMetric(repos: seq<Repo>): (r: real)
    ensures 0.0 <= r <= 1.0
  {
    if repos == [] then 0.0
    else
      var n := |repos|;
      RatioInUnit(CountIf(repos, HasReadmeSign), n);
      RatioInUnit(CountIf(repos, HasWiki), n);
      RatioInUnit(CountIf(repos, HasGoodDescription), n);
      var readmeScore := CountIf(repos, HasReadmeSign) as real / n as real;
      var wikiScore := CountIf(repos, HasWiki) as real / n as real;
      var descriptionScore := CountIf(repos, HasGoodDescription) as real / n as real;
      readmeScore * 0.5 + wikiScore * 0.3 + descriptionScore * 0.2
  }

  /** Every long description is a README sign, so the long-description count
      never exceeds the README count, which never exceeds the repository count. */
  lemma DescriptionCountsOrdered(repos: seq<Repo>)
    ensures CountIf(repos, HasGoodDescription) <= CountIf(repos, HasReadmeSign) <= |repos|
  {
    CountIfMonotone(repos, HasGoodDescription, HasReadmeSign);
  }

  method CalculateDocumentation(repos: seq<Repo>) returns (r: real)
    ensures r == DocumentationMetric(repos)
  {
    if |repos| == 0 {
      return 0.0;
    }
    var readmeCount, wikiCount, descriptionCount := 0, 0, 0;
    var i := 0;
    while i < |repos|
      invariant 0 <= i <= |repos|
      invariant readmeCount == CountIf(repos[..i], HasReadmeSign)
      invariant wikiCount == CountIf(repos[..i], HasWiki)
      invariant descriptionCount == CountIf(repos[..i], HasGoodDescription)
    {
      assert repos[..i + 1][..i] == repos[..i];
      var repo := repos[i];
      if repo.hasWiki {
        wikiCount := wikiCount + 1;
      }
      if Truthy(repo.description) && |repo.description.value| > 20 {
        descriptionCount := descriptionCount + 1;
      }
      if Truthy(repo.description) {
        readmeCount := readmeCount + 1;
      }
      i := i + 1;
    }
    assert repos[..|repos|] == repos;
    var n := |repos| as real;
    var readmeScore := readmeCount as real / n;
    var wikiScore := wikiCount as real / n;
    var descriptionScore := descriptionCount as real / n;
    r := readmeScore * 0.5 + wikiScore * 0.3 + descriptionScore * 0.2;
  }

  // ------------------------------------------------------------ code quality

  function Stars(r: Repo): int { r.stargazersCount }

  predicate HasIssues(r: Repo) { r.hasIssues }

  /** Size credit: small repositories (under 1000) earn 1, medium (under 5000) 0.5, large 0. */
  function SizeCredit(r: Repo): (c: real)
    ensures 0.0 <= c <= 1.0
  {
    if r.size < 1000 then 1.0 else if r.size < 5000 then 0.5 else 0.0
  }

  /** Code quality: 0.4 of the average stars (saturating at 10), 0.3 of the
      share with issues enabled, 0.3 of the average size credit. */
  function CodeQualityMetric(repos: seq<Repo>): real
  {
    if repos == [] then 0.0
    else
      var n := |repos| as real;
      var avgStars := SumInt(repos, Stars) as real / n;
      var starScore := Min(avgStars / 10.0, 1.0);
      var issueScore := CountIf(repos, HasIssues) as real / n;
      var sizeScore := SumReal(repos, SizeCredit) / n;
      starScore * 0.4 + issueScore * 0.3 + sizeScore * 0.3
  }

  lemma CodeQualityInUnit(repos: seq<Repo>)
    requires forall i :: 0 <= i < |repos| ==> repos[i].stargazersCount >= 0
    ensures 0.0 <= CodeQualityMetric(repos) <= 1.0
  {
    if repos != [] {
      var n := |repos| as real;
      SumIntNonNegative(repos, Stars);
      assert SumInt(repos, Stars) as real / n >= 0.0;
      RatioInUnit(CountIf(repos, HasIssues), |repos|);
      SumRealUnitBounds(repos, SizeCredit);
      var s := SumReal(repos, SizeCredit);
      assert 0.0 <= s / n <= 1.0 by {
        assert s / n * n == s;
      }
    }
  }

  method CalculateCodeQuality(repos: seq<Repo>) returns (r: real)
    ensures r == CodeQualityMetric(repos)
  {
    if |repos| == 0 {
      return 0.0;
    }
    var totalStars := SumInt(repos, Stars);
    var avgStars := totalStars as real / |repos| as real;
    var issuesCount := CountIf(repos, HasIssues);
    var sizeScore := 0.0;
    var i := 0;
    while i < |repos|
      invariant 0 <= i <= |repos|
      invariant sizeScore == SumReal(repos[..i], SizeCredit)
    {
      assert repos[..i + 1][..i] == repos[..i];
      var size := repos[i].size;
      if size < 1000 {
        sizeScore := sizeScore + 1.0;
      } else if size < 5000 {
        sizeScore := sizeScore + 0.5;
      }
      i := i + 1;
    }
    assert repos[..|repos|] == repos;
    sizeScore := sizeScore / |repos| as real;
    var starScore := Min(avgStars / 10.0, 1.0);
    var issueScore := issuesCount as real / |repos| as real;
    r := starScore * 0.4 + issueScore * 0.3 + sizeScore * 0.3;
  }

  // ------------------------------------------------------------- all metrics

  /** The metric set of a profile, its repositories and its events at time `now`. */
  function MetricsOf(profile: Profile, repos: seq<Repo>, events: seq<Event>, now: int): Metrics
  {
    Metrics(
      ActivityMetric(events, repos, now),
      DiversityMetric(repos),
      CommunityMetric(profile, repos),
      DocumentationMetric(repos),
      CodeQualityMetric(repos))
  }

  /** With non-negative counts every metric lies in [0, 1]. */
  lemma MetricsInUnitRange(profile: Profile, repos: seq<Repo>, events: seq<Event>, now: int)
    requires NonNegativeCounts(profile, repos)
    ensures InUnitRange(MetricsOf(profile, repos, events, now))
  {
    CommunityInUnit(profile, repos);
    CodeQualityInUnit(repos);
  }

  method CalculateMetrics(profile: Profile, repos: seq<Repo>, events: seq<Event>, now: int)
    returns (m: Metrics)
    ensures m == MetricsOf(profile, repos, events, now)
  {
    var diversity := CalculateDiversity(repos);
    var documentation := CalculateDocumentation(repos);
    var codeQuality := CalculateCodeQuality(repos);
    m := Metrics(
      ActivityMetric(events, repos, now),
      diversity,
      CommunityMetric(profile, repos),
      documentation,
      codeQuality);
  }
}
