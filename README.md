# GitHub profile analyzer: the scoring engine

This project models the scoring engine of `GitHubProfileAnalyzer` in `gtp.py`.
The engine takes three already-fetched collections: a profile record, the user's
repository records and their recent event records. From them it computes five
sub-metrics in [0, 1]:

- activity
- diversity
- community
- documentation
- code quality

A fixed weight table combines them into a composite score on a 0–10 scale. The
engine then derives strengths, weaknesses, recommendations and a four-tier
appreciation message. Any failure is re-raised as an "Analysis failed: …" error.

Modules, one per component of the engine:

- `Records` (records.dfy): the profile, repository and event records, the metric
  names and the metric set.
- `Aggregates` (aggregates.dfy): counting and summing over a sequence.
- `MetricEngine` (metrics.dfy): the five sub-metrics. Activity and community are
  pure functions. Diversity, documentation and the size part of code quality are
  loops over the repositories, so they are methods proved equal to a
  specification function.
- `ScoreComposer` (score.dfy): the weight table, the accumulating score loop and
  `round(score, 2)`.
- `Feedback` (feedback.dfy): strengths, weaknesses, recommendations and
  appreciation.
- `Analyzer` (analyzer.dfy): `analyze_profile`, with its fetch-failure and
  empty-repository error paths.

Arithmetic is exact (`real`). Timestamps are integers in seconds, and the
analysis time `now` is a parameter.

With no events the activity metric is exactly 0.0, even when repositories
were updated recently (gtp.py:111-112); the repository term is not kept.

The appreciation messages end in the characters that `gtp.py` holds after each
text as UTF-8 (gtp.py:264-270). Those bytes are emoji encoded twice, so each one
reads as three or four other characters (for example U+00F0 U+0178 U+017D
U+2030 after "Outstanding GitHub Profile! "). `Feedback.Message` reproduces
them as written.

## Model

| member | source | states |
|---|---|---|
| `MetricEngine.ActivityMetric` | gtp.py:109-126 | activity lies in [0, 1] and is exactly 0.0 when there are no events, whatever the repositories are |
| `MetricEngine.ActivityFull` | gtp.py:115-126 | activity is 1.0 iff there is an event, at least 30 events are strictly newer than now − 30 days, and every repository (of at least one) was updated strictly after now − 90 days |
| `MetricEngine.ActivityGrowsWithRecentEvent` | gtp.py:111-123 | adding an event newer than the 30-day cutoff never lowers activity |
| `MetricEngine.DiversityOf` | gtp.py:144-148 | diversity from the distinct language and topic sets lies in [0, 1], and is 1.0 iff there are at least 5 languages and at least 10 topics (both parts saturate) |
| `MetricEngine.DiversityMetric` | gtp.py:128-148 | diversity of a repository list lies in [0, 1] |
| `MetricEngine.CalculateDiversity` | gtp.py:128-148 | the two set-filling loops compute the diversity of the distinct truthy languages and the union of all topics |
| `MetricEngine.LanguageSetMembers` | gtp.py:133-137 | a language is counted iff some repository's language is truthy and equal to it, so order and duplicates do not matter |
| `MetricEngine.TopicSetMembers` | gtp.py:139-142 | a topic is counted iff some repository lists it |
| `MetricEngine.DiversityAbsorbsSeenRepo` | gtp.py:133-148 | appending a repository whose language and topics were all seen already leaves diversity unchanged |
| `MetricEngine.CommunityInUnit` | gtp.py:150-165 | with non-negative followers, following and forks, community lies in [0, 1] |
| `MetricEngine.DocumentationMetric` | gtp.py:167-191 | documentation lies in [0, 1] |
| `MetricEngine.DescriptionCountsOrdered` | gtp.py:172-184 | the long-description count (truthy and over 20 characters) ≤ the README count (truthy description) ≤ the number of repositories |
| `MetricEngine.CalculateDocumentation` | gtp.py:167-191 | the counting loop yields 0.5·README share + 0.3·wiki share + 0.2·long-description share, or 0.0 for no repositories |
| `MetricEngine.SizeCredit` | gtp.py:205-213 | a repository's size credit is 1, 0.5 or 0 and lies in [0, 1] |
| `MetricEngine.CodeQualityInUnit` | gtp.py:193-220 | with non-negative star counts, code quality lies in [0, 1] |
| `MetricEngine.CalculateCodeQuality` | gtp.py:193-220 | the size loop and the star and issue sums yield 0.4·min(avg stars/10, 1) + 0.3·issue share + 0.3·average size credit, or 0.0 for no repositories |
| `MetricEngine.MetricsInUnitRange` | gtp.py:99-107 | with non-negative counts, every one of the five metrics lies in [0, 1] |
| `MetricEngine.CalculateMetrics` | gtp.py:99-107 | builds the metric set of the five metric computations |
| `ScoreComposer.WeightsSumToOne` | gtp.py:67-73 | the weights are non-negative and sum to exactly 1 |
| `ScoreComposer.ScoreClosedForm` | gtp.py:222-226 | the table-driven score equals 10·(0.3·activity + 0.2·diversity + 0.2·community + 0.15·documentation + 0.15·code quality) |
| `ScoreComposer.ScoreInRange` | gtp.py:222-226 | metrics in [0, 1] give a score in [0, 10] |
| `ScoreComposer.ScoreMonotone` | gtp.py:222-226 | the score is monotone non-decreasing in every metric |
| `ScoreComposer.CalculateScore` | gtp.py:222-226 | the accumulating loop over the weight table returns the composite score |
| `ScoreComposer.Round2` | gtp.py:88 | `round(score, 2)` returns a whole number of hundredths within 0.005 of its argument |
| `ScoreComposer.Round2KeepsScoreRange` | gtp.py:88 | rounding keeps a score in [0, 10] |
| `ScoreComposer.Round2Exact` | gtp.py:88 | a value that is already a whole number of hundredths is unchanged |
| `ScoreComposer.Round2TiesToEven` | gtp.py:88 | for every n, the value halfway between n and n + 1 hundredths rounds to whichever of the two is even |
| `Feedback.CollectRemarks` | gtp.py:228-240 | the strengths (threshold ≥ 0.7) or weaknesses (≤ 0.3) loop returns the qualifying metrics with their values in metric order, or the single placeholder |
| `Feedback.RemarksCharacterised` | gtp.py:228-240 | the list has 1 to 5 entries; the placeholder appears iff no metric qualifies; a metric appears with its value iff it qualifies; entries keep the metric order |
| `Feedback.StrengthsAndWeaknessesDisjoint` | gtp.py:228-240 | no metric is both a strength and a weakness |
| `Feedback.GetRecommendations` | gtp.py:242-260 | the five independent checks return one advice per metric strictly below 0.4 in metric order, or the single "keep doing" placeholder |
| `Feedback.RecommendationsCharacterised` | gtp.py:242-260 | 1 to 5 recommendations; a metric's advice appears iff it is below 0.4; the placeholder appears iff every metric is at least 0.4; advice keeps the metric order |
| `Feedback.ThresholdBoundaries` | gtp.py:231-238 | a metric of exactly 0.7 is a strength, exactly 0.3 a weakness, and exactly 0.4 earns no recommendation |
| `Feedback.SelectMembers` | gtp.py:230-231 | a metric is selected iff it is listed and meets the threshold |
| `Feedback.SelectInOrder` | gtp.py:230-231 | selection keeps the order of the metric list |
| `Feedback.TierMonotone` | gtp.py:262-270 | a higher score never gets a lower appreciation tier, and the tier goes up by exactly the number of the bounds 4, 6, 8 crossed (inclusive) |
| `Feedback.TierOf` | gtp.py:262-270 | the tier's rank (0 to 3) is the number of the bounds 4, 6 and 8 that the score reaches |
| `Feedback.AppreciationText` | gtp.py:262-270 | a score of at least 8 gets the "Outstanding" message, at least 6 "Great", at least 4 "Good Start", and below 4 "Your GitHub Journey Has Just Begun" |
| `Feedback.TierBoundaries` | gtp.py:262-270 | scores of exactly 8, 6 and 4 reach the higher tier; 7.99, 5.99 and 3.99 do not |
| `Analyzer.Failed` | gtp.py:96-97 | a failure message is "Analysis failed: " followed by the original message |
| `Analyzer.AnalyzeProfile` | gtp.py:75-97 | the analysis: the first failed fetch (profile, then repositories, then events) or an empty repository list gives a prefixed error; otherwise it returns the bundle |
| `Analyzer.AnalysisFailures` | gtp.py:75-97 | the analysis fails iff a fetch failed or the repository list is empty; every error message starts with "Analysis failed: "; no repositories gives "Analysis failed: No repositories found for this user" whatever the profile and events |
| `Analyzer.AnalysisSucceeds` | gtp.py:84-95 | with repositories and non-negative counts: metrics in [0, 1], a reported score in [0, 10] within 0.005 of the composite, appreciation chosen from the unrounded composite, and non-empty feedback lists |
| `Analyzer.AppreciationUsesUnroundedScore` | gtp.py:88-93 | a composite of 7.996 is reported as 8.0 but gets the 6–8 appreciation, because the tier is chosen before rounding |
| `Analyzer.SingleRepositoryExample` | gtp.py:99-226 | one small Go repository with no events gives metrics (0, 0.14, 0, 0, 0.3) and the score 0.73 |

## Left out

- HTTP fetching (`GitHubAPI`): requests, tokens, timeouts and the `since` parameter. Its three results are inputs of type `Result`. The adapter's error text ("Failed to fetch …") is taken as given.
- Timestamp parsing: timestamps are integer seconds. The source strips the 'Z' from the records' UTC timestamps and compares them with the local `datetime.now()` (gtp.py:115, 119). The model's `now` stands for that local wall-clock reading taken on the UTC scale, so the 30- and 90-day windows shift by the machine's UTC offset just as in the source. The source calls `datetime.now()` once per compared record. The model uses one `now` for the whole analysis.
- Floating point: all arithmetic is exact `real`. `Round2` is round-half-even on the exact value. Double-precision error in the weighted sums is not modelled, including a sum that lands just beside a threshold in floating point.
- Feedback text: strengths and weaknesses are tagged `Remark(metric, value)` entries, with `Label` giving the metric's display name. The `:.0f` percentage text and the two "No significant … identified" strings are not built. Recommendations are tagged `Advise(metric)`/`KeepDoing` entries, with `Text` holding their exact strings.
- Feedback.CollectRemarks: one method with a threshold parameter models both `_get_strengths` and `_get_weaknesses`, which differ only in their comparison and placeholder text.
- Malformed records: missing keys (`KeyError`), non-list responses and parse errors raised inside the metric code are not modelled. Records are assumed well formed. `followers`, `following` and `avatar_url` may be absent and default to 0, 0 and "".
- MetricEngine.CommunityInUnit, MetricEngine.CodeQualityInUnit: the [0, 1] bound is stated only for non-negative followers, following, forks and stars. The source does not guard against negative counts.
- Idempotence: every model member is a deterministic function of its inputs and `now`, so repeated analyses agree. No separate lemma states it.
- `AnalyzerThread`, the Qt widgets, animations, avatar download and the colour thresholds in `display_results`: presentation and concurrency, with no scoring logic.
