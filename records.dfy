/** The records the analyzer consumes and produces: the already-fetched profile,
    repository and event records, and the five-metric set. */
module Records {

  datatype Option<T> = None | Some(value: T)

  /** An outcome that is either a value or the message of the exception raised instead. */
  datatype Result<T> = Ok(value: T) | Err(message: string)

  function GetOr<T>(o: Option<T>, default: T): T
  {
    match o
    case Some(v) => v
    case None => default
  }

  /** Python truthiness of an optional string: present and not empty. */
  predicate Truthy(s: Option<string>)
  {
    s.Some? && s.value != ""
  }

  /** The user profile; each field may be absent from the fetched mapping. */
  datatype Profile = Profile(
    followers: Option<int>,
    following: Option<int>,
    avatarUrl: Option<string>)

  /** One repository record. Timestamps are seconds on the UTC scale. */
  datatype Repo = Repo(
    language: Option<string>,
    topics: Option<seq<string>>,
    forksCount: int,
    fork: bool,
    hasWiki: bool,
    description: Option<string>,
    hasIssues: bool,
    stargazersCount: int,
    size: int,
    updatedAt: int)

  /** One activity event; only its creation time is read. */
  datatype Event = Event(createdAt: int)

  /** The five metric names, in the order of the metrics mapping and of the weight table. */
  datatype MetricName = Activity | Diversity | Community | Documentation | CodeQuality

  /** The metric set, one field per metric name. */
  datatype Metrics = Metrics(
    activity: real,
    diversity: real,
    community: real,
    documentation: real,
    codeQuality: real)

  /** The metric names in iteration order. */
  const AllMetrics: seq<MetricName> := [Activity, Diversity, Community, Documentation, CodeQuality]

  /** Position of a metric name in the iteration order. */
  function Rank(k: MetricName): (i: nat)
    ensures i < |AllMetrics| && AllMetrics[i] == k
  {
    match k
    case Activity => 0
    case Diversity => 1
    case Community => 2
    case Documentation => 3
    case CodeQuality => 4
  }

  /** The value of one metric, as `metrics[name]`. */
  function Get(m: Metrics, k: MetricName): real
  {
    match k
    case Activity => m.activity
    case Diversity => m.diversity
    case Community => m.community
    case Documentation => m.documentation
    case CodeQuality => m.codeQuality
  }

  /** The metric's display name: its key with the underscore turned into a space. */
  function Label(k: MetricName): string
  {
    match k
    case Activity => "activity"
    case Diversity => "diversity"
    case Community => "community"
    case Documentation => "documentation"
    case CodeQuality => "code quality"
  }

  /** Every metric lies in the closed unit interval. */
  predicate InUnitRange(m: Metrics)
  {
    forall k: MetricName :: 0.0 <= Get(m, k) <= 1.0
  }

  /** The counts the community and code quality metrics read are not negative. */
  predicate NonNegativeCounts(p: Profile, repos: seq<Repo>)
  {
    && GetOr(p.followers, 0) >= 0
    && GetOr(p.following, 0) >= 0
    && forall i :: 0 <= i < |repos| ==> repos[i].forksCount >= 0 && repos[i].stargazersCount >= 0
  }
}
