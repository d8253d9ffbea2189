/**
 * The read side of variant A's submissions: the filtered, newest-first listing,
 * the owner-checked lookup, and the per-user summary statistics.
 */
module SubmissionsRouter {
  import opened Wrappers
  import opened Ordering
  import opened SqlModels
  import opened SqlDb

  const NotFound: HttpError := HttpError(404, "Submission not found")
  const Forbidden: HttpError := HttpError(403, "Not authorized to access this submission")

  /** The `WHERE` clause: owned by the user and, when a status is given, in that status. */
  predicate Matches(s: Submission, userId: int, status: Option<SubmissionStatus>) {
    s.userId == userId && (status.None? || s.status == status.value)
  }

  function Selection(userId: int, status: Option<SubmissionStatus>): Submission -> bool {
    s => Matches(s, userId, status)
  }

  /**
   * `get_submissions`: the user's submissions (in one status, when asked), newest
   * first, then `skip`/`limit` as SQLite applies them (see `Page`: the query
   * parameters are any integers). SQL applies `ORDER BY` before `OFFSET`/`LIMIT`
   * whatever order the query builder calls come in.
   */
  function GetSubmissions(ss: seq<Submission>, userId: int, status: Option<SubmissionStatus>, skip: int, limit: int): (r: seq<Submission>)
    ensures limit >= 0 ==> |r| <= limit
    ensures forall i :: 0 <= i < |r| ==> r[i] in ss && r[i].userId == userId
    ensures status.Some? ==> forall i :: 0 <= i < |r| ==> r[i].status == status.value
    ensures SortedDesc(r, SubmittedAt)
  {
    var selected := Filter(ss, Selection(userId, status));
    var sorted := SortDesc(selected, SubmittedAt);
    var page := Page(sorted, skip, limit);
    SortDescSameRows(selected, SubmittedAt);
    PageRows(sorted, skip, limit);
    PageSorted(sorted, skip, limit, SubmittedAt);
    page
  }

  /**
   * Rows are stamped by a clock that only moves forward, so the listing is exactly
   * the window of the user's matching rows read newest-first: nothing is lost and
   * nothing is added.
   */
  lemma GetSubmissionsNewestFirst(ss: seq<Submission>, userId: int, status: Option<SubmissionStatus>, skip: int, limit: int)
    requires Increasing(ss, SubmittedAt)
    ensures GetSubmissions(ss, userId, status, skip, limit) == Page(Reverse(Filter(ss, Selection(userId, status))), skip, limit)
  {
    FilterIncreasing(ss, Selection(userId, status), SubmittedAt);
    SortDescOfIncreasing(Filter(ss, Selection(userId, status)), SubmittedAt);
  }

  /**
   * `get_submission` (here and in the CV router alike): 404 when no row has the id,
   * 403 when the row belongs to someone else, otherwise that row.
   */
  function GetSubmission(ss: seq<Submission>, userId: int, id: int): (r: Result<Submission>)
    requires SubmissionsNumbered(ss)
    ensures r == Err(NotFound) <==> forall i :: 0 <= i < |ss| ==> ss[i].id != id
    ensures r.Ok? <==> exists i :: 0 <= i < |ss| && ss[i].id == id && ss[i].userId == userId
    ensures r.Ok? ==> r.value in ss && r.value.id == id && r.value.userId == userId
    ensures r.Err? ==> r.error == NotFound || r.error == Forbidden
  {
    match GetSubmissionRow(ss, id)
    case None => Err(NotFound)
    case Some(s) =>
      if s.userId != userId then
        assert forall i :: 0 <= i < |ss| && ss[i].id == id ==> i == id - 1;
        Err(Forbidden)
      else
        assert ss[id - 1].id == id;
        Ok(s)
  }

  /** `sum(1 for s in ss if s.status == status)`. */
  function CountStatus(ss: seq<Submission>, status: SubmissionStatus): nat
    decreases |ss|
  {
    if ss == [] then 0
    else CountStatus(ss[..|ss| - 1], status) + (if ss[|ss| - 1].status == status then 1 else 0)
  }

  /** The four status counts add up to the number of submissions. */
  lemma {:induction false} StatusCountsSum(ss: seq<Submission>)
    ensures CountStatus(ss, Pending) + CountStatus(ss, Processing) + CountStatus(ss, Completed) + CountStatus(ss, Failed) == |ss|
    decreases |ss|
  {
    if ss != [] {
      StatusCountsSum(ss[..|ss| - 1]);
    }
  }

  /** A submission that enters the average: completed, with a score. */
  predicate ScoredCompletion(s: Submission) {
    s.status == Completed && s.score.Some?
  }

  function ScoreOf(s: Submission): real {
    if s.score.Some? then s.score.value else 0.0
  }

  /** The mean score of the given rows, or 0 when there are none. */
  function Average(scored: seq<Submission>): real {
    if scored == [] then 0.0 else SumReal(scored, ScoreOf) / (|scored| as real)
  }

  /** The average lies between the smallest and the largest score it averages. */
  lemma AverageWithinScores(scored: seq<Submission>, lo: real, hi: real)
    requires scored != []
    requires forall i :: 0 <= i < |scored| ==> lo <= ScoreOf(scored[i]) <= hi
    ensures lo <= Average(scored) <= hi
  {
    SumRealBounds(scored, lo, hi);
    QuotientBetween(SumReal(scored, ScoreOf), |scored| as real, lo, hi);
  }

  /** A total between `lo * n` and `hi * n` has its mean between `lo` and `hi`. */
  lemma QuotientBetween(total: real, n: real, lo: real, hi: real)
    requires n > 0.0 && lo * n <= total <= hi * n
    ensures lo <= total / n <= hi
  {
    assert total / n * n == total;
  }

  lemma {:induction false} SumRealBounds(scored: seq<Submission>, lo: real, hi: real)
    requires forall i :: 0 <= i < |scored| ==> lo <= ScoreOf(scored[i]) <= hi
    ensures lo * (|scored| as real) <= SumReal(scored, ScoreOf) <= hi * (|scored| as real)
    decreases |scored|
  {
    if scored != [] {
      var m := |scored| - 1;
      SumRealBounds(scored[..m], lo, hi);
      BoundsStep(SumReal(scored[..m], ScoreOf), ScoreOf(scored[m]), m as real, lo, hi);
    }
  }

  /** Adding one term between `lo` and `hi` to a sum of `m` such terms keeps the bounds. */
  lemma BoundsStep(sum: real, x: real, m: real, lo: real, hi: real)
    requires lo * m <= sum <= hi * m && lo <= x <= hi
    ensures lo * (m + 1.0) <= sum + x <= hi * (m + 1.0)
  {
    assert lo * (m + 1.0) == lo * m + lo;
    assert hi * (m + 1.0) == hi * m + hi;
  }

  /** The response of `get_submission_stats`. */
  datatype Stats = Stats(totalSubmissions: nat, statusCounts: map<SubmissionStatus, nat>, averageScore: real)

  /**
   * `get_submission_stats`: the user's submission count, one count per status (every
   * status has an entry, zero included), and the mean score of the completed ones
   * that have a score.
   */
  method GetSubmissionStats(ss: seq<Submission>, userId: int) returns (st: Stats)
    ensures st.totalSubmissions == |Filter(ss, Selection(userId, None))|
    ensures forall status :: status in st.statusCounts
    ensures forall status :: st.statusCounts[status] == CountStatus(Filter(ss, Selection(userId, None)), status)
    ensures st.averageScore == Average(Filter(Filter(ss, Selection(userId, None)), ScoredCompletion))
  {
    var total := Filter(ss, Selection(userId, None));
    var counts: map<SubmissionStatus, nat> := map[];
    var i := 0;
    while i < |AllStatuses|
      invariant 0 <= i <= |AllStatuses|
      invariant forall j :: 0 <= j < i ==> AllStatuses[j] in counts
      invariant forall status :: status in counts ==> counts[status] == CountStatus(total, status)
    {
      var status := AllStatuses[i];
      counts := counts[status := CountStatus(total, status)];
      i := i + 1;
    }
    forall status ensures status in counts {
      match status
      case Pending => assert AllStatuses[0] == status;
      case Processing => assert AllStatuses[1] == status;
      case Completed => assert AllStatuses[2] == status;
      case Failed => assert AllStatuses[3] == status;
    }
    var completed := Filter(total, ScoredCompletion);
    st := Stats(|total|, counts, Average(completed));
  }
}
