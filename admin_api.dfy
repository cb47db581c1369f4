/** api/admin.py: the small parsers of the admin API (pagination, cpuset
    lists, date ranges, the created_to bound of the job list), the workspace
    guard, and the endpoints that change state: requeue and cancel of a job,
    and the replacement of an app's knowledge-base bindings. Times are whole
    seconds from the Unix epoch. */
module AdminApi {
  import opened Wrappers
  import opened Text
  import opened Lists
  import opened Sorting
  import opened WorkerJobs

  // ---------------------------------------------------------------------
  // `_require_workspace_access`

  const NoWorkspaceAccess := "\U{65E0}\U{6743}\U{8BBF}\U{95EE}\U{8BE5} workspace"

  /** A principal bound to a workspace may only reach that workspace; one
      bound to none may reach them all. */
  function WorkspaceAccess(principalWorkspace: string, workspaceId: string): (r: Option<HttpError>)
    ensures r.Some? <==> principalWorkspace != "" && principalWorkspace != workspaceId
    ensures r.Some? ==> r.value.status == 403
  {
    if principalWorkspace != "" && principalWorkspace != workspaceId then Some(HttpError(403, NoWorkspaceAccess))
    else None
  }

  // ---------------------------------------------------------------------
  // `_parse_pagination`

  datatype Page = Page(page: int, pageSize: int, offset: int)

  const MaxPageSize := 200
  const DefaultPageSize := 20

  function ParsePagination(page: int, pageSize: int): Page {
    var p := Max(1, if page == 0 then 1 else page);
    var ps := Max(1, Min(MaxPageSize, if pageSize == 0 then DefaultPageSize else pageSize));
    Page(p, ps, (p - 1) * ps)
  }

  /** The page is at least 1, the size between 1 and 200, the offset skips the
      earlier pages; 0 stands for the defaults and in-range values pass through. */
  lemma ParsePaginationSpec(page: int, pageSize: int)
    ensures var r := ParsePagination(page, pageSize);
      r.page >= 1 && 1 <= r.pageSize <= MaxPageSize && r.offset == (r.page - 1) * r.pageSize && r.offset >= 0
    ensures page == 0 ==> ParsePagination(page, pageSize).page == 1
    ensures pageSize == 0 ==> ParsePagination(page, pageSize).pageSize == DefaultPageSize
    ensures page >= 1 ==> ParsePagination(page, pageSize).page == page
    ensures 1 <= pageSize <= MaxPageSize ==> ParsePagination(page, pageSize).pageSize == pageSize
  {
    var r := ParsePagination(page, pageSize);
    MulNonNeg(r.page - 1, r.pageSize);
  }

  lemma MulNonNeg(a: int, b: int)
    requires a >= 0 && b >= 0
    ensures a * b >= 0
  {
  }

  // ---------------------------------------------------------------------
  // `_count_cpuset_cpus`

  /** The CPUs one comma-separated part names: b-a+1 for a range "a-b" with
      b >= a, 1 for a single integer, 0 for anything else. */
  function PartCount(part: string): nat {
    var p := Strip(part);
    if p == [] then 0
    else
      match IndexOf(p, "-")
      case Some(i) =>
        (match (ParseInt(p[..i]), ParseInt(p[i + 1..]))
         case (Some(a), Some(b)) => if b >= a then b - a + 1 else 0
         case _ => 0)
      case None => if ParseInt(p).Some? then 1 else 0
  }

  function PartsTotal(parts: seq<string>): nat {
    if parts == [] then 0 else PartsTotal(parts[..|parts| - 1]) + PartCount(parts[|parts| - 1])
  }

  /** The value of `_count_cpuset_cpus(cpuset)`. */
  function CpusetCount(cpuset: Option<string>): Option<nat> {
    var s := Strip(cpuset.GetOr(""));
    if s == [] then None
    else
      var total := PartsTotal(Split(s, ","));
      if total == 0 then None else Some(total)
  }

  /** The loop of `_count_cpuset_cpus`, part by part. */
  method CountCpusetCpus(cpuset: Option<string>) returns (r: Option<nat>)
    ensures r == CpusetCount(cpuset)
  {
    var s := Strip(cpuset.GetOr(""));
    if s == [] {
      return None;
    }
    var parts := Split(s, ",");
    var total := 0;
    for k := 0 to |parts|
      invariant total == PartsTotal(parts[..k])
    {
      assert parts[..k + 1][..k] == parts[..k];
      var part := Strip(parts[k]);
      if part == [] {
        continue;
      }
      var dash := IndexOf(part, "-");
      if dash.Some? {
        var a := ParseInt(part[..dash.value]);
        var b := ParseInt(part[dash.value + 1..]);
        if a.None? || b.None? {
          continue;
        }
        if b.value >= a.value {
          total := total + (b.value - a.value + 1);
        }
        continue;
      }
      if ParseInt(part).None? {
        continue;
      }
      total := total + 1;
    }
    assert parts[..|parts|] == parts;
    r := if total == 0 then None else Some(total);
  }

  lemma {:induction false} PartsTotalConcat(a: seq<string>, b: seq<string>)
    ensures PartsTotal(a + b) == PartsTotal(a) + PartsTotal(b)
    decreases |b|
  {
    if b == [] {
      assert a + b == a;
    } else {
      var init := b[..|b| - 1];
      assert (a + b)[..|a + b| - 1] == a + init;
      PartsTotalConcat(a, init);
    }
  }

  /** A blank or missing list counts nothing, and a count is never 0. */
  lemma CpusetBlank(cpuset: Option<string>)
    ensures (cpuset.None? || forall i :: 0 <= i < |cpuset.value| ==> IsSpace(cpuset.value[i])) ==> CpusetCount(cpuset).None?
    ensures CpusetCount(cpuset).Some? ==> CpusetCount(cpuset).value >= 1
  {
    if cpuset.Some? {
      StripEmptyIffAllSpace(cpuset.value);
    }
  }

  /** Decimal digits read back as the number they render. */
  lemma DigitsStripped(n: nat)
    ensures IsStripped(NatToString(n)) && Lacks(NatToString(n), '-') && Lacks(NatToString(n), ',')
  {
  }

  /** "a-b" names b-a+1 CPUs when b >= a and none otherwise. */
  lemma PartCountRange(a: nat, b: nat)
    ensures PartCount(NatToString(a) + "-" + NatToString(b)) == if b >= a then b - a + 1 else 0
  {
    DigitsStripped(a);
    DigitsStripped(b);
    ParseIntOfNat(a);
    ParseIntOfNat(b);
    RangeCount(NatToString(a), NatToString(b), a, b);
  }

  lemma RangeCount(x: string, y: string, a: int, b: int)
    requires x != [] && y != [] && IsStripped(x) && IsStripped(y) && Lacks(x, '-')
    requires ParseInt(x) == Some(a) && ParseInt(y) == Some(b)
    ensures PartCount(x + "-" + y) == if b >= a then b - a + 1 else 0
  {
    RangeShape(x, y);
  }

  /** "x-y" for digit strings x and y: stripped, and split at the only dash. */
  lemma RangeShape(x: string, y: string)
    requires x != [] && y != [] && IsStripped(x) && IsStripped(y) && Lacks(x, '-')
    ensures var p := x + "-" + y;
      Strip(p) == p && IndexOf(p, "-") == Some(|x|) && p[..|x|] == x && p[|x| + 1..] == y
  {
    var p := x + "-" + y;
    assert p[0] == x[0] && p[|p| - 1] == y[|y| - 1];
    StripOfStripped(p);
    assert p == x + ['-'] + y;
    IndexOfFirst(x, '-', y);
  }

  /** A single CPU number names one CPU. */
  lemma PartCountSingle(n: nat)
    ensures PartCount(NatToString(n)) == 1
  {
    var x := NatToString(n);
    DigitsStripped(n);
    StripOfStripped(x);
    NoCharNoIndex(x, "-");
    ParseIntOfNat(n);
  }

  /** The count of a non-blank list is the sum of what its comma-separated
      parts name. */
  lemma CpusetOfParts(parts: seq<string>)
    requires |parts| >= 1 && forall i :: 0 <= i < |parts| ==> Lacks(parts[i], ',')
    requires IsStripped(Join(parts, ",")) && Join(parts, ",") != []
    ensures CpusetCount(Some(Join(parts, ","))) == if PartsTotal(parts) == 0 then None else Some(PartsTotal(parts))
  {
    StripOfStripped(Join(parts, ","));
    SplitJoin(parts, ',');
  }

  // ---------------------------------------------------------------------
  // `_parse_date_range`

  const Hour := 3600
  const Day := 86400

  /** datetime.min, 0001-01-01 00:00 UTC, in seconds from the Unix epoch. */
  const MinDatetime := -62135596800

  /** timedelta.max, 999999999 days and 23:59:59, in whole seconds. */
  const MaxTimedelta := 999999999 * Day + (Day - 1)

  /** `now - timedelta(seconds=span)` raises no OverflowError: the span is a
      valid timedelta and the start is not before datetime.min. */
  predicate WindowFits(span: int, now: int) {
    span <= MaxTimedelta && now - span >= MinDatetime
  }

  /** The (start, end) window `_parse_date_range(date_range)` gives at `now`,
      seconds from the Unix epoch. A count whose window would overflow raises
      inside the try and falls back to 24 hours. */
  function ParseDateRange(dateRange: Option<string>, now: int): (int, int) {
    var dr := Lower(Strip(dateRange.GetOr("")));
    if dr == [] then (now - 24 * Hour, now)
    else if EndsWith(dr, "h") && ParseInt(dr[..|dr| - 1]).Some?
            && WindowFits(Max(1, ParseInt(dr[..|dr| - 1]).value) * Hour, now) then
      (now - Max(1, ParseInt(dr[..|dr| - 1]).value) * Hour, now)
    else if EndsWith(dr, "d") && ParseInt(dr[..|dr| - 1]).Some?
            && WindowFits(Max(1, ParseInt(dr[..|dr| - 1]).value) * Day, now) then
      (now - Max(1, ParseInt(dr[..|dr| - 1]).value) * Day, now)
    else (now - 24 * Hour, now)
  }

  /** The window always ends now and spans at least one hour. */
  lemma DateRangeBounds(dateRange: Option<string>, now: int)
    ensures ParseDateRange(dateRange, now).1 == now
    ensures ParseDateRange(dateRange, now).0 <= now - Hour
  {
    var dr := Lower(Strip(dateRange.GetOr("")));
    if dr != [] && ParseInt(dr[..|dr| - 1]).Some? {
      var n := Max(1, ParseInt(dr[..|dr| - 1]).value);
      MulAtLeast(n, Hour);
      MulAtLeast(n, Day);
    }
  }

  lemma MulAtLeast(n: int, unit: nat)
    requires n >= 1
    ensures n * unit >= unit
  {
    assert n * unit == unit + (n - 1) * unit;
    MulNonNeg(n - 1, unit);
  }

  lemma LowerDigits(s: string)
    requires forall i :: 0 <= i < |s| ==> IsAsciiDigit(s[i])
    ensures Lower(s) == s
  {
  }

  /** A rendered count followed by a unit letter reads back as that count. */
  lemma UnitSuffix(x: string, n: int, u: char)
    requires x != [] && IsStripped(x) && Lower(x) == x && ParseInt(x) == Some(n)
    requires u == 'h' || u == 'd'
    ensures var dr := Lower(Strip(x + [u]));
      dr == x + [u] && dr[..|dr| - 1] == x
  {
    var t := x + [u];
    assert t[0] == x[0];
    StripOfStripped(t);
    assert Lower(t) == t;
    assert t[..|t| - 1] == x;
  }

  /** The window of a lowered, stripped range ending in a unit after an integer. */
  lemma UnitWindow(x: string, n: int, u: char, now: int)
    requires ParseInt(x) == Some(n) && (u == 'h' || u == 'd')
    ensures var t := x + [u];
      t[..|t| - 1] == x && EndsWith(t, [u]) && (u == 'd' ==> !EndsWith(t, "h"))
  {
    var t := x + [u];
    assert t[..|t| - 1] == x;
    assert t[|t| - 1..] == [u];
  }

  /** "xh" with x an integer N is the last max(1, N) hours, or the last 24
      hours when that window overflows. */
  lemma DateRangeHourUnit(x: string, n: int, now: int)
    requires x != [] && IsStripped(x) && Lower(x) == x && ParseInt(x) == Some(n)
    ensures ParseDateRange(Some(x + "h"), now)
         == if WindowFits(Max(1, n) * Hour, now) then (now - Max(1, n) * Hour, now) else (now - 24 * Hour, now)
  {
    UnitSuffix(x, n, 'h');
    UnitWindow(x, n, 'h', now);
  }

  /** "xd" with x an integer N is the last max(1, N) days, or the last 24
      hours when that window overflows. */
  lemma DateRangeDayUnit(x: string, n: int, now: int)
    requires x != [] && IsStripped(x) && Lower(x) == x && ParseInt(x) == Some(n)
    ensures ParseDateRange(Some(x + "d"), now)
         == if WindowFits(Max(1, n) * Day, now) then (now - Max(1, n) * Day, now) else (now - 24 * Hour, now)
  {
    UnitSuffix(x, n, 'd');
    UnitWindow(x, n, 'd', now);
  }

  lemma DateRangeHours(n: nat, now: int)
    ensures ParseDateRange(Some(NatToString(n) + "h"), now)
         == if WindowFits(Max(1, n) * Hour, now) then (now - Max(1, n) * Hour, now) else (now - 24 * Hour, now)
  {
    DigitsStripped(n);
    ParseIntOfNat(n);
    LowerDigits(NatToString(n));
    DateRangeHourUnit(NatToString(n), n, now);
  }

  lemma DateRangeDays(n: nat, now: int)
    ensures ParseDateRange(Some(NatToString(n) + "d"), now)
         == if WindowFits(Max(1, n) * Day, now) then (now - Max(1, n) * Day, now) else (now - 24 * Hour, now)
  {
    DigitsStripped(n);
    ParseIntOfNat(n);
    LowerDigits(NatToString(n));
    DateRangeDayUnit(NatToString(n), n, now);
  }

  /** A blank range, or a missing one, is the last 24 hours. */
  lemma DateRangeDefault(dateRange: Option<string>, now: int)
    requires dateRange.None? || forall i :: 0 <= i < |dateRange.value| ==> IsSpace(dateRange.value[i])
    ensures ParseDateRange(dateRange, now) == (now - 24 * Hour, now)
  {
    if dateRange.Some? {
      StripEmptyIffAllSpace(dateRange.value);
    }
  }

  // ---------------------------------------------------------------------
  // The created_from / created_to bounds of `list_jobs`

  /** How a parsed created_to bounds started_at. */
  datatype UpperBound = Inclusive(at: int) | Exclusive(before: int)

  /** A created_to of exactly ten characters (a date) bounds the day it names
      from above, exclusively at the next midnight; any other form is an
      inclusive bound. `parsed` is what `_parse_iso_datetime` gave. */
  function CreatedToBound(createdTo: string, parsed: Option<int>): Option<UpperBound> {
    match parsed
    case None => None
    case Some(t) => if |Strip(createdTo)| == 10 then Some(Exclusive(t + Day)) else Some(Inclusive(t))
  }

  predicate Admits(bound: Option<UpperBound>, startedAt: int) {
    match bound
    case None => true
    case Some(Inclusive(t)) => startedAt <= t
    case Some(Exclusive(t)) => startedAt < t
  }

  /** With a date, every job started during that day is listed and none from
      the next midnight on; otherwise exactly the jobs started by the instant. */
  lemma CreatedToBoundSpec(createdTo: string, t: int, startedAt: int)
    ensures |Strip(createdTo)| == 10 ==>
      (Admits(CreatedToBound(createdTo, Some(t)), startedAt) <==> startedAt < t + Day)
    ensures |Strip(createdTo)| != 10 ==>
      (Admits(CreatedToBound(createdTo, Some(t)), startedAt) <==> startedAt <= t)
    ensures Admits(CreatedToBound(createdTo, None), startedAt)
  {
  }

  // ---------------------------------------------------------------------
  // `requeue_job` and `cancel_job`

  const JobNotFound := "job not found"
  const CancelOnlyQueued := "\U{4EC5}\U{652F}\U{6301}\U{53D6}\U{6D88} queued \U{72B6}\U{6001}\U{4EFB}\U{52A1}\U{FF08}running \U{6682}\U{4E0D}\U{652F}\U{6301}\U{4E2D}\U{65AD}\U{FF09}"

  /** The job at position i, when it exists in the workspace. */
  function JobInWorkspace(jobs: seq<Job>, workspaceId: string, jobId: string): (r: Option<nat>)
    ensures r.Some? ==> r.value < |jobs| && jobs[r.value].id == jobId && jobs[r.value].workspaceId == workspaceId
  {
    match FindJob(jobs, jobId)
    case None => None
    case Some(i) => if jobs[i].workspaceId == workspaceId then Some(i) else None
  }

  /** A requeued job starts over: queued, no error, empty progress, started now. */
  function Restarted(j: Job, now: int): Job {
    j.(status := Queued, error := "", progress := map[], startedAt := now, finishedAt := None)
  }

  /** The table and the error `requeue_job` leaves. */
  function RequeueOutcome(jobs: seq<Job>, principalWorkspace: string, workspaceId: string, jobId: string, now: int)
    : (seq<Job>, Option<HttpError>)
  {
    match WorkspaceAccess(principalWorkspace, workspaceId)
    case Some(e) => (jobs, Some(e))
    case None =>
      match JobInWorkspace(jobs, workspaceId, jobId)
      case None => (jobs, Some(HttpError(404, JobNotFound)))
      case Some(i) => (jobs[i := Restarted(jobs[i], now)], None)
  }

  /** The table and the error `cancel_job` leaves. */
  function CancelOutcome(jobs: seq<Job>, principalWorkspace: string, workspaceId: string, jobId: string, now: int)
    : (seq<Job>, Option<HttpError>)
  {
    match WorkspaceAccess(principalWorkspace, workspaceId)
    case Some(e) => (jobs, Some(e))
    case None =>
      match JobInWorkspace(jobs, workspaceId, jobId)
      case None => (jobs, Some(HttpError(404, JobNotFound)))
      case Some(i) =>
        if jobs[i].status != Queued then (jobs, Some(HttpError(400, CancelOnlyQueued)))
        else (jobs[i := jobs[i].(status := Cancelled, finishedAt := Some(now))], None)
  }

  predicate HasJob(jobs: seq<Job>, workspaceId: string, jobId: string) {
    exists i :: 0 <= i < |jobs| && jobs[i].id == jobId && jobs[i].workspaceId == workspaceId
  }

  lemma JobInWorkspaceIff(jobs: seq<Job>, workspaceId: string, jobId: string)
    requires DistinctBy(jobs, JobId)
    ensures JobInWorkspace(jobs, workspaceId, jobId).Some? <==> HasJob(jobs, workspaceId, jobId)
  {
    if HasJob(jobs, workspaceId, jobId) {
      var i :| 0 <= i < |jobs| && jobs[i].id == jobId && jobs[i].workspaceId == workspaceId;
      var f := FindJob(jobs, jobId);
      SameIdSameRow(jobs, i, f.value);
    }
  }

  /** Requeue succeeds exactly when the principal may reach the workspace and
      the job is in it; it then resets that job whatever its status, and in
      every case leaves the other rows as they were. */
  lemma RequeueSpec(jobs: seq<Job>, principalWorkspace: string, workspaceId: string, jobId: string, now: int)
    requires DistinctBy(jobs, JobId)
    ensures var (r, err) := RequeueOutcome(jobs, principalWorkspace, workspaceId, jobId, now);
      (err.None? <==> WorkspaceAccess(principalWorkspace, workspaceId).None? && HasJob(jobs, workspaceId, jobId))
      && (err.Some? ==> r == jobs && err.value.status in {403, 404})
      && |r| == |jobs|
      && forall i :: 0 <= i < |jobs| ==>
           r[i] == if err.None? && jobs[i].id == jobId
             then jobs[i].(status := Queued, error := "", progress := map[], startedAt := now, finishedAt := None)
             else jobs[i]
  {
    JobInWorkspaceIff(jobs, workspaceId, jobId);
    if JobInWorkspace(jobs, workspaceId, jobId).Some? {
      var k := JobInWorkspace(jobs, workspaceId, jobId).value;
      forall i | 0 <= i < |jobs| && i != k ensures jobs[i].id != jobId {
        assert JobId(jobs[i]) != JobId(jobs[k]);
      }
    }
  }

  /** Cancel succeeds exactly when the principal may reach the workspace and
      the job is in it and queued; it then marks it cancelled at `now`. A job
      in any other status gives 400 and nothing changes. */
  lemma CancelSpec(jobs: seq<Job>, principalWorkspace: string, workspaceId: string, jobId: string, now: int)
    requires DistinctBy(jobs, JobId)
    ensures var (r, err) := CancelOutcome(jobs, principalWorkspace, workspaceId, jobId, now);
      (err.None? <==> WorkspaceAccess(principalWorkspace, workspaceId).None? && HasJob(jobs, workspaceId, jobId)
                      && exists i :: 0 <= i < |jobs| && jobs[i].id == jobId && jobs[i].status == Queued)
      && (err.Some? ==> r == jobs && err.value.status in {400, 403, 404})
      && |r| == |jobs|
      && forall i :: 0 <= i < |jobs| ==>
           r[i] == if err.None? && jobs[i].id == jobId then jobs[i].(status := Cancelled, finishedAt := Some(now)) else jobs[i]
  {
    JobInWorkspaceIff(jobs, workspaceId, jobId);
    if JobInWorkspace(jobs, workspaceId, jobId).Some? {
      var k := JobInWorkspace(jobs, workspaceId, jobId).value;
      forall i | 0 <= i < |jobs| && i != k ensures jobs[i].id != jobId {
        assert JobId(jobs[i]) != JobId(jobs[k]);
      }
    }
  }

  /** `requeue_job` on the worker's table. */
  method RequeueJob(q: JobQueue, principalWorkspace: string, workspaceId: string, jobId: string, now: int)
    returns (err: Option<HttpError>)
    requires q.Valid()
    modifies q
    ensures q.Valid()
    ensures (q.jobs, err) == RequeueOutcome(old(q.jobs), principalWorkspace, workspaceId, jobId, now)
  {
    err := WorkspaceAccess(principalWorkspace, workspaceId);
    if err.Some? {
      return;
    }
    var i := JobInWorkspace(q.jobs, workspaceId, jobId);
    if i.None? {
      return Some(HttpError(404, JobNotFound));
    }
    UpdateAt(q.jobs, i.value, Restarted(q.jobs[i.value], now));
    q.jobs := q.jobs[i.value := Restarted(q.jobs[i.value], now)];
  }

  /** `cancel_job` on the worker's table. */
  method CancelJob(q: JobQueue, principalWorkspace: string, workspaceId: string, jobId: string, now: int)
    returns (err: Option<HttpError>)
    requires q.Valid()
    modifies q
    ensures q.Valid()
    ensures (q.jobs, err) == CancelOutcome(old(q.jobs), principalWorkspace, workspaceId, jobId, now)
  {
    err := WorkspaceAccess(principalWorkspace, workspaceId);
    if err.Some? {
      return;
    }
    var i := JobInWorkspace(q.jobs, workspaceId, jobId);
    if i.None? {
      return Some(HttpError(404, JobNotFound));
    }
    if q.jobs[i.value].status != Queued {
      return Some(HttpError(400, CancelOnlyQueued));
    }
    var j := q.jobs[i.value].(status := Cancelled, finishedAt := Some(now));
    UpdateAt(q.jobs, i.value, j);
    q.jobs := q.jobs[i.value := j];
  }

  // ---------------------------------------------------------------------
  // `put_app_kbs`

  /** One requested binding, as the request body validates it. */
  datatype BindingItem = BindingItem(kbId: string, weight: real, priority: int, enabled: bool)

  /** A row of the `app_kbs` table. */
  datatype AppKbRow = AppKbRow(workspaceId: string, appId: string, kbId: string, weight: real, priority: int,
                               enabled: bool, createdAt: int)

  const AppNotFound := "app not found"
  const KbMissingPrefix := "kb \U{4E0D}\U{5B58}\U{5728}\U{FF1A}"

  predicate OfApp(row: AppKbRow, workspaceId: string, appId: string) {
    row.workspaceId == workspaceId && row.appId == appId
  }

  function RowOf(workspaceId: string, appId: string, b: BindingItem, now: int): AppKbRow {
    AppKbRow(workspaceId, appId, b.kbId, b.weight, b.priority, b.enabled, now)
  }

  function NewRows(workspaceId: string, appId: string, req: seq<BindingItem>, now: int): (r: seq<AppKbRow>)
    ensures |r| == |req|
  {
    seq(|req|, k requires 0 <= k < |req| => RowOf(workspaceId, appId, req[k], now))
  }

  /** The requested kb ids the workspace does not have, in request order. */
  function MissingKbs(req: seq<BindingItem>, kbsInWorkspace: set<string>): seq<string> {
    Filter(seq(|req|, k requires 0 <= k < |req| => req[k].kbId), id => id !in kbsInWorkspace)
  }

  /** The key of the table's unique constraint `uq_app_kbs_app_kb`. */
  function AppKbKey(row: AppKbRow): (string, string) { (row.appId, row.kbId) }

  /** The unique constraint holds: no kb is bound twice to one app. */
  predicate UniqueAppKb(rows: seq<AppKbRow>) {
    forall i, j :: 0 <= i < j < |rows| ==> AppKbKey(rows[i]) != AppKbKey(rows[j])
  }

  /** The table after the delete and the inserts, before the commit. */
  function Rebound(rows: seq<AppKbRow>, workspaceId: string, appId: string, req: seq<BindingItem>, now: int)
    : seq<AppKbRow>
  {
    Filter(rows, r => !OfApp(r, workspaceId, appId)) + NewRows(workspaceId, appId, req, now)
  }

  /** The answer to an exception the handler lets escape. */
  const InternalError := "Internal Server Error"

  /** The rows and the error `put_app_kbs` leaves. `appWorkspace` is the
      workspace of the app, None when there is no such app. A commit that
      breaks the unique constraint raises IntegrityError: the transaction is
      rolled back and the request fails with 500. */
  function PutAppKbsOutcome(rows: seq<AppKbRow>, principalWorkspace: string, workspaceId: string, appId: string,
                            appWorkspace: Option<string>, kbsInWorkspace: set<string>, req: seq<BindingItem>, now: int)
    : (seq<AppKbRow>, Option<HttpError>)
  {
    match WorkspaceAccess(principalWorkspace, workspaceId)
    case Some(e) => (rows, Some(e))
    case None =>
      if appWorkspace != Some(workspaceId) then (rows, Some(HttpError(404, AppNotFound)))
      else if MissingKbs(req, kbsInWorkspace) != [] then
        (rows, Some(HttpError(400, KbMissingPrefix + Join(MissingKbs(req, kbsInWorkspace), ","))))
      else if UniqueAppKb(Rebound(rows, workspaceId, appId, req, now)) then
        (Rebound(rows, workspaceId, appId, req, now), None)
      else (rows, Some(HttpError(500, InternalError)))
  }

  /** The `app_kbs` table. */
  class AppKbTable {
    var rows: seq<AppKbRow>

    constructor(initial: seq<AppKbRow>)
      ensures rows == initial
    {
      rows := initial;
    }

    /** `put_app_kbs`: checks the kb ids, deletes the app's bindings, then
        inserts one row per requested binding and commits, or rolls back
        when the commit breaks the unique constraint. */
    method PutAppKbs(principalWorkspace: string, workspaceId: string, appId: string, appWorkspace: Option<string>,
                     kbsInWorkspace: set<string>, req: seq<BindingItem>, now: int)
      returns (err: Option<HttpError>)
      modifies this
      ensures (rows, err) == PutAppKbsOutcome(old(rows), principalWorkspace, workspaceId, appId, appWorkspace,
                                             kbsInWorkspace, req, now)
    {
      err := WorkspaceAccess(principalWorkspace, workspaceId);
      if err.Some? {
        return;
      }
      if appWorkspace != Some(workspaceId) {
        return Some(HttpError(404, AppNotFound));
      }
      var missing := MissingKbs(req, kbsInWorkspace);
      if missing != [] {
        return Some(HttpError(400, KbMissingPrefix + Join(missing, ",")));
      }
      var before := rows;
      rows := Filter(rows, r => !OfApp(r, workspaceId, appId));
      var kept := rows;
      for k := 0 to |req|
        invariant rows == kept + NewRows(workspaceId, appId, req[..k], now)
      {
        assert NewRows(workspaceId, appId, req[..k + 1], now)
          == NewRows(workspaceId, appId, req[..k], now) + [RowOf(workspaceId, appId, req[k], now)];
        rows := rows + [RowOf(workspaceId, appId, req[k], now)];
      }
      assert req[..|req|] == req;
      if !UniqueAppKb(rows) {
        rows := before;
        return Some(HttpError(500, InternalError));
      }
    }
  }

  /** On success the app's bindings are exactly the requested ones, in order,
      every other app's rows are untouched, the unique constraint holds and
      no kb was requested twice; any failure changes nothing. 403 means no
      access to the workspace, 404 an app outside it, 400 (naming the missing
      ids) some requested kb outside it, and 500 a broken unique constraint. */
  lemma PutAppKbsSpec(rows: seq<AppKbRow>, principalWorkspace: string, workspaceId: string, appId: string,
                      appWorkspace: Option<string>, kbsInWorkspace: set<string>, req: seq<BindingItem>, now: int)
    ensures var (r, err) := PutAppKbsOutcome(rows, principalWorkspace, workspaceId, appId, appWorkspace, kbsInWorkspace, req, now);
      (err.Some? ==> r == rows)
      && (err.None? <==> WorkspaceAccess(principalWorkspace, workspaceId).None? && appWorkspace == Some(workspaceId)
                         && (forall k :: 0 <= k < |req| ==> req[k].kbId in kbsInWorkspace)
                         && UniqueAppKb(Rebound(rows, workspaceId, appId, req, now)))
      && (err.None? ==>
            Filter(r, x => OfApp(x, workspaceId, appId)) == NewRows(workspaceId, appId, req, now)
            && Filter(r, x => !OfApp(x, workspaceId, appId)) == Filter(rows, x => !OfApp(x, workspaceId, appId))
            && UniqueAppKb(r)
            && forall i, j :: 0 <= i < j < |req| ==> req[i].kbId != req[j].kbId)
    ensures var (r, err) := PutAppKbsOutcome(rows, principalWorkspace, workspaceId, appId, appWorkspace, kbsInWorkspace, req, now);
      var allowed := WorkspaceAccess(principalWorkspace, workspaceId).None?;
      (err.Some? && err.value.status == 403 <==> !allowed)
      && (err.Some? && err.value.status == 404 <==> allowed && appWorkspace != Some(workspaceId))
      && (err.Some? && err.value.status == 400 <==>
            allowed && appWorkspace == Some(workspaceId) && exists k :: 0 <= k < |req| && req[k].kbId !in kbsInWorkspace)
      && (err.Some? && err.value.status == 400 ==>
            err.value.detail == KbMissingPrefix + Join(MissingKbs(req, kbsInWorkspace), ","))
      && (err.Some? ==> err.value.status in {400, 403, 404, 500})
  {
    MissingKbsEmptyIff(req, kbsInWorkspace);
    var added := NewRows(workspaceId, appId, req, now);
    ReplaceAppRows(rows, workspaceId, appId, added);
    UniqueConcat(Filter(rows, x => !OfApp(x, workspaceId, appId)), added);
    NewRowsUnique(workspaceId, appId, req, now);
  }

  /** A request naming one kb twice passes the checks but fails at the
      commit with 500, and the table is left as it was. */
  lemma PutAppKbsDuplicateFails(rows: seq<AppKbRow>, principalWorkspace: string, workspaceId: string, appId: string,
                                kbsInWorkspace: set<string>, req: seq<BindingItem>, now: int, i: nat, j: nat)
    requires WorkspaceAccess(principalWorkspace, workspaceId).None?
    requires forall k :: 0 <= k < |req| ==> req[k].kbId in kbsInWorkspace
    requires i < j < |req| && req[i].kbId == req[j].kbId
    ensures PutAppKbsOutcome(rows, principalWorkspace, workspaceId, appId, Some(workspaceId), kbsInWorkspace, req, now)
         == (rows, Some(HttpError(500, InternalError)))
  {
    MissingKbsEmptyIff(req, kbsInWorkspace);
    var kept := Filter(rows, x => !OfApp(x, workspaceId, appId));
    var added := NewRows(workspaceId, appId, req, now);
    UniqueConcat(kept, added);
    NewRowsUnique(workspaceId, appId, req, now);
  }

  /** When the table met the constraint before, the commit succeeds exactly
      when the request names each kb once and no row of the same app id in
      another workspace already binds a requested kb. */
  lemma PutAppKbsCommit(rows: seq<AppKbRow>, workspaceId: string, appId: string, req: seq<BindingItem>, now: int)
    requires UniqueAppKb(rows)
    ensures UniqueAppKb(Rebound(rows, workspaceId, appId, req, now))
        <==> && (forall i, j :: 0 <= i < j < |req| ==> req[i].kbId != req[j].kbId)
             && (forall x, k :: x in rows && x.appId == appId && x.workspaceId != workspaceId && 0 <= k < |req|
                   ==> x.kbId != req[k].kbId)
  {
    var others := x => !OfApp(x, workspaceId, appId);
    var kept := Filter(rows, others);
    var added := NewRows(workspaceId, appId, req, now);
    assert DistinctBy(rows, AppKbKey);
    FilterDistinctBy(rows, others, AppKbKey);
    assert UniqueAppKb(kept);
    UniqueConcat(kept, added);
    NewRowsUnique(workspaceId, appId, req, now);
    forall x ensures x in kept <==> x in rows && others(x) {
      FilterMembers(rows, others, x);
    }
    if forall i, j :: 0 <= i < |kept| && 0 <= j < |added| ==> AppKbKey(kept[i]) != AppKbKey(added[j]) {
      forall x, k | x in rows && x.appId == appId && x.workspaceId != workspaceId && 0 <= k < |req|
        ensures x.kbId != req[k].kbId
      {
        var i :| 0 <= i < |kept| && kept[i] == x;
        assert AppKbKey(kept[i]) != AppKbKey(added[k]);
      }
    }
    if forall x, k :: x in rows && x.appId == appId && x.workspaceId != workspaceId && 0 <= k < |req|
         ==> x.kbId != req[k].kbId
    {
      forall i, j | 0 <= i < |kept| && 0 <= j < |added| ensures AppKbKey(kept[i]) != AppKbKey(added[j]) {
        assert kept[i] in kept;
        assert added[j] == RowOf(workspaceId, appId, req[j], now);
      }
    }
  }

  /** The constraint on a concatenation: on each part and across them. */
  lemma UniqueConcat(a: seq<AppKbRow>, b: seq<AppKbRow>)
    ensures UniqueAppKb(a + b) <==>
      && UniqueAppKb(a) && UniqueAppKb(b)
      && forall i, j :: 0 <= i < |a| && 0 <= j < |b| ==> AppKbKey(a[i]) != AppKbKey(b[j])
  {
    var c := a + b;
    if UniqueAppKb(c) {
      forall i, j | 0 <= i < j < |a| ensures AppKbKey(a[i]) != AppKbKey(a[j]) {
        assert c[i] == a[i] && c[j] == a[j];
      }
      forall i, j | 0 <= i < j < |b| ensures AppKbKey(b[i]) != AppKbKey(b[j]) {
        assert c[|a| + i] == b[i] && c[|a| + j] == b[j];
      }
      forall i, j | 0 <= i < |a| && 0 <= j < |b| ensures AppKbKey(a[i]) != AppKbKey(b[j]) {
        assert c[i] == a[i] && c[|a| + j] == b[j];
      }
    }
    if && UniqueAppKb(a) && UniqueAppKb(b)
       && forall i, j :: 0 <= i < |a| && 0 <= j < |b| ==> AppKbKey(a[i]) != AppKbKey(b[j])
    {
      forall i, j | 0 <= i < j < |c| ensures AppKbKey(c[i]) != AppKbKey(c[j]) {
        if j < |a| {
          assert c[i] == a[i] && c[j] == a[j];
        } else if i < |a| {
          assert c[i] == a[i] && c[j] == b[j - |a|];
        } else {
          assert c[i] == b[i - |a|] && c[j] == b[j - |a|];
        }
      }
    }
  }

  /** The inserted rows meet the constraint exactly when no kb id repeats. */
  lemma NewRowsUnique(workspaceId: string, appId: string, req: seq<BindingItem>, now: int)
    ensures UniqueAppKb(NewRows(workspaceId, appId, req, now))
        <==> forall i, j :: 0 <= i < j < |req| ==> req[i].kbId != req[j].kbId
  {
    var added := NewRows(workspaceId, appId, req, now);
    assert forall k :: 0 <= k < |req| ==> AppKbKey(added[k]) == (appId, req[k].kbId);
  }

  /** No kb is missing exactly when every requested kb is in the workspace. */
  lemma MissingKbsEmptyIff(req: seq<BindingItem>, kbsInWorkspace: set<string>)
    ensures MissingKbs(req, kbsInWorkspace) == [] <==> forall k :: 0 <= k < |req| ==> req[k].kbId in kbsInWorkspace
  {
    var ids := seq(|req|, k requires 0 <= k < |req| => req[k].kbId);
    var out := id => id !in kbsInWorkspace;
    forall k | 0 <= k < |req| ensures req[k].kbId !in kbsInWorkspace ==> MissingKbs(req, kbsInWorkspace) != [] {
      FilterMembers(ids, out, ids[k]);
    }
    if MissingKbs(req, kbsInWorkspace) != [] {
      var x := MissingKbs(req, kbsInWorkspace)[0];
      FilterMembers(ids, out, x);
    }
  }

  /** Dropping an app's rows and appending new rows of that app: the app's rows
      are the new ones and everyone else's rows are as they were. */
  lemma ReplaceAppRows(rows: seq<AppKbRow>, workspaceId: string, appId: string, added: seq<AppKbRow>)
    requires forall k :: 0 <= k < |added| ==> OfApp(added[k], workspaceId, appId)
    ensures var r := Filter(rows, x => !OfApp(x, workspaceId, appId)) + added;
      Filter(r, x => OfApp(x, workspaceId, appId)) == added
      && Filter(r, x => !OfApp(x, workspaceId, appId)) == Filter(rows, x => !OfApp(x, workspaceId, appId))
  {
    var mine := x => OfApp(x, workspaceId, appId);
    var others := x => !OfApp(x, workspaceId, appId);
    var kept := Filter(rows, others);
    FilterConcat(kept, added, mine);
    FilterConcat(kept, added, others);
    FilterExcluded(rows, others, mine);
    FilterAll(added, mine);
    FilterNone(added, others);
    FilterImplied(rows, others, others);
  }

  /** Filtering by q after filtering by p keeps nothing when q excludes p. */
  lemma FilterExcluded<T>(s: seq<T>, p: T -> bool, q: T -> bool)
    requires forall x :: p(x) ==> !q(x)
    ensures Filter(Filter(s, p), q) == []
  {
    var f := Filter(s, p);
    forall i | 0 <= i < |f| ensures !q(f[i]) {
      FilterMembers(s, p, f[i]);
    }
    FilterNone(f, q);
  }

  /** Filtering by q after filtering by p changes nothing when p implies q. */
  lemma FilterImplied<T>(s: seq<T>, p: T -> bool, q: T -> bool)
    requires forall x :: p(x) ==> q(x)
    ensures Filter(Filter(s, p), q) == Filter(s, p)
  {
    var f := Filter(s, p);
    forall i | 0 <= i < |f| ensures q(f[i]) {
      FilterMembers(s, p, f[i]);
    }
    FilterAll(f, q);
  }
}
