/** worker.py: the background worker's view of the `jobs` table. Jobs move
    queued -> running -> succeeded / failed / queued again (a retry), stale
    running jobs are put back in the queue, and every run counts an attempt in
    the `_meta` object of the job's progress. The table is an in-memory list of
    rows; SQL selection is a function over it and each session's commit is one
    assignment to the list. */
module WorkerJobs {
  import opened Wrappers
  import opened Text
  import opened Lists
  import opened Sorting
  import opened JsonValues

  type Progress = map<string, Json>

  datatype JobStatus = Queued | Running | Succeeded | Failed | Cancelled

  /** A row of the `jobs` table (models.py), with the columns the worker and
      the admin endpoints touch. Times are instants on one clock. */
  datatype Job = Job(
    id: string,
    workspaceId: string,
    jobType: string,
    status: JobStatus,
    progress: Progress,
    error: string,
    startedAt: int,
    finishedAt: Option<int>)

  function JobId(j: Job): string { j.id }

  const MetaKey := "_meta"

  /** `dict(progress.get("_meta") or {})`. */
  function MetaOf(p: Progress): map<string, Json> {
    if MetaKey in p && p[MetaKey].JObj? then p[MetaKey].fields else map[]
  }

  /** `int(meta.get("attempts") or default)`. */
  function AttemptsOr(p: Progress, default: int): Option<int> {
    var meta := MetaOf(p);
    if "attempts" !in meta || Falsy(meta["attempts"]) then Some(default) else IntOf(meta["attempts"])
  }

  /** `_merge_job_meta`: a copy of the progress whose `_meta` object also
      records the worker, the attempt count and the time of the update. */
  function MergeJobMeta(p: Progress, workerId: string, attempts: int, updatedAt: string): (r: Progress)
  {
    var meta := MetaOf(p)["worker_id" := JStr(workerId)]["attempts" := JInt(attempts)]["updated_at" := JStr(updatedAt)];
    p[MetaKey := JObj(meta)]
  }

  /** Merging keeps every other progress key and every other `_meta` key. */
  lemma MergeJobMetaKeeps(p: Progress, workerId: string, attempts: int, updatedAt: string)
    ensures forall k :: k in p && k != MetaKey ==> k in MergeJobMeta(p, workerId, attempts, updatedAt) && MergeJobMeta(p, workerId, attempts, updatedAt)[k] == p[k]
    ensures MergeJobMeta(p, workerId, attempts, updatedAt).Keys == p.Keys + {MetaKey}
    ensures forall k :: k in MetaOf(p) && k !in {"worker_id", "attempts", "updated_at"} ==>
      k in MetaOf(MergeJobMeta(p, workerId, attempts, updatedAt)) && MetaOf(MergeJobMeta(p, workerId, attempts, updatedAt))[k] == MetaOf(p)[k]
  {
  }

  /** Merging sets the three bookkeeping fields; reading the attempts back
      gives the recorded count (or the default, when the count is 0). */
  lemma MergeJobMetaSets(p: Progress, workerId: string, attempts: int, updatedAt: string, default: int)
    ensures MetaOf(MergeJobMeta(p, workerId, attempts, updatedAt)).Keys == MetaOf(p).Keys + {"worker_id", "attempts", "updated_at"}
    ensures MetaOf(MergeJobMeta(p, workerId, attempts, updatedAt))["worker_id"] == JStr(workerId)
    ensures MetaOf(MergeJobMeta(p, workerId, attempts, updatedAt))["updated_at"] == JStr(updatedAt)
    ensures AttemptsOr(MergeJobMeta(p, workerId, attempts, updatedAt), default) == Some(if attempts == 0 then default else attempts)
  {
  }

  // ---------------------------------------------------------------------
  // Lookup and update of one row

  /** `session.get(Job, id)`: the position of the row with this id. */
  function FindJob(jobs: seq<Job>, id: string): (r: Option<nat>)
    ensures r.Some? ==> r.value < |jobs| && jobs[r.value].id == id
    ensures r.None? ==> forall i :: 0 <= i < |jobs| ==> jobs[i].id != id
  {
    if jobs == [] then None
    else if jobs[0].id == id then Some(0)
    else
      match FindJob(jobs[1..], id)
      case Some(i) => Some(i + 1)
      case None => None
  }

  /** The table with the row whose id is `id` replaced by `j`. */
  function UpdateById(jobs: seq<Job>, id: string, j: Job): (r: seq<Job>)
  {
    seq(|jobs|, i requires 0 <= i < |jobs| => if jobs[i].id == id then j else jobs[i])
  }

  lemma UpdateAt(jobs: seq<Job>, i: nat, j: Job)
    requires DistinctBy(jobs, JobId) && i < |jobs| && j.id == jobs[i].id
    ensures jobs[i := j] == UpdateById(jobs, j.id, j)
    ensures DistinctBy(jobs[i := j], JobId)
  {
    assert forall k :: 0 <= k < |jobs| && k != i ==> JobId(jobs[k]) != JobId(jobs[i]);
  }

  // ---------------------------------------------------------------------
  // `_requeue_stale_jobs`

  /** Running jobs started before the threshold. */
  predicate IsStale(j: Job, threshold: int) {
    j.status == Running && j.startedAt < threshold
  }

  /** `ORDER BY started_at ASC`; rows with equal start times keep table order. */
  predicate ByStart(a: Job, b: Job) { a.startedAt < b.startedAt }

  lemma ByStartOrder()
    ensures StrictOrder(ByStart)
  {
  }

  const StaleBatch := 10
  const StaleNote := "\n[worker] \U{68C0}\U{6D4B}\U{5230}\U{4EFB}\U{52A1}\U{8FD0}\U{884C}\U{8D85}\U{65F6}\U{FF0C}\U{5DF2}\U{91CD}\U{65B0}\U{5165}\U{961F}"

  /** The stale rows in table order. */
  function StaleRows(jobs: seq<Job>, threshold: int): seq<Job> {
    Filter(jobs, j => IsStale(j, threshold))
  }

  lemma StaleRowsMembers(jobs: seq<Job>, threshold: int, x: Job)
    ensures x in StaleRows(jobs, threshold) <==> x in jobs && IsStale(x, threshold)
  {
    FilterMembers(jobs, j => IsStale(j, threshold), x);
  }

  /** The stale rows, oldest first. */
  function StaleCandidates(jobs: seq<Job>, threshold: int): seq<Job> {
    SortBy(StaleRows(jobs, threshold), ByStart)
  }

  /** The query of `_requeue_stale_jobs`: at most ten of the oldest stale rows. */
  function PickStale(jobs: seq<Job>, threshold: int): (r: seq<Job>)
    ensures |r| <= StaleBatch
  {
    Take(StaleCandidates(jobs, threshold), StaleBatch)
  }

  function IdsOf(s: seq<Job>): set<string> {
    set j | j in s :: j.id
  }

  /** A stale job back in the queue, with the note added to its error. */
  function Requeued(j: Job): Job {
    j.(status := Queued, error := Strip(j.error + StaleNote))
  }

  function RequeueAll(jobs: seq<Job>, ids: set<string>): (r: seq<Job>)
    ensures |r| == |jobs|
  {
    seq(|jobs|, i requires 0 <= i < |jobs| => if jobs[i].id in ids then Requeued(jobs[i]) else jobs[i])
  }

  /** The table after `_requeue_stale_jobs(stale_after_s)` at time `now`. */
  function RequeueStaleTable(jobs: seq<Job>, staleAfter: int, now: int): seq<Job> {
    if staleAfter <= 0 then jobs else RequeueAll(jobs, IdsOf(PickStale(jobs, now - staleAfter)))
  }

  /** The count `_requeue_stale_jobs` returns. */
  function RequeueStaleCount(jobs: seq<Job>, staleAfter: int, now: int): nat {
    if staleAfter <= 0 then 0 else |PickStale(jobs, now - staleAfter)|
  }

  lemma {:induction false} FilterDistinctBy<T, K>(s: seq<T>, p: T -> bool, key: T -> K)
    requires DistinctBy(s, key)
    ensures DistinctBy(Filter(s, p), key)
    decreases |s|
  {
    if s != [] {
      FilterDistinctBy(s[1..], p, key);
      var r := Filter(s, p);
      var rest := Filter(s[1..], p);
      if p(s[0]) {
        assert r == [s[0]] + rest;
        forall x | x in rest ensures key(x) != key(s[0]) {
          FilterMembers(s[1..], p, x);
        }
        assert forall i :: 1 <= i < |r| ==> r[i] in rest;
      }
    }
  }

  /** The picked rows are rows of the table, stale, with distinct ids. */
  lemma PickStaleRows(jobs: seq<Job>, threshold: int)
    requires DistinctBy(jobs, JobId)
    ensures DistinctBy(PickStale(jobs, threshold), JobId)
    ensures forall j :: j in PickStale(jobs, threshold) ==> j in jobs && IsStale(j, threshold)
  {
    var f := StaleRows(jobs, threshold);
    var c := StaleCandidates(jobs, threshold);
    FilterDistinctBy(jobs, j => IsStale(j, threshold), JobId);
    PermutationDistinctBy(f, c, JobId);
    forall j | j in PickStale(jobs, threshold) ensures j in jobs && IsStale(j, threshold) {
      assert j in c;
      MultisetMembership(c, f, j);
      StaleRowsMembers(jobs, threshold, j);
    }
  }

  lemma IdsOfSnoc(s: seq<Job>, k: nat)
    requires k < |s|
    ensures IdsOf(s[..k + 1]) == IdsOf(s[..k]) + {s[k].id}
  {
    assert s[..k + 1] == s[..k] + [s[k]];
  }

  /** One turn of the loop over the stale rows: requeueing the k-th picked row
      at its position extends the requeued set by its id. */
  lemma RequeueStep(jobs0: seq<Job>, stale: seq<Job>, k: nat, idx: nat)
    requires DistinctBy(jobs0, JobId) && DistinctBy(stale, JobId)
    requires k < |stale| && idx < |jobs0| && jobs0[idx].id == stale[k].id
    ensures var cur := RequeueAll(jobs0, IdsOf(stale[..k]));
      cur[idx := Requeued(cur[idx])] == RequeueAll(jobs0, IdsOf(stale[..k + 1]))
  {
    IdsOfSnoc(stale, k);
    assert stale[k].id !in IdsOf(stale[..k]) by {
      forall x | x in stale[..k] ensures x.id != stale[k].id {
        var m :| 0 <= m < k && stale[m] == x;
        assert JobId(stale[m]) != JobId(stale[k]);
      }
    }
    forall i | 0 <= i < |jobs0| && i != idx ensures jobs0[i].id != stale[k].id {
      assert JobId(jobs0[i]) != JobId(jobs0[idx]);
    }
  }

  /** The k-th picked row is found in the partly updated table. */
  lemma RequeueFind(jobs0: seq<Job>, stale: seq<Job>, k: nat)
    requires DistinctBy(jobs0, JobId) && k < |stale| && stale[k] in jobs0
    ensures FindJob(RequeueAll(jobs0, IdsOf(stale[..k])), stale[k].id).Some?
    ensures jobs0[FindJob(RequeueAll(jobs0, IdsOf(stale[..k])), stale[k].id).value].id == stale[k].id
  {
    var cur := RequeueAll(jobs0, IdsOf(stale[..k]));
    RequeueAllIds(jobs0, IdsOf(stale[..k]));
    var m :| 0 <= m < |jobs0| && jobs0[m] == stale[k];
    assert cur[m].id == stale[k].id;
  }

  /** One round of the requeue loop: the next stale row is found and requeued. */
  lemma RequeueNext(jobs0: seq<Job>, stale: seq<Job>, k: nat)
    requires DistinctBy(jobs0, JobId) && DistinctBy(stale, JobId) && k < |stale| && stale[k] in jobs0
    ensures var cur := RequeueAll(jobs0, IdsOf(stale[..k])); var f := FindJob(cur, stale[k].id);
      f.Some? && cur[f.value := Requeued(cur[f.value])] == RequeueAll(jobs0, IdsOf(stale[..k + 1]))
  {
    RequeueFind(jobs0, stale, k);
    var cur := RequeueAll(jobs0, IdsOf(stale[..k]));
    var idx := FindJob(cur, stale[k].id);
    RequeueStep(jobs0, stale, k, idx.value);
  }

  lemma RequeueAllIds(jobs: seq<Job>, ids: set<string>)
    requires DistinctBy(jobs, JobId)
    ensures DistinctBy(RequeueAll(jobs, ids), JobId)
    ensures forall i :: 0 <= i < |jobs| ==> RequeueAll(jobs, ids)[i].id == jobs[i].id
  {
    var r := RequeueAll(jobs, ids);
    forall i, j | 0 <= i < j < |r| ensures JobId(r[i]) != JobId(r[j]) {
      assert JobId(jobs[i]) != JobId(jobs[j]);
    }
  }

  /** With a non-positive age nothing is requeued. */
  lemma RequeueStaleDisabled(jobs: seq<Job>, staleAfter: int, now: int)
    requires staleAfter <= 0
    ensures RequeueStaleTable(jobs, staleAfter, now) == jobs && RequeueStaleCount(jobs, staleAfter, now) == 0
  {
  }

  /** At most ten rows move, the count says how many, every moved row was a
      running job older than the threshold and is now queued with the note
      appended, and every other row is unchanged. */
  lemma RequeueStaleSpec(jobs: seq<Job>, staleAfter: int, now: int)
    requires DistinctBy(jobs, JobId) && staleAfter > 0
    ensures RequeueStaleCount(jobs, staleAfter, now) <= StaleBatch
    ensures RequeueStaleCount(jobs, staleAfter, now) == |PickStale(jobs, now - staleAfter)|
    ensures DistinctBy(PickStale(jobs, now - staleAfter), JobId)
    ensures forall i :: 0 <= i < |jobs| ==>
      var r := RequeueStaleTable(jobs, staleAfter, now);
      if jobs[i].id in IdsOf(PickStale(jobs, now - staleAfter))
      then IsStale(jobs[i], now - staleAfter) && r[i] == jobs[i].(status := Queued, error := Strip(jobs[i].error + StaleNote))
      else r[i] == jobs[i]
  {
    var threshold := now - staleAfter;
    var picked := PickStale(jobs, threshold);
    PickStaleRows(jobs, threshold);
    forall i | 0 <= i < |jobs| && jobs[i].id in IdsOf(picked) ensures IsStale(jobs[i], threshold) {
      var x :| x in picked && x.id == jobs[i].id;
      var m :| 0 <= m < |jobs| && jobs[m] == x;
      SameIdSameRow(jobs, m, i);
    }
  }

  /** Two rows of a table with distinct ids that share an id are one row. */
  lemma SameIdSameRow(jobs: seq<Job>, a: nat, b: nat)
    requires DistinctBy(jobs, JobId) && a < |jobs| && b < |jobs| && jobs[a].id == jobs[b].id
    ensures a == b
  {
    assert a < b ==> JobId(jobs[a]) != JobId(jobs[b]);
    assert b < a ==> JobId(jobs[b]) != JobId(jobs[a]);
  }

  /** s[:n] holds every element before position n. */
  lemma TakeHolds<T>(c: seq<T>, n: nat, p: nat)
    requires p < |c|
    ensures p < n ==> c[p] in Take(c, n)
    ensures n <= p ==> |Take(c, n)| == n
  {
    if p < n { assert Take(c, n)[p] == c[p]; }
  }

  /** The oldest stale rows are the ones moved: a stale row left running means
      ten rows moved, none of them started later than it. */
  lemma RequeueStaleOldestFirst(jobs: seq<Job>, staleAfter: int, now: int, i: nat)
    requires DistinctBy(jobs, JobId) && staleAfter > 0
    requires i < |jobs| && IsStale(jobs[i], now - staleAfter)
    requires jobs[i].id !in IdsOf(PickStale(jobs, now - staleAfter))
    ensures RequeueStaleCount(jobs, staleAfter, now) == StaleBatch
    ensures forall x :: x in PickStale(jobs, now - staleAfter) ==> x.startedAt <= jobs[i].startedAt
  {
    var threshold := now - staleAfter;
    var f := StaleRows(jobs, threshold);
    StaleRowsMembers(jobs, threshold, jobs[i]);
    MultisetMembership(f, StaleCandidates(jobs, threshold), jobs[i]);
    ByStartOrder();
    SortBySorted(f, ByStart);
    assert jobs[i] !in PickStale(jobs, threshold);
    TakeOldest(StaleCandidates(jobs, threshold), StaleBatch, jobs[i]);
  }

  /** In a list sorted by start time, an element left out of s[:n] means s[:n]
      is full and started no later than it. */
  lemma TakeOldest(c: seq<Job>, n: nat, x: Job)
    requires Sorted(c, ByStart) && x in c && x !in Take(c, n)
    ensures |Take(c, n)| == n
    ensures forall y :: y in Take(c, n) ==> y.startedAt <= x.startedAt
  {
    var p :| 0 <= p < |c| && c[p] == x;
    TakeHolds(c, n, p);
    forall y | y in Take(c, n) ensures y.startedAt <= x.startedAt {
      var m :| 0 <= m < n && c[m] == y;
      SortedPrefix(c, ByStart, n, m, p);
    }
  }

  // ---------------------------------------------------------------------
  // `_claim_next_job`

  predicate IsQueued(j: Job) { j.status == Queued }

  /** The query of `_claim_next_job`: the queued row started first. */
  function ClaimCandidate(jobs: seq<Job>): Option<Job> {
    var q := SortBy(Filter(jobs, IsQueued), ByStart);
    if q == [] then None else Some(q[0])
  }

  /** The claimed row: running from now, with its error cleared. */
  function Claimed(j: Job, now: int): Job {
    j.(status := Running, startedAt := now, error := "")
  }

  function ClaimTable(jobs: seq<Job>, now: int): seq<Job> {
    match ClaimCandidate(jobs)
    case None => jobs
    case Some(c) => UpdateById(jobs, c.id, Claimed(c, now))
  }

  /** Nothing is claimed exactly when no job is queued; the claimed job is a
      queued row of the table that started no later than any other queued row. */
  lemma ClaimCandidateSpec(jobs: seq<Job>)
    ensures ClaimCandidate(jobs).None? <==> forall i :: 0 <= i < |jobs| ==> jobs[i].status != Queued
    ensures ClaimCandidate(jobs).Some? ==>
      var c := ClaimCandidate(jobs).value;
      c in jobs && c.status == Queued && forall i :: 0 <= i < |jobs| && jobs[i].status == Queued ==> c.startedAt <= jobs[i].startedAt
  {
    var f := Filter(jobs, IsQueued);
    var q := SortBy(f, ByStart);
    forall i | 0 <= i < |jobs| && jobs[i].status == Queued ensures jobs[i] in q {
      FilterMembers(jobs, IsQueued, jobs[i]);
      MultisetMembership(f, q, jobs[i]);
    }
    if q != [] {
      MultisetMembership(f, q, q[0]);
      FilterMembers(jobs, IsQueued, q[0]);
      ByStartOrder();
      SortBySorted(f, ByStart);
      forall i | 0 <= i < |jobs| && jobs[i].status == Queued ensures q[0].startedAt <= jobs[i].startedAt {
        var m :| 0 <= m < |q| && q[m] == jobs[i];
        if m > 0 { assert !ByStart(q[m], q[0]); }
      }
    }
  }

  /** Claiming changes the claimed row only, and only its status, start time
      and error; with no queued job the table is unchanged. */
  lemma ClaimTableSpec(jobs: seq<Job>, now: int)
    requires DistinctBy(jobs, JobId)
    ensures ClaimCandidate(jobs).None? ==> ClaimTable(jobs, now) == jobs
    ensures ClaimCandidate(jobs).Some? ==> forall i :: 0 <= i < |jobs| ==>
      ClaimTable(jobs, now)[i] == if jobs[i] == ClaimCandidate(jobs).value
        then jobs[i].(status := Running, startedAt := now, error := "") else jobs[i]
  {
    ClaimCandidateSpec(jobs);
    if ClaimCandidate(jobs).Some? {
      var c := ClaimCandidate(jobs).value;
      var m :| 0 <= m < |jobs| && jobs[m] == c;
      forall i | 0 <= i < |jobs| ensures jobs[i].id == c.id <==> jobs[i] == c {
        if i != m { assert JobId(jobs[i]) != JobId(jobs[m]); }
      }
    }
  }

  // ---------------------------------------------------------------------
  // `_process_job`

  /** What the crawl or index handler did: returned a result dict, or raised
      an exception whose str() is `message`. */
  datatype HandlerOutcome = Completed(result: Progress) | Raised(message: string)

  const UnknownTypePrefix := "\U{672A}\U{77E5} job.type: "

  /** Only "crawl" and "index" jobs reach a handler; any other type raises. */
  function Dispatch(jobType: string, handled: HandlerOutcome): HandlerOutcome {
    if jobType == "crawl" || jobType == "index" then handled else Raised(UnknownTypePrefix + jobType)
  }

  /** The first session: one more attempt recorded in `_meta`; None where
      int() on the stored count raises and nothing is committed. */
  function StartAttempt(j: Job, workerId: string, updatedAt: string): Option<Job> {
    match AttemptsOr(j.progress, 0)
    case None => None
    case Some(a) => Some(j.(progress := MergeJobMeta(j.progress, workerId, a + 1, updatedAt)))
  }

  /** The last session as written: `err = str(e)` and `if err:`, so an
      exception whose message is empty is recorded as a success. */
  function FinalizeAsWritten(j: Job, outcome: HandlerOutcome, workerId: string, maxAttempts: int,
                             now: int, updatedAt: string): Option<Job>
  {
    match AttemptsOr(j.progress, 1)
    case None => None
    case Some(attempts) =>
      if outcome.Raised? && outcome.message != [] then Some(FailedRun(j, outcome.message, attempts, maxAttempts, now))
      else Some(SucceededRun(j, if outcome.Completed? then outcome.result else map[], workerId, attempts, now, updatedAt))
  }

  /** The last session as intended: every raised exception takes the error path. */
  function Finalize(j: Job, outcome: HandlerOutcome, workerId: string, maxAttempts: int,
                    now: int, updatedAt: string): Option<Job>
  {
    match AttemptsOr(j.progress, 1)
    case None => None
    case Some(attempts) =>
      match outcome
      case Raised(message) => Some(FailedRun(j, message, attempts, maxAttempts, now))
      case Completed(result) => Some(SucceededRun(j, result, workerId, attempts, now, updatedAt))
  }

  /** An error: queued for a retry while attempts remain, failed otherwise. */
  function FailedRun(j: Job, message: string, attempts: int, maxAttempts: int, now: int): Job {
    if maxAttempts > 0 && attempts < maxAttempts then j.(error := message, status := Queued)
    else j.(error := message, status := Failed, finishedAt := Some(now))
  }

  function SucceededRun(j: Job, result: Progress, workerId: string, attempts: int, now: int, updatedAt: string): Job {
    j.(status := Succeeded, finishedAt := Some(now), progress := MergeJobMeta(result, workerId, attempts, updatedAt))
  }

  /** The table after `_process_job(job_id)`, the handler's outcome given. */
  function ProcessTable(jobs: seq<Job>, jobId: string, workerId: string, maxAttempts: int, handled: HandlerOutcome,
                        startedIso: string, now: int, finishedIso: string): seq<Job>
  {
    match FindJob(jobs, jobId)
    case None => jobs
    case Some(i) =>
      if jobs[i].status != Running then jobs
      else
        match StartAttempt(jobs[i], workerId, startedIso)
        case None => jobs
        case Some(j1) =>
          match Finalize(j1, Dispatch(j1.jobType, handled), workerId, maxAttempts, now, finishedIso)
          case None => jobs[i := j1]
          case Some(j2) => jobs[i := j2]
  }

  /** A job that is missing or not running is left alone. */
  lemma ProcessOnlyRunning(jobs: seq<Job>, jobId: string, workerId: string, maxAttempts: int, handled: HandlerOutcome,
                           startedIso: string, now: int, finishedIso: string)
    requires forall i :: 0 <= i < |jobs| && jobs[i].id == jobId ==> jobs[i].status != Running
    ensures ProcessTable(jobs, jobId, workerId, maxAttempts, handled, startedIso, now, finishedIso) == jobs
  {
  }

  /** The first session adds exactly one to the recorded attempt count. */
  lemma StartAttemptCounts(j: Job, workerId: string, updatedAt: string)
    ensures AttemptsOr(j.progress, 0).Some? <==> StartAttempt(j, workerId, updatedAt).Some?
    ensures AttemptsOr(j.progress, 0).Some? ==>
      AttemptsOr(StartAttempt(j, workerId, updatedAt).value.progress, 1) ==
        Some(if AttemptsOr(j.progress, 0).value + 1 == 0 then 1 else AttemptsOr(j.progress, 0).value + 1)
    ensures AttemptsOr(j.progress, 0).Some? ==> StartAttempt(j, workerId, updatedAt).value.(progress := j.progress) == j
  {
    if AttemptsOr(j.progress, 0).Some? {
      var a := AttemptsOr(j.progress, 0).value;
      MergeJobMetaSets(j.progress, workerId, a + 1, updatedAt, 1);
    }
  }

  /** The final status as written: an error with attempts left requeues
      without touching finished_at, any other error fails the job at `now`,
      and a success marks it succeeded at `now` with the result plus `_meta`
      as its progress; an exception with an empty message counts as a
      success with an empty result. */
  lemma FinalizeCases(j: Job, outcome: HandlerOutcome, workerId: string, maxAttempts: int, now: int, updatedAt: string,
                      attempts: int)
    requires AttemptsOr(j.progress, 1) == Some(attempts)
    ensures outcome.Raised? && outcome.message != "" && maxAttempts > 0 && attempts < maxAttempts ==>
      FinalizeAsWritten(j, outcome, workerId, maxAttempts, now, updatedAt) == Some(j.(status := Queued, error := outcome.message))
    ensures outcome.Raised? && outcome.message != "" && !(maxAttempts > 0 && attempts < maxAttempts) ==>
      FinalizeAsWritten(j, outcome, workerId, maxAttempts, now, updatedAt)
        == Some(j.(status := Failed, error := outcome.message, finishedAt := Some(now)))
    ensures outcome == Raised("") ==> (FinalizeAsWritten(j, outcome, workerId, maxAttempts, now, updatedAt) ==
      Some(j.(status := Succeeded, finishedAt := Some(now), progress := MergeJobMeta(map[], workerId, attempts, updatedAt))))
    ensures outcome.Completed? ==> (FinalizeAsWritten(j, outcome, workerId, maxAttempts, now, updatedAt) ==
      Some(j.(status := Succeeded, finishedAt := Some(now), progress := MergeJobMeta(outcome.result, workerId, attempts, updatedAt))))
  {
  }

  /** A job of an unknown type never succeeds: its error names the type. */
  lemma UnknownTypeFails(j: Job, handled: HandlerOutcome, workerId: string, maxAttempts: int, now: int, updatedAt: string)
    requires j.jobType != "crawl" && j.jobType != "index"
    requires AttemptsOr(j.progress, 1).Some?
    ensures var r := FinalizeAsWritten(j, Dispatch(j.jobType, handled), workerId, maxAttempts, now, updatedAt);
      r.Some? && r.value.status in {Queued, Failed} && r.value.error == UnknownTypePrefix + j.jobType
  {
  }

  /** The intended finalisation differs from the code only for an exception
      with an empty message. */
  lemma FinalizeAgrees(j: Job, outcome: HandlerOutcome, workerId: string, maxAttempts: int, now: int, updatedAt: string)
    requires outcome != Raised("")
    ensures FinalizeAsWritten(j, outcome, workerId, maxAttempts, now, updatedAt) == Finalize(j, outcome, workerId, maxAttempts, now, updatedAt)
  {
  }

  /** As written, a handler that raises an exception with an empty message
      (asyncio.TimeoutError, for one) leaves the job succeeded. */
  lemma EmptyErrorSucceeds(j: Job, workerId: string, maxAttempts: int, now: int, updatedAt: string)
    requires AttemptsOr(j.progress, 1).Some?
    ensures FinalizeAsWritten(j, Raised(""), workerId, maxAttempts, now, updatedAt).value.status == Succeeded
  {
  }

  /** As intended, a raised exception never marks the job succeeded. */
  lemma RaisedNeverSucceeds(j: Job, message: string, workerId: string, maxAttempts: int, now: int, updatedAt: string)
    requires AttemptsOr(j.progress, 1).Some?
    ensures Finalize(j, Raised(message), workerId, maxAttempts, now, updatedAt).value.status != Succeeded
    ensures Finalize(j, Raised(message), workerId, maxAttempts, now, updatedAt).value.error == message
  {
  }

  /** Processing touches only the processed row and keeps every id. */
  lemma ProcessOthersUnchanged(jobs: seq<Job>, jobId: string, workerId: string, maxAttempts: int, handled: HandlerOutcome,
                               startedIso: string, now: int, finishedIso: string)
    requires DistinctBy(jobs, JobId)
    ensures var r := ProcessTable(jobs, jobId, workerId, maxAttempts, handled, startedIso, now, finishedIso);
      |r| == |jobs| && DistinctBy(r, JobId) &&
      forall i :: 0 <= i < |jobs| ==> r[i].id == jobs[i].id && (jobs[i].id != jobId ==> r[i] == jobs[i])
  {
    var r := ProcessTable(jobs, jobId, workerId, maxAttempts, handled, startedIso, now, finishedIso);
    match FindJob(jobs, jobId)
    case None =>
    case Some(i) =>
      forall k | 0 <= k < |jobs| && k != i ensures jobs[k].id != jobId {
        assert JobId(jobs[k]) != JobId(jobs[i]);
      }
      if jobs[i].status == Running && StartAttempt(jobs[i], workerId, startedIso).Some? {
        var j1 := StartAttempt(jobs[i], workerId, startedIso).value;
        UpdateAt(jobs, i, j1);
        match Finalize(j1, Dispatch(j1.jobType, handled), workerId, maxAttempts, now, finishedIso)
        case None =>
        case Some(j2) =>
          UpdateAt(jobs, i, j2);
      }
  }

  /** The worker's in-memory `jobs` table. */
  class JobQueue {
    var jobs: seq<Job>

    ghost predicate Valid()
      reads this
    {
      DistinctBy(jobs, JobId)
    }

    constructor(rows: seq<Job>)
      requires DistinctBy(rows, JobId)
      ensures Valid() && jobs == rows
    {
      jobs := rows;
    }

    /** `_requeue_stale_jobs`: puts the picked stale rows back in the queue,
        one at a time, and returns how many it moved. */
    method RequeueStale(staleAfter: int, now: int) returns (count: nat)
      requires Valid()
      modifies this
      ensures Valid()
      ensures jobs == RequeueStaleTable(old(jobs), staleAfter, now)
      ensures count == RequeueStaleCount(old(jobs), staleAfter, now)
    {
      if staleAfter <= 0 {
        return 0;
      }
      var stale := PickStale(jobs, now - staleAfter);
      PickStaleRows(jobs, now - staleAfter);
      RequeueRows(stale);
      count := |stale|;
    }

    /** The loop of `_requeue_stale_jobs` over the picked rows. */
    method RequeueRows(stale: seq<Job>)
      requires Valid() && DistinctBy(stale, JobId) && forall j :: j in stale ==> j in jobs
      modifies this
      ensures Valid()
      ensures jobs == RequeueAll(old(jobs), IdsOf(stale))
    {
      var jobs0 := jobs;
      assert stale[..0] == [];
      var k := 0;
      while k < |stale|
        invariant 0 <= k <= |stale|
        invariant jobs == RequeueAll(jobs0, IdsOf(stale[..k]))
      {
        assert stale[k] in stale;
        RequeueNext(jobs0, stale, k);
        var idx := FindJob(jobs, stale[k].id);
        jobs := jobs[idx.value := Requeued(jobs[idx.value])];
        k := k + 1;
      }
      assert stale[..k] == stale;
      RequeueAllIds(jobs0, IdsOf(stale));
    }

    /** `_claim_next_job`: the id of the claimed row, which is now running. */
    method ClaimNext(now: int) returns (claimed: Option<string>)
      requires Valid()
      modifies this
      ensures Valid()
      ensures jobs == ClaimTable(old(jobs), now)
      ensures claimed == match ClaimCandidate(old(jobs)) case None => None case Some(c) => Some(c.id)
    {
      var c := ClaimCandidate(jobs);
      if c.None? {
        return None;
      }
      ClaimCandidateSpec(jobs);
      var idx := FindJob(jobs, c.value.id);
      UpdateAt(jobs, idx.value, Claimed(jobs[idx.value], now));
      assert jobs[idx.value] == c.value by {
        var m :| 0 <= m < |jobs| && jobs[m] == c.value;
        if m != idx.value { assert JobId(jobs[m]) != JobId(jobs[idx.value]); }
      }
      jobs := jobs[idx.value := Claimed(jobs[idx.value], now)];
      claimed := Some(c.value.id);
    }

    /** `_process_job`: records the attempt, then settles the final status
        from the handler's outcome. */
    method ProcessJob(jobId: string, workerId: string, maxAttempts: int, handled: HandlerOutcome,
                      startedIso: string, now: int, finishedIso: string)
      requires Valid()
      modifies this
      ensures Valid()
      ensures jobs == ProcessTable(old(jobs), jobId, workerId, maxAttempts, handled, startedIso, now, finishedIso)
    {
      ProcessOthersUnchanged(jobs, jobId, workerId, maxAttempts, handled, startedIso, now, finishedIso);
      var idx := FindJob(jobs, jobId);
      if idx.None? || jobs[idx.value].status != Running {
        return;
      }
      var i := idx.value;
      var started := StartAttempt(jobs[i], workerId, startedIso);
      if started.None? {
        return;
      }
      jobs := jobs[i := started.value];
      var outcome := Dispatch(jobs[i].jobType, handled);
      var final := Finalize(jobs[i], outcome, workerId, maxAttempts, now, finishedIso);
      if final.Some? {
        jobs := jobs[i := final.value];
      }
    }
  }
}
