/** `runSnapshot`: run every job in order, each in its own try/catch,
    collecting the `ok` and `errs` lists that the summary mail reports. */
module Runner {
  import opened Wrappers
  import opened Coercion
  import opened Config
  import opened Athena
  import opened Schema
  import opened Loader
  import opened SqlServer
  import opened Seqs

  /** Why a job ended up in `errs`. */
  datatype JobError =
    | FetchFailed(fetch: FetchError)
    | LoadFailed(load: LoadError)
    | SummaryUndefined  // the load returned nothing and `res.inserted` threw

  /** `{ name, ...res }`; `summary` is None when `res` was undefined. */
  datatype OkEntry = OkEntry(name: string, summary: Option<LoadSummary>)

  datatype ErrEntry = ErrEntry(name: string, error: JobError)

  datatype RunReport = RunReport(ok: seq<OkEntry>, errs: seq<ErrEntry>, tables: Tables)

  /** One pass of the job loop: the entries it pushes and the warehouse
      afterwards. */
  function RunJob(rt: Runtime, tables: Tables, job: Job, remote: Remote, today: int)
    : (r: (seq<OkEntry>, seq<ErrEntry>, Tables))
    ensures |r.0| <= 1 && |r.1| <= 1 && 1 <= |r.0| + |r.1|
    ensures r.0 != [] && r.1 != [] <==>
      r.0 == [OkEntry(job.name, None)] && r.1 == [ErrEntry(job.name, SummaryUndefined)]
    ensures r.2.Keys == tables.Keys
    ensures r.1 != [] && r.1[0].error != SummaryUndefined && r.1[0].error != LoadFailed(BulkRejected(job.destination)) ==>
      r.0 == [] && r.2 == tables
    ensures r.1 == [ErrEntry(job.name, LoadFailed(BulkRejected(job.destination)))] ==>
      r.0 == [] && job.destination in tables && r.2 == DeleteDay(tables, job.destination, today)
    ensures FetchOutcome(remote).Failure? ==> r == ([], [ErrEntry(job.name, FetchFailed(FetchOutcome(remote).error))], tables)
    ensures r.0 != [] && r.0[0].summary.Some? ==>
      r.1 == [] && r.0[0].name == job.name && r.0[0].summary.value.table == job.destination
  {
    match FetchOutcome(remote)
    case Failure(e) => ([], [ErrEntry(job.name, FetchFailed(e))], tables)
    case Success(rows) =>
      var step := Load(rt, tables, rows, job.destination, job.fieldMappings, today);
      match step.result
      case Failure(e) => ([], [ErrEntry(job.name, LoadFailed(e))], step.tables)
      case Success(None) => ([OkEntry(job.name, None)], [ErrEntry(job.name, SummaryUndefined)], step.tables)
      case Success(Some(s)) => ([OkEntry(job.name, Some(s))], [], step.tables)
  }

  /** The whole loop over `jobs`: the i-th job's query is answered by
      `remotes[i]`, and its load reads the clock as day `days[i]`. */
  function RunJobs(rt: Runtime, tables: Tables, jobs: seq<Job>, remotes: seq<Remote>, days: seq<int>): (r: RunReport)
    requires |remotes| == |jobs| && |days| == |jobs|
    ensures |r.ok| <= |jobs| && |r.errs| <= |jobs|
    ensures r.tables.Keys == tables.Keys
    decreases |jobs|
  {
    if jobs == [] then RunReport([], [], tables)
    else
      var n := |jobs| - 1;
      var prev := RunJobs(rt, tables, jobs[..n], remotes[..n], days[..n]);
      var (ok, errs, after) := RunJob(rt, prev.tables, jobs[n], remotes[n], days[n]);
      RunReport(prev.ok + ok, prev.errs + errs, after)
  }

  /** The body of the job loop: fetch, load, and record the outcome. */
  method RunOneJob(w: Warehouse, rt: Runtime, job: Job, remote: Remote, today: int)
    returns (ok: seq<OkEntry>, errs: seq<ErrEntry>)
    modifies w
    ensures (ok, errs, w.tables) == RunJob(rt, old(w.tables), job, remote, today)
  {
    var fetched, sleeps := FetchAllResults(remote);
    if fetched.Failure? {
      return [], [ErrEntry(job.name, FetchFailed(fetched.error))];
    }
    var res, sent := w.BulkInsertToSql(rt, fetched.value, job.destination, job.fieldMappings, today);
    match res
    case Failure(e) =>
      ok, errs := [], [ErrEntry(job.name, LoadFailed(e))];
    case Success(None) =>
      ok, errs := [OkEntry(job.name, None)], [ErrEntry(job.name, SummaryUndefined)];
    case Success(Some(s)) =>
      ok, errs := [OkEntry(job.name, Some(s))], [];
  }

  /** `runSnapshot()`. Each load reads the clock itself, so the i-th job's
      day is `days[i]`. The sleeps of the poll loops are not reported. */
  method RunSnapshot(w: Warehouse, rt: Runtime, jobs: seq<Job>, remotes: seq<Remote>, days: seq<int>)
    returns (ok: seq<OkEntry>, errs: seq<ErrEntry>)
    requires |remotes| == |jobs| && |days| == |jobs|
    modifies w
    ensures RunReport(ok, errs, w.tables) == RunJobs(rt, old(w.tables), jobs, remotes, days)
  {
    ok := [];
    errs := [];
    var i := 0;
    while i < |jobs|
      invariant 0 <= i <= |jobs|
      invariant RunReport(ok, errs, w.tables) == RunJobs(rt, old(w.tables), jobs[..i], remotes[..i], days[..i])
    {
      RunJobsPrefixStep(rt, old(w.tables), jobs, remotes, days, i);
      var jobOk, jobErrs := RunOneJob(w, rt, jobs[i], remotes[i], days[i]);
      ok := ok + jobOk;
      errs := errs + jobErrs;
      i := i + 1;
    }
    assert jobs[..i] == jobs && remotes[..i] == remotes && days[..i] == days;
  }

  /* ---------- lemmas ---------- */


  /** One more job only appends to the entries of the jobs before it. */
  lemma RunJobsGrows(rt: Runtime, tables: Tables, jobs: seq<Job>, remotes: seq<Remote>, days: seq<int>)
    requires |remotes| == |jobs| && |days| == |jobs| && jobs != []
    ensures var n := |jobs| - 1;
      var prev := RunJobs(rt, tables, jobs[..n], remotes[..n], days[..n]);
      var all := RunJobs(rt, tables, jobs, remotes, days);
      prev.ok <= all.ok && prev.errs <= all.errs
  {
    var n := |jobs| - 1;
    var prev := RunJobs(rt, tables, jobs[..n], remotes[..n], days[..n]);
    var r := RunJob(rt, prev.tables, jobs[n], remotes[n], days[n]);
    PrefixOfAppend(prev.ok, r.0);
    PrefixOfAppend(prev.errs, r.1);
  }

  /** Later jobs only append: the entries of the first k jobs are a prefix
      of the entries of the whole run. */
  lemma {:induction false} RunJobsAppendOnly(rt: Runtime, tables: Tables, jobs: seq<Job>, remotes: seq<Remote>,
                                            days: seq<int>, k: nat)
    requires |remotes| == |jobs| && |days| == |jobs| && k <= |jobs|
    ensures var part := RunJobs(rt, tables, jobs[..k], remotes[..k], days[..k]);
      var all := RunJobs(rt, tables, jobs, remotes, days);
      part.ok <= all.ok && part.errs <= all.errs
    decreases |jobs|
  {
    if k == |jobs| {
      TakeAll(jobs);
      TakeAll(remotes);
      TakeAll(days);
    } else {
      var n := |jobs| - 1;
      RunJobsAppendOnly(rt, tables, jobs[..n], remotes[..n], days[..n], k);
      TakeTake(jobs, n, k);
      TakeTake(remotes, n, k);
      TakeTake(days, n, k);
      RunJobsGrows(rt, tables, jobs, remotes, days);
      var part := RunJobs(rt, tables, jobs[..k], remotes[..k], days[..k]);
      var prev := RunJobs(rt, tables, jobs[..n], remotes[..n], days[..n]);
      var all := RunJobs(rt, tables, jobs, remotes, days);
      PrefixTrans(part.ok, prev.ok, all.ok);
      PrefixTrans(part.errs, prev.errs, all.errs);
    }
  }

  function CountUndefined(errs: seq<ErrEntry>): nat {
    if errs == [] then 0
    else CountUndefined(errs[..|errs| - 1]) + (if errs[|errs| - 1].error == SummaryUndefined then 1 else 0)
  }

  lemma {:induction false} CountUndefinedAppend(a: seq<ErrEntry>, b: seq<ErrEntry>)
    requires |b| <= 1
    ensures CountUndefined(a + b) == CountUndefined(a) + CountUndefined(b)
  {
    if b != [] {
      assert (a + b)[..|a + b| - 1] == a;
      assert b[..0] == [];
    } else {
      assert a + b == a;
    }
  }

  /** Every job leaves exactly one entry, except a job whose load returned
      nothing, which leaves one in each list. */
  lemma {:induction false} RunJobsCounts(rt: Runtime, tables: Tables, jobs: seq<Job>, remotes: seq<Remote>, days: seq<int>)
    requires |remotes| == |jobs| && |days| == |jobs|
    ensures var r := RunJobs(rt, tables, jobs, remotes, days);
      |r.ok| + |r.errs| == |jobs| + CountUndefined(r.errs)
    decreases |jobs|
  {
    if jobs != [] {
      var n := |jobs| - 1;
      var prev := RunJobs(rt, tables, jobs[..n], remotes[..n], days[..n]);
      RunJobsCounts(rt, tables, jobs[..n], remotes[..n], days[..n]);
      var r := RunJob(rt, prev.tables, jobs[n], remotes[n], days[n]);
      var all := RunJobs(rt, tables, jobs, remotes, days);
      assert all.ok == prev.ok + r.0 && all.errs == prev.errs + r.1;
      JobCount(rt, prev.tables, jobs[n], remotes[n], days[n]);
      CountUndefinedAppend(prev.errs, r.1);
    }
  }

  /** One job leaves one entry, or one in each list when its load returned nothing. */
  lemma JobCount(rt: Runtime, tables: Tables, job: Job, remote: Remote, today: int)
    ensures var r := RunJob(rt, tables, job, remote, today);
      |r.0| + |r.1| == 1 + CountUndefined(r.1)
  {
    var r := RunJob(rt, tables, job, remote, today);
    if r.1 != [] {
      assert r.1[..0] == [];
    }
  }

  /** Running one more job after a list of jobs. */
  lemma RunJobsSnoc(rt: Runtime, tables: Tables, jobs: seq<Job>, remotes: seq<Remote>, days: seq<int>,
                    job: Job, remote: Remote, day: int)
    requires |remotes| == |jobs| && |days| == |jobs|
    ensures var prev := RunJobs(rt, tables, jobs, remotes, days);
      var r := RunJob(rt, prev.tables, job, remote, day);
      RunJobs(rt, tables, jobs + [job], remotes + [remote], days + [day]) == RunReport(prev.ok + r.0, prev.errs + r.1, r.2)
  {
    assert (jobs + [job])[..|jobs|] == jobs && (remotes + [remote])[..|jobs|] == remotes;
    assert (days + [day])[..|jobs|] == days;
  }

  lemma FailedFetchLast(rt: Runtime, tables: Tables, before: seq<Job>, rb: seq<Remote>, db: seq<int>,
                        job: Job, remote: Remote, day: int)
    requires |rb| == |before| && |db| == |before|
    requires FetchOutcome(remote).Failure?
    ensures var all := RunJobs(rt, tables, before + [job], rb + [remote], db + [day]);
      var prev := RunJobs(rt, tables, before, rb, db);
      all == RunReport(prev.ok, prev.errs + [ErrEntry(job.name, FetchFailed(FetchOutcome(remote).error))], prev.tables)
  {
    RunJobsSnoc(rt, tables, before, rb, db, job, remote, day);
  }

  /** `all` is `skip` with `entry` inserted right after `head`. */
  predicate OneMoreAfter(all: seq<ErrEntry>, skip: seq<ErrEntry>, head: seq<ErrEntry>, entry: ErrEntry) {
    head <= skip && all == head + [entry] + skip[|head|..]
  }

  /** Appending the same entries to two error lists that differ by one
      entry after a common head keeps them so. */
  lemma ErrorsStillDiffer(all: seq<ErrEntry>, skip: seq<ErrEntry>, head: seq<ErrEntry>, entry: ErrEntry,
                          more: seq<ErrEntry>)
    requires OneMoreAfter(all, skip, head, entry)
    ensures OneMoreAfter(all + more, skip + more, head, entry)
  {
    assert (skip + more)[|head|..] == skip[|head|..] + more;
    PrefixTrans(head, skip, skip + more);
  }

  /** Running the first i + 1 jobs is running the first i, then job i. */
  lemma RunJobsPrefixStep(rt: Runtime, tables: Tables, jobs: seq<Job>, remotes: seq<Remote>, days: seq<int>, i: nat)
    requires |remotes| == |jobs| && |days| == |jobs| && i < |jobs|
    ensures var prev := RunJobs(rt, tables, jobs[..i], remotes[..i], days[..i]);
      var r := RunJob(rt, prev.tables, jobs[i], remotes[i], days[i]);
      RunJobs(rt, tables, jobs[..i + 1], remotes[..i + 1], days[..i + 1]) == RunReport(prev.ok + r.0, prev.errs + r.1, r.2)
  {
    assert jobs[..i] + [jobs[i]] == jobs[..i + 1] && remotes[..i] + [remotes[i]] == remotes[..i + 1];
    assert days[..i] + [days[i]] == days[..i + 1];
    RunJobsSnoc(rt, tables, jobs[..i], remotes[..i], days[..i], jobs[i], remotes[i], days[i]);
  }

  /** Two runs that agree on `ok` and on the warehouse, and whose `errs`
      differ by one entry after a common head, still do after one more
      job. */
  lemma IsolationStep(rt: Runtime, tables: Tables, withJob: seq<Job>, rw: seq<Remote>, dw: seq<int>,
                      without: seq<Job>, ro: seq<Remote>, dout: seq<int>, head: seq<ErrEntry>, entry: ErrEntry,
                      next: Job, remote: Remote, day: int)
    requires |rw| == |withJob| && |dw| == |withJob| && |ro| == |without| && |dout| == |without|
    requires var all := RunJobs(rt, tables, withJob, rw, dw);
      var skip := RunJobs(rt, tables, without, ro, dout);
      all.ok == skip.ok && all.tables == skip.tables && OneMoreAfter(all.errs, skip.errs, head, entry)
    ensures var all := RunJobs(rt, tables, withJob + [next], rw + [remote], dw + [day]);
      var skip := RunJobs(rt, tables, without + [next], ro + [remote], dout + [day]);
      all.ok == skip.ok && all.tables == skip.tables && OneMoreAfter(all.errs, skip.errs, head, entry)
  {
    var skip0 := RunJobs(rt, tables, without, ro, dout);
    RunJobsSnoc(rt, tables, withJob, rw, dw, next, remote, day);
    RunJobsSnoc(rt, tables, without, ro, dout, next, remote, day);
    var r := RunJob(rt, skip0.tables, next, remote, day);
    ErrorsStillDiffer(RunJobs(rt, tables, withJob, rw, dw).errs, skip0.errs, head, entry, r.1);
  }

  /** A job whose query fails leaves one error entry and nothing else: the
      other jobs, each loading on the day it reads from the clock, report
      and change the warehouse exactly as they would had it not been in
      the list. */
  lemma {:induction false} FailedFetchIsolated(rt: Runtime, tables: Tables,
                                              before: seq<Job>, rb: seq<Remote>, db: seq<int>,
                                              job: Job, remote: Remote, day: int,
                                              after: seq<Job>, ra: seq<Remote>, da: seq<int>)
    requires |rb| == |before| && |db| == |before| && |ra| == |after| && |da| == |after|
    requires FetchOutcome(remote).Failure?
    ensures var all := RunJobs(rt, tables, before + [job] + after, rb + [remote] + ra, db + [day] + da);
      var skip := RunJobs(rt, tables, before + after, rb + ra, db + da);
      var head := RunJobs(rt, tables, before, rb, db).errs;
      && all.ok == skip.ok
      && all.tables == skip.tables
      && OneMoreAfter(all.errs, skip.errs, head, ErrEntry(job.name, FetchFailed(FetchOutcome(remote).error)))
    decreases |after|
  {
    var head := RunJobs(rt, tables, before, rb, db).errs;
    if after == [] {
      EmptyTail(before + [job], after);
      EmptyTail(rb + [remote], ra);
      EmptyTail(db + [day], da);
      EmptyTail(before, after);
      EmptyTail(rb, ra);
      EmptyTail(db, da);
      FailedFetchLast(rt, tables, before, rb, db, job, remote, day);
    } else {
      var n := |after| - 1;
      var withJob, rw, dw := before + [job] + after[..n], rb + [remote] + ra[..n], db + [day] + da[..n];
      var without, ro, dout := before + after[..n], rb + ra[..n], db + da[..n];
      SplitLast(before + [job], after);
      SplitLast(rb + [remote], ra);
      SplitLast(db + [day], da);
      SplitLast(before, after);
      SplitLast(rb, ra);
      SplitLast(db, da);
      FailedFetchIsolated(rt, tables, before, rb, db, job, remote, day, after[..n], ra[..n], da[..n]);
      IsolationStep(rt, tables, withJob, rw, dw, without, ro, dout, head,
                    ErrEntry(job.name, FetchFailed(FetchOutcome(remote).error)), after[n], ra[n], da[n]);
    }
  }
}
