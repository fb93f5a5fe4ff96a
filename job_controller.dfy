/**
 * The job handlers of the REST API (GET/POST /jobs, GET /jobs/stats, GET/PUT/DELETE /jobs/:id).
 * Every handler is scoped to the authenticated caller: a row is only ever found through the
 * predicate "this id AND this owner".
 */
module JobController {
  import opened Wrappers
  import opened Database
  import opened Http
  import Counting

  const JobNotFound := "Job not found"
  const JobRemoved := "Job removed successfully"

  /** The fields `createJob` reads from the request body. */
  datatype NewJob = NewJob(
    company: string,
    jobTitle: string,
    jobUrl: Option<string>,
    status: string,
    priority: string,
    appliedDate: Option<string>,
    notes: Option<string>)

  /** The fields `updateJob` reads from the request body; `None` is a field left undefined. */
  datatype JobPatch = JobPatch(
    company: Option<string>,
    jobTitle: Option<string>,
    jobUrl: Option<string>,
    status: Option<string>,
    priority: Option<string>,
    appliedDate: Option<string>,
    interviewDate: Option<string>,
    notes: Option<string>)

  /** `d ? new Date(d) : null`: a blank or absent date string is stored as null. */
  function DateOrNull(d: Option<string>): (r: Option<string>)
    ensures r.None? <==> d.None? || d.value == ""
    ensures r.Some? ==> r == d
  {
    if d.Some? && d.value != "" then d else None
  }

  /** The database accepts the date: it is null, or `new Date(d)` is a valid date. */
  predicate DateAccepted(d: Option<string>, dateOk: string -> bool) {
    DateOrNull(d).None? || dateOk(DateOrNull(d).value)
  }

  // ------------------------------------------------------------ read-only queries

  predicate Owns(jobs: map<JobId, Job>, caller: UserId, id: JobId) {
    id in jobs && jobs[id].userId == caller
  }

  /** The caller's rows: `where: { userId: req.user.id }`. */
  function OwnedRows(jobs: map<JobId, Job>, caller: UserId): map<JobId, Job> {
    map k | k in jobs && jobs[k].userId == caller :: jobs[k]
  }

  predicate IsLatest(rows: map<JobId, Job>, ids: set<JobId>, k: JobId)
    requires ids <= rows.Keys
  {
    k in ids && forall k' :: k' in ids ==> rows[k'].createdAt <= rows[k].createdAt
  }

  lemma {:induction false} LatestExists(rows: map<JobId, Job>, ids: set<JobId>)
    requires ids <= rows.Keys
    requires ids != {}
    ensures exists k :: IsLatest(rows, ids, k)
    decreases ids
  {
    var x := Counting.Member(ids);
    if ids != {x} {
      LatestExists(rows, ids - {x});
      var m :| IsLatest(rows, ids - {x}, m);
      if rows[x].createdAt <= rows[m].createdAt {
        assert IsLatest(rows, ids, m);
      } else {
        assert IsLatest(rows, ids, x);
      }
    } else {
      assert IsLatest(rows, ids, x);
    }
  }

  /** The ids in `ids`, newest first (`orderBy: { createdAt: 'desc' }`); ties in any order. */
  ghost function NewestFirst(rows: map<JobId, Job>, ids: set<JobId>): (r: seq<JobId>)
    requires ids <= rows.Keys
    ensures ids == {} <==> r == []
    ensures ids != {} ==> IsLatest(rows, ids, r[0])
    ensures forall i :: 0 <= i < |r| ==> r[i] in ids
    decreases ids
  {
    if ids == {} then []
    else
      LatestExists(rows, ids);
      var k :| IsLatest(rows, ids, k);
      [k] + NewestFirst(rows, ids - {k})
  }

  /** After the latest id, the listing goes on with the rest, newest first. */
  lemma NewestFirstStep(rows: map<JobId, Job>, ids: set<JobId>)
    requires ids <= rows.Keys && ids != {}
    ensures var r := NewestFirst(rows, ids); r[1..] == NewestFirst(rows, ids - {r[0]})
  {
  }

  /** The listing holds each of the ids exactly once, newest first. */
  lemma NewestFirstEnumerates(rows: map<JobId, Job>, ids: set<JobId>)
    requires ids <= rows.Keys
    ensures var r := NewestFirst(rows, ids);
      && |r| == |ids|
      && (forall i :: 0 <= i < |r| ==> r[i] in ids)
      && (forall k :: k in ids ==> k in r)
      && (forall i, j :: 0 <= i < j < |r| ==> r[i] != r[j])
      && (forall i, j :: 0 <= i < j < |r| ==> rows[r[i]].createdAt >= rows[r[j]].createdAt)
  {
    NewestFirstCovers(rows, ids);
    NewestFirstDistinct(rows, ids);
    NewestFirstOrdered(rows, ids);
  }

  lemma {:induction false} NewestFirstCovers(rows: map<JobId, Job>, ids: set<JobId>)
    requires ids <= rows.Keys
    ensures var r := NewestFirst(rows, ids); |r| == |ids| && forall k :: k in ids ==> k in r
    decreases ids
  {
    var r := NewestFirst(rows, ids);
    if ids != {} {
      var k := r[0];
      NewestFirstStep(rows, ids);
      NewestFirstCovers(rows, ids - {k});
      assert r == [k] + r[1..];
    }
  }

  lemma {:induction false} NewestFirstDistinct(rows: map<JobId, Job>, ids: set<JobId>)
    requires ids <= rows.Keys
    ensures var r := NewestFirst(rows, ids); forall i, j :: 0 <= i < j < |r| ==> r[i] != r[j]
    decreases ids
  {
    var r := NewestFirst(rows, ids);
    if ids != {} {
      var k := r[0];
      NewestFirstStep(rows, ids);
      NewestFirstDistinct(rows, ids - {k});
      forall i, j | 0 <= i < j < |r| ensures r[i] != r[j] {
        assert r[j] == r[1..][j - 1];
        if i > 0 {
          assert r[i] == r[1..][i - 1];
        }
      }
    }
  }

  lemma {:induction false} NewestFirstOrdered(rows: map<JobId, Job>, ids: set<JobId>)
    requires ids <= rows.Keys
    ensures var r := NewestFirst(rows, ids);
      forall i, j :: 0 <= i < j < |r| ==> rows[r[i]].createdAt >= rows[r[j]].createdAt
    decreases ids
  {
    var r := NewestFirst(rows, ids);
    if ids != {} {
      var k := r[0];
      NewestFirstStep(rows, ids);
      NewestFirstOrdered(rows, ids - {k});
      forall i, j | 0 <= i < j < |r| ensures rows[r[i]].createdAt >= rows[r[j]].createdAt {
        assert r[j] == r[1..][j - 1];
        if i > 0 {
          assert r[i] == r[1..][i - 1];
        }
      }
    }
  }

  /** `getAllJobs`: the caller's jobs, newest first. No search, status or limit filter. */
  ghost function ListJobs(jobs: map<JobId, Job>, caller: UserId): (r: seq<Job>)
    requires JobsKeyed(jobs)
    ensures forall i :: 0 <= i < |r| ==> Owns(jobs, caller, r[i].id) && jobs[r[i].id] == r[i]
    ensures forall k :: Owns(jobs, caller, k) ==> jobs[k] in r
    ensures |r| == |OwnedRows(jobs, caller).Keys|
    ensures forall i, j :: 0 <= i < j < |r| ==> r[i].id != r[j].id && r[i].createdAt >= r[j].createdAt
  {
    var rows := OwnedRows(jobs, caller);
    var ids := NewestFirst(rows, rows.Keys);
    NewestFirstEnumerates(rows, rows.Keys);
    RowsAtListing(jobs, caller, ids);
    RowsAt(rows, ids)
  }

  /** The rows at `ids`, in that order. */
  function RowsAt(rows: map<JobId, Job>, ids: seq<JobId>): (r: seq<Job>)
    requires forall i :: 0 <= i < |ids| ==> ids[i] in rows
    ensures |r| == |ids|
    ensures forall i :: 0 <= i < |ids| ==> r[i] == rows[ids[i]]
  {
    seq(|ids|, i requires 0 <= i < |ids| => rows[ids[i]])
  }

  lemma RowsAtListing(jobs: map<JobId, Job>, caller: UserId, ids: seq<JobId>)
    requires JobsKeyed(jobs)
    requires var rows := OwnedRows(jobs, caller);
      && |ids| == |rows.Keys|
      && (forall i :: 0 <= i < |ids| ==> ids[i] in rows.Keys)
      && (forall k :: k in rows.Keys ==> k in ids)
      && (forall i, j :: 0 <= i < j < |ids| ==> ids[i] != ids[j])
      && (forall i, j :: 0 <= i < j < |ids| ==> rows[ids[i]].createdAt >= rows[ids[j]].createdAt)
    ensures var r := RowsAt(OwnedRows(jobs, caller), ids);
      && (forall i :: 0 <= i < |r| ==> Owns(jobs, caller, r[i].id) && jobs[r[i].id] == r[i])
      && (forall k :: Owns(jobs, caller, k) ==> jobs[k] in r)
      && (forall i, j :: 0 <= i < j < |r| ==> r[i].id != r[j].id && r[i].createdAt >= r[j].createdAt)
  {
    var rows := OwnedRows(jobs, caller);
    var r := RowsAt(rows, ids);
    forall i | 0 <= i < |r| ensures Owns(jobs, caller, r[i].id) && jobs[r[i].id] == r[i] {
      var k := ids[i];
      assert k in rows.Keys;
      assert k in jobs && jobs[k].userId == caller && rows[k] == jobs[k];
      assert jobs[k].id == k;
      assert r[i] == jobs[k];
    }
    forall k | Owns(jobs, caller, k) ensures jobs[k] in r {
      assert k in rows.Keys;
      var i :| 0 <= i < |ids| && ids[i] == k;
      assert r[i] == jobs[k];
    }
  }

  /** `getJobById`: the job with this id if the caller owns it; 404 otherwise. */
  function GetJobById(jobs: map<JobId, Job>, caller: UserId, id: JobId): (r: Reply<Job>)
    ensures r.Ok? <==> Owns(jobs, caller, id)
    ensures r.Ok? ==> r.code == 200 && r.value == jobs[id] && r.value.userId == caller
    ensures r.Err? ==> r == Err(404, Text(JobNotFound))
  {
    if id in jobs && jobs[id].userId == caller then Ok(200, jobs[id]) else Err(404, Text(JobNotFound))
  }

  /** A job is found by id exactly when it appears in the caller's listing. */
  lemma GetByIdAgreesWithList(jobs: map<JobId, Job>, caller: UserId, id: JobId)
    requires JobsKeyed(jobs)
    ensures GetJobById(jobs, caller, id).Ok? <==> exists i :: 0 <= i < |ListJobs(jobs, caller)| && ListJobs(jobs, caller)[i].id == id
  {
    var r := ListJobs(jobs, caller);
    if Owns(jobs, caller, id) {
      var i :| 0 <= i < |r| && r[i] == jobs[id];
      assert r[i].id == id;
    }
  }

  /** The statuses of the rows at `ids`, in that order. */
  function StatusesAt(rows: map<JobId, Job>, ids: seq<JobId>): (s: seq<string>)
    requires forall i :: 0 <= i < |ids| ==> ids[i] in rows
    ensures |s| == |ids|
  {
    if ids == [] then [] else [rows[ids[0]].status] + StatusesAt(rows, ids[1..])
  }

  /** The number of rows among `ids` that have status `s`. */
  ghost function CountWithStatus(rows: map<JobId, Job>, ids: set<JobId>, s: string): nat
    requires ids <= rows.Keys
  {
    |set k | k in ids && rows[k].status == s|
  }

  lemma {:induction false} NewestFirstCounts(rows: map<JobId, Job>, ids: set<JobId>, s: string)
    requires ids <= rows.Keys
    ensures Counting.Count(StatusesAt(rows, NewestFirst(rows, ids)), s) == CountWithStatus(rows, ids, s)
    decreases ids
  {
    var r := NewestFirst(rows, ids);
    if ids != {} {
      var k := r[0];
      NewestFirstStep(rows, ids);
      NewestFirstCounts(rows, ids - {k}, s);
      assert r == [k] + r[1..];
      assert StatusesAt(rows, r)[1..] == StatusesAt(rows, r[1..]);
      var with := set m | m in ids && rows[m].status == s;
      var rest := set m | m in ids - {k} && rows[m].status == s;
      if rows[k].status == s {
        assert with == rest + {k};
      } else {
        assert with == rest;
      }
    }
  }

  /** The statuses of the caller's jobs, one per job. */
  ghost function OwnedStatuses(jobs: map<JobId, Job>, caller: UserId): seq<string> {
    var rows := OwnedRows(jobs, caller);
    StatusesAt(rows, NewestFirst(rows, rows.Keys))
  }

  /** The caller's jobs that have status `s`. */
  ghost function WithStatus(jobs: map<JobId, Job>, caller: UserId, s: string): set<JobId> {
    set k | k in jobs && jobs[k].userId == caller && jobs[k].status == s
  }

  /** The statuses that occur among the caller's jobs. */
  ghost function OwnedStatusSet(jobs: map<JobId, Job>, caller: UserId): set<string> {
    set k | k in jobs && jobs[k].userId == caller :: jobs[k].status
  }

  lemma OwnedStatusesCount(jobs: map<JobId, Job>, caller: UserId, s: string)
    ensures Counting.Count(OwnedStatuses(jobs, caller), s) == |WithStatus(jobs, caller, s)|
  {
    var rows := OwnedRows(jobs, caller);
    NewestFirstCounts(rows, rows.Keys, s);
    assert (set k | k in rows.Keys && rows[k].status == s) == WithStatus(jobs, caller, s);
  }

  lemma OwnedStatusesMembers(jobs: map<JobId, Job>, caller: UserId, s: string)
    ensures s in OwnedStatuses(jobs, caller) <==> s in OwnedStatusSet(jobs, caller)
  {
    var rows := OwnedRows(jobs, caller);
    var ids := NewestFirst(rows, rows.Keys);
    NewestFirstEnumerates(rows, rows.Keys);
    var statuses := StatusesAt(rows, ids);
    if s in statuses {
      var i :| 0 <= i < |statuses| && statuses[i] == s;
      StatusAtIndex(rows, ids, i);
      assert jobs[ids[i]].status == s;
    }
    if s in OwnedStatusSet(jobs, caller) {
      var k :| k in jobs && jobs[k].userId == caller && jobs[k].status == s;
      assert k in rows.Keys;
      var i :| 0 <= i < |ids| && ids[i] == k;
      StatusAtIndex(rows, ids, i);
      assert statuses[i] == s;
    }
  }

  /**
   * `getJobStats`: for each status among the caller's jobs, how many of them have it
   * (`groupBy` on status, folded into an object); a status with no job has no key.
   */
  ghost function JobStats(jobs: map<JobId, Job>, caller: UserId): (stats: map<string, nat>)
    ensures stats.Keys == OwnedStatusSet(jobs, caller)
    ensures forall s :: s in stats ==> stats[s] == |WithStatus(jobs, caller, s)| > 0
  {
    var m := Counting.Tally(OwnedStatuses(jobs, caller));
    forall s ensures s in m <==> s in OwnedStatusSet(jobs, caller) {
      OwnedStatusesMembers(jobs, caller, s);
    }
    forall s | s in m ensures m[s] == |WithStatus(jobs, caller, s)| > 0 {
      OwnedStatusesCount(jobs, caller, s);
    }
    m
  }

  lemma {:induction false} StatusAtIndex(rows: map<JobId, Job>, ids: seq<JobId>, i: nat)
    requires forall j :: 0 <= j < |ids| ==> ids[j] in rows
    requires i < |ids|
    ensures StatusesAt(rows, ids)[i] == rows[ids[i]].status
  {
    if i > 0 {
      StatusAtIndex(rows, ids[1..], i - 1);
    }
  }

  /**
   * The stats add up to the number of the caller's jobs, summed over any list of distinct
   * statuses that names every status in use (a listed status without jobs counts 0).
   */
  lemma StatsTotal(jobs: map<JobId, Job>, caller: UserId, ks: seq<string>)
    requires Counting.NoDuplicates(ks)
    requires forall k :: Owns(jobs, caller, k) ==> jobs[k].status in ks
    ensures Counting.SumAt(JobStats(jobs, caller), ks) == |OwnedRows(jobs, caller).Keys|
  {
    var statuses := OwnedStatuses(jobs, caller);
    forall s | s in statuses ensures s in ks {
      OwnedStatusesMembers(jobs, caller, s);
    }
    Counting.TallyTotal(statuses, ks);
    var rows := OwnedRows(jobs, caller);
    NewestFirstEnumerates(rows, rows.Keys);
  }

  // ------------------------------------------------------------ handlers that write

  /** Rows of every other owner are as they were. */
  ghost predicate OthersUnchanged(before: map<JobId, Job>, after: map<JobId, Job>, caller: UserId) {
    forall u :: u != caller ==> OwnedRows(after, u) == OwnedRows(before, u)
  }

  /** `createJob`: a new row owned by the caller, answered with 201. */
  method CreateJob(db: Store, caller: UserId, input: NewJob, now: int, dateOk: string -> bool)
    returns (r: Reply<Job>)
    requires db.Valid()
    modifies db
    ensures db.Valid()
    ensures db.users == old(db.users) && db.emailIndex == old(db.emailIndex) && db.outbox == old(db.outbox)
    ensures r.Ok? <==> caller in old(db.users) && DateAccepted(input.appliedDate, dateOk)
    ensures r.Ok? ==>
      && r.code == 201
      && r.value.id !in old(db.jobs)
      && r.value == Job(r.value.id, caller, input.company, input.jobTitle, input.jobUrl, input.status,
                        input.priority, DateOrNull(input.appliedDate), None, input.notes, now)
      && db.jobs == old(db.jobs)[r.value.id := r.value]
    ensures r.Err? ==> r == Err(400, ExceptionText) && db.jobs == old(db.jobs)
    ensures OthersUnchanged(old(db.jobs), db.jobs, caller)
  {
    if !DateAccepted(input.appliedDate, dateOk) || caller !in db.users {
      // Prisma rejects an invalid date or a dangling owner; the catch answers 400.
      return Err(400, ExceptionText);
    }
    var id := db.nextJobId;
    var job := Job(id, caller, input.company, input.jobTitle, input.jobUrl, input.status, input.priority,
                   DateOrNull(input.appliedDate), None, input.notes, now);
    db.jobs := db.jobs[id := job];
    db.nextJobId := db.nextJobId + 1;
    r := Ok(201, job);
    assert OthersUnchanged(old(db.jobs), db.jobs, caller) by {
      forall u | u != caller ensures OwnedRows(db.jobs, u) == OwnedRows(old(db.jobs), u) {
        assert OwnedRows(db.jobs, u).Keys == OwnedRows(old(db.jobs), u).Keys;
      }
    }
  }

  /**
   * The merge `prisma.job.update` performs: undefined fields keep their value, both dates are
   * always written (null when blank or absent), owner, id and creation time never change.
   */
  function ApplyPatch(j: Job, p: JobPatch): (r: Job)
    ensures r.id == j.id && r.userId == j.userId && r.createdAt == j.createdAt
    ensures r.company == p.company.GetOr(j.company) && r.jobTitle == p.jobTitle.GetOr(j.jobTitle)
    ensures r.status == p.status.GetOr(j.status) && r.priority == p.priority.GetOr(j.priority)
    ensures r.jobUrl == (if p.jobUrl.Some? then p.jobUrl else j.jobUrl)
    ensures r.notes == (if p.notes.Some? then p.notes else j.notes)
    ensures r.appliedDate == DateOrNull(p.appliedDate) && r.interviewDate == DateOrNull(p.interviewDate)
  {
    j.(company := p.company.GetOr(j.company),
       jobTitle := p.jobTitle.GetOr(j.jobTitle),
       jobUrl := if p.jobUrl.Some? then p.jobUrl else j.jobUrl,
       status := p.status.GetOr(j.status),
       priority := p.priority.GetOr(j.priority),
       appliedDate := DateOrNull(p.appliedDate),
       interviewDate := DateOrNull(p.interviewDate),
       notes := if p.notes.Some? then p.notes else j.notes)
  }

  /** Sending the same update twice has the effect of sending it once. */
  lemma PatchIdempotent(j: Job, p: JobPatch)
    ensures ApplyPatch(ApplyPatch(j, p), p) == ApplyPatch(j, p)
  {
  }

  /**
   * An update whose body carries only `status` changes the status and erases both stored
   * dates.
   */
  lemma StatusOnlyUpdateClearsDates(j: Job, s: string)
    ensures var r := ApplyPatch(j, JobPatch(None, None, None, Some(s), None, None, None, None));
      r == j.(status := s, appliedDate := None, interviewDate := None)
  {
  }

  predicate DatesAccepted(p: JobPatch, dateOk: string -> bool) {
    DateAccepted(p.appliedDate, dateOk) && DateAccepted(p.interviewDate, dateOk)
  }

  /** `updateJob`: 404 unless the caller owns the id; otherwise the merged row, answered with 200. */
  method UpdateJob(db: Store, caller: UserId, id: JobId, patch: JobPatch, dateOk: string -> bool)
    returns (r: Reply<Job>)
    requires db.Valid()
    modifies db
    ensures db.Valid()
    ensures db.users == old(db.users) && db.emailIndex == old(db.emailIndex) && db.outbox == old(db.outbox)
    ensures !Owns(old(db.jobs), caller, id) ==> r == Err(404, Text(JobNotFound))
    ensures Owns(old(db.jobs), caller, id) && !DatesAccepted(patch, dateOk) ==> r == Err(400, ExceptionText)
    ensures r.Ok? <==> Owns(old(db.jobs), caller, id) && DatesAccepted(patch, dateOk)
    ensures r.Err? ==> db.jobs == old(db.jobs)
    ensures r.Ok? ==>
      && r.code == 200
      && r.value == ApplyPatch(old(db.jobs)[id], patch)
      && db.jobs == old(db.jobs)[id := r.value]
    ensures OthersUnchanged(old(db.jobs), db.jobs, caller)
  {
    if !(id in db.jobs && db.jobs[id].userId == caller) {
      return Err(404, Text(JobNotFound));
    }
    if !DatesAccepted(patch, dateOk) {
      return Err(400, ExceptionText);
    }
    var updated := ApplyPatch(db.jobs[id], patch);
    db.jobs := db.jobs[id := updated];
    r := Ok(200, updated);
    assert OthersUnchanged(old(db.jobs), db.jobs, caller) by {
      forall u | u != caller ensures OwnedRows(db.jobs, u) == OwnedRows(old(db.jobs), u) {
        assert OwnedRows(db.jobs, u).Keys == OwnedRows(old(db.jobs), u).Keys;
      }
    }
  }

  /** `deleteJob`: 404 unless the caller owns the id; otherwise exactly that row goes. */
  method DeleteJob(db: Store, caller: UserId, id: JobId) returns (r: Reply<string>)
    requires db.Valid()
    modifies db
    ensures db.Valid()
    ensures db.users == old(db.users) && db.emailIndex == old(db.emailIndex) && db.outbox == old(db.outbox)
    ensures !Owns(old(db.jobs), caller, id) ==> r == Err(404, Text(JobNotFound)) && db.jobs == old(db.jobs)
    ensures Owns(old(db.jobs), caller, id) ==> r == Ok(200, JobRemoved) && db.jobs == old(db.jobs) - {id}
    ensures id !in db.jobs || db.jobs[id].userId != caller
    ensures OthersUnchanged(old(db.jobs), db.jobs, caller)
  {
    if !(id in db.jobs && db.jobs[id].userId == caller) {
      return Err(404, Text(JobNotFound));
    }
    db.jobs := db.jobs - {id};
    r := Ok(200, JobRemoved);
    assert OthersUnchanged(old(db.jobs), db.jobs, caller) by {
      forall u | u != caller ensures OwnedRows(db.jobs, u) == OwnedRows(old(db.jobs), u) {
        assert OwnedRows(db.jobs, u).Keys == OwnedRows(old(db.jobs), u).Keys;
      }
    }
  }

  /** Deleting an id a second time answers 404 and changes nothing. */
  method DeleteTwice(db: Store, caller: UserId, id: JobId) returns (first: Reply<string>, second: Reply<string>)
    requires db.Valid()
    modifies db
    ensures second == Err(404, Text(JobNotFound))
    ensures first.Ok? <==> Owns(old(db.jobs), caller, id)
  {
    first := DeleteJob(db, caller, id);
    second := DeleteJob(db, caller, id);
  }
}
