/**
 * The board view: jobs split into the four status columns, and the drag-and-drop handlers that
 * remember the dragged job and send a status change when it is dropped on another column.
 */
module Kanban {
  import opened Wrappers
  import opened ClientJobs
  import Counting

  /** The jobs of `jobs` with status `status`, in their original order. */
  function WithStatus(jobs: seq<JobView>, status: string): seq<JobView> {
    if jobs == [] then []
    else (if jobs[0].status == status then [jobs[0]] else []) + WithStatus(jobs[1..], status)
  }

  lemma {:induction false} WithStatusMembers(jobs: seq<JobView>, status: string)
    ensures forall j :: j in WithStatus(jobs, status) <==> j in jobs && j.status == status
  {
    if jobs != [] {
      WithStatusMembers(jobs[1..], status);
      assert forall j :: j in jobs <==> j == jobs[0] || j in jobs[1..];
    }
  }

  lemma {:induction false} WithStatusCount(jobs: seq<JobView>, status: string)
    ensures |WithStatus(jobs, status)| == Counting.Count(Statuses(jobs), status)
  {
    if jobs != [] {
      WithStatusCount(jobs[1..], status);
      assert Statuses(jobs)[1..] == Statuses(jobs[1..]);
    }
  }

  /** Filtering keeps the relative order: it distributes over concatenation. */
  lemma {:induction false} WithStatusAppend(a: seq<JobView>, b: seq<JobView>, status: string)
    ensures WithStatus(a + b, status) == WithStatus(a, status) + WithStatus(b, status)
  {
    if a == [] {
      assert a + b == b;
    } else {
      assert (a + b)[0] == a[0] && (a + b)[1..] == a[1..] + b;
      WithStatusAppend(a[1..], b, status);
    }
  }

  /**
   * `getJobsByStatus(status)`: exactly the jobs with that status, as many as there are; none
   * while the jobs are not loaded.
   */
  function JobsByStatus(jobs: Option<seq<JobView>>, status: string): (r: seq<JobView>)
    ensures jobs.None? ==> r == []
    ensures jobs.Some? ==> r == WithStatus(jobs.value, status)
    ensures jobs.Some? ==> forall j :: j in r <==> j in jobs.value && j.status == status
    ensures jobs.Some? ==> |r| == Counting.Count(Statuses(jobs.value), status)
  {
    if jobs.Some? then
      WithStatusMembers(jobs.value, status);
      WithStatusCount(jobs.value, status);
      WithStatus(jobs.value, status)
    else []
  }

  datatype Column = Column(status: string, title: string, count: nat, cards: seq<JobView>)

  const Titles: seq<string> := ["Applied", "Interview", "Offer", "Rejected"]

  /** The four columns, each headed by the number of cards it renders. */
  function Columns(jobs: Option<seq<JobView>>): (cols: seq<Column>)
    ensures |cols| == 4
    ensures forall c :: 0 <= c < 4 ==>
      && cols[c].status == KnownStatuses[c] && cols[c].title == Titles[c]
      && cols[c].cards == JobsByStatus(jobs, KnownStatuses[c])
      && cols[c].count == |cols[c].cards|
  {
    seq(4, c requires 0 <= c < 4 =>
      Column(KnownStatuses[c], Titles[c], |JobsByStatus(jobs, KnownStatuses[c])|, JobsByStatus(jobs, KnownStatuses[c])))
  }

  /** A job whose status is not one of the four is on no column. */
  lemma UnknownStatusHidden(jobs: seq<JobView>, j: JobView)
    requires j.status !in KnownStatuses
    ensures forall c :: 0 <= c < 4 ==> j !in Columns(Some(jobs))[c].cards
  {
  }

  function ColumnTotal(cols: seq<Column>): nat {
    if cols == [] then 0 else cols[0].count + ColumnTotal(cols[1..])
  }

  /** When every job has one of the four statuses, the column counts add up to all the jobs. */
  lemma ColumnsCoverAllJobs(jobs: seq<JobView>)
    requires forall i :: 0 <= i < |jobs| ==> jobs[i].status in KnownStatuses
    ensures ColumnTotal(Columns(Some(jobs))) == |jobs|
  {
    ColumnTotalCounts(jobs);
    KnownStatusesDistinct();
    StatusesKnown(jobs);
    Counting.CountsAtCoverAll(Statuses(jobs), KnownStatuses);
  }

  lemma ColumnTotalCounts(jobs: seq<JobView>)
    ensures ColumnTotal(Columns(Some(jobs))) == Counting.CountsAt(Statuses(jobs), KnownStatuses)
  {
    var cols := Columns(Some(jobs));
    var ks := KnownStatuses;
    var statuses := Statuses(jobs);
    assert ColumnTotal(cols[3..]) == Counting.CountsAt(statuses, ks[3..]);
    assert ColumnTotal(cols[2..]) == Counting.CountsAt(statuses, ks[2..]) by {
      assert cols[2..][1..] == cols[3..] && ks[2..][1..] == ks[3..];
    }
    assert ColumnTotal(cols[1..]) == Counting.CountsAt(statuses, ks[1..]) by {
      assert cols[1..][1..] == cols[2..] && ks[1..][1..] == ks[2..];
    }
  }

  /** An `updateJob` call: the job id and the form fields sent. */
  datatype StatusUpdate = StatusUpdate(id: string, form: seq<(string, string)>)

  /** The board's drag state and the updates it has issued. */
  class Board {
    var activeJob: Option<JobView>
    var sent: seq<StatusUpdate>

    /** Every update the board sends carries the status field alone. */
    ghost predicate StatusOnly()
      reads this
    {
      forall i :: 0 <= i < |sent| ==> |sent[i].form| == 1 && sent[i].form[0].0 == "status"
    }

    constructor ()
      ensures activeJob == None && sent == []
      ensures StatusOnly()
    {
      activeJob := None;
      sent := [];
    }

    /** `handleDragStart`: remember the dragged job. */
    method DragStart(job: JobView)
      modifies this
      ensures activeJob == Some(job) && sent == old(sent)
    {
      activeJob := Some(job);
    }

    /**
     * `handleDragEnd`: a drop outside any column does nothing at all; a drop on a column sends
     * one status-only update when the column differs from the job's status, then clears the
     * dragged job.
     */
    method DragEnd(activeId: string, over: Option<string>)
      requires StatusOnly()
      modifies this
      ensures StatusOnly()
      ensures over.None? ==> activeJob == old(activeJob) && sent == old(sent)
      ensures over.Some? ==> activeJob == None
      ensures over.Some? && old(activeJob).Some? && old(activeJob).value.status != over.value ==>
        sent == old(sent) + [StatusUpdate(activeId, [("status", over.value)])]
      ensures over.Some? && (old(activeJob).None? || old(activeJob).value.status == over.value) ==>
        sent == old(sent)
    {
      if over.None? {
        return;
      }
      var jobId := activeId;
      var newStatus := over.value;
      if activeJob.Some? && activeJob.value.status != newStatus {
        var formData: seq<(string, string)> := [];
        formData := formData + [("status", newStatus)];
        assert formData == [("status", newStatus)];
        sent := sent + [StatusUpdate(jobId, formData)];
      }
      activeJob := None;
    }
  }

  /** Dropping a card back on its own column sends nothing. */
  method DropOnOwnColumn(board: Board, job: JobView, activeId: string)
    requires board.StatusOnly()
    modifies board
    ensures board.sent == old(board.sent) && board.activeJob == None
  {
    board.DragStart(job);
    board.DragEnd(activeId, Some(job.status));
  }
}
