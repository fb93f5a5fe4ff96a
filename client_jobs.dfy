/**
 * A job as the browser receives it from the API. Dates arrive as ISO strings; what the pages
 * derive from a date through the `Date` object is given with it: the `toISOString()` text and
 * the local calendar day that `toLocaleDateString('en-CA')` writes as `YYYY-MM-DD`.
 */
module ClientJobs {
  import opened Wrappers
  import Counting
  import Text

  datatype Timestamp = Timestamp(iso: string, localDay: string)

  /**
   * The text `toISOString()` writes for a date in the years 0 to 9999:
   * `YYYY-MM-DDTHH:mm:ss.sssZ`.
   */
  predicate IsoShaped(s: string) {
    && |s| == 24
    && s[4] == '-' && s[7] == '-' && s[10] == 'T' && s[13] == ':' && s[16] == ':' && s[19] == '.'
    && s[23] == 'Z'
    && forall i :: 0 <= i < 24 && i !in {4, 7, 10, 13, 16, 19, 23} ==> Text.IsDigit(s[i])
  }

  datatype JobView = JobView(
    id: int,
    company: string,
    jobTitle: string,
    status: string,
    priority: string,
    jobUrl: Option<string>,
    appliedDate: Option<Timestamp>,
    interviewDate: Option<Timestamp>,
    notes: Option<string>,
    jobDescription: Option<string>)

  /** The four statuses the pages know, in the order they show them. */
  const Applied := "APPLIED"
  const Interview := "INTERVIEW"
  const Offer := "OFFER"
  const Rejected := "REJECTED"
  const KnownStatuses: seq<string> := [Applied, Interview, Offer, Rejected]

  lemma KnownStatusesDistinct()
    ensures Counting.NoDuplicates(KnownStatuses)
  {
    assert Applied[0] == 'A' && Interview[0] == 'I' && Offer[0] == 'O' && Rejected[0] == 'R';
  }

  /** JavaScript truthiness of an optional string: present and not empty. */
  predicate Truthy(s: Option<string>) {
    s.Some? && s.value != ""
  }

  /** `s || fallback` on an optional string. */
  function OrElse(s: Option<string>, fallback: string): (r: string)
    ensures Truthy(s) ==> r == s.value
    ensures !Truthy(s) ==> r == fallback
  {
    if Truthy(s) then s.value else fallback
  }

  /** The statuses of `jobs`, in order. */
  function Statuses(jobs: seq<JobView>): (s: seq<string>)
    ensures |s| == |jobs|
    ensures forall i :: 0 <= i < |jobs| ==> s[i] == jobs[i].status
  {
    if jobs == [] then [] else [jobs[0].status] + Statuses(jobs[1..])
  }

  /** With every job's status among the four, so is every element of the status list. */
  lemma StatusesKnown(jobs: seq<JobView>)
    requires forall i :: 0 <= i < |jobs| ==> jobs[i].status in KnownStatuses
    ensures forall x :: x in Statuses(jobs) ==> x in KnownStatuses
  {
    var statuses := Statuses(jobs);
    forall x | x in statuses ensures x in KnownStatuses {
      var i :| 0 <= i < |statuses| && statuses[i] == x;
    }
  }
}
