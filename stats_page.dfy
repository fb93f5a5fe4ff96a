/**
 * The analytics page: jobs counted by status for the pie chart, and applications counted per
 * local calendar day for the bar chart of the seven latest days with applications.
 */
module StatsPage {
  import opened Wrappers
  import opened ClientJobs
  import Counting
  import Sorting

  datatype Slice = Slice(name: string, value: nat, color: string)

  datatype Bar = Bar(date: string, count: nat)

  /** What the page renders once the jobs are loaded. */
  datatype View = NoData | Charts(pie: seq<Slice>, bars: seq<Bar>)

  // ------------------------------------------------------------ pie chart

  /** `statusCounts`: each status in use mapped to the number of jobs that have it. */
  function StatusCounts(jobs: seq<JobView>): (counts: map<string, nat>)
    ensures forall i :: 0 <= i < |jobs| ==> jobs[i].status in counts
    ensures forall s :: s in counts ==> 0 < counts[s] == Counting.Count(Statuses(jobs), s)
  {
    var counts := Counting.Tally(Statuses(jobs));
    assert forall i :: 0 <= i < |jobs| ==> Statuses(jobs)[i] in Statuses(jobs);
    counts
  }

  /** The counts add up to the number of jobs. */
  lemma StatusCountsTotal(jobs: seq<JobView>)
    ensures Counting.SumAt(StatusCounts(jobs), Counting.KeysInOrder(Statuses(jobs))) == |jobs|
  {
    Counting.TallyTotalInOrder(Statuses(jobs));
  }

  const PieNames: seq<string> := ["Applied", "Interview", "Offer", "Rejected"]

  /** The place of a slice name in the chart's fixed order. */
  function Position(name: string): nat {
    if name == "Applied" then 0
    else if name == "Interview" then 1
    else if name == "Offer" then 2
    else if name == "Rejected" then 3
    else 4
  }

  predicate InChartOrder(xs: seq<Slice>) {
    forall i, j :: 0 <= i < j < |xs| ==> Position(xs[i].name) < Position(xs[j].name)
  }

  /** The four candidate slices, before zero values are dropped; a missing count is 0. */
  function PieTemplate(counts: map<string, nat>): seq<Slice> {
    [ Slice("Applied", Counting.ValueOr0(counts, Applied), "#3b82f6"),
      Slice("Interview", Counting.ValueOr0(counts, Interview), "#f59e0b"),
      Slice("Offer", Counting.ValueOr0(counts, Offer), "#10b981"),
      Slice("Rejected", Counting.ValueOr0(counts, Rejected), "#ef4444") ]
  }

  /** `.filter(d => d.value > 0)`. */
  function Positive(xs: seq<Slice>): (r: seq<Slice>)
    ensures |r| <= |xs|
    ensures forall s :: s in r <==> s in xs && s.value > 0
  {
    if xs == [] then []
    else
      assert forall s :: s in xs[1..] ==> s in xs;
      if xs[0].value > 0 then [xs[0]] + Positive(xs[1..]) else Positive(xs[1..])
  }

  /** Dropping slices keeps the remaining ones in chart order. */
  lemma {:induction false} PositiveInOrder(xs: seq<Slice>)
    requires InChartOrder(xs)
    ensures InChartOrder(Positive(xs))
  {
    if xs != [] {
      var rest := Positive(xs[1..]);
      PositiveInOrder(xs[1..]);
      forall s | s in rest ensures Position(xs[0].name) < Position(s.name) {
        var j :| 0 <= j < |xs[1..]| && xs[1..][j] == s;
        assert xs[j + 1] == s;
      }
    }
  }

  /**
   * `pieData`: at most four slices, each with a positive value, in the order Applied,
   * Interview, Offer, Rejected; a status has its slice exactly when its count is positive.
   */
  function PieData(counts: map<string, nat>): (pie: seq<Slice>)
    ensures |pie| <= 4
    ensures forall i :: 0 <= i < |pie| ==> pie[i].value > 0
    ensures InChartOrder(pie)
    ensures forall k :: 0 <= k < 4 ==>
      (PieTemplate(counts)[k] in pie <==> Counting.ValueOr0(counts, KnownStatuses[k]) > 0)
    ensures forall i :: 0 <= i < |pie| ==> pie[i] in PieTemplate(counts)
  {
    var t := PieTemplate(counts);
    var pie := Positive(t);
    TemplateInOrder(counts);
    PositiveInOrder(t);
    forall k | 0 <= k < 4 ensures t[k] in pie <==> Counting.ValueOr0(counts, KnownStatuses[k]) > 0 {
      TemplateValue(counts, k);
      assert t[k] in t;
    }
    forall i | 0 <= i < |pie| ensures pie[i] in t && pie[i].value > 0 {
      assert pie[i] in pie;
    }
    pie
  }

  lemma TemplateInOrder(counts: map<string, nat>)
    ensures InChartOrder(PieTemplate(counts))
  {
    var t := PieTemplate(counts);
    assert Position(t[0].name) == 0 && Position(t[1].name) == 1;
    assert Position(t[2].name) == 2 && Position(t[3].name) == 3;
  }

  lemma TemplateValue(counts: map<string, nat>, k: nat)
    requires k < 4
    ensures PieTemplate(counts)[k].value == Counting.ValueOr0(counts, KnownStatuses[k])
  {
  }

  function SliceTotal(xs: seq<Slice>): nat {
    if xs == [] then 0 else xs[0].value + SliceTotal(xs[1..])
  }

  lemma {:induction false} PositiveTotal(xs: seq<Slice>)
    ensures SliceTotal(Positive(xs)) == SliceTotal(xs)
  {
    if xs != [] {
      PositiveTotal(xs[1..]);
      var rest := Positive(xs[1..]);
      assert ([xs[0]] + rest)[1..] == rest;
    }
  }

  lemma TemplateTotal(counts: map<string, nat>)
    ensures SliceTotal(PieTemplate(counts)) == Counting.SumAt(counts, KnownStatuses)
  {
    var t := PieTemplate(counts);
    assert SliceTotal(t[3..]) == Counting.SumAt(counts, KnownStatuses[3..]);
    assert SliceTotal(t[2..]) == Counting.SumAt(counts, KnownStatuses[2..]) by {
      assert t[2..][1..] == t[3..] && KnownStatuses[2..][1..] == KnownStatuses[3..];
    }
    assert SliceTotal(t[1..]) == Counting.SumAt(counts, KnownStatuses[1..]) by {
      assert t[1..][1..] == t[2..] && KnownStatuses[1..][1..] == KnownStatuses[2..];
    }
  }

  /** When every job has one of the four statuses, the slices add up to the number of jobs. */
  lemma PieCoversAllJobs(jobs: seq<JobView>)
    requires forall i :: 0 <= i < |jobs| ==> jobs[i].status in KnownStatuses
    ensures SliceTotal(PieData(StatusCounts(jobs))) == |jobs|
  {
    var counts := Counting.Tally(Statuses(jobs));
    var t := PieTemplate(counts);
    assert PieData(counts) == Positive(t);
    PositiveTotal(t);
    TemplateTotal(counts);
    KnownCountsTotal(jobs);
  }

  lemma KnownCountsTotal(jobs: seq<JobView>)
    requires forall i :: 0 <= i < |jobs| ==> jobs[i].status in KnownStatuses
    ensures Counting.SumAt(Counting.Tally(Statuses(jobs)), KnownStatuses) == |jobs|
  {
    KnownStatusesDistinct();
    StatusesKnown(jobs);
    Counting.TallyTotal(Statuses(jobs), KnownStatuses);
  }

  // ------------------------------------------------------------ bar chart

  /** The jobs that have an applied date (`if (!job.appliedDate) return acc`). */
  function Dated(jobs: seq<JobView>): (r: seq<JobView>)
    ensures |r| <= |jobs|
    ensures forall j :: j in r <==> j in jobs && j.appliedDate.Some?
  {
    if jobs == [] then []
    else
      assert forall j :: j in jobs[1..] ==> j in jobs;
      (if jobs[0].appliedDate.Some? then [jobs[0]] else []) + Dated(jobs[1..])
  }

  /** The local calendar day of each dated job, in order. */
  function AppliedDays(jobs: seq<JobView>): (days: seq<string>)
    ensures |days| == |Dated(jobs)|
    ensures forall i :: 0 <= i < |days| ==> days[i] == Dated(jobs)[i].appliedDate.value.localDay
  {
    var dated := Dated(jobs);
    seq(|dated|, i requires 0 <= i < |dated| => dated[i].appliedDate.value.localDay)
  }

  /** `applicationsByDate`: each day with applications mapped to how many were made on it. */
  function ApplicationsByDate(jobs: seq<JobView>): (byDate: map<string, nat>)
    ensures forall j :: j in jobs && j.appliedDate.Some? ==> j.appliedDate.value.localDay in byDate
    ensures forall d :: d in byDate ==> 0 < byDate[d] == Counting.Count(AppliedDays(jobs), d)
  {
    var days := AppliedDays(jobs);
    var byDate := Counting.Tally(days);
    forall j | j in jobs && j.appliedDate.Some? ensures j.appliedDate.value.localDay in byDate {
      var i :| 0 <= i < |Dated(jobs)| && Dated(jobs)[i] == j;
      assert days[i] == j.appliedDate.value.localDay;
    }
    byDate
  }

  /** The per-day counts add up to the number of jobs that have an applied date. */
  lemma ApplicationsByDateTotal(jobs: seq<JobView>)
    ensures Counting.SumAt(ApplicationsByDate(jobs), Counting.KeysInOrder(AppliedDays(jobs))) == |Dated(jobs)|
  {
    Counting.TallyTotalInOrder(AppliedDays(jobs));
  }

  /** `.slice(-7)`: the last seven elements, or all of them when there are fewer. */
  function LastSeven(ks: seq<string>): (r: seq<string>)
    ensures |r| <= 7 && |r| <= |ks|
    ensures |r| == |ks| || |r| == 7
    ensures r == ks[|ks| - |r|..]
  {
    if |ks| <= 7 then ks else ks[|ks| - 7..]
  }

  /** `Object.keys(applicationsByDate).sort()`: the days with applications, ascending. */
  function SortedDays(jobs: seq<JobView>): seq<string> {
    Sorting.Sort(Counting.KeysInOrder(AppliedDays(jobs)))
  }

  lemma SortedDaysExact(jobs: seq<JobView>)
    ensures Sorting.StrictlyAscending(SortedDays(jobs))
    ensures forall d :: d in SortedDays(jobs) <==> d in ApplicationsByDate(jobs)
  {
    var ks := Counting.KeysInOrder(AppliedDays(jobs));
    var sorted := Sorting.Sort(ks);
    Sorting.SortDistinct(ks);
    forall d ensures d in sorted <==> d in ks {
      assert d in sorted <==> multiset(sorted)[d] > 0;
      assert d in ks <==> multiset(ks)[d] > 0;
    }
  }

  /** `.slice(-7)` of an ascending list keeps its latest elements, still ascending. */
  lemma LastSevenLatest(sorted: seq<string>)
    requires Sorting.StrictlyAscending(sorted)
    ensures var days := LastSeven(sorted);
      && Sorting.StrictlyAscending(days)
      && (forall d :: d in days ==> d in sorted)
      && (forall d :: d in sorted && d !in days ==> |days| == 7 && forall e :: e in days ==> Sorting.Below(d, e))
  {
    var days := LastSeven(sorted);
    var start := |sorted| - |days|;
    assert forall i :: 0 <= i < |days| ==> days[i] == sorted[start + i];
    forall d | d in sorted && d !in days ensures |days| == 7 && forall e :: e in days ==> Sorting.Below(d, e) {
      var p :| 0 <= p < |sorted| && sorted[p] == d;
      forall e | e in days ensures Sorting.Below(d, e) {
        var q :| 0 <= q < |days| && days[q] == e;
        assert sorted[start + q] == e;
      }
    }
  }

  /** `Object.keys(applicationsByDate).sort().slice(-7)`. */
  function BarDays(jobs: seq<JobView>): seq<string> {
    LastSeven(SortedDays(jobs))
  }

  /**
   * The bar chart shows at most seven days, each a day with applications, in strictly
   * ascending order; a day with applications is left out only when seven are shown and it
   * sorts before every one of them.
   */
  lemma BarDaysLatest(jobs: seq<JobView>)
    ensures var days := BarDays(jobs);
      && |days| <= 7
      && Sorting.StrictlyAscending(days)
      && (forall d :: d in days ==> d in ApplicationsByDate(jobs))
      && (forall d :: d in ApplicationsByDate(jobs) && d !in days ==>
            |days| == 7 && forall e :: e in days ==> Sorting.Below(d, e))
  {
    SortedDaysExact(jobs);
    LastSevenLatest(SortedDays(jobs));
  }

  /** `barData`: one bar per chosen day, labelled by `dayLabel`, with that day's count. */
  function BarData(jobs: seq<JobView>, dayLabel: string -> string): (bars: seq<Bar>)
    ensures |bars| == |BarDays(jobs)| <= 7
    ensures forall i :: 0 <= i < |bars| ==>
      && bars[i].date == dayLabel(BarDays(jobs)[i])
      && 0 < bars[i].count == Counting.Count(AppliedDays(jobs), BarDays(jobs)[i])
  {
    var days := BarDays(jobs);
    var byDate := ApplicationsByDate(jobs);
    BarDaysLatest(jobs);
    assert forall i :: 0 <= i < |days| ==> days[i] in byDate by {
      forall i | 0 <= i < |days| ensures days[i] in byDate {
        assert days[i] in days;
      }
    }
    seq(|days|, i requires 0 <= i < |days| => Bar(dayLabel(days[i]), byDate[days[i]]))
  }

  /** The page: the empty state when there are no jobs, the two charts otherwise. */
  function StatsView(jobs: Option<seq<JobView>>, dayLabel: string -> string): (v: View)
    ensures v.NoData? <==> jobs.None? || jobs.value == []
    ensures v.Charts? ==> |v.pie| <= 4 && |v.bars| <= 7
    ensures v.Charts? ==> v.pie == PieData(StatusCounts(jobs.value)) && v.bars == BarData(jobs.value, dayLabel)
  {
    if jobs.None? || jobs.value == [] then NoData
    else Charts(PieData(StatusCounts(jobs.value)), BarData(jobs.value, dayLabel))
  }
}
