/**
 * The dashboard: four cards fed by the server's per-status counts, a missing count (or no
 * stats at all) reading as 0.
 */
module Dashboard {
  import opened Wrappers
  import opened ClientJobs
  import Counting
  import Database
  import JobController

  datatype Card = Card(title: string, count: nat)

  /** `stats?.[status] || 0`. */
  function Stat(stats: Option<map<string, nat>>, status: string): nat {
    if stats.Some? then Counting.ValueOr0(stats.value, status) else 0
  }

  /** `total`: the four known statuses added up. */
  function Total(stats: Option<map<string, nat>>): (t: nat)
    ensures t == Counting.SumAt(if stats.Some? then stats.value else map[], KnownStatuses)
    ensures stats.None? ==> t == 0
  {
    var m := if stats.Some? then stats.value else map[];
    var ks := KnownStatuses;
    assert Counting.SumAt(m, ks[3..]) == Stat(stats, Rejected);
    assert Counting.SumAt(m, ks[2..]) == Stat(stats, Offer) + Stat(stats, Rejected) by {
      assert ks[2..][1..] == ks[3..];
    }
    assert Counting.SumAt(m, ks[1..]) == Stat(stats, Interview) + Stat(stats, Offer) + Stat(stats, Rejected) by {
      assert ks[1..][1..] == ks[2..];
    }
    Stat(stats, Applied) + Stat(stats, Interview) + Stat(stats, Offer) + Stat(stats, Rejected)
  }

  /** The four cards, in the order the grid shows them. */
  function Cards(stats: Option<map<string, nat>>): (cards: seq<Card>)
    ensures |cards| == 4
    ensures cards[0].title == "Total Applications" && cards[0].count == Total(stats)
    ensures cards[1] == Card("Interviews", Stat(stats, Interview))
    ensures cards[2] == Card("Offers", Stat(stats, Offer))
    ensures cards[3] == Card("Rejected", Stat(stats, Rejected))
  {
    [ Card("Total Applications", Total(stats)),
      Card("Interviews", Stat(stats, Interview)),
      Card("Offers", Stat(stats, Offer)),
      Card("Rejected", Stat(stats, Rejected)) ]
  }

  /** The total card is at least each other card, and at least the three of them together. */
  lemma TotalDominates(stats: Option<map<string, nat>>)
    ensures var cards := Cards(stats);
      && (forall i :: 1 <= i < 4 ==> cards[0].count >= cards[i].count)
      && cards[0].count >= cards[1].count + cards[2].count + cards[3].count
  {
    var cards := Cards(stats);
    assert cards[0].count == Stat(stats, Applied) + cards[1].count + cards[2].count + cards[3].count;
  }

  /** A key outside the four statuses does not change the total. */
  lemma TotalIgnoresOtherKeys(m: map<string, nat>, key: string, value: nat)
    requires key !in KnownStatuses
    ensures Total(Some(m[key := value])) == Total(Some(m))
  {
    assert key != Applied && key != Interview && key != Offer && key != Rejected;
  }

  /**
   * Fed with the server's stats for a caller whose jobs all have one of the four statuses,
   * the total is the number of that caller's jobs.
   */
  lemma TotalCountsServerJobs(jobs: map<Database.JobId, Database.Job>, caller: Database.UserId)
    requires forall k :: JobController.Owns(jobs, caller, k) ==> jobs[k].status in KnownStatuses
    ensures Total(Some(JobController.JobStats(jobs, caller))) == |JobController.OwnedRows(jobs, caller).Keys|
  {
    KnownStatusesDistinct();
    JobController.StatsTotal(jobs, caller, KnownStatuses);
  }
}
