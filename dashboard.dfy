/** The dashboard summary: the caller's number of applications, interviews and offers. */
module Dashboard {
  import opened Wrappers
  import opened Seqs
  import opened ApplicationSchema
  import opened Query
  import Progress
  import ApplicationController

  datatype Stats = Stats(totalApplications: nat, interviewsScheduled: nat, offersReceived: nat)

  /** `getDashboardStats`: three counts over the caller's records. */
  function GetDashboardStats(apps: seq<Application>, user: UserId): (s: Stats)
    ensures s.totalApplications == |OwnedBy(apps, user)|
    ensures s.interviewsScheduled == CountStatus(OwnedBy(apps, user), "Interview")
    ensures s.offersReceived == CountStatus(OwnedBy(apps, user), "Offer")
  {
    var owned := OwnedBy(apps, user);
    Stats(|owned|, CountStatus(owned, "Interview"), CountStatus(owned, "Offer"))
  }

  /** Interviews and offers together never exceed the total; with every record
      schema-valid, the total is the sum of the four per-status counts that
      `getProgress` reports. */
  lemma StatsBounded(apps: seq<Application>, user: UserId)
    ensures var s := GetDashboardStats(apps, user);
      s.interviewsScheduled + s.offersReceived <= s.totalApplications
    ensures (forall a :: a in apps && a.user == user ==> SchemaValid(a)) ==>
      var owned := OwnedBy(apps, user);
      GetDashboardStats(apps, user).totalApplications ==
        CountStatus(owned, "Applied") + CountStatus(owned, "Interview")
        + CountStatus(owned, "Offer") + CountStatus(owned, "Rejected")
  {
    var owned := OwnedBy(apps, user);
    Progress.OutcomesBounded(owned);
    if forall a :: a in apps && a.user == user ==> SchemaValid(a) {
      ApplicationController.StatusCountsCover(owned);
    }
  }

  /** The progress KPIs without a date range and status filter count the same
      records as the dashboard. */
  lemma StatsAgreeWithKpis(apps: seq<Application>, user: UserId, now: Time)
    ensures var k := Progress.GetProgressKpis(apps, user, Progress.ProgressQuery(Some("all"), None), now);
      var s := GetDashboardStats(apps, user);
      && k.totalApplications == s.totalApplications
      && k.interviewsScheduled == s.interviewsScheduled
      && k.offersReceived == s.offersReceived
  {
    var q := Progress.ProgressQuery(Some("all"), None);
    assert Progress.RangeDays(q.dateRange).None?;
    FilterSame(apps, Progress.ProgressFilter(user, Progress.Unbounded, "all"), OwnerIs(user));
  }
}
