/** The progress handlers: KPI counts for a date window with their change
    against the window before it, the day-by-day and per-status charts with a
    timeline, and the feed of recent activity. */
module Progress {
  import opened Wrappers
  import opened Seqs
  import opened Text
  import opened ApplicationSchema
  import opened Query

  // ------------------------------------------------------------ date windows

  /** The `dateApplied` condition a query carries. */
  datatype DateWindow =
    | Unbounded
    | Since(start: Time)                // `$gte: start`
    | Between(start: Time, end: Time)   // `$gte: start, $lt: end`

  predicate InWindow(t: Time, w: DateWindow) {
    match w
    case Unbounded => true
    case Since(start) => start <= t
    case Between(start, end) => start <= t < end
  }

  /** The number of days `dateRange` asks for (default `'30'`), or `None` when it
      is empty, `'all'` or not a number, which means "no date condition". */
  function RangeDays(dateRange: Option<string>): (d: Option<int>)
    ensures dateRange == None ==> d == Some(30)
    ensures dateRange == Some("") || dateRange == Some("all") ==> d == None
    ensures dateRange.Some? && dateRange.value != "" && dateRange.value != "all" ==>
      d == ParseInt(dateRange.value)
  {
    ParseIntOfNat(30);
    assert NatToString(30) == "30";
    var s := if dateRange.Some? then dateRange.value else "30";
    if s == "" || s == "all" then None else ParseInt(s)
  }

  /** `getDateRangeFilter`: from `days` days before `now` on. */
  function CurrentWindow(days: Option<int>, now: Time): (w: DateWindow)
    ensures forall t :: InWindow(t, w) <==> days.None? || now - days.value * MillisPerDay <= t
  {
    if days.None? then Unbounded else Since(now - days.value * MillisPerDay)
  }

  /** `getPreviousPeriodFilter`: the `days` days before the current window. */
  function PreviousWindow(days: Option<int>, now: Time): (w: DateWindow)
    ensures forall t :: InWindow(t, w) <==>
      days.None? || now - 2 * days.value * MillisPerDay <= t < now - days.value * MillisPerDay
  {
    if days.None? then Unbounded
    else Between(now - 2 * days.value * MillisPerDay, now - days.value * MillisPerDay)
  }

  /** The two windows of a numeric range never share an instant; for a range of
      `d >= 0` days they are adjacent, each `d` days long, and together cover
      the last `2d` days. */
  lemma WindowsPartition(d: int, now: Time, t: Time)
    ensures !(InWindow(t, CurrentWindow(Some(d), now)) && InWindow(t, PreviousWindow(Some(d), now)))
    ensures PreviousWindow(Some(d), now).end == CurrentWindow(Some(d), now).start
    ensures PreviousWindow(Some(d), now).end - PreviousWindow(Some(d), now).start == d * MillisPerDay
    ensures d >= 0 ==>
      ((InWindow(t, CurrentWindow(Some(d), now)) || InWindow(t, PreviousWindow(Some(d), now)))
       <==> now - 2 * d * MillisPerDay <= t)
  {
  }

  // -------------------------------------------------------- percent change

  /** `calculateChange`: `Math.round((current - previous) / previous * 100)`,
      with 100 or 0 when there was nothing before. The rounding takes halves up,
      as `Math.round` does. */
  function CalculateChange(current: nat, previous: nat): (r: int)
    ensures previous == 0 ==> r == (if current > 0 then 100 else 0)
    ensures previous > 0 ==>
      (2 * previous) * r - previous <= 200 * (current - previous) < (2 * previous) * r + previous
  {
    if previous == 0 then (if current > 0 then 100 else 0)
    else
      var x := 200 * (current - previous) + previous;
      var d := 2 * previous;
      assert d * (x / d) <= x < d * (x / d) + d;
      x / d
  }

  /** No change, no percentage. */
  lemma ChangeOfEqual(c: nat)
    ensures CalculateChange(c, c) == 0
  {
    if c > 0 {
      var r := CalculateChange(c, c);
      MulShift(2 * c, r, 1);
      MulShift(2 * c, r, -1);
    }
  }

  /** The change has the sign of the difference, never drops below -100 and is
      exactly -100 when everything went, 100 when the count doubled. */
  lemma ChangeSignAndBounds(c: nat, p: nat)
    requires p > 0
    ensures c > p ==> CalculateChange(c, p) >= 0
    ensures c < p ==> CalculateChange(c, p) <= 0
    ensures CalculateChange(c, p) >= -100
    ensures CalculateChange(0, p) == -100
    ensures CalculateChange(2 * p, p) == 100
  {
    var r := CalculateChange(c, p);
    MulShift(2 * p, r, 1);
    MulShift(2 * p, r, -1);
    MulShift(2 * p, r, -101);
    var z := CalculateChange(0, p);
    MulShift(2 * p, z, -99);
    MulShift(2 * p, z, -101);
    var h := CalculateChange(2 * p, p);
    MulShift(2 * p, h, 99);
    MulShift(2 * p, h, 101);
  }

  /** Multiplying by a non-negative factor keeps the order with a fixed bound. */
  lemma MulShift(k: nat, r: int, m: int)
    ensures r >= m ==> k * r >= k * m
    ensures r <= m ==> k * r <= k * m
  {
    if r >= m {
      MulLeftMonotone(k, m, r);
    }
    if r <= m {
      MulLeftMonotone(k, r, m);
    }
  }

  lemma MulLeftMonotone(k: nat, x: int, y: int)
    requires x <= y
    ensures k * x <= k * y
  {
    assert k * y - k * x == k * (y - x);
  }

  // --------------------------------------------------------------- matching

  /** The query string of the progress handlers. */
  datatype ProgressQuery = ProgressQuery(dateRange: Option<string>, status: Option<string>)

  /** `status` defaults to `'all'`; any other value, even empty, filters on it. */
  function StatusParam(q: ProgressQuery): string {
    if q.status.Some? then q.status.value else "all"
  }

  predicate StatusSelected(a: Application, status: string) {
    status == "all" || a.status == status
  }

  function ProgressFilter(user: UserId, w: DateWindow, status: string): Application -> bool {
    (a: Application) => a.user == user && InWindow(a.dateApplied, w) && StatusSelected(a, status)
  }

  /** The records `{ user, ...dateFilter, ...statusFilter }` matches, in store order. */
  function Matches(apps: seq<Application>, user: UserId, w: DateWindow, status: string): (r: seq<Application>)
    ensures forall a :: a in r <==>
      a in apps && a.user == user && InWindow(a.dateApplied, w) && StatusSelected(a, status)
  {
    Filter(apps, ProgressFilter(user, w, status))
  }

  // -------------------------------------------------------------------- KPIs

  datatype Metrics = Metrics(totalApplications: nat, interviews: nat, offers: nat, rejections: nat)

  /** The `$group` with `_id: null`: one row over the matched records, none when
      nothing matched. */
  function GroupMetrics(matched: seq<Application>): (rows: seq<Metrics>)
    ensures |rows| <= 1 && (rows == [] <==> matched == [])
  {
    if matched == [] then []
    else [Metrics(|matched|, CountStatus(matched, "Interview"), CountStatus(matched, "Offer"), CountStatus(matched, "Rejected"))]
  }

  /** `current[0] || { zeros }`. */
  function MetricsOf(matched: seq<Application>): (m: Metrics)
    ensures m.totalApplications == |matched|
    ensures m.interviews == CountStatus(matched, "Interview")
    ensures m.offers == CountStatus(matched, "Offer")
    ensures m.rejections == CountStatus(matched, "Rejected")
  {
    var rows := GroupMetrics(matched);
    if rows == [] then Metrics(0, 0, 0, 0) else rows[0]
  }

  /** Interviews, offers and rejections are distinct statuses, so together they
      never exceed the number of records. */
  lemma {:induction false} OutcomesBounded(s: seq<Application>)
    ensures CountStatus(s, "Interview") + CountStatus(s, "Offer") + CountStatus(s, "Rejected") <= |s|
  {
    if s != [] {
      OutcomesBounded(s[..|s| - 1]);
    }
  }

  datatype Kpis = Kpis(
    totalApplications: nat, totalApplicationsChange: int,
    interviewsScheduled: nat, interviewsScheduledChange: int,
    offersReceived: nat, offersReceivedChange: int,
    rejections: nat, rejectionsChange: int)

  /** `getProgressKPIs`. */
  function GetProgressKpis(apps: seq<Application>, user: UserId, q: ProgressQuery, now: Time): (k: Kpis)
    ensures var days := RangeDays(q.dateRange);
      var cur := Matches(apps, user, CurrentWindow(days, now), StatusParam(q));
      var prev := Matches(apps, user, PreviousWindow(days, now), StatusParam(q));
      && k.totalApplications == |cur|
      && k.interviewsScheduled == CountStatus(cur, "Interview")
      && k.offersReceived == CountStatus(cur, "Offer")
      && k.rejections == CountStatus(cur, "Rejected")
      && k.totalApplicationsChange == CalculateChange(|cur|, |prev|)
      && k.interviewsScheduledChange == CalculateChange(CountStatus(cur, "Interview"), CountStatus(prev, "Interview"))
      && k.offersReceivedChange == CalculateChange(CountStatus(cur, "Offer"), CountStatus(prev, "Offer"))
      && k.rejectionsChange == CalculateChange(CountStatus(cur, "Rejected"), CountStatus(prev, "Rejected"))
  {
    var days := RangeDays(q.dateRange);
    var c := MetricsOf(Matches(apps, user, CurrentWindow(days, now), StatusParam(q)));
    var p := MetricsOf(Matches(apps, user, PreviousWindow(days, now), StatusParam(q)));
    Kpis(
      c.totalApplications, CalculateChange(c.totalApplications, p.totalApplications),
      c.interviews, CalculateChange(c.interviews, p.interviews),
      c.offers, CalculateChange(c.offers, p.offers),
      c.rejections, CalculateChange(c.rejections, p.rejections))
  }

  /** The outcome counts stay within the total, and every change is at least -100. */
  lemma KpisBounded(apps: seq<Application>, user: UserId, q: ProgressQuery, now: Time)
    ensures var k := GetProgressKpis(apps, user, q, now);
      && k.interviewsScheduled + k.offersReceived + k.rejections <= k.totalApplications
      && k.totalApplicationsChange >= -100 && k.interviewsScheduledChange >= -100
      && k.offersReceivedChange >= -100 && k.rejectionsChange >= -100
  {
    var days := RangeDays(q.dateRange);
    var cur := Matches(apps, user, CurrentWindow(days, now), StatusParam(q));
    var prev := Matches(apps, user, PreviousWindow(days, now), StatusParam(q));
    OutcomesBounded(cur);
    ChangeFloor(|cur|, |prev|);
    ChangeFloor(CountStatus(cur, "Interview"), CountStatus(prev, "Interview"));
    ChangeFloor(CountStatus(cur, "Offer"), CountStatus(prev, "Offer"));
    ChangeFloor(CountStatus(cur, "Rejected"), CountStatus(prev, "Rejected"));
  }

  lemma ChangeFloor(c: nat, p: nat)
    ensures CalculateChange(c, p) >= -100
  {
    if p > 0 {
      ChangeSignAndBounds(c, p);
    }
  }

  /** Without a usable date range both queries match the same records, so every
      change is 0. */
  lemma KpisWithoutRange(apps: seq<Application>, user: UserId, q: ProgressQuery, now: Time)
    requires RangeDays(q.dateRange).None?
    ensures var k := GetProgressKpis(apps, user, q, now);
      && k.totalApplicationsChange == 0 && k.interviewsScheduledChange == 0
      && k.offersReceivedChange == 0 && k.rejectionsChange == 0
  {
    var cur := Matches(apps, user, Unbounded, StatusParam(q));
    ChangeOfEqual(|cur|);
    ChangeOfEqual(CountStatus(cur, "Interview"));
    ChangeOfEqual(CountStatus(cur, "Offer"));
    ChangeOfEqual(CountStatus(cur, "Rejected"));
  }

  // ------------------------------------------------------------------ charts

  /** One row of the applications-over-time chart: a calendar day and its count. */
  datatype DayCount = DayCount(day: int, count: nat)

  predicate Ascending(b: seq<DayCount>) {
    forall i, j :: 0 <= i < j < |b| ==> b[i].day < b[j].day
  }

  predicate Positive(b: seq<DayCount>) {
    forall i :: 0 <= i < |b| ==> b[i].count >= 1
  }

  /** The count of the row for `day`, or 0 when there is none. */
  function CountFor(b: seq<DayCount>, day: int): nat {
    if b == [] then 0 else if b[0].day == day then b[0].count else CountFor(b[1..], day)
  }

  function Total(b: seq<DayCount>): nat {
    if b == [] then 0 else b[0].count + Total(b[1..])
  }

  /** Counts one more record on `day`, keeping the rows in ascending day order. */
  function AddDay(b: seq<DayCount>, day: int): (r: seq<DayCount>)
    requires Ascending(b)
    ensures Ascending(r)
    ensures r != [] && (r[0].day == day || (b != [] && r[0].day == b[0].day))
  {
    if b == [] then [DayCount(day, 1)]
    else if b[0].day == day then [DayCount(day, b[0].count + 1)] + b[1..]
    else if day < b[0].day then [DayCount(day, 1)] + b
    else [b[0]] + AddDay(b[1..], day)
  }

  /** Adding a record on `day` raises that day's count by one and no other. */
  lemma {:induction false} AddDayCounts(b: seq<DayCount>, day: int)
    requires Ascending(b)
    ensures forall x :: CountFor(AddDay(b, day), x) == CountFor(b, x) + (if x == day then 1 else 0)
    ensures Total(AddDay(b, day)) == Total(b) + 1
    ensures Positive(b) ==> Positive(AddDay(b, day))
  {
    var r := AddDay(b, day);
    if b == [] {
    } else if b[0].day == day {
      assert r[1..] == b[1..];
    } else if day < b[0].day {
      CountForBelow(b, day);
      assert r[1..] == b;
    } else {
      var rest := AddDay(b[1..], day);
      AddDayCounts(b[1..], day);
      assert r == [b[0]] + rest;
      assert r[1..] == rest;
    }
  }

  lemma {:induction false} CountForBelow(b: seq<DayCount>, day: int)
    requires Ascending(b) && b != [] && day < b[0].day
    ensures CountFor(b, day) == 0
  {
    if |b| > 1 {
      assert b[1..][0] == b[1];
      CountForBelow(b[1..], day);
    }
  }

  function DayIs(day: int): Application -> bool {
    (a: Application) => DayOf(a.dateApplied) == day
  }

  /** The `$group` by `$dateToString` of `dateApplied` with `$sort: { _id: 1 }`:
      one row per day that has records, in ascending order, each with the number
      of matched records applied that day. */
  function BucketByDay(matched: seq<Application>): (r: seq<DayCount>)
    ensures Ascending(r) && Positive(r)
    ensures forall x :: CountFor(r, x) == Count(matched, DayIs(x))
    ensures Total(r) == |matched|
  {
    if matched == [] then []
    else
      var init := matched[..|matched| - 1];
      var r := AddDay(BucketByDay(init), DayOf(matched[|matched| - 1].dateApplied));
      AddDayCounts(BucketByDay(init), DayOf(matched[|matched| - 1].dateApplied));
      forall x
        ensures CountFor(r, x) == Count(matched, DayIs(x))
      {
        CountLast(matched, DayIs(x));
      }
      r
  }

  /** In an ascending chart the row for a day holds exactly that day's count. */
  lemma {:induction false} CountForRow(b: seq<DayCount>, i: nat)
    requires Ascending(b) && i < |b|
    ensures CountFor(b, b[i].day) == b[i].count
  {
    if i > 0 {
      assert b[0].day < b[i].day;
      assert b[1..][i - 1] == b[i];
      CountForRow(b[1..], i - 1);
    }
  }

  /** Each chart row is a day with records, and its count is that day's number of
      records; a day without records has no row. */
  lemma BucketRows(matched: seq<Application>)
    ensures forall i :: 0 <= i < |BucketByDay(matched)| ==>
      BucketByDay(matched)[i].count == Count(matched, DayIs(BucketByDay(matched)[i].day))
    ensures forall a :: a in matched ==> exists i :: 0 <= i < |BucketByDay(matched)| && BucketByDay(matched)[i].day == DayOf(a.dateApplied)
  {
    var b := BucketByDay(matched);
    forall i | 0 <= i < |b|
      ensures b[i].count == Count(matched, DayIs(b[i].day))
    {
      CountForRow(b, i);
    }
    forall a | a in matched
      ensures exists i :: 0 <= i < |b| && b[i].day == DayOf(a.dateApplied)
    {
      var d := DayOf(a.dateApplied);
      assert a in Filter(matched, DayIs(d));
      assert CountFor(b, d) > 0;
      CountForPresent(b, d);
    }
  }

  lemma {:induction false} CountForPresent(b: seq<DayCount>, day: int)
    requires CountFor(b, day) > 0
    ensures exists i :: 0 <= i < |b| && b[i].day == day
  {
    if b[0].day != day {
      CountForPresent(b[1..], day);
      var i :| 0 <= i < |b[1..]| && b[1..][i].day == day;
      assert b[i + 1].day == day;
    }
  }

  /** One entry of the timeline. */
  datatype TimelineEntry = TimelineEntry(
    date: int, event: string, applicationId: string, jobTitle: string, companyName: string)

  const TimelineLimit: nat := 50

  function TimelineEntries(s: seq<Application>): (r: seq<TimelineEntry>)
    ensures |r| == |s|
    ensures forall i :: 0 <= i < |s| ==>
      r[i] == TimelineEntry(DayOf(s[i].dateApplied), s[i].status, NatToString(s[i].id), s[i].title, s[i].company)
  {
    seq(|s|, i requires 0 <= i < |s| =>
      TimelineEntry(DayOf(s[i].dateApplied), s[i].status, NatToString(s[i].id), s[i].title, s[i].company))
  }

  /** `find(baseQuery).sort({ dateApplied: -1 }).limit(50)`, projected. */
  function Timeline(matched: seq<Application>): (r: seq<TimelineEntry>)
    ensures |r| == if |matched| < TimelineLimit then |matched| else TimelineLimit
  {
    TimelineEntries(Take(Sort(matched, ByDateApplied, false), TimelineLimit))
  }

  predicate Describes(e: TimelineEntry, a: Application) {
    e == TimelineEntry(DayOf(a.dateApplied), a.status, NatToString(a.id), a.title, a.company)
  }

  predicate DescribesOneOf(e: TimelineEntry, s: seq<Application>) {
    exists a :: a in s && Describes(e, a)
  }

  /** The timeline runs from the latest application day backwards, and every
      entry is one of the matched records. */
  lemma TimelineOrdered(matched: seq<Application>)
    ensures var t := Timeline(matched);
      && (forall i, j :: 0 <= i < j < |t| ==> t[i].date >= t[j].date)
      && (forall i :: 0 <= i < |t| ==> DescribesOneOf(t[i], matched))
  {
    var page := Take(Sort(matched, ByDateApplied, false), TimelineLimit);
    var t := Timeline(matched);
    SortedPrefix(matched, page, ByDateApplied, false);
    forall i, j | 0 <= i < j < |t|
      ensures t[i].date >= t[j].date
    {
      assert Precedes(page[i], page[j], ByDateApplied, false);
      DayOfMonotone(page[j].dateApplied, page[i].dateApplied);
    }
    forall i | 0 <= i < |t|
      ensures DescribesOneOf(t[i], matched)
    {
      assert page[i] in matched && Describes(t[i], page[i]);
    }
  }

  /** The timeline holds the latest matched records: they and the records left
      out are exactly the matched ones, each at most as often as it matched; no
      record left out was applied to later than any shown; and records are left
      out only once the timeline is full. */
  lemma TimelineLatest(matched: seq<Application>)
    ensures exists top: seq<Application>, rest: seq<Application> ::
      && multiset(top) + multiset(rest) == multiset(matched)
      && Timeline(matched) == TimelineEntries(top)
      && (forall a, b :: a in rest && b in top ==> a.dateApplied <= b.dateApplied)
      && (rest != [] ==> |top| == TimelineLimit)
  {
    var sorted := Sort(matched, ByDateApplied, false);
    var top := Take(sorted, TimelineLimit);
    var rest := sorted[|top|..];
    SortTop(matched, ByDateApplied, false, TimelineLimit);
    forall a, b | a in rest && b in top
      ensures a.dateApplied <= b.dateApplied
    {
      assert Precedes(b, a, ByDateApplied, false);
    }
    assert Timeline(matched) == TimelineEntries(top);
  }

  datatype Charts = Charts(
    applicationsOverTime: seq<DayCount>,
    statusDistribution: seq<StatusCount>,
    timeline: seq<TimelineEntry>)

  /** `getProgressCharts`, over the current window. The status distribution is
      the four-status object filled from the `$group` rows one row at a time:
      the four statuses and every other status present except `__proto__`, each
      with its number of matched records, in JavaScript's property order. */
  method GetProgressCharts(apps: seq<Application>, user: UserId, q: ProgressQuery, now: Time) returns (c: Charts)
    ensures var matched := Matches(apps, user, CurrentWindow(RangeDays(q.dateRange), now), StatusParam(q));
      && c.applicationsOverTime == BucketByDay(matched)
      && c.timeline == Timeline(matched)
    ensures var matched := Matches(apps, user, CurrentWindow(RangeDays(q.dateRange), now), StatusParam(q));
      var dist := c.statusDistribution;
      && NoDuplicates(Names(dist))
      && (forall name :: name in Names(dist) <==> IsStatusName(name) || (CountStatus(matched, name) >= 1 && name != ProtoKey))
      && (forall k :: 0 <= k < |dist| ==> dist[k].count == CountStatus(matched, dist[k].name))
      && InPropertyOrder(Names(dist))
      && Names(dist)[IndexCount(Names(dist))..] ==
           StatusKeys() + Distinct(Filter(Names(GroupByStatus(matched)), NewPlainKey(StatusKeys())))
  {
    var matched := Matches(apps, user, CurrentWindow(RangeDays(q.dateRange), now), StatusParam(q));
    var rows := GroupByStatus(matched);
    var table := FillStatusTable(rows);
    FilledTableCounts(matched, rows, table);
    c := Charts(BucketByDay(matched), table, Timeline(matched));
  }

  // ---------------------------------------------------------------- activity

  /** A `.limit(n)` on a query: 0 means no limit, a negative `n` means `-n`. */
  datatype Cap = Unlimited | AtMost(n: nat)

  /** `parseInt(limit)` with default 10, read as a store limit; `None` when it is
      not a number, a case the model does not follow. */
  function ActivityCap(limit: Option<string>): (c: Option<Cap>)
    ensures limit == None ==> c == Some(AtMost(10))
    ensures var n := ParseInt(if limit.Some? then limit.value else "10");
      && (n.None? <==> c.None?)
      && (n.Some? ==> c == Some(if n.value == 0 then Unlimited else AtMost(if n.value > 0 then n.value else -n.value)))
  {
    ParseIntOfNat(10);
    assert NatToString(10) == "10";
    var n := ParseInt(if limit.Some? then limit.value else "10");
    if n.None? then None
    else if n.value == 0 then Some(Unlimited)
    else if n.value > 0 then Some(AtMost(n.value))
    else Some(AtMost(-n.value))
  }

  function Capped(s: seq<Application>, c: Cap): (r: seq<Application>)
    ensures r <= s
    ensures c.AtMost? ==> |r| == if c.n < |s| then c.n else |s|
    ensures c.Unlimited? ==> r == s
  {
    match c
    case Unlimited => s
    case AtMost(n) => Take(s, n)
  }

  datatype Activity = Activity(
    id: string, kind: string, applicationId: string, jobTitle: string, companyName: string,
    description: string, timestamp: Time)

  function ActivityId(id: nat, index: nat): string {
    "activity_" + NatToString(id) + "_" + NatToString(index)
  }

  /** A record counts as new while its creation and update times coincide. */
  function ActivityOf(a: Application, index: nat): (e: Activity)
    ensures e.kind == "application_created" <==> a.createdAt == a.updatedAt
    ensures e.kind == "application_updated" <==> a.createdAt != a.updatedAt
    ensures e.timestamp == a.updatedAt && e.jobTitle == a.title && e.companyName == a.company
    ensures ParseInt(e.applicationId) == Some(a.id)
    ensures e.id == "activity_" + NatToString(a.id) + "_" + NatToString(index)
    ensures e.description == if a.createdAt == a.updatedAt then "New application: " + a.title + " at " + a.company
      else "Application updated: " + a.title + " at " + a.company + " - Status: " + a.status
  {
    ParseIntOfNat(a.id);
    var isNew := a.createdAt == a.updatedAt;
    Activity(
      ActivityId(a.id, index),
      if isNew then "application_created" else "application_updated",
      NatToString(a.id), a.title, a.company,
      if isNew then "New application: " + a.title + " at " + a.company
      else "Application updated: " + a.title + " at " + a.company + " - Status: " + a.status,
      a.updatedAt)
  }

  function Activities(s: seq<Application>): (r: seq<Activity>)
    ensures |r| == |s|
    ensures forall i :: 0 <= i < |s| ==> r[i] == ActivityOf(s[i], i)
  {
    seq(|s|, i requires 0 <= i < |s| => ActivityOf(s[i], i))
  }

  /** The caller's records, most recently updated first, up to the cap, as
      activity entries. */
  function Feed(apps: seq<Application>, user: UserId, c: Cap): seq<Activity> {
    Activities(Capped(Sort(OwnedBy(apps, user), ByUpdatedAt, false), c))
  }

  /** `getProgressActivity`. */
  function GetProgressActivity(apps: seq<Application>, user: UserId, limit: Option<string>): (r: Response<seq<Activity>>)
    ensures r.Error? <==> ActivityCap(limit).None?
    ensures r.Error? ==> r.failure == OutsideModel
    ensures r.Ok? ==> r.body == Feed(apps, user, ActivityCap(limit).value)
  {
    match ActivityCap(limit)
    case None => Error(OutsideModel)
    case Some(c) => Ok(Feed(apps, user, c))
  }

  predicate ReportsOwned(e: Activity, index: nat, apps: seq<Application>, user: UserId) {
    exists a :: a in apps && a.user == user && e == ActivityOf(a, index)
  }

  lemma NewestFirst(r: seq<Application>)
    requires SortedBy(r, ByUpdatedAt, false)
    ensures forall i, j :: 0 <= i < j < |r| ==> r[i].updatedAt >= r[j].updatedAt
  {
    forall i, j | 0 <= i < j < |r|
      ensures r[i].updatedAt >= r[j].updatedAt
    {
      assert Precedes(r[i], r[j], ByUpdatedAt, false);
    }
  }

  /** The feed is newest update first. */
  lemma FeedOrdered(apps: seq<Application>, user: UserId, c: Cap)
    ensures var feed := Feed(apps, user, c);
      forall i, j :: 0 <= i < j < |feed| ==> feed[i].timestamp >= feed[j].timestamp
  {
    var owned := OwnedBy(apps, user);
    var recent := Capped(Sort(owned, ByUpdatedAt, false), c);
    SortedPrefix(owned, recent, ByUpdatedAt, false);
    NewestFirst(recent);
    var feed := Activities(recent);
    assert forall i :: 0 <= i < |feed| ==> feed[i].timestamp == recent[i].updatedAt;
  }

  /** Every entry of the feed reports one of the caller's records. */
  lemma FeedOwned(apps: seq<Application>, user: UserId, c: Cap)
    ensures var feed := Feed(apps, user, c);
      forall i :: 0 <= i < |feed| ==> ReportsOwned(feed[i], i, apps, user)
  {
    var owned := OwnedBy(apps, user);
    var recent := Capped(Sort(owned, ByUpdatedAt, false), c);
    var feed := Activities(recent);
    SortedPrefix(owned, recent, ByUpdatedAt, false);
    forall i | 0 <= i < |feed|
      ensures ReportsOwned(feed[i], i, apps, user)
    {
      assert recent[i] in owned && feed[i] == ActivityOf(recent[i], i);
    }
  }

  /** The feed is as long as the cap allows, and holds every owned record when
      there is no cap. */
  lemma FeedLength(apps: seq<Application>, user: UserId, c: Cap)
    ensures |Feed(apps, user, c)| == (if c.AtMost? && c.n < |OwnedBy(apps, user)| then c.n else |OwnedBy(apps, user)|)
  {
    var owned := OwnedBy(apps, user);
    assert |Sort(owned, ByUpdatedAt, false)| == |owned|;
  }

  /** The feed holds the caller's most recently updated records: they and the
      records left out are exactly the caller's records, each at most as often
      as it is stored; no record left out was updated later than any shown; and
      records are left out only once the cap is reached. */
  lemma FeedLatest(apps: seq<Application>, user: UserId, c: Cap)
    ensures exists top: seq<Application>, rest: seq<Application> :: FeedSplit(apps, user, c, top, rest)
  {
    var owned := OwnedBy(apps, user);
    var sorted := Sort(owned, ByUpdatedAt, false);
    var k := if c.AtMost? then c.n else |sorted|;
    var top := Take(sorted, k);
    var rest := sorted[|top|..];
    assert Capped(sorted, c) == top by {
      if c.Unlimited? {
        assert top == sorted;
      }
    }
    LatestUpdated(owned, k);
    assert rest != [] ==> c.AtMost? && |top| == c.n;
    assert Feed(apps, user, c) == Activities(top);
    assert FeedSplit(apps, user, c, top, rest);
  }

  /** `top` is the feed's records and `rest` the caller's records left out of it. */
  ghost predicate FeedSplit(apps: seq<Application>, user: UserId, c: Cap, top: seq<Application>, rest: seq<Application>) {
    && multiset(top) + multiset(rest) == multiset(OwnedBy(apps, user))
    && Feed(apps, user, c) == Activities(top)
    && (forall a, b :: a in rest && b in top ==> a.updatedAt <= b.updatedAt)
    && (rest != [] ==> c.AtMost? && |top| == c.n)
  }

  /** The first `k` records by `updatedAt`, newest first, are the `k` latest. */
  lemma LatestUpdated(s: seq<Application>, k: nat)
    ensures var sorted := Sort(s, ByUpdatedAt, false);
      var top := Take(sorted, k);
      && multiset(top) + multiset(sorted[|top|..]) == multiset(s)
      && (forall a, b :: a in sorted[|top|..] && b in top ==> a.updatedAt <= b.updatedAt)
  {
    var sorted := Sort(s, ByUpdatedAt, false);
    var top := Take(sorted, k);
    SortTop(s, ByUpdatedAt, false, k);
    forall a, b | a in sorted[|top|..] && b in top
      ensures a.updatedAt <= b.updatedAt
    {
      assert Precedes(b, a, ByUpdatedAt, false);
    }
  }

  /** The text after the last `_`. */
  function AfterLastUnderscore(s: string): string {
    var parts := Split(s, '_');
    parts[|parts| - 1]
  }

  /** The text after the last `_` of an activity id is the entry's index. */
  lemma ActivityIdIndex(id: nat, index: nat)
    ensures AfterLastUnderscore(ActivityId(id, index)) == NatToString(index)
  {
    var t := NatToString(index);
    assert '_' !in t;
    assert ActivityId(id, index) == ("activity_" + NatToString(id)) + ['_'] + t;
    LastPieceOf("activity_" + NatToString(id), '_', t);
  }

  /** No two entries of a feed share an id: the index after the last `_` differs. */
  lemma ActivityIdsDistinct(id1: nat, i1: nat, id2: nat, i2: nat)
    requires i1 != i2
    ensures ActivityId(id1, i1) != ActivityId(id2, i2)
  {
    DecimalValueOfNat(i1);
    DecimalValueOfNat(i2);
    ActivityIdIndex(id1, i1);
    ActivityIdIndex(id2, i2);
  }

}
