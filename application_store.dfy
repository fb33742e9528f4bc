/** The job-application handlers: create, list (filter, sort, paginate), get,
    update, delete and bulk delete, all scoped to the caller, and the per-status
    progress summary. The collection is a class holding the stored records. */
module ApplicationController {
  import opened Wrappers
  import opened Seqs
  import opened Text
  import opened ApplicationSchema
  import opened Query

  // ------------------------------------------------------------ formatting

  /** The outward form of a record. */
  datatype ApplicationDto = ApplicationDto(
    id: string,
    jobTitle: string,
    companyName: string,
    applicationDate: Option<int>,
    status: string,
    notes: Option<string>,
    companyLogo: Option<string>,
    location: Option<string>,
    salary: Option<string>,
    createdAt: Option<Time>,
    updatedAt: Option<Time>)

  /** `formatApplication`. The record has no `jobTitle`/`companyName` paths, so
      the fallbacks `app.title || app.jobTitle || ''` end at `title` itself; it
      has no `companyLogo`, `location` or `salary` paths either, so those read
      as null. The day of `dateApplied` stands for its `YYYY-MM-DD` form. */
  function FormatApplication(a: Application): (d: ApplicationDto)
    ensures ParseInt(d.id) == Some(a.id)
    ensures d.jobTitle == a.title && d.companyName == a.company && d.status == a.status
    ensures d.applicationDate == Some(DayOf(a.dateApplied))
    ensures d.notes.Some? <==> Truthy(a.notes)
    ensures d.notes.Some? ==> d.notes == a.notes
    ensures d.companyLogo == None && d.location == None && d.salary == None
    ensures d.createdAt == Some(a.createdAt) && d.updatedAt == Some(a.updatedAt)
  {
    ParseIntOfNat(a.id);
    ApplicationDto(
      NatToString(a.id),
      OrElse(Or(Some(a.title), None), ""),
      OrElse(Or(Some(a.company), None), ""),
      Some(DayOf(a.dateApplied)),
      a.status,
      OrNull(a.notes),
      None, None, None,
      Some(a.createdAt),
      Some(a.updatedAt))
  }

  function FormatAll(s: seq<Application>): (r: seq<ApplicationDto>)
    ensures |r| == |s|
    ensures forall i :: 0 <= i < |s| ==> r[i] == FormatApplication(s[i])
  {
    seq(|s|, i requires 0 <= i < |s| => FormatApplication(s[i]))
  }

  // -------------------------------------------------------------- requests

  /** A date field of a request body as JavaScript sees it: absent, `null`, a
      falsy value that `new Date` reads as the epoch (`0`, `false`), a falsy value
      it reads as an Invalid Date (`""`, `NaN`), or a truthy value with the instant
      `new Date` makes of it (`None` for an Invalid Date). */
  datatype DateInput = Undefined | Null | ZeroLike | Blank | Given(date: Option<Time>)

  /** JavaScript `a || b` on date fields. */
  function DateOr(a: DateInput, b: DateInput): (r: DateInput)
    ensures a.Given? ==> r == a
    ensures !a.Given? ==> r == b
  {
    if a.Given? then a else b
  }

  /** `new Date(v)`; `None` is an Invalid Date. */
  function NewDate(v: DateInput): (t: Option<Time>)
    ensures v.Null? || v.ZeroLike? ==> t == Some(0)
    ensures v.Undefined? || v.Blank? ==> t == None
    ensures v.Given? ==> t == v.date
  {
    match v
    case Undefined => None
    case Null => Some(0)
    case ZeroLike => Some(0)
    case Blank => None
    case Given(d) => d
  }

  /** The body of a create request. */
  datatype CreateRequest = CreateRequest(
    jobTitle: Option<string>, title: Option<string>,
    companyName: Option<string>, company: Option<string>,
    status: Option<string>,
    applicationDate: DateInput, dateApplied: DateInput,
    notes: Option<string>,
    location: Option<string>, salary: Option<string>, companyLogo: Option<string>)

  /** `applicationDate || dateApplied`. */
  function FinalDate(req: CreateRequest): DateInput {
    DateOr(req.applicationDate, req.dateApplied)
  }

  /** The title, company and date are all truthy once aliases are resolved. */
  predicate HasRequiredFields(req: CreateRequest) {
    && Truthy(Or(req.jobTitle, req.title))
    && Truthy(Or(req.companyName, req.company))
    && FinalDate(req).Given?
  }

  /** The required fields are there and `new Date(finalDate)` is a valid date. */
  predicate DateCasts(req: CreateRequest) {
    HasRequiredFields(req) && FinalDate(req).date.Some?
  }

  /** The record `Application.create` is asked to store. */
  function NewRecord(id: nat, caller: UserId, req: CreateRequest, now: Time): Application
    requires DateCasts(req)
  {
    Application(
      id, caller,
      Or(req.jobTitle, req.title).value,
      Or(req.companyName, req.company).value,
      if req.status.Some? then req.status.value else StatusName(DefaultStatus),
      FinalDate(req).date.value,
      req.notes,
      now, now)
  }

  /** The new name beats the legacy one for every aliased field when it is truthy,
      so a falsy `applicationDate` (`0`, `""`, `null`) gives way to `dateApplied`;
      the status defaults to Applied and the owner is the caller. */
  lemma NewRecordPrecedence(id: nat, caller: UserId, req: CreateRequest, now: Time)
    requires DateCasts(req)
    ensures var a := NewRecord(id, caller, req, now);
      && a.user == caller && a.id == id
      && a.title == (if Truthy(req.jobTitle) then req.jobTitle.value else req.title.value)
      && a.company == (if Truthy(req.companyName) then req.companyName.value else req.company.value)
      && a.dateApplied == (if req.applicationDate.Given? then req.applicationDate.date.value
                           else req.dateApplied.date.value)
      && (req.status == None ==> a.status == "Applied")
      && a.createdAt == a.updatedAt == now
      && a.title != "" && a.company != ""
  {
  }

  /** A create request is refused with 400 exactly when a required field is
      falsy on both of its names; a falsy date counts as missing even though
      `new Date` would read `0` as the epoch. */
  lemma RequiredFieldsOf(req: CreateRequest)
    ensures !HasRequiredFields(req) <==>
      || (!Truthy(req.jobTitle) && !Truthy(req.title))
      || (!Truthy(req.companyName) && !Truthy(req.company))
      || (!req.applicationDate.Given? && !req.dateApplied.Given?)
  {
  }

  /** The body of an update request; only supplied fields are present. `notes`
      is `None` when absent and `Some(None)` when the client sent `null`. */
  datatype UpdateRequest = UpdateRequest(
    jobTitle: Option<string>, title: Option<string>,
    companyName: Option<string>, company: Option<string>,
    status: Option<string>,
    notes: Option<Option<string>>,
    applicationDate: DateInput, dateApplied: DateInput,
    location: Option<string>, salary: Option<string>, companyLogo: Option<string>)

  /** The `$set` document of an update, restricted to the schema's paths (the store
      drops `location`, `salary` and `companyLogo`, and keys whose value is
      `undefined`). Each field is `None` when it is not set; `notes` may be set to
      null, and `dateApplied` to an Invalid Date (`Some(None)`). */
  datatype Patch = Patch(
    title: Option<string>,
    company: Option<string>,
    status: Option<string>,
    notes: Option<Option<string>>,
    dateApplied: Option<Option<Time>>)

  /** The date an update sets: `new Date(applicationDate || dateApplied)` when
      either is supplied, even as `null` or a falsy value. */
  function PatchDate(req: UpdateRequest): Option<Option<Time>> {
    if !req.applicationDate.Undefined? || !req.dateApplied.Undefined? then
      Some(NewDate(DateOr(req.applicationDate, req.dateApplied)))
    else None
  }

  /** The patch an update request yields. */
  function PatchOf(req: UpdateRequest): Patch {
    Patch(Or(req.jobTitle, req.title), Or(req.companyName, req.company), req.status, req.notes, PatchDate(req))
  }

  /** `updateData`, built field by field. A title or company that is falsy on
      both names is `undefined` and so not set. */
  method BuildPatch(req: UpdateRequest) returns (p: Patch)
    ensures p.title == Or(req.jobTitle, req.title)
    ensures p.company == Or(req.companyName, req.company)
    ensures p.status == req.status && p.notes == req.notes
    ensures p.dateApplied.Some? <==> !req.applicationDate.Undefined? || !req.dateApplied.Undefined?
    ensures p.dateApplied.Some? ==> p.dateApplied.value == NewDate(DateOr(req.applicationDate, req.dateApplied))
  {
    p := Patch(None, None, None, None, None);
    if req.jobTitle.Some? || req.title.Some? {
      p := p.(title := Or(req.jobTitle, req.title));
    }
    if req.companyName.Some? || req.company.Some? {
      p := p.(company := Or(req.companyName, req.company));
    }
    if req.status.Some? {
      p := p.(status := req.status);
    }
    if req.notes.Some? {
      p := p.(notes := req.notes);
    }
    if !req.applicationDate.Undefined? || !req.dateApplied.Undefined? {
      p := p.(dateApplied := Some(NewDate(DateOr(req.applicationDate, req.dateApplied))));
    }
  }

  /** The store can cast every value of the patch: its date, if set, is valid. */
  predicate Castable(p: Patch) {
    p.dateApplied != Some(None)
  }

  function Pick<T>(x: Option<T>, old_value: T): T {
    if x.Some? then x.value else old_value
  }

  /** `$set: updateData` with the store's `updatedAt` timestamp. */
  function ApplyPatch(a: Application, p: Patch, now: Time): (b: Application)
    requires Castable(p)
    ensures b.id == a.id && b.user == a.user && b.createdAt == a.createdAt && b.updatedAt == now
  {
    a.(title := Pick(p.title, a.title),
       company := Pick(p.company, a.company),
       status := Pick(p.status, a.status),
       notes := Pick(p.notes, a.notes),
       dateApplied := if p.dateApplied.Some? then p.dateApplied.value.value else a.dateApplied,
       updatedAt := now)
  }

  /** An update changes exactly the supplied fields; every other field keeps its value. */
  lemma PatchTouchesOnlySupplied(a: Application, req: UpdateRequest, now: Time)
    requires Castable(PatchOf(req))
    ensures var b := ApplyPatch(a, PatchOf(req), now);
      && (!Truthy(req.jobTitle) && req.title == None ==> b.title == a.title)
      && (!Truthy(req.companyName) && req.company == None ==> b.company == a.company)
      && (req.status == None ==> b.status == a.status)
      && (req.notes == None ==> b.notes == a.notes)
      && (req.applicationDate.Undefined? && req.dateApplied.Undefined? ==> b.dateApplied == a.dateApplied)
      && (Truthy(req.jobTitle) ==> b.title == req.jobTitle.value)
      && (!Truthy(req.jobTitle) && req.title.Some? ==> b.title == req.title.value)
      && (Truthy(req.companyName) ==> b.company == req.companyName.value)
      && (!Truthy(req.companyName) && req.company.Some? ==> b.company == req.company.value)
      && (req.status.Some? ==> b.status == req.status.value)
      && (req.notes.Some? ==> b.notes == req.notes.value)
      && (req.applicationDate.Given? ==> b.dateApplied == req.applicationDate.date.value)
      && (req.applicationDate.Undefined? && req.dateApplied.Null? ==> b.dateApplied == 0)
  {
  }

  /** An update keeps a record schema-valid when the values it supplies are valid. */
  lemma PatchKeepsSchema(a: Application, p: Patch, now: Time)
    requires SchemaValid(a) && Castable(p)
    requires p.title.Some? ==> p.title.value != "" && JsLength(p.title.value) <= TitleMaxLength
    requires p.company.Some? ==> p.company.value != "" && JsLength(p.company.value) <= CompanyMaxLength
    requires p.status.Some? ==> IsStatusName(p.status.value)
    requires p.notes.Some? && p.notes.value.Some? ==> JsLength(p.notes.value.value) <= NotesMaxLength
    ensures SchemaValid(ApplyPatch(a, p, now))
  {
  }

  /** Updates do not run the schema's validators: a status alone is stored as
      given, and the record stays schema-valid exactly when it is one of the
      enumeration's names. */
  lemma UpdateStoresAnyStatus(a: Application, status: string, now: Time)
    requires SchemaValid(a)
    ensures var b := ApplyPatch(a, Patch(None, None, Some(status), None, None), now);
      && b == a.(status := status, updatedAt := now)
      && (SchemaValid(b) <==> IsStatusName(status))
  {
  }

  // ----------------------------------------------------------------- lookups

  predicate UniqueIds(apps: seq<Application>) {
    forall i, j :: 0 <= i < j < |apps| ==> apps[i].id != apps[j].id
  }

  predicate OwnedRecord(apps: seq<Application>, caller: UserId, id: nat) {
    exists k :: 0 <= k < |apps| && apps[k].id == id && apps[k].user == caller
  }

  /** `findOne({ _id: id, user: caller })`: the position of the caller's record with that id. */
  function FindOwned(apps: seq<Application>, caller: UserId, id: nat): (r: Option<nat>)
    ensures r.Some? <==> OwnedRecord(apps, caller, id)
    ensures r.Some? ==> r.value < |apps| && apps[r.value].id == id && apps[r.value].user == caller
  {
    if apps == [] then None
    else if apps[0].id == id && apps[0].user == caller then Some(0)
    else
      var r := FindOwned(apps[1..], caller, id);
      assert OwnedRecord(apps, caller, id) ==> OwnedRecord(apps[1..], caller, id) by {
        if OwnedRecord(apps, caller, id) {
          var k :| 0 <= k < |apps| && apps[k].id == id && apps[k].user == caller;
          assert k > 0 && apps[1..][k - 1] == apps[k];
        }
      }
      if r.Some? then Some(r.value + 1) else None
  }

  /** `getApplication`: the caller's record with that id, or 404. A record of
      another owner is never returned. */
  function GetApplication(apps: seq<Application>, caller: UserId, id: nat): (r: Response<ApplicationDto>)
    ensures r.Ok? <==> OwnedRecord(apps, caller, id)
    ensures r.Ok? ==> exists a :: a in apps && a.user == caller && a.id == id && r.body == FormatApplication(a)
    ensures r.Error? ==> r == Error(Fail(404, ApplicationNotFound))
  {
    match FindOwned(apps, caller, id)
    case Some(k) => Ok(FormatApplication(apps[k]))
    case None => Error(Fail(404, ApplicationNotFound))
  }

  /** A created record reads back with the title, company, status and date it was stored with. */
  lemma GetAfterCreate(apps: seq<Application>, a: Application)
    requires UniqueIds(apps + [a])
    ensures GetApplication(apps + [a], a.user, a.id) == Ok(FormatApplication(a))
  {
    var s := apps + [a];
    assert s[|apps|] == a;
    var k := FindOwned(s, a.user, a.id).value;
    assert k == |apps|;
  }

  // ----------------------------------------------------------------- listing

  /** The query string of a list request; absent parameters take the handler's defaults. */
  datatype ListQuery = ListQuery(
    status: Option<string>, search: Option<string>,
    page: Option<string>, limit: Option<string>,
    sortBy: Option<string>, sortOrder: Option<string>)

  /** `query.status = status` unless the status is absent, empty or `'all'`. */
  predicate StatusMatches(a: Application, status: Option<string>) {
    Truthy(status) && status.value != "all" ==> a.status == status.value
  }

  /** The `$or` of two case-insensitive regex matches, read as substring matches. */
  predicate SearchMatches(a: Application, search: Option<string>) {
    Truthy(search) ==>
      Contains(Lower(a.title), Lower(search.value)) || Contains(Lower(a.company), Lower(search.value))
  }

  function ListFilter(caller: UserId, q: ListQuery): Application -> bool {
    (a: Application) => a.user == caller && StatusMatches(a, q.status) && SearchMatches(a, q.search)
  }

  /** The records the list query matches, in store order. */
  function ListMatches(apps: seq<Application>, caller: UserId, q: ListQuery): (r: seq<Application>)
    ensures forall a :: a in r <==> a in apps && a.user == caller && StatusMatches(a, q.status) && SearchMatches(a, q.search)
  {
    Filter(apps, ListFilter(caller, q))
  }

  /** The sort key and direction a list request selects. */
  function SortFieldOf(sortBy: string): SortField {
    if sortBy == "date" then ByDateApplied
    else if sortBy == "company" then ByCompany
    else if sortBy == "status" then ByStatus
    else ByCreatedAt
  }

  /** `Math.ceil(total / limit)` for a positive limit. */
  function CeilDiv(total: nat, limit: nat): (pages: nat)
    requires limit >= 1
    ensures pages * limit >= total
    ensures pages == 0 || (pages - 1) * limit < total
  {
    var q := (total + limit - 1) / limit;
    assert limit * q <= total + limit - 1 < limit * q + limit;
    q
  }

  datatype Pagination = Pagination(page: int, limit: int, total: nat, totalPages: nat)

  /** One page of matched records, before formatting. */
  datatype PageOfRecords = PageOfRecords(records: seq<Application>, pagination: Pagination)

  /** A page number and size, both positive, with the number of records skipped. */
  datatype Window = Window(page: nat, limit: nat, offset: nat)

  /** `(page - 1) * limit`. */
  function Offset(page: nat, limit: nat): (n: nat)
    requires page >= 1
    ensures n == (page - 1) * limit
  {
    var k: nat := page - 1;
    MulNat(k, limit);
    k * limit
  }

  lemma MulNat(a: nat, b: nat)
    ensures a * b >= 0
  {
  }

  /** The `page` text the handler parses, `"1"` when absent. */
  function PageText(q: ListQuery): string {
    if q.page.Some? then q.page.value else "1"
  }

  /** The `limit` text the handler parses, `"10"` when absent. */
  function LimitText(q: ListQuery): string {
    if q.limit.Some? then q.limit.value else "10"
  }

  /** The page number and size the handler reads (`parseInt`, defaults 1 and 10),
      when both are positive, with `skip = (page - 1) * limit`; the store's
      behaviour for other values is not modelled. */
  function PageParams(q: ListQuery): (w: Option<Window>)
    ensures w.Some? <==>
      && ParseInt(PageText(q)).Some? && ParseInt(PageText(q)).value >= 1
      && ParseInt(LimitText(q)).Some? && ParseInt(LimitText(q)).value >= 1
    ensures w.Some? ==>
      && w.value.page == ParseInt(PageText(q)).value
      && w.value.limit == ParseInt(LimitText(q)).value
      && w.value.offset == (w.value.page - 1) * w.value.limit
    ensures q.page == None && q.limit == None ==> w == Some(Window(1, 10, 0))
  {
    ParseIntOfNat(1);
    ParseIntOfNat(10);
    assert NatToString(1) == "1" && NatToString(10) == "10";
    var page := ParseInt(PageText(q));
    var limit := ParseInt(LimitText(q));
    if page.Some? && page.value >= 1 && limit.Some? && limit.value >= 1
    then Some(Window(page.value, limit.value, Offset(page.value, limit.value))) else None
  }

  /** `.skip(offset).limit(limit)` over the sorted matches: the records from
      position `offset` on, as many as the limit allows. */
  function PageOf(sorted: seq<Application>, w: Window): (r: seq<Application>)
    ensures |r| == if w.offset >= |sorted| then 0
                   else if |sorted| - w.offset < w.limit then |sorted| - w.offset else w.limit
    ensures forall i :: 0 <= i < |r| ==> w.offset + i < |sorted| && r[i] == sorted[w.offset + i]
    ensures r == if w.offset >= |sorted| then [] else sorted[w.offset..w.offset + |r|]
  {
    var r := Take(Skip(sorted, w.offset), w.limit);
    assert w.offset < |sorted| ==> r == sorted[w.offset..w.offset + |r|] by {
      if w.offset < |sorted| {
        forall i | 0 <= i < |r|
          ensures r[i] == sorted[w.offset..w.offset + |r|][i]
        {
        }
      }
    }
    r
  }

  /** `find(query).sort(sort).skip((page - 1) * limit).limit(limit)` with `countDocuments(query)`. */
  function ListPage(apps: seq<Application>, caller: UserId, q: ListQuery): (r: Response<PageOfRecords>)
    ensures r.Error? <==> PageParams(q).None?
    ensures r.Error? ==> r.failure == OutsideModel
  {
    var w := PageParams(q);
    if w.None? then Error(OutsideModel)
    else
      var matched := ListMatches(apps, caller, q);
      var sorted := Sort(matched, SortFieldOf(Pick(q.sortBy, "date")), q.sortOrder == Some("asc"));
      Ok(PageOfRecords(
        PageOf(sorted, w.value),
        Pagination(w.value.page, w.value.limit, |matched|, CeilDiv(|matched|, w.value.limit))))
  }

  datatype ListResult = ListResult(applications: seq<ApplicationDto>, pagination: Pagination)

  /** `listApplications`. */
  function ListApplications(apps: seq<Application>, caller: UserId, q: ListQuery): (r: Response<ListResult>)
    ensures r.Ok? <==> ListPage(apps, caller, q).Ok?
    ensures r.Ok? ==> r.body.applications == FormatAll(ListPage(apps, caller, q).body.records)
    ensures r.Ok? ==> r.body.pagination == ListPage(apps, caller, q).body.pagination
  {
    match ListPage(apps, caller, q)
    case Ok(p) => Ok(ListResult(FormatAll(p.records), p.pagination))
    case Error(e) => Error(e)
  }

  /** A listed page is the run of the sorted matches that starts at
      `(page - 1) * limit`, as long as the limit and the remaining matches allow,
      for the parsed page and limit; it holds only the caller's records matching
      the status and search filters, in the order the sort key and direction ask
      for; `total` counts every match and `totalPages` is its ceiling over `limit`. */
  lemma {:induction false} ListPageProperties(apps: seq<Application>, caller: UserId, q: ListQuery)
    requires ListPage(apps, caller, q).Ok?
    ensures var p := ListPage(apps, caller, q).body;
      && p.pagination.page == ParseInt(PageText(q)).value >= 1
      && p.pagination.limit == ParseInt(LimitText(q)).value >= 1
    ensures var p := ListPage(apps, caller, q).body;
      var sorted := Sort(ListMatches(apps, caller, q), SortFieldOf(Pick(q.sortBy, "date")), q.sortOrder == Some("asc"));
      var offset := PageParams(q).value.offset;
      && offset == (p.pagination.page - 1) * p.pagination.limit
      && |p.records| == (if offset >= |sorted| then 0
                         else if |sorted| - offset < p.pagination.limit then |sorted| - offset
                         else p.pagination.limit)
      && p.records == (if offset >= |sorted| then [] else sorted[offset..offset + |p.records|])
    ensures var p := ListPage(apps, caller, q).body;
      && (forall a :: a in p.records ==>
            a in apps && a.user == caller && StatusMatches(a, q.status) && SearchMatches(a, q.search))
      && SortedBy(p.records, SortFieldOf(Pick(q.sortBy, "date")), q.sortOrder == Some("asc"))
    ensures var p := ListPage(apps, caller, q).body;
      && p.pagination.total == |ListMatches(apps, caller, q)|
      && p.pagination.totalPages * p.pagination.limit >= p.pagination.total
      && (p.pagination.totalPages == 0 || (p.pagination.totalPages - 1) * p.pagination.limit < p.pagination.total)
  {
    ListPageCounts(apps, caller, q);
    ListPageRun(apps, caller, q);
    ListPageOrder(apps, caller, q);
  }

  /** The pagination of a listed page: the parsed page and limit, the number of
      matches and the page count covering it. */
  lemma ListPageCounts(apps: seq<Application>, caller: UserId, q: ListQuery)
    requires ListPage(apps, caller, q).Ok?
    ensures var p := ListPage(apps, caller, q).body;
      && p.pagination.page == ParseInt(PageText(q)).value >= 1
      && p.pagination.limit == ParseInt(LimitText(q)).value >= 1
      && PageParams(q).value.offset == (p.pagination.page - 1) * p.pagination.limit
    ensures var p := ListPage(apps, caller, q).body;
      && p.pagination.total == |ListMatches(apps, caller, q)|
      && p.pagination.totalPages * p.pagination.limit >= p.pagination.total
      && (p.pagination.totalPages == 0 || (p.pagination.totalPages - 1) * p.pagination.limit < p.pagination.total)
  {
    ListPageAt(apps, caller, q);
    var w := PageParams(q).value;
    var matched := ListMatches(apps, caller, q);
    assert ListPage(apps, caller, q).body.pagination == Pagination(w.page, w.limit, |matched|, CeilDiv(|matched|, w.limit));
  }

  /** The records of a listed page are the run of the sorted matches that starts
      at `(page - 1) * limit`. */
  lemma ListPageRun(apps: seq<Application>, caller: UserId, q: ListQuery)
    requires ListPage(apps, caller, q).Ok?
    ensures var p := ListPage(apps, caller, q).body;
      var sorted := Sort(ListMatches(apps, caller, q), SortFieldOf(Pick(q.sortBy, "date")), q.sortOrder == Some("asc"));
      var offset := PageParams(q).value.offset;
      && |p.records| == (if offset >= |sorted| then 0
                         else if |sorted| - offset < p.pagination.limit then |sorted| - offset
                         else p.pagination.limit)
      && p.records == (if offset >= |sorted| then [] else sorted[offset..offset + |p.records|])
  {
    ListPageAt(apps, caller, q);
  }

  /** A listed page is `PageOf` the sorted matches at the window `PageParams`
      reads, and reports that window's page and limit. */
  lemma ListPageAt(apps: seq<Application>, caller: UserId, q: ListQuery)
    requires ListPage(apps, caller, q).Ok?
    ensures var p := ListPage(apps, caller, q).body;
      && p.records == PageOf(Sort(ListMatches(apps, caller, q), SortFieldOf(Pick(q.sortBy, "date")), q.sortOrder == Some("asc")), PageParams(q).value)
      && p.pagination.page == PageParams(q).value.page
      && p.pagination.limit == PageParams(q).value.limit
  {
  }

  /** The records of a listed page are matches of the caller, in sorted order. */
  lemma ListPageOrder(apps: seq<Application>, caller: UserId, q: ListQuery)
    requires ListPage(apps, caller, q).Ok?
    ensures var p := ListPage(apps, caller, q).body;
      && (forall a :: a in p.records ==>
            a in apps && a.user == caller && StatusMatches(a, q.status) && SearchMatches(a, q.search))
      && SortedBy(p.records, SortFieldOf(Pick(q.sortBy, "date")), q.sortOrder == Some("asc"))
  {
    var w := PageParams(q).value;
    var matched := ListMatches(apps, caller, q);
    var f := SortFieldOf(Pick(q.sortBy, "date"));
    var asc := q.sortOrder == Some("asc");
    var sorted := Sort(matched, f, asc);
    assert ListPage(apps, caller, q).body.records == PageOf(sorted, w);
    PageOfSortedPart(sorted, w, f, asc);
    forall a | a in sorted
      ensures a in matched
    {
      SortMembers(matched, f, asc, a);
    }
  }

  /** A page is a sorted run of the sorted matches. */
  lemma PageOfSortedPart(sorted: seq<Application>, w: Window, f: SortField, asc: bool)
    requires SortedBy(sorted, f, asc)
    ensures SortedBy(PageOf(sorted, w), f, asc)
    ensures forall a :: a in PageOf(sorted, w) ==> a in sorted
  {
    var rs := PageOf(sorted, w);
    forall i, j | 0 <= i < j < |rs|
      ensures Precedes(rs[i], rs[j], f, asc)
    {
      assert rs[i] == sorted[w.offset + i];
      assert rs[j] == sorted[w.offset + j];
    }
  }

  /** The sort key follows `sortBy` (date, company, status, anything else the
      creation time) and the order is ascending only for `sortOrder == 'asc'`. */
  lemma SortSelection(sortBy: string)
    ensures SortFieldOf(sortBy) == ByDateApplied <==> sortBy == "date"
    ensures SortFieldOf(sortBy) == ByCompany <==> sortBy == "company"
    ensures SortFieldOf(sortBy) == ByStatus <==> sortBy == "status"
    ensures SortFieldOf(sortBy) == ByCreatedAt <==> sortBy !in {"date", "company", "status"}
    ensures SortFieldOf(sortBy) != ByUpdatedAt
  {
  }

  // ------------------------------------------------------------------ counts

  datatype ChartEntry = ChartEntry(statusLabel: string, value: nat)

  datatype ProgressSummary = ProgressSummary(
    applications: nat, interviews: nat, offers: nat, rejections: nat, chartData: seq<ChartEntry>)

  function Chart(table: seq<StatusCount>): (r: seq<ChartEntry>)
    ensures |r| == |table|
    ensures forall i :: 0 <= i < |table| ==> r[i] == ChartEntry(table[i].name, table[i].count)
  {
    seq(|table|, i requires 0 <= i < |table| => ChartEntry(table[i].name, table[i].count))
  }

  function Labels(chart: seq<ChartEntry>): (r: seq<string>)
    ensures |r| == |chart|
    ensures forall i :: 0 <= i < |chart| ==> r[i] == chart[i].statusLabel
  {
    seq(|chart|, i requires 0 <= i < |chart| => chart[i].statusLabel)
  }

  /** `counts.X`: the value under key `name` (the four status keys are always
      present, so the 0 is not reached from `getProgress`). */
  function CountOf(table: seq<StatusCount>, name: string): nat {
    match Get(table, name)
    case Some(n) => n
    case None => 0
  }

  /** The answer read off a filled status table, key by key, with the chart
      listing the entries in the table's own order. */
  function Summary(table: seq<StatusCount>): ProgressSummary {
    var interviews, offers, rejections :=
      CountOf(table, StatusName(Interview)), CountOf(table, StatusName(Offer)), CountOf(table, StatusName(Rejected));
    ProgressSummary(
      CountOf(table, StatusName(Applied)) + interviews + offers + rejections,
      interviews, offers, rejections, Chart(table))
  }

  /** `getProgress`: the caller's records grouped by status and folded into the
      four-status table. `applications` is the sum of the four status counts,
      and the chart lists every key of the table with its count, in JavaScript's
      property order: the four statuses and every other status present except
      `__proto__`, array-index keys first by value, then the four statuses in
      declaration order, then the other statuses in the order of the status rows. */
  method GetProgress(apps: seq<Application>, caller: UserId) returns (p: ProgressSummary)
    ensures var owned := OwnedBy(apps, caller);
      && p.interviews == CountStatus(owned, StatusName(Interview))
      && p.offers == CountStatus(owned, StatusName(Offer))
      && p.rejections == CountStatus(owned, StatusName(Rejected))
      && p.applications == CountStatus(owned, StatusName(Applied)) + p.interviews + p.offers + p.rejections
    ensures NoDuplicates(Labels(p.chartData))
    ensures forall name :: name in Labels(p.chartData) <==>
      IsStatusName(name) || (CountStatus(OwnedBy(apps, caller), name) >= 1 && name != ProtoKey)
    ensures forall k :: 0 <= k < |p.chartData| ==>
      p.chartData[k].value == CountStatus(OwnedBy(apps, caller), p.chartData[k].statusLabel)
    ensures InPropertyOrder(Labels(p.chartData))
    ensures Labels(p.chartData)[IndexCount(Labels(p.chartData))..] ==
      StatusKeys() + Distinct(Filter(Names(GroupByStatus(OwnedBy(apps, caller))), NewPlainKey(StatusKeys())))
  {
    var owned := OwnedBy(apps, caller);
    var rows := GroupByStatus(owned);
    var table := FillStatusTable(rows);
    FilledTableCounts(owned, rows, table);
    p := Summary(table);
    SummaryOfTable(owned, table);
    ChartOfTable(owned, table);
  }

  /** The chart lists the table's keys with their values, in the table's order. */
  lemma ChartOfTable(owned: seq<Application>, table: seq<StatusCount>)
    requires forall k :: 0 <= k < |table| ==> table[k].count == CountStatus(owned, table[k].name)
    ensures Labels(Summary(table).chartData) == Names(table)
    ensures forall k :: 0 <= k < |Summary(table).chartData| ==>
      Summary(table).chartData[k].value == CountStatus(owned, Summary(table).chartData[k].statusLabel)
  {
    assert Summary(table).chartData == Chart(table);
  }

  /** The four counts of the summary are the four statuses' numbers of records. */
  lemma SummaryOfTable(owned: seq<Application>, table: seq<StatusCount>)
    requires NoDuplicates(Names(table))
    requires forall name :: IsStatusName(name) ==> name in Names(table)
    requires forall k :: 0 <= k < |table| ==> table[k].count == CountStatus(owned, table[k].name)
    ensures var p := Summary(table);
      && p.interviews == CountStatus(owned, StatusName(Interview))
      && p.offers == CountStatus(owned, StatusName(Offer))
      && p.rejections == CountStatus(owned, StatusName(Rejected))
      && p.applications == CountStatus(owned, StatusName(Applied)) + p.interviews + p.offers + p.rejections
  {
    StatusCountOf(owned, table, Applied);
    StatusCountOf(owned, table, Interview);
    StatusCountOf(owned, table, Offer);
    StatusCountOf(owned, table, Rejected);
  }

  lemma StatusCountOf(owned: seq<Application>, table: seq<StatusCount>, s: Status)
    requires NoDuplicates(Names(table))
    requires forall name :: IsStatusName(name) ==> name in Names(table)
    requires forall k :: 0 <= k < |table| ==> table[k].count == CountStatus(owned, table[k].name)
    ensures CountOf(table, StatusName(s)) == CountStatus(owned, StatusName(s))
  {
    StatusNameIsStatus(s);
    CountAtKey(owned, table, StatusName(s));
  }

  /** When every record is schema-valid, the four status counts add up to the
      caller's number of records. */
  lemma {:induction false} StatusCountsCover(owned: seq<Application>)
    requires forall a :: a in owned ==> IsStatusName(a.status)
    ensures CountStatus(owned, "Applied") + CountStatus(owned, "Interview")
          + CountStatus(owned, "Offer") + CountStatus(owned, "Rejected") == |owned|
  {
    if owned != [] {
      var init := owned[..|owned| - 1];
      assert forall a :: a in init ==> a in owned;
      StatusCountsCover(init);
      assert owned[|owned| - 1] in owned;
    }
  }

  // -------------------------------------------------------------- mutations

  datatype IdsParam = IdsMissing | IdsNotArray | IdsArray(ids: seq<nat>)

  datatype DeleteResult = DeleteResult(message: string)

  datatype BulkDeleteResult = BulkDeleteResult(message: string, deletedCount: nat)

  /** records the bulk delete removes: the caller's records whose id is listed. */
  function Doomed(caller: UserId, ids: seq<nat>): Application -> bool {
    (a: Application) => a.user == caller && a.id in ids
  }

  function Survives(caller: UserId, ids: seq<nat>): Application -> bool {
    (a: Application) => !(a.user == caller && a.id in ids)
  }

  lemma {:induction false} FilterSplit(s: seq<Application>, caller: UserId, ids: seq<nat>)
    ensures |Filter(s, Doomed(caller, ids))| + |Filter(s, Survives(caller, ids))| == |s|
  {
    if s != [] {
      FilterSplit(s[1..], caller, ids);
    }
  }

  lemma {:induction false} FilterUniqueIds(s: seq<Application>, p: Application -> bool)
    requires UniqueIds(s)
    ensures UniqueIds(Filter(s, p))
  {
    if s != [] {
      FilterUniqueIds(s[1..], p);
      TailIdsDiffer(s);
    }
  }

  /** With unique ids, no later record shares the first one's id. */
  lemma TailIdsDiffer(s: seq<Application>)
    requires s != [] && UniqueIds(s)
    ensures UniqueIds(s[1..])
    ensures forall a :: a in s[1..] ==> a.id != s[0].id
  {
    forall a | a in s[1..]
      ensures a.id != s[0].id
    {
      var i :| 0 <= i < |s[1..]| && s[1..][i] == a;
      assert s[i + 1] == a;
    }
  }

  function IdsOf(s: seq<Application>): (r: seq<nat>)
    ensures |r| == |s|
    ensures forall i :: 0 <= i < |s| ==> r[i] == s[i].id
  {
    seq(|s|, i requires 0 <= i < |s| => s[i].id)
  }

  /** A bulk delete removes no more records than ids were listed. */
  lemma BulkDeleteBound(apps: seq<Application>, caller: UserId, ids: seq<nat>)
    requires UniqueIds(apps)
    ensures |apps| - |Filter(apps, Survives(caller, ids))| <= |ids|
  {
    var doomed := Filter(apps, Doomed(caller, ids));
    FilterSplit(apps, caller, ids);
    FilterUniqueIds(apps, Doomed(caller, ids));
    var ds := IdsOf(doomed);
    assert NoDuplicates(ds);
    assert forall x :: x in ds ==> x in IdSet(ids) by {
      forall x | x in ds
        ensures x in IdSet(ids)
      {
        var i :| 0 <= i < |ds| && ds[i] == x;
        assert doomed[i] in doomed;
      }
    }
    NoDuplicatesBounded(ds, IdSet(ids));
    IdSetSize(ids);
  }

  function IdSet(ids: seq<nat>): set<nat> {
    set y | y in ids
  }

  lemma {:induction false} IdSetSize(ids: seq<nat>)
    ensures |IdSet(ids)| <= |ids|
  {
    if ids != [] {
      IdSetSize(ids[1..]);
      assert IdSet(ids) == IdSet(ids[1..]) + {ids[0]};
    }
  }

  /** The list without its `k`-th element. */
  function RemoveAt(s: seq<Application>, k: nat): (t: seq<Application>)
    requires k < |s|
    ensures |t| == |s| - 1
    ensures forall i :: 0 <= i < |t| ==> t[i] == s[if i < k then i else i + 1]
    ensures forall a :: a in t ==> a in s
    ensures forall a :: a in s && a != s[k] ==> a in t
  {
    var t := s[..k] + s[k + 1..];
    assert forall i :: 0 <= i < |t| ==> t[i] == s[if i < k then i else i + 1];
    forall a | a in s && a != s[k]
      ensures a in t
    {
      var i :| 0 <= i < |s| && s[i] == a;
      assert t[if i < k then i else i - 1] == a;
    }
    t
  }

  lemma RemoveAtKeepsIds(s: seq<Application>, k: nat)
    requires k < |s| && UniqueIds(s)
    ensures UniqueIds(RemoveAt(s, k))
  {
  }

  /** A record under a fresh id keeps the ids unique and belongs to nobody yet. */
  lemma AppendFresh(apps: seq<Application>, nextId: nat, a: Application, caller: UserId)
    requires UniqueIds(apps) && (forall i :: 0 <= i < |apps| ==> apps[i].id < nextId) && a.id == nextId
    ensures UniqueIds(apps + [a]) && forall i :: 0 <= i < |apps + [a]| ==> (apps + [a])[i].id < nextId + 1
    ensures !OwnedRecord(apps, caller, a.id)
  {
  }

  /** The job-application collection. */
  class ApplicationStore {
    var apps: seq<Application>
    var nextId: nat

    /** Ids are unique, and every id is below the next one to be handed out. */
    ghost predicate Valid()
      reads this
    {
      UniqueIds(apps) && forall i :: 0 <= i < |apps| ==> apps[i].id < nextId
    }

    constructor ()
      ensures Valid() && apps == []
    {
      apps := [];
      nextId := 0;
    }

    /** `createApplication`: 400 unless the title, company and date are truthy
        after alias resolution; a date `new Date` cannot read, or a record the
        schema refuses, is not stored; otherwise the new record is appended. */
    method Create(caller: UserId, req: CreateRequest, now: Time) returns (r: Response<ApplicationDto>)
      requires Valid()
      modifies this
      ensures Valid()
      ensures !HasRequiredFields(req) ==> r == Error(Fail(400, RequiredFields)) && apps == old(apps)
      ensures HasRequiredFields(req) && !DateCasts(req) ==> r == Error(SchemaRejected) && apps == old(apps)
      ensures DateCasts(req) && !SchemaValid(NewRecord(old(nextId), caller, req, now)) ==>
        r == Error(SchemaRejected) && apps == old(apps)
      ensures r.Ok? <==> DateCasts(req) && SchemaValid(NewRecord(old(nextId), caller, req, now))
      ensures r.Ok? ==>
        var a := NewRecord(old(nextId), caller, req, now);
        apps == old(apps) + [a] && r.body == FormatApplication(a) && !OwnedRecord(old(apps), caller, a.id)
    {
      if !HasRequiredFields(req) {
        return Error(Fail(400, RequiredFields));
      }
      if FinalDate(req).date.None? {
        return Error(SchemaRejected);
      }
      var a := NewRecord(nextId, caller, req, now);
      if !SchemaValid(a) {
        return Error(SchemaRejected);
      }
      AppendFresh(apps, nextId, a, caller);
      apps := apps + [a];
      nextId := nextId + 1;
      r := Ok(FormatApplication(a));
    }

    /** `updateApplication`: an Invalid Date in the update is refused by the
        store's cast before any record is looked up; otherwise the caller's
        record with that id takes the supplied fields (without schema
        validation) and a new `updatedAt`; with no such record the answer is 404.
        A refused update changes nothing. */
    method Update(caller: UserId, id: nat, req: UpdateRequest, now: Time) returns (r: Response<ApplicationDto>)
      requires Valid()
      modifies this
      ensures Valid() && nextId == old(nextId)
      ensures !Castable(PatchOf(req)) ==> r == Error(CastRejected) && apps == old(apps)
      ensures Castable(PatchOf(req)) && !OwnedRecord(old(apps), caller, id) ==>
        r == Error(Fail(404, ApplicationNotFound)) && apps == old(apps)
      ensures Castable(PatchOf(req)) && OwnedRecord(old(apps), caller, id) ==>
        exists k :: 0 <= k < |old(apps)| && old(apps)[k].id == id && old(apps)[k].user == caller &&
          var b := ApplyPatch(old(apps)[k], PatchOf(req), now);
          apps == old(apps)[k := b] && r == Ok(FormatApplication(b))
    {
      var p := BuildPatch(req);
      assert p == PatchOf(req);
      if !Castable(p) {
        return Error(CastRejected);
      }
      var found := FindOwned(apps, caller, id);
      if found.None? {
        return Error(Fail(404, ApplicationNotFound));
      }
      var k := found.value;
      var b := ApplyPatch(apps[k], p, now);
      apps := apps[k := b];
      r := Ok(FormatApplication(b));
    }

    /** `deleteApplication`: removes the caller's record with that id, or answers 404. */
    method Delete(caller: UserId, id: nat) returns (r: Response<DeleteResult>)
      requires Valid()
      modifies this
      ensures Valid() && nextId == old(nextId)
      ensures !OwnedRecord(old(apps), caller, id) ==> r == Error(Fail(404, ApplicationNotFound)) && apps == old(apps)
      ensures OwnedRecord(old(apps), caller, id) ==>
        r == Ok(DeleteResult("Job application deleted successfully")) &&
        exists k :: 0 <= k < |old(apps)| && old(apps)[k].id == id && old(apps)[k].user == caller &&
          apps == RemoveAt(old(apps), k)
      ensures forall a :: a in apps ==> a in old(apps)
      ensures forall a :: a in old(apps) && !(a.id == id && a.user == caller) ==> a in apps
    {
      var found := FindOwned(apps, caller, id);
      if found.None? {
        return Error(Fail(404, ApplicationNotFound));
      }
      var k := found.value;
      RemoveAtKeepsIds(apps, k);
      apps := RemoveAt(apps, k);
      r := Ok(DeleteResult("Job application deleted successfully"));
    }

    /** `bulkDeleteApplications`: 400 for a missing, non-array or empty `ids`;
        otherwise every record of the caller whose id is listed is removed, the
        others stay in order, and `deletedCount` is the number removed. */
    method BulkDelete(caller: UserId, ids: IdsParam) returns (r: Response<BulkDeleteResult>)
      requires Valid()
      modifies this
      ensures Valid() && nextId == old(nextId)
      ensures (ids.IdsMissing? || ids.IdsNotArray? || ids == IdsArray([])) ==>
        r == Error(Fail(400, IdsRequired)) && apps == old(apps)
      ensures ids.IdsArray? && ids.ids != [] ==>
        && apps == Filter(old(apps), Survives(caller, ids.ids))
        && r.Ok? && r.body.deletedCount == |old(apps)| - |apps| <= |ids.ids|
        && r.body.message == NatToString(r.body.deletedCount) + " job application(s) deleted successfully"
    {
      if !ids.IdsArray? || ids.ids == [] {
        return Error(Fail(400, IdsRequired));
      }
      var before := apps;
      apps := Filter(apps, Survives(caller, ids.ids));
      FilterUniqueIds(before, Survives(caller, ids.ids));
      BulkDeleteBound(before, caller, ids.ids);
      assert forall a :: a in apps ==> a in before;
      forall i | 0 <= i < |apps|
        ensures apps[i].id < nextId
      {
        assert apps[i] in apps;
      }
      var n := |before| - |apps|;
      r := Ok(BulkDeleteResult(NatToString(n) + " job application(s) deleted successfully", n));
    }
  }
}
