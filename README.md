# Job-application tracker core, in Dafny

This project models the core of a job-application tracker backend: an HTTP API
where an authenticated candidate records the jobs they applied to and follows
their progress. The model covers:

- **Application store** (`application_store.dfy`, module `ApplicationController`):
  create, list (status filter, case-insensitive search, sort, pagination), get,
  update, delete, bulk delete and the per-status summary. Every operation is
  scoped to the caller. The collection is a class whose methods change its
  record list.
- **Application schema** (`application.dfy`, module `ApplicationSchema`): the
  stored record, the status enumeration and the validators the store runs when
  it creates a record.
- **Store queries** (`query.dfy`, module `Query`): owner and status matches, a
  sort on one key in either direction, and the `$group` by status. It also holds
  the loop that folds those groups into the four-status table
  `{ Applied, Interview, Offer, Rejected }`, with its keys in JavaScript's
  property order (section 10.1.11.1 of ECMA-262): array-index keys first by
  value, then the other keys in creation order, and `__proto__` ignored.
- **Progress** (`progress.dfy`, module `Progress`):
  - the KPI counts of a date window and their percentage change against the
    window before it;
  - the applications-per-day chart, the status distribution and the timeline;
  - the recent-activity feed.
- **Dashboard** (`dashboard.dfy`, module `Dashboard`): three counts over the
  caller's records.
- **Profile** (`profile.dfy`, module `Profile`):
  - splitting and combining names;
  - skills normalisation;
  - the user-plus-profile response;
  - `updateMe`, with its email and username checks, name precedence and the
    profile created on first use. The users and profiles collections are a class.
- **Upload helper** (`cloudinary.dfy`, module `Cloudinary`): the extension,
  resource type, folder and public id an upload is given, and the address
  handed back for it.
- **Authentication middleware** (`auth.dfy`, module `Auth`): the decision from
  the `Authorization` header to the caller's identity or a 401/403 answer.
- **Shared modules**: `wrappers.dfy` holds responses, messages and JavaScript's
  `||` on optional strings. `text.dfy` holds trim, lower-case, split, join,
  `parseInt` and decimal printing. `seqs.dfy` holds filter, duplicate removal
  and counting.

How the model represents the system:

- Each store is a sequence of records or a map keyed by id.
- A request body is a datatype whose fields distinguish *undefined* (`None`),
  *null* (`Some(None)`) and a string. A date field is a JavaScript value:
  undefined, null, a falsy value `new Date` reads as the epoch (`0`), one it
  reads as an Invalid Date (`""`), or a truthy value with its instant or an
  Invalid Date.
- Instants are integers counting milliseconds. A date's `YYYY-MM-DD` key is its
  day number.
- The clock (`now`), the token verifier, the user lookup and the upload result
  are parameters.

## Model

| member | source | states |
|---|---|---|
| Wrappers.Or | src/controllers/application.controller.js:26-29 | `a \|\| b` on optional strings: `a` when it is present and non-empty, else `b` |
| Wrappers.OrNull | src/controllers/profile.controller.js:37-50 | `x \|\| null`: present exactly when `x` is truthy, and then equal to it |
| Wrappers.OrElse | src/controllers/profile.controller.js:44 | `x \|\| fallback`: the value of `x` when truthy, else the fallback |
| Wrappers.Truthy | src/controllers/application.controller.js:26-30 | JavaScript truthiness of an optional string: present and non-empty; the `\|\|` and `!x` tests of the handlers read it through Or, OrNull and OrElse |
| Text.Trim | src/controllers/profile.controller.js:8 | the result is the input with only leading and trailing white space cut off; it is trimmed, a trimmed string is unchanged, and it is non-empty iff the input has a non-space character |
| Text.Lower | src/controllers/profile.controller.js:121-125 | `toLowerCase()` character by character: same length, each character lower-cased (ASCII) |
| Text.JsLength | src/models/Application.js:6-15 | `s.length` in UTF-16 code units: one per character below U+10000, two for any other; equal to the character count iff every character is below U+10000 |
| Text.Split | src/utils/cloudinary.js:31 | at least one piece, no piece holds the separator |
| Text.JoinSplit | src/utils/cloudinary.js:31-33 | joining the pieces of a split with the separator gives the string back |
| Text.SplitJoin | src/utils/cloudinary.js:31-33 | splitting a join of separator-free pieces gives the pieces back |
| Text.SplitMany | src/utils/cloudinary.js:32 | a split has more than one piece iff the separator occurs |
| Text.LastPieceOf | src/utils/cloudinary.js:22 | the last piece of `w + c + t` is `t` when `t` has no `c` |
| Text.JoinSplitWs | src/controllers/profile.controller.js:8-13 | joining the white-space split with blanks collapses every white-space run to one blank |
| Text.SplitWs | src/controllers/profile.controller.js:8 | `split(/\s+/)`: at least one piece and no piece holds white space; joined back with blanks it is the input with every run collapsed (JoinSplitWs) |
| Text.Join | src/controllers/profile.controller.js:13 | `join(sep)`, also the `join('/')` at src/utils/cloudinary.js:33; the inverse of Split by JoinSplit and SplitJoin |
| Text.StartsWith | src/middleware/auth.js:6 | `startsWith(prefix)`: the prefix is an initial piece of the string; BearerToken states the token is what follows it |
| Text.EndsWith | src/utils/cloudinary.js:58 | `endsWith(suffix)`: the suffix is the final piece of the string; used by FinalUrl and FinalUrlCarriesExtension |
| Text.Contains | src/controllers/application.controller.js:66-70 | the `$regex` test read as substring search; stated by ContainsAt |
| Text.ContainsAt | src/controllers/application.controller.js:66-70 | `Contains(hay, needle)` holds exactly when `needle` occurs in `hay` at some position |
| Text.NatToString | src/controllers/application.controller.js:8 | decimal digits only, no leading zero except for 0 |
| Text.ParseInt | src/controllers/application.controller.js:74-75 | `parseInt` without radix: a number is read only when, after leading white space, a digit comes first or right after a sign; a negative value only after a leading `-` |
| Text.ParseIntOfNat | src/controllers/application.controller.js:74-75 | `parseInt` of the printed form of a number is that number |
| Seqs.Filter | src/controllers/profile.controller.js:60 | keeps exactly the elements satisfying the condition, and no longer than its input |
| Seqs.FilterMultiset | src/controllers/profile.controller.js:60 | every element that passes is kept exactly as often as it occurs, every other element is dropped |
| Seqs.FilterKeepsAll | src/controllers/profile.controller.js:60 | a filter every element passes changes nothing |
| Seqs.FilterAppend | src/controllers/profile.controller.js:60 | filtering distributes over concatenation |
| Seqs.Distinct | src/controllers/profile.controller.js:61 | same members as the input, no duplicates |
| Seqs.DistinctOrder | src/controllers/profile.controller.js:61 | survivors keep the order of their first occurrences |
| Seqs.DistinctOfNoDuplicates | src/controllers/profile.controller.js:61 | a duplicate-free list is its own duplicate-free form |
| Seqs.NoDuplicatesBounded | src/controllers/application.controller.js:176-182 | a duplicate-free list inside a finite set is no longer than the set |
| Seqs.InsertAt | src/controllers/application.controller.js:194 | inserting at a position keeps the elements before it, puts the new element there, shifts the rest by one and adds exactly that element |
| Seqs.NoDuplicatesInsert | src/controllers/application.controller.js:194 | inserting a new element anywhere keeps a list free of repetition |
| ApplicationSchema.ParseStatus | src/models/Application.js:8-13 | a string denotes an enumeration value iff it is that value's name |
| ApplicationSchema.SchemaValid | src/models/Application.js:5-15 | the record validators: non-empty title and company of at most 150 UTF-16 units, an enumeration status, notes of at most 500 units; kept by PatchKeepsSchema and checked by Create |
| ApplicationSchema.DayOf | src/controllers/progress.controller.js:105 | the UTC day of an instant standing for its `YYYY-MM-DD` key (also line 143 and src/controllers/application.controller.js:11): the day whose span of 86400000 ms holds the instant |
| ApplicationSchema.DayOfMonotone | src/controllers/progress.controller.js:104-110 | later instants fall on the same or a later day |
| Query.OwnedBy | src/controllers/dashboard.controller.js:8 | exactly the caller's records |
| Query.CountStatus | src/controllers/dashboard.controller.js:8-9 | the count is at most the number of records, and is 0 iff no record has that status |
| Query.CountStatusMatches | src/controllers/dashboard.controller.js:8-9 | the count is the number of records a status filter keeps |
| Query.StrLeqTotal | src/controllers/application.controller.js:79-92 | the string order used by the sort is total |
| Query.StrLeqTransitive | src/controllers/application.controller.js:79-92 | the string order used by the sort is transitive |
| Query.KeyLeqTotal | src/controllers/application.controller.js:79-92 | the key order (numbers before strings) is total |
| Query.KeyLeqTransitive | src/controllers/application.controller.js:79-92 | the key order is transitive |
| Query.PrecedesTotal | src/controllers/application.controller.js:79-92 | either of two records may come first in either direction |
| Query.PrecedesTransitive | src/controllers/application.controller.js:79-92 | sort precedence is transitive in both directions |
| Query.InsertPermutes | src/controllers/application.controller.js:94-97 | inserting adds exactly one element to the multiset |
| Query.InsertSorted | src/controllers/application.controller.js:94-97 | inserting into a sorted list keeps it sorted |
| Query.Sort | src/controllers/application.controller.js:94-97 | the result is sorted on the key in the direction asked, and is a permutation of the input |
| Query.SortedPrefix | src/controllers/progress.controller.js:136-140 | a prefix of a sorted result is sorted and holds only input records |
| Query.Take | src/controllers/progress.controller.js:166 | `.limit(n)`: a prefix of length `min(n, len(s))` |
| Query.Skip | src/controllers/application.controller.js:76-95 | `.skip(n)`: element `i` of the result is element `n + i` of the input |
| Query.SortTop | src/controllers/progress.controller.js:136-140 | the first `k` of a sort and the rest together are the input, and every record kept precedes every record left out |
| Query.GroupByStatus | src/controllers/application.controller.js:188-191 | one row per present status with its exact count (at least 1), no status twice, every record's status present |
| Query.ValueOfUnique | src/controllers/application.controller.js:193-196 | with distinct names, the value after all assignments is the one row's count, or 0 when absent |
| Query.ValueOfGroups | src/controllers/application.controller.js:193-196 | the table value for a status is its number of records |
| Query.TableAfterStep | src/controllers/application.controller.js:193-194 | one assignment `obj[name] = count` keeps the table invariant: distinct keys, the base keys plus every named key but `__proto__`, array indices first by value, then the base keys, then the other keys in first-naming order, each key holding its last assigned value |
| Query.SetKey | src/controllers/application.controller.js:194 | `obj[k] = v` on the key order: `__proto__` ignored, an existing key updated in place, a new array index inserted among the leading indices by value, any other new key appended; its reads are stated by SetKeyAssigns |
| Query.SetKeyAssigns | src/controllers/application.controller.js:194 | after `obj[k] = v` the key `k` reads `v` (unless it is `__proto__`, which changes nothing), every other key reads as before, and the keys are the old ones plus `k` |
| Query.FillStatusTable | src/controllers/progress.controller.js:130-133 | the keys are the four statuses and every row's key except `__proto__`, each once, holding the last count assigned to it; in JavaScript property order: array-index keys first by value, then the four statuses in declaration order, then the other keys in the order the rows first name them |
| Query.FilledTableCounts | src/controllers/application.controller.js:188-194 | a table filled from the status groups holds each status's number of records, and its keys are the four statuses and every present status but `__proto__` |
| Query.StatusKeys | src/controllers/application.controller.js:193 | the four distinct status names, exactly the enumeration |
| Query.GroupNames | src/controllers/application.controller.js:188-191 | the group rows name exactly the statuses some record has |
| Query.CountAtKey | src/controllers/application.controller.js:196-199 | reading a key of the filled table gives that status's number of records |
| Query.NumeralInjective | src/controllers/application.controller.js:201 | two canonical numerals with the same value are the same key |
| Query.IndexCount | src/controllers/application.controller.js:201 | the leading array-index keys, followed by a key that is not one |
| Query.OrderTail | src/controllers/application.controller.js:201 | in property order no array index follows the leading ones |
| Query.InsertIndexOrder | src/controllers/application.controller.js:194 | a new array index placed after the smaller indices keeps the property order |
| Query.InsertIndexCount | src/controllers/application.controller.js:194 | a new array index joins the leading indices and leaves the other keys as they were |
| Query.AppendPlainKey | src/controllers/application.controller.js:194 | a new key that is not an array index goes last and keeps the property order |
| Query.NewKeysAre | src/controllers/application.controller.js:194 | the keys added after the base keys are the named plain keys, each once, at its first occurrence |
| Query.KeysProto | src/controllers/application.controller.js:194 | assigning to `__proto__` leaves the keys as they were |
| Query.KeysExisting | src/controllers/application.controller.js:194 | reassigning an existing key leaves the keys as they were |
| Query.KeysNewIndex | src/controllers/application.controller.js:194 | a new array index inserted by value keeps the key invariant |
| Query.KeysNewPlain | src/controllers/application.controller.js:194 | a new plain key appended keeps the key invariant |
| ApplicationController.FormatApplication | src/controllers/application.controller.js:6-20 | the id reads back as the record id; title, company and status copied; the application date is its day; notes present iff truthy; logo, location and salary null; creation and update times carried over |
| ApplicationController.FormatAll | src/controllers/application.controller.js:100 | element-wise formatting |
| ApplicationController.NewRecord | src/controllers/application.controller.js:33-43 | the record a create stores; which field name wins is stated by NewRecordPrecedence |
| ApplicationController.NewRecordPrecedence | src/controllers/application.controller.js:24-43 | the new field name beats the legacy one when truthy, so a falsy `applicationDate` (0, "", null) gives way to `dateApplied`; status defaults to Applied; owner is the caller; both timestamps are now |
| ApplicationController.DateOr | src/controllers/application.controller.js:27 | `a \|\| b` on date values: `a` when it is truthy, else `b` |
| ApplicationController.NewDate | src/controllers/application.controller.js:40 | `new Date(v)`: null and 0 give the epoch, undefined and "" an Invalid Date, any other value its instant |
| ApplicationController.RequiredFieldsOf | src/controllers/application.controller.js:30-31 | a create is refused with 400 exactly when title, company or date is falsy on both of its names |
| ApplicationController.PatchOf | src/controllers/application.controller.js:136-146 | the patch an update applies; BuildPatch builds it field by field and PatchTouchesOnlySupplied states its effect |
| ApplicationController.BuildPatch | src/controllers/application.controller.js:136-146 | title and company are set iff either name is supplied, as `new \|\| legacy`; status and notes (null included) as supplied; the date is set iff either name is supplied, as `new Date(a \|\| b)`, which may be the epoch or an Invalid Date |
| ApplicationController.ApplyPatch | src/controllers/application.controller.js:148-152 | id, owner and creation time are kept; `updatedAt` is now |
| ApplicationController.PatchTouchesOnlySupplied | src/controllers/application.controller.js:136-152 | fields not supplied keep their values; supplied title, company and status are stored |
| ApplicationController.PatchKeepsSchema | src/controllers/application.controller.js:148-152 | valid supplied values keep a valid record valid |
| ApplicationController.UpdateStoresAnyStatus | src/controllers/application.controller.js:139-152 | for every status string, an update of the status alone stores it as given and touches only `updatedAt`; the record stays schema-valid iff the string is an enumeration name (validators do not run) |
| ApplicationController.FindOwned | src/controllers/application.controller.js:112 | found iff a record has that id and the caller as owner, and the position holds such a record |
| ApplicationController.GetApplication | src/controllers/application.controller.js:110-117 | 200 iff the caller owns a record with that id, with that record formatted; otherwise 404 'Application not found' |
| ApplicationController.GetAfterCreate | src/controllers/application.controller.js:33-46 | a created record reads back as it was stored |
| ApplicationController.ListMatches | src/controllers/application.controller.js:58-71 | exactly the caller's records matching the status filter (absent, empty or 'all' matches everything) and the title/company search |
| ApplicationController.SearchMatches | src/controllers/application.controller.js:65-71 | a truthy search matches a record whose lower-cased title or company contains the lower-cased text; an absent or empty search matches all |
| ApplicationController.StatusMatches | src/controllers/application.controller.js:61-63 | a truthy status other than 'all' keeps only records with that status; an absent, empty or 'all' status keeps every record; ListMatches states its use |
| ApplicationController.SortFieldOf | src/controllers/application.controller.js:79-92 | the sort key a `sortBy` selects, stated by SortSelection |
| ApplicationController.CeilDiv | src/controllers/application.controller.js:106 | `Math.ceil(total / limit)`: the least page count covering the total |
| ApplicationController.PageParams | src/controllers/application.controller.js:52-76 | a window exists iff `parseInt` of `page` (default "1") and of `limit` (default "10") are both numbers of at least 1; then page and limit are those numbers and the offset is `(page - 1) * limit`; no parameters give page 1, limit 10, offset 0 |
| ApplicationController.PageOf | src/controllers/application.controller.js:95 | `.skip(offset).limit(limit)`: exactly `min(limit, len - offset)` records (none past the end), record `i` being record `offset + i` of the sorted list |
| ApplicationController.ListPage | src/controllers/application.controller.js:74-97 | fails (outside the model) exactly when PageParams gives no window, that is for a non-numeric or non-positive page or limit; what a page then holds is stated by ListPageProperties |
| ApplicationController.ListApplications | src/controllers/application.controller.js:48-108 | answers exactly when ListPage does, with ListPage's records formatted one by one and its pagination unchanged |
| ApplicationController.ListPageProperties | src/controllers/application.controller.js:58-107 | page and limit are the parsed parameters; the page has exactly `min(limit, total - offset)` records, record `i` being record `offset + i` of the caller's matches sorted as asked; they are matching records of the caller in sorted order; total counts all matches and the page count covers it |
| ApplicationController.ListPageCounts | src/controllers/application.controller.js:74-106 | the reported page and limit are the parsed parameters (both at least 1), the offset is `(page - 1) * limit`, total is the number of matches and `totalPages` is the least page count covering it |
| ApplicationController.ListPageRun | src/controllers/application.controller.js:94-95 | the records are the slice of the sorted matches that starts at the offset, `min(limit, matches - offset)` long and empty past the end |
| ApplicationController.ListPageOrder | src/controllers/application.controller.js:58-95 | every listed record is a match of the caller and the records are in the order the sort key and direction ask for |
| ApplicationController.PageOfSortedPart | src/controllers/application.controller.js:94-97 | a page of a sorted list is sorted and drawn from it |
| ApplicationController.SortSelection | src/controllers/application.controller.js:79-92 | date, company and status select their key, anything else the creation time |
| ApplicationController.Chart | src/controllers/application.controller.js:201 | one chart entry per table entry, with its name and count, in table order |
| ApplicationController.Labels | src/controllers/application.controller.js:201 | the labels are the table's keys in order |
| ApplicationController.ChartOfTable | src/controllers/application.controller.js:201 | the chart of a filled table lists its keys in its order, each label with its status's count |
| ApplicationController.SummaryOfTable | src/controllers/application.controller.js:196-200 | the summary read from a filled table is its four status counts over the caller's records |
| ApplicationController.StatusCountOf | src/controllers/application.controller.js:196-199 | `counts[status]` of a filled table is that status's number of records |
| ApplicationController.GetProgress | src/controllers/application.controller.js:186-203 | interviews, offers and rejections are the caller's per-status counts; applications is the sum of the four; the chart has a label for each of the four statuses and each other present status but `__proto__`, each once with its count, in JavaScript property order (array-index labels by value, then the four statuses, then the others in group order) |
| ApplicationController.StatusCountsCover | src/controllers/application.controller.js:193-197 | with schema-valid records the four counts sum to the number of records |
| ApplicationController.FilterSplit | src/controllers/application.controller.js:176-177 | removed and kept records together are all records |
| ApplicationController.FilterUniqueIds | src/controllers/application.controller.js:175-178 | filtering keeps ids unique |
| ApplicationController.BulkDeleteBound | src/controllers/application.controller.js:176-182 | a bulk delete removes no more records than ids were listed |
| ApplicationController.IdSetSize | src/controllers/application.controller.js:176 | the set of listed ids is no larger than the list |
| ApplicationController.RemoveAt | src/controllers/application.controller.js:161 | removing one record keeps all others, in order |
| ApplicationController.RemoveAtKeepsIds | src/controllers/application.controller.js:161 | removing a record keeps ids unique |
| ApplicationController.AppendFresh | src/controllers/application.controller.js:33-43 | a record under a fresh id keeps ids unique and is nobody's existing record |
| ApplicationController.ApplicationStore.constructor | src/models/Application.js:3-17 | the collection starts empty and valid |
| ApplicationController.ApplicationStore.Create | src/controllers/application.controller.js:22-46 | 400 'required' when title, company or date is falsy on both names, and nothing stored; an Invalid Date or a schema-invalid record is refused and nothing stored; otherwise exactly the new record is appended and returned formatted |
| ApplicationController.ApplicationStore.Update | src/controllers/application.controller.js:119-157 | an Invalid Date in the patch is a cast error with no change; else 404 and no change without an owned record; otherwise that record alone takes the patch and the new time, and is returned formatted |
| ApplicationController.ApplicationStore.Delete | src/controllers/application.controller.js:159-166 | 404 and no change without an owned record; otherwise exactly that record is removed |
| ApplicationController.ApplicationStore.BulkDelete | src/controllers/application.controller.js:168-184 | 400 for a missing, non-array or empty `ids`; otherwise the caller's listed records are removed, the rest kept in order, and the count and message report the number removed (at most the number of ids) |
| ApplicationController.Doomed | src/controllers/application.controller.js:175-178 | the `deleteMany` filter: a record owned by the caller whose id is listed; FilterSplit and BulkDeleteBound state what it removes |
| ApplicationController.Survives | src/controllers/application.controller.js:175-178 | the complement of Doomed: the records the bulk delete keeps, as BulkDelete's ensures state |
| Progress.RangeDays | src/controllers/progress.controller.js:6-10 | default 30 days; empty or 'all' means no date condition; any other text is `parseInt` of it, so a non-numeric one means no date condition too |
| Progress.CurrentWindow | src/controllers/progress.controller.js:6-16 | an instant is in the window iff there is no range or it is at most `days` days before now |
| Progress.InWindow | src/controllers/progress.controller.js:15 | the `$gte` condition, and `$gte`/`$lt` at line 30: an unbounded window admits every instant; CurrentWindow and PreviousWindow state which instants theirs admit |
| Progress.PreviousWindow | src/controllers/progress.controller.js:19-31 | an instant is in the window iff there is no range or it lies from `2 * days` days before now up to, not including, `days` days before now |
| Progress.WindowsPartition | src/controllers/progress.controller.js:6-31 | current and previous windows are disjoint and adjacent, each `d` days long, together the last `2d` days |
| Progress.CalculateChange | src/controllers/progress.controller.js:34-37 | 100 or 0 when there was nothing before; otherwise the percentage change rounded half up |
| Progress.ChangeOfEqual | src/controllers/progress.controller.js:34-37 | equal counts give 0 |
| Progress.ChangeSignAndBounds | src/controllers/progress.controller.js:34-37 | the change has the difference's sign, is at least -100, exactly -100 when everything went and 100 when the count doubled |
| Progress.Matches | src/controllers/progress.controller.js:41-48 | exactly the caller's records in the window with the selected status |
| Progress.StatusParam | src/controllers/progress.controller.js:41 | the `status` query parameter, `'all'` when absent; Matches and GetProgressKpis apply it to both windows |
| Progress.StatusSelected | src/controllers/progress.controller.js:45 | `'all'` selects every record, any other value (even empty) only records with that status; stated by Matches |
| Progress.GroupMetrics | src/controllers/progress.controller.js:50-62 | `$group` with `_id: null`: no row exactly when nothing matched |
| Progress.MetricsOf | src/controllers/progress.controller.js:50-70 | total, interviews, offers and rejections of the matched records |
| Progress.OutcomesBounded | src/controllers/progress.controller.js:56-59 | interviews, offers and rejections together never exceed the records |
| Progress.GetProgressKpis | src/controllers/progress.controller.js:39-90 | every KPI is its count over the current window, and every change compares it with the previous window |
| Progress.KpisBounded | src/controllers/progress.controller.js:39-90 | outcome KPIs stay within the total, every change is at least -100 |
| Progress.KpisWithoutRange | src/controllers/progress.controller.js:7-10 | without a usable date range every change is 0 |
| Progress.AddDay | src/controllers/progress.controller.js:101-117 | adding a record keeps days ascending |
| Progress.AddDayCounts | src/controllers/progress.controller.js:101-117 | adding a record on a day raises that day's count by one and no other |
| Progress.BucketByDay | src/controllers/progress.controller.js:101-117 | one row per day with records, days ascending, each count that day's number of records, counts summing to the matches |
| Progress.BucketRows | src/controllers/progress.controller.js:101-117 | each row's count is its day's count, and every matched record's day has a row |
| Progress.Timeline | src/controllers/progress.controller.js:136-148 | at most 50 entries, exactly `min(50, matches)` |
| Progress.TimelineEntries | src/controllers/progress.controller.js:142-148 | one entry per record, in order: day of `dateApplied`, status as event, printed id, title and company |
| Progress.TimelineOrdered | src/controllers/progress.controller.js:136-148 | the timeline runs from the latest day backwards and describes only matched records |
| Progress.TimelineLatest | src/controllers/progress.controller.js:136-148 | the timeline describes a part of the matches (each record as often as it occurs) whose every record is at least as late as every match left out, and a match is left out only when 50 entries are shown |
| Progress.GetProgressCharts | src/controllers/progress.controller.js:92-155 | the day chart and the timeline over the current window; the status distribution has the four statuses and every other matched status but `__proto__`, each once with its count, in JavaScript property order |
| Progress.ActivityCap | src/controllers/progress.controller.js:159-166 | the cap is `parseInt` of `limit` (default "10"): none for a non-number, no limit for 0, otherwise the absolute value |
| Progress.Capped | src/controllers/progress.controller.js:166 | `.limit(n)`: 0 means unlimited, otherwise a prefix of at most `n` |
| Progress.ActivityOf | src/controllers/progress.controller.js:170-189 | 'application_created' with "New application: title at company" iff creation and update times coincide, otherwise 'application_updated' with "Application updated: title at company - Status: status"; id `activity_<id>_<index>`; timestamp is the update time; application id parses back to the record id |
| Progress.ActivityId | src/controllers/progress.controller.js:182 | `activity_<id>_<index>`; ActivityIdIndex reads the index back and ActivityIdsDistinct makes ids at different positions differ |
| Progress.Activities | src/controllers/progress.controller.js:170 | one activity per record, indexed by position |
| Progress.Feed | src/controllers/progress.controller.js:164-190 | the caller's records sorted newest update first, capped, and turned into activities; stated by FeedLatest, FeedOrdered, FeedOwned and FeedLength |
| Progress.GetProgressActivity | src/controllers/progress.controller.js:157-193 | the caller's feed under the requested cap; a non-numeric limit is outside the model |
| Progress.NewestFirst | src/controllers/progress.controller.js:165 | a list sorted descending on `updatedAt` has non-increasing update times |
| Progress.FeedOrdered | src/controllers/progress.controller.js:164-168 | the feed is newest update first |
| Progress.FeedOwned | src/controllers/progress.controller.js:164-190 | every feed entry reports one of the caller's records |
| Progress.FeedLength | src/controllers/progress.controller.js:166 | the feed is as long as the cap allows |
| Progress.FeedLatest | src/controllers/progress.controller.js:164-168 | the feed reports a part of the caller's records (each as often as it occurs) with no left-out record updated later than a reported one, and a record is left out only under a numeric cap that the feed fills |
| Progress.LatestUpdated | src/controllers/progress.controller.js:164-166 | the first `k` records sorted newest update first and the rest together are the input, and none of the rest was updated later than one of the first `k` |
| Progress.ActivityIdIndex | src/controllers/progress.controller.js:182 | the text after the last `_` of an activity id is its index |
| Progress.ActivityIdsDistinct | src/controllers/progress.controller.js:182 | entries at different positions have different ids |
| Dashboard.GetDashboardStats | src/controllers/dashboard.controller.js:4-18 | total, interviews and offers are counts over the caller's records |
| Dashboard.StatsBounded | src/controllers/dashboard.controller.js:4-18 | interviews plus offers never exceed the total; with valid records the total is the sum of the four status counts |
| Dashboard.StatsAgreeWithKpis | src/controllers/dashboard.controller.js:4-18 | the KPIs without date range and status filter equal the dashboard counts |
| Profile.SplitName | src/controllers/profile.controller.js:6-15 | null parts for a falsy name; otherwise the first white-space token of the trimmed name, and the remaining tokens joined by single blanks, or no last part for a single token |
| Profile.CombineName | src/controllers/profile.controller.js:18-23 | null when both parts are falsy, the other part when one is, else both joined by a blank and trimmed |
| Profile.CombineSplitName | src/controllers/profile.controller.js:6-23 | combining the split of a name gives the name trimmed with white-space runs collapsed |
| Profile.CleanSkills | src/controllers/profile.controller.js:58-61 | no duplicates; exactly the non-empty trimmed items; every survivor trimmed |
| Profile.NormalizeSkills | src/controllers/profile.controller.js:55-71 | no duplicates, no empty or untrimmed skill; an array keeps exactly its non-empty trimmed items; a string is split at commas; anything else gives `[]` |
| Profile.NormalizeIdempotent | src/controllers/profile.controller.js:55-71 | normalising a normalised list changes nothing |
| Profile.NormalizeKeepsOrder | src/controllers/profile.controller.js:58-61 | survivors keep the order of their first trimmed occurrence |
| Profile.FormatUserResponse | src/controllers/profile.controller.js:26-52 | fullname from profile, else combined parts, else name; name parts from the profile's fullname when truthy, else the user's; username, phone and pic as `x \|\| null`; occupation, company name, availability, hourly rate, bio and location from the profile as `x \|\| null`, all null without a profile; language defaults to 'en'; skills default to `[]` |
| Profile.UserSchemaValid | src/models/User.js:6-7 | the user validators an update can meet: a non-empty name of at most 100 UTF-16 units and a non-empty email |
| Profile.ProfileSchemaValid | src/models/Profile.js:6-15 | the profile validators: each field within its maximum length in UTF-16 units, every skill at most 100 |
| Profile.ValidEmail | src/controllers/profile.controller.js:115 | the email pattern; ValidEmailPieces and ValidEmailSplits state which strings it accepts |
| Profile.ValidEmailPieces | src/controllers/profile.controller.js:115 | `local@host.top` with non-empty, space- and `@`-free pieces matches the email pattern |
| Profile.ValidEmailSplits | src/controllers/profile.controller.js:115 | every address the pattern accepts has that form |
| Profile.Rejection | src/controllers/profile.controller.js:113-139 | 400 for a malformed email, 409 for a taken email, 400 for an empty or null email, 409 'Username already exists' for a taken username once the email checks pass; no rejection iff all checks pass |
| Profile.EmailInUse | src/controllers/profile.controller.js:121 | another user holds the lowercased address; Rejection answers 409 on it, and KeepsUnique shows that an update passing that check keeps addresses unique |
| Profile.UsernameInUse | src/controllers/profile.controller.js:133 | another user holds the username; Rejection answers 409 on it, and KeepsUnique shows that an update passing that check keeps usernames unique |
| Profile.BuildUserPatch | src/controllers/profile.controller.js:111-157 | the user update holds exactly the keys the handler sets |
| Profile.UserPatchOf | src/controllers/profile.controller.js:111-157 | the user update `updateMe` sends; BuildUserPatch builds it key by key and UserPatchRules states its rules |
| Profile.ApplyUserPatch | src/controllers/profile.controller.js:160-163 | id, role and status are kept |
| Profile.UserPatchRules | src/controllers/profile.controller.js:125-157 | a supplied fullname decides both parts and the name; a part not supplied keeps its value; email is stored lowercased; an empty language becomes 'en' |
| Profile.BuildProfilePatch | src/controllers/profile.controller.js:165-175 | the profile update holds exactly the supplied keys (falsy as null, skills normalised) and is empty iff no profile key is supplied |
| Profile.ProfilePatchOf | src/controllers/profile.controller.js:165-175 | the profile update `updateMe` sends; stated by BuildProfilePatch |
| Profile.ApplyProfilePatch | src/controllers/profile.controller.js:178-187 | the profile stays its owner's |
| Profile.GetMe | src/controllers/profile.controller.js:73-83 | 404 'User not found' iff the caller is unknown; otherwise the caller's user and profile formatted, with the profile's skills or `[]` |
| Profile.LowerIdempotent | src/controllers/profile.controller.js:121-125 | lower-casing twice is lower-casing once |
| Profile.KeepsUnique | src/controllers/profile.controller.js:113-163 | an update that passed the checks keeps emails and usernames unique and emails lowercase |
| Profile.ProfileStore.constructor | src/models/Profile.js:3-15 | both collections start empty and valid |
| Profile.ProfileStore.UpdateMe | src/controllers/profile.controller.js:85-197 | 404 or a check's 400/409 with nothing written; otherwise the user is written when the update has keys, then the profile (created when absent) when it has keys, schema refusals writing nothing further; the answer is the reloaded user and profile formatted |
| Cloudinary.Extension | src/utils/cloudinary.js:22 | the lowercased text after the last dot (no dot in it), or the whole lowercased key |
| Cloudinary.ExtensionOfName | src/utils/cloudinary.js:22 | the extension of `stem.ext` is `ext` lowercased |
| Cloudinary.ResourceTypeOf | src/utils/cloudinary.js:25-28 | raw iff the extension is one of pdf, doc, docx, txt, rtf, odt |
| Cloudinary.LocationOf | src/utils/cloudinary.js:31-33 | the folder and file name of a key, stated by LocationSplitsKey |
| Cloudinary.LocationSplitsKey | src/utils/cloudinary.js:31-33 | a key with a slash is cut at its first slash into folder and file name; otherwise folder 'docs' and the key itself |
| Cloudinary.LastDotBelow | src/utils/cloudinary.js:36 | the position of the last dot before `n`, or -1 |
| Cloudinary.PublicId | src/utils/cloudinary.js:36 | the name before a final `.ext` without slash or dot where the pattern matches, the name unchanged where it does not |
| Cloudinary.PublicIdDropsExtension | src/utils/cloudinary.js:36 | `stem.ext` loses exactly `.ext` |
| Cloudinary.PlanUpload | src/utils/cloudinary.js:15-36 | throws 'Cloudinary not enabled' iff disabled; otherwise folder, resource type, public id and extension as above |
| Cloudinary.WithoutQuery | src/utils/cloudinary.js:57 | a URL without `?` is unchanged |
| Cloudinary.FinalUrl | src/utils/cloudinary.js:51-61 | `.ext` is appended exactly for a raw file with an extension whose address before the query does not already end with it |
| Cloudinary.FinalUrlCarriesExtension | src/utils/cloudinary.js:51-61 | without a query string a raw file's address ends with its extension, and a second pass changes nothing |
| Cloudinary.WithoutQueryOf | src/utils/cloudinary.js:57 | the address before the first `?` |
| Cloudinary.FinalUrlAfterQuery | src/utils/cloudinary.js:55-60 | with a query string the extension is appended after the query |
| Auth.BearerToken | src/middleware/auth.js:5-6 | a token iff the header starts with 'Bearer ', and the header is the prefix plus the token |
| Auth.BearerTokenOf | src/middleware/auth.js:6 | the token of 'Bearer t' is `t` |
| Auth.Authenticate | src/middleware/auth.js:4-19 | 401 'Unauthorized' iff no token; passes iff the token verifies to an existing active account, attaching its id and role; 403 iff that account is inactive; every failure is 401 or 403 |
| Auth.NoTokenNoLookup | src/middleware/auth.js:7 | without a token neither verifier nor user store influences the answer |
| Auth.ActiveAccountPasses | src/middleware/auth.js:10-15 | a valid token for an active account passes with that account's identity |

## Left out

- I/O, the HTTP layer, the database connection and the JWT signature check are
  not modelled. The clock, the token verifier (`verify`), the user lookup and
  the upload's result (`secureUrl`) are parameters.
- The `{ success, data }` response wrappers and the 201 status of a create are
  not modelled. Neither are the thrown errors passed to the error handler: a
  schema refusal is `SchemaRejected`.
- The upload stream itself, the absolute-path resolution and the upload error
  callback of `utils/cloudinary.js` are not modelled.
- Text comparison and matching:
  - Search treats the request text as a literal substring. Regular-expression
    metacharacters in it are not interpreted.
  - Case folding is ASCII only.
  - `\s` is the set in `Text.IsSpace`, not full Unicode white space.
- Sorting: ties are kept in store order (a stable sort). The store leaves their
  order open.
- `$group` by status: rows come in first-occurrence order. In the store that
  order is unspecified. The counts of the filled table do not depend on it,
  because each status occurs once, and neither does the place of an array-index
  key or a status key; the order of the remaining extra keys follows the row
  order.
- Progress.CurrentWindow, Progress.PreviousWindow: a day is 86 400 000 ms.
  `setDate` on local time also shifts across daylight-saving changes; that is
  not modelled.
- Progress.CalculateChange: exact rational rounding, half up. Floating-point
  error near a half is not modelled.
- ApplicationController.PageParams: a non-numeric, zero or negative page or
  limit is answered `OutsideModel`. The handler does not check them, so the
  outcome is partly the database driver's and partly its own, and the model
  states neither: a non-numeric value passes `NaN` as skip and limit;
  `limit=0` means "no limit" to the driver while the handler itself computes
  `Math.ceil(total / 0)`, which is `Infinity` (`NaN` when nothing matches);
  `page=1, limit=-5` reads five records while the handler reports a negative
  page count; a page below 1 passes a negative skip.
- Progress.ActivityCap: a non-numeric limit is answered `OutsideModel`; a
  negative limit is read as its absolute value and 0 as no limit, as the
  driver does.
- ApplicationController.ApplicationStore.Update: update validators do not run,
  so any status string is stored (see `UpdateStoresAnyStatus`).
- ApplicationController.UpdateRequest: `status`, `jobTitle`, `title`,
  `companyName` and `company` are strings or absent. A `null` or a non-string
  value sent for them is not modelled; `notes` and the two dates do model null.
- ApplicationController.CreateRequest: a `null` status, which would skip the
  'Applied' default and reach the schema, is not modelled.
- ApplicationController.NewDate: how `new Date` parses a string or a number is
  not modelled. A truthy date value arrives with the instant it parses to, or
  as an Invalid Date.
- Route order: `DELETE /:id` is registered before `DELETE /bulk`, so the route
  table may send `/bulk` to the single delete. Routing is not part of this
  model; `BulkDelete` models the bulk handler as written.
- Ids:
  - Record ids are natural numbers handed out in order, standing for ObjectIds.
  - An id that is not a valid ObjectId, which makes the store throw, is not
    modelled.
  - `formatApplication`'s `createdAt`/`updatedAt` keep the instant rather than
    its ISO text.
- Profile.User: the user schema declares no `username`, `first_name`,
  `last_name`, `phone`, `language` or `pic` paths. In strict mode the store
  would drop them on save. The model keeps them as the controller sees them.
  Email uniqueness, which the store's unique index enforces, is the
  `ProfileStore.Valid` invariant kept by the `Rejection` check.
- Profile.NormalizeSkills: array elements that are not strings (and pass
  through `String(s)`) and non-string, non-array values other than falsy ones
  are `OtherSkills`. The model does not convert them.
- Profile.ProfileStore.UpdateMe:
  - `hourlyRate` is a string; a number would be cast by the store, which is not
    modelled.
  - The profile schema's `required` owner is set by construction.
  - `cvUrl` is not touched by this handler.
  - Two concurrent requests racing on the same email or username are not
    modelled.
