/** The Application record of the job-application tracker: the owner, the job
    title and company, the status drawn from a fixed enumeration, the date applied,
    optional notes and the two timestamps the store maintains. */
module ApplicationSchema {
  import opened Wrappers
  import Text

  /** The identifier of a user, as the authentication layer hands it over. */
  type UserId = string

  /** An instant, in milliseconds since the epoch. */
  type Time = int

  const MillisPerDay: int := 86400000

  /** The calendar day (UTC) of an instant, counted from the epoch. It stands for
      the `YYYY-MM-DD` key of `$dateToString` and of `toISOString()`, whose order
      agrees with the order of days. */
  function DayOf(t: Time): (d: int)
    ensures d * MillisPerDay <= t < d * MillisPerDay + MillisPerDay
  {
    t / MillisPerDay
  }

  lemma DayOfMonotone(t1: Time, t2: Time)
    requires t1 <= t2
    ensures DayOf(t1) <= DayOf(t2)
  {
  }

  datatype Status = Applied | Interview | Offer | Rejected

  const DefaultStatus: Status := Applied

  function StatusName(s: Status): string {
    match s
    case Applied => "Applied"
    case Interview => "Interview"
    case Offer => "Offer"
    case Rejected => "Rejected"
  }

  /** The enumeration value a stored status string denotes, if any. */
  function ParseStatus(name: string): (r: Option<Status>)
    ensures forall s :: StatusName(s) == name <==> r == Some(s)
  {
    if name == "Applied" then Some(Applied)
    else if name == "Interview" then Some(Interview)
    else if name == "Offer" then Some(Offer)
    else if name == "Rejected" then Some(Rejected)
    else None
  }

  predicate IsStatusName(name: string) {
    ParseStatus(name).Some?
  }

  const TitleMaxLength: nat := 150
  const CompanyMaxLength: nat := 150
  const NotesMaxLength: nat := 500

  /** A stored application. `status` is kept as the string the store holds: the
      enumeration is a validator that runs when a record is created, not when it
      is updated. */
  datatype Application = Application(
    id: nat,
    user: UserId,
    title: string,
    company: string,
    status: string,
    dateApplied: Time,
    notes: Option<string>,
    createdAt: Time,
    updatedAt: Time)

  /** What the schema's validators demand of a record: a non-empty title and
      company of at most 150 characters each, a status from the enumeration and
      notes of at most 500 characters, lengths counted as JavaScript counts them
      (UTF-16 code units). The owner and the date are present by construction. */
  predicate SchemaValid(a: Application) {
    && a.title != "" && Text.JsLength(a.title) <= TitleMaxLength
    && a.company != "" && Text.JsLength(a.company) <= CompanyMaxLength
    && IsStatusName(a.status)
    && (a.notes.Some? ==> Text.JsLength(a.notes.value) <= NotesMaxLength)
  }
}
