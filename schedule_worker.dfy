/**
 * `ScheduleWorker`: the background job. It reads the saved employee ID,
 * fetches that employee's schedule, and when the schedule's date differs
 * from the saved one, saves the new date and posts a notification.
 *
 * The app's preferences file is a map from key to text. The fetch's callback
 * is taken to run before the job returns its result.
 */
module ScheduleWorkerModel {
  import opened Options
  import opened Hex
  import opened ScheduleParser
  import opened ScheduleHelper

  /** The two keys the app keeps in its preferences file. */
  const EmployeeIdKey := "employeeId"
  const CachedDateKey := "cachedDate"

  /** The contents of the preferences file. */
  type Prefs = map<string, string>

  /** `getCachedEmployeeId`: the saved ID, absent (`null`) by default. */
  function CachedEmployeeId(prefs: Prefs): Option<string>
  {
    if EmployeeIdKey in prefs then Some(prefs[EmployeeIdKey]) else None
  }

  /** `getCachedDate`: the saved schedule date, "Not Found" by default. */
  function CachedDate(prefs: Prefs): string
  {
    if CachedDateKey in prefs then prefs[CachedDateKey] else NotFound
  }

  /** `updateCachedDate` then `getCachedDate` reads back the date written; the default shows only while none was written. */
  lemma CachedDateReadsBack(prefs: Prefs, date: string)
    ensures CachedDate(prefs[CachedDateKey := date]) == date
    ensures CachedDateKey !in prefs ==> CachedDate(prefs) == NotFound
    ensures CachedEmployeeId(prefs[CachedDateKey := date]) == CachedEmployeeId(prefs)
  {
  }

  /** `Result.success()` or `Result.failure()`. */
  datatype WorkResult = Success | Failure

  /** The notification telling of a schedule for a new date. */
  function DateNotice(date: string): Notification
  {
    Notification("Schedule Updated", "Your schedule has been updated for " + date)
  }

  /** One run of the job: its result, the preferences after it, and the notification it posts, if any. */
  datatype Run = Run(result: WorkResult, prefs: Prefs, notice: Option<Notification>)

  /** The job can start: an ID is saved and it is not empty. */
  predicate HasEmployeeId(prefs: Prefs)
  {
    CachedEmployeeId(prefs).Some? && CachedEmployeeId(prefs).value != ""
  }

  /** What a run does, given the preferences before it and the schedule site. */
  function WorkRun(prefs: Prefs, server: string -> HttpResult): Run
  {
    if !HasEmployeeId(prefs) then Run(Failure, prefs, None)
    else
      match Fetched(server(Cookie(CachedEmployeeId(prefs).value)))
      case Loaded(doc) =>
        if doc.scheduleDate != CachedDate(prefs) then
          Run(Success, prefs[CachedDateKey := doc.scheduleDate], Some(DateNotice(doc.scheduleDate)))
        else
          Run(Success, prefs, None)
      case _ => Run(Success, prefs, None)
  }

  /** The date a run would read for the saved employee, if the fetch delivers a schedule. */
  function FetchedDate(prefs: Prefs, server: string -> HttpResult): Option<string>
    requires HasEmployeeId(prefs)
  {
    match Fetched(server(Cookie(CachedEmployeeId(prefs).value)))
    case Loaded(doc) => Some(doc.scheduleDate)
    case _ => None
  }

  /** A run fails exactly when no usable ID is saved, and then it changes nothing and posts nothing. */
  lemma FailsIffNoEmployeeId(prefs: Prefs, server: string -> HttpResult)
    ensures WorkRun(prefs, server).result == Failure <==> !HasEmployeeId(prefs)
    ensures !HasEmployeeId(prefs) ==> WorkRun(prefs, server) == Run(Failure, prefs, None)
  {
  }

  /**
   * A run notifies exactly when it reads a schedule whose date is not the
   * saved one; the notice names that date, and the date is saved.
   */
  lemma NotifiesIffNewDate(prefs: Prefs, server: string -> HttpResult)
    ensures WorkRun(prefs, server).notice.Some? <==>
              HasEmployeeId(prefs) && FetchedDate(prefs, server).Some? &&
              FetchedDate(prefs, server).value != CachedDate(prefs)
    ensures WorkRun(prefs, server).notice.Some? ==>
              var date := FetchedDate(prefs, server).value;
              WorkRun(prefs, server).notice == Some(DateNotice(date))
              && CachedDate(WorkRun(prefs, server).prefs) == date
  {
  }

  /**
   * A run that posts nothing leaves the preferences as they were: a date equal
   * to the cached one, a fetch error, and a page that never reaches the
   * callback all leave `cachedDate` alone.
   */
  lemma QuietRunKeepsPrefs(prefs: Prefs, server: string -> HttpResult)
    ensures WorkRun(prefs, server).notice.None? ==> WorkRun(prefs, server).prefs == prefs
  {
  }

  /** A run touches only the saved date: the saved ID and every other key are kept. */
  lemma OnlyDateChanges(prefs: Prefs, server: string -> HttpResult)
    ensures var after := WorkRun(prefs, server).prefs;
            CachedEmployeeId(after) == CachedEmployeeId(prefs)
            && (forall k :: k != CachedDateKey ==> (k in after <==> k in prefs))
            && (forall k :: k != CachedDateKey && k in prefs ==> after[k] == prefs[k])
  {
  }

  /** Running again against the same site is quiet and changes nothing. */
  lemma RerunQuiet(prefs: Prefs, server: string -> HttpResult)
    ensures var first := WorkRun(prefs, server);
            WorkRun(first.prefs, server) == Run(first.result, first.prefs, None)
  {
    OnlyDateChanges(prefs, server);
  }

  /**
   * On a fresh install no date is saved, so a page without the date header
   * (read as "Not Found") never notifies.
   */
  lemma UndatedPageQuietOnFreshInstall(prefs: Prefs, server: string -> HttpResult)
    requires CachedDateKey !in prefs
    requires HasEmployeeId(prefs)
    requires FetchedDate(prefs, server) == Some(NotFound)
    ensures WorkRun(prefs, server).notice.None?
    ensures WorkRun(prefs, server).prefs == prefs
  {
  }

  /** The job object, with the preferences it reads and writes and the notifications it posts. */
  class ScheduleWorker {
    var prefs: Prefs
    var posted: seq<Notification>
    /** The digest function handed to the helper it creates. */
    const digestOf: string -> seq<JByte>

    constructor (prefs: Prefs, digestOf: string -> seq<JByte>)
      ensures this.prefs == prefs && posted == [] && this.digestOf == digestOf
    {
      this.prefs := prefs;
      posted := [];
      this.digestOf := digestOf;
    }

    /** `doWork`: one run of the job. */
    method DoWork(server: string -> HttpResult) returns (result: WorkResult)
      modifies this`prefs, this`posted
      ensures var run := WorkRun(old(prefs), server);
              result == run.result && prefs == run.prefs
              && posted == old(posted) + (if run.notice.Some? then [run.notice.value] else [])
    {
      var employeeId := CachedEmployeeId(prefs);
      if employeeId.None? || employeeId.value == "" {
        return Failure;
      }
      var helper := new DailyScheduleHelper(employeeId.value, digestOf);
      var delivery := helper.FetchSchedule(server);
      ghost var outcome := Fetched(server(Cookie(employeeId.value)));
      match delivery {
        case OnSuccess(scheduleDate, _, _) =>
          assert outcome.Loaded? && outcome.doc.scheduleDate == scheduleDate;
          var cachedDate := CachedDate(prefs);
          if scheduleDate != cachedDate {
            prefs := prefs[CachedDateKey := scheduleDate];
            posted := posted + [DateNotice(scheduleDate)];
          }
        case OnError(_) =>
          assert outcome.Failed?;
        case NoCallback(_) =>
          assert outcome.Crashed?;
      }
      result := Success;
    }
  }
}
