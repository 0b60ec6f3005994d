# Lindy Utilities: the schedule engine

Lindy Utilities is an Android app for paving crews. It logs in to the
company's daily-schedule page with the employee's ID and shows:

- the employee's own assignment for the day (shift, job, foreman, foreman's phone and job address);
- the list of colleagues on the schedule.

The user can search the list by name, or narrow it to chosen job sites and
crews. In the background the app polls the page and posts a notification when
the schedule changes.

This Dafny project models the engine behind those screens:

- `options.dfy`: Java's nullable values and failures, as `Option` and `Result`.
- `java_strings.dfy`: the `String` operations the app relies on:
  - `trim`;
  - `contains`;
  - `replace(label, "")`;
  - `split(sep)[0]`;
  - ASCII `toLowerCase`;
  - `Integer.toString`.
- `employee.dfy`: the mutable `Employee` record. It has a setter per field and a labelled `toString`, and that rendering reads back.
- `schedule_parser.dfy`: the parser of the page:
  - the date header;
  - the field extractor of one row;
  - the index-driven pass over the rows of the second schedule table. It takes the last `current` row as the viewer's own entry, lists the `empRow` rows in order, and lets a person row consume the address row right after it.

  A second, independent reading of the rows (rows cut into groups) is proved equal to the pass.
- `hex.dfy`: the two-hex-digits-per-byte spelling of a digest, with Java's signed bytes.
- `schedule_helper.dfy`: the `DailyScheduleHelper` class:
  - `fetchSchedule`, with its success and error branches;
  - `hashContent`;
  - the `lastHash` change detector of `checkForUpdates`.
- `schedule_worker.dfy`: `ScheduleWorker.doWork`, the background job that notifies when the schedule's date changes. The preferences file is a map.
- `employee_adapter.dfy`: the `EmployeeAdapter` list:
  - the name search;
  - `updateList`;
  - the expand toggle of a row.
- `main_activity.dfy`: the rules of the main screen:
  - the job-site and crew dialogs, and the list they select;
  - the tick/untick lists;
  - the directions-button rule;
  - the employee-ID prompt.

How the model is built:

- **Inputs.** The HTML parser, the network and the MD5 digest are inputs:
  - a `Page` value carries the rows and texts the CSS selections return;
  - the schedule site is a function from the request's `Cookie` header to the response;
  - the digest is a function fixed when a helper is created.
- **Objects.** Objects the source changes in place are Dafny classes with `modifies` clauses: `Employee`, `DailyScheduleHelper`, `ScheduleWorker`, `EmployeeAdapter`, the activity and its selection lists.
- **Specifications.** Each loop is proved against a specification function. The properties of those functions are proved as lemmas.

On a page with fewer than two schedule tables the source calls `get(1)` inside the response
handler, and the exception leaves the handler. Neither `onSuccess` nor
`onError` then runs. `ParseSchedule` returns `Err(FewerThanTwoScheduleTables)`
for that page, and `FetchSchedule` delivers `NoCallback`, so no callback runs.

## Model

All source paths are under `app/src/main/java/com/example/lindyutilities/`.

| member | source | states |
|---|---|---|
| EmployeeModel.Employee.constructor | app/src/main/java/com/example/lindyutilities/Employee.java:14-23 | the eight arguments are stored in name, shift, job, foreman, crew, jobAddress, employeePhone, foremanPhone, in that order |
| EmployeeModel.Employee.SetName | app/src/main/java/com/example/lindyutilities/Employee.java:30-32 | only `name` changes, to the new value; the other seven fields keep theirs |
| EmployeeModel.Employee.SetShift | app/src/main/java/com/example/lindyutilities/Employee.java:38-40 | only `shift` changes; the rest are kept |
| EmployeeModel.Employee.SetJob | app/src/main/java/com/example/lindyutilities/Employee.java:46-48 | only `job` changes; the rest are kept |
| EmployeeModel.Employee.SetForeman | app/src/main/java/com/example/lindyutilities/Employee.java:54-56 | only `foreman` changes; the rest are kept |
| EmployeeModel.Employee.SetCrew | app/src/main/java/com/example/lindyutilities/Employee.java:62-64 | only `crew` changes; the rest are kept |
| EmployeeModel.Employee.SetJobAddress | app/src/main/java/com/example/lindyutilities/Employee.java:70-72 | only `jobAddress` changes; the other seven fields are unchanged |
| EmployeeModel.Employee.SetEmployeePhone | app/src/main/java/com/example/lindyutilities/Employee.java:78-80 | only `employeePhone` changes; the rest are kept |
| EmployeeModel.Employee.SetForemanPhone | app/src/main/java/com/example/lindyutilities/Employee.java:86-88 | only `foremanPhone` changes; the rest are kept |
| EmployeeModel.Unlines | app/src/main/java/com/example/lindyutilities/Employee.java:90-100 | every line of the rendering is terminated by a newline, so the text ends in one |
| EmployeeModel.DescribeRoundTrip | app/src/main/java/com/example/lindyutilities/Employee.java:90-100 | splitting `toString` at newlines and stripping the labels gives the record back, when no field contains a newline |
| JavaStrings.Trim | app/src/main/java/com/example/lindyutilities/DailyScheduleHelper.java:55 | the result neither starts nor ends with a character at or below U+0020, and is no longer than the input |
| JavaStrings.TrimCuts | app/src/main/java/com/example/lindyutilities/DailyScheduleHelper.java:225 | trim removes only white space, and all of it, from the two ends, keeping the middle as it is |
| JavaStrings.TrimUnique | app/src/main/java/com/example/lindyutilities/DailyScheduleHelper.java:225 | any cut of white-space ends that leaves no white space at either end is the one trim makes |
| JavaStrings.TrimIdempotent | app/src/main/java/com/example/lindyutilities/MainActivity.java:248 | trimming twice is trimming once |
| JavaStrings.ContainsIff | app/src/main/java/com/example/lindyutilities/EmployeeAdapter.java:100 | `contains` holds exactly when the text occurs at some index |
| JavaStrings.RemoveAll | app/src/main/java/com/example/lindyutilities/DailyScheduleHelper.java:55 | removing every occurrence never lengthens the text, and leaves a text without the label as it is; with `RemoveAllAtFirst` this pins the result down |
| JavaStrings.RemoveAllAtFirst | app/src/main/java/com/example/lindyutilities/DailyScheduleHelper.java:55 | `replace(label, "")` removes the first occurrence, keeps the text before it, and goes on removing every later occurrence in the text after it |
| JavaStrings.RemoveLeadingLabel | app/src/main/java/com/example/lindyutilities/DailyScheduleHelper.java:225 | removing the label from the label followed by a text without it gives that text |
| JavaStrings.PrefixBeforeFirst | app/src/main/java/com/example/lindyutilities/DailyScheduleHelper.java:284 | `split(sep)[0]` is the prefix up to the first occurrence: no occurrence starts inside it, and one starts right after it unless it is the whole text |
| JavaStrings.PrefixBeforeWhole | app/src/main/java/com/example/lindyutilities/DailyScheduleHelper.java:284 | the prefix is the whole text exactly when the separator does not occur |
| JavaStrings.TrimmedPrefixFree | app/src/main/java/com/example/lindyutilities/DailyScheduleHelper.java:284 | the trimmed prefix contains no separator |
| JavaStrings.ToLower | app/src/main/java/com/example/lindyutilities/EmployeeAdapter.java:100 | lower-casing keeps the length, leaves no capital, turns each capital into its small letter and keeps every other character |
| JavaStrings.ToLowerIdempotent | app/src/main/java/com/example/lindyutilities/EmployeeAdapter.java:100 | lower-casing an already lower-cased text changes nothing, so the search's lower-casing of the query is stable |
| JavaStrings.NatToDecimal | app/src/main/java/com/example/lindyutilities/DailyScheduleHelper.java:95 | the decimal form of a status code is non-empty, all digits, without a leading zero |
| JavaStrings.DecimalRoundTrip | app/src/main/java/com/example/lindyutilities/DailyScheduleHelper.java:95 | reading the printed digits back gives the number |
| ScheduleParser.ExtractScheduleDate | app/src/main/java/com/example/lindyutilities/DailyScheduleHelper.java:50-58 | no header gives "Not Found"; otherwise the date is the header with every date label removed (`RemoveAllAtFirst`), then trimmed, so it has no white space at either end and is no longer than the header text |
| ScheduleParser.ScheduleDateOfHeader | app/src/main/java/com/example/lindyutilities/DailyScheduleHelper.java:55 | a header "Daily Schedule for " + d, with d trimmed and label-free, gives exactly d |
| ScheduleParser.ExampleDate | app/src/main/java/com/example/lindyutilities/DailyScheduleHelper.java:50-58 | the header "Daily Schedule for Monday" gives "Monday" |
| ScheduleParser.JobTextClean | app/src/main/java/com/example/lindyutilities/DailyScheduleHelper.java:284 | the job label is trimmed and contains no "<div"; with no "<div" in the cell it is the trimmed cell HTML |
| ScheduleParser.EmployeeDetailsFields | app/src/main/java/com/example/lindyutilities/DailyScheduleHelper.java:261-308 | name, employee phone, foreman and foreman phone fall back to "N/A" when the cell or span is missing; shift and crew are the cell texts, empty when absent; job is trimmed without "<div", empty when absent; jobAddress starts as "N/A" |
| ScheduleParser.ParseEmployeeDetails | app/src/main/java/com/example/lindyutilities/DailyScheduleHelper.java:261-308 | creates a new employee holding exactly the row's extracted fields |
| ScheduleParser.NextIndex | app/src/main/java/com/example/lindyutilities/DailyScheduleHelper.java:223-226 | the pass always advances, by two when a person row consumes the address row after it, and never past the end |
| ScheduleParser.ReadPersonRow | app/src/main/java/com/example/lindyutilities/DailyScheduleHelper.java:218-249 | a new employee with the row's fields and the following address row's text ("Job Address: " removed and trimmed only for the `current` row, raw otherwise; "N/A" when there is none), and the index after the consumed rows |
| ScheduleParser.ScanRows | app/src/main/java/com/example/lindyutilities/DailyScheduleHelper.java:214-250 | the loop returns new employees whose records are the pass's other entries in document order, and the self entry found, null exactly when there is none |
| ScheduleParser.ParseEmployees | app/src/main/java/com/example/lindyutilities/DailyScheduleHelper.java:207-258 | the list is the pass's other entries; `mySchedule[0]` is never null: it holds the last `current` row's entry, else keeps an earlier value, else holds the placeholder ("You", "Not scheduled today", "N/A" elsewhere) |
| ScheduleParser.ParseSchedule | app/src/main/java/com/example/lindyutilities/DailyScheduleHelper.java:80-89 | the page fails exactly when it has fewer than two schedule tables; otherwise the date is the header's |
| ScheduleParser.GroupsCover | app/src/main/java/com/example/lindyutilities/DailyScheduleHelper.java:214-250 | the reference grouping covers every row once, in order |
| ScheduleParser.GroupsWellCut | app/src/main/java/com/example/lindyutilities/DailyScheduleHelper.java:214-250 | person groups start with a `current`/`empRow` row and own only an address row; ignored rows are not person rows; a person row owns no address row only when the next row is not one |
| ScheduleParser.ParseFromGroups | app/src/main/java/com/example/lindyutilities/DailyScheduleHelper.java:214-250 | from any index, the pass collects what the groups of the remaining rows stand for |
| ScheduleParser.ParseRowsByGroups | app/src/main/java/com/example/lindyutilities/DailyScheduleHelper.java:214-250 | the pass equals the grouping reading: self is the last `current` group's entry, others are the `empRow` groups' entries in order; consumed address rows are never classified |
| ScheduleParser.SelfFromCurrentRow | app/src/main/java/com/example/lindyutilities/DailyScheduleHelper.java:218-234 | a self entry is always the entry of some `current` row with the address row after it |
| ScheduleParser.NoCurrentRowGivesPlaceholder | app/src/main/java/com/example/lindyutilities/DailyScheduleHelper.java:252-255 | with no `current` row the self entry is the placeholder |
| ScheduleParser.CurrentRowTakenAsAddress | app/src/main/java/com/example/lindyutilities/DailyScheduleHelper.java:241-243 | a `current` row carrying a comments block right after an `empRow` row is consumed as that row's address, and no self entry is found |
| ScheduleParser.ExampleTable | app/src/main/java/com/example/lindyutilities/DailyScheduleHelper.java:214-250 | on a worked table the viewer's address loses its label, an employee without an address row gets "N/A", and another keeps its raw address |
| ScheduleParser.ExampleSchedule | app/src/main/java/com/example/lindyutilities/DailyScheduleHelper.java:80-93 | the worked page gives the date, the viewer's entry and the two colleagues in order |
| Hex.Unsigned | app/src/main/java/com/example/lindyutilities/DailyScheduleHelper.java:159 | `%x` prints a negative byte plus 256, so the printed value is below 256 |
| Hex.HexEncode | app/src/main/java/com/example/lindyutilities/DailyScheduleHelper.java:157-161 | the hex text is twice as long as the digest |
| Hex.HexEncodeAt | app/src/main/java/com/example/lindyutilities/DailyScheduleHelper.java:158-160 | characters 2k and 2k+1 are the two `%02x` digits of byte k, in byte order |
| Hex.HexEncodeLowercase | app/src/main/java/com/example/lindyutilities/DailyScheduleHelper.java:159 | only lower-case hex digits occur |
| Hex.HexRoundTrip | app/src/main/java/com/example/lindyutilities/DailyScheduleHelper.java:157-161 | reading the hex text back gives the digest |
| Hex.HexInjective | app/src/main/java/com/example/lindyutilities/DailyScheduleHelper.java:141 | different digests have different hex texts |
| ScheduleHelper.CookieNamesEmployee | app/src/main/java/com/example/lindyutilities/DailyScheduleHelper.java:68 | the cookie ends in the employee ID, and different IDs give different cookies |
| ScheduleHelper.FetchedLoadedIff | app/src/main/java/com/example/lindyutilities/DailyScheduleHelper.java:79-93 | a schedule is delivered exactly for a 2xx response with a body whose page has two schedule tables, with the header's date; with fewer tables the handler fails |
| ScheduleHelper.FetchedErrorText | app/src/main/java/com/example/lindyutilities/DailyScheduleHelper.java:73-96 | an error is delivered exactly when there is no successful response with a body; its text starts with "Error: ", and for a response it is "Error: HTTP " and the status code's digits, which read back as the code |
| ScheduleHelper.DailyScheduleHelper.FetchSchedule | app/src/main/java/com/example/lindyutilities/DailyScheduleHelper.java:65-99 | the callback receives exactly what `Fetched` gives for the response to this employee's cookie: new employee objects on success |
| ScheduleHelper.DailyScheduleHelper.HashContent | app/src/main/java/com/example/lindyutilities/DailyScheduleHelper.java:153-165 | the loop builds the hex spelling of the page's digest |
| ScheduleHelper.FingerprintFollowsDigest | app/src/main/java/com/example/lindyutilities/DailyScheduleHelper.java:139-141 | two pages have the same fingerprint exactly when they have the same digest |
| ScheduleHelper.PollNotifiesIff | app/src/main/java/com/example/lindyutilities/DailyScheduleHelper.java:136-146 | a poll notifies exactly when it reads a page whose fingerprint is not the stored one (or none is stored), and then stores it; failures and non-2xx responses change nothing |
| ScheduleHelper.FirstPollNotifies | app/src/main/java/com/example/lindyutilities/DailyScheduleHelper.java:141 | the first page read always notifies |
| ScheduleHelper.SecondPollNotifiesIff | app/src/main/java/com/example/lindyutilities/DailyScheduleHelper.java:139-144 | after one page, the next notifies exactly when its digest differs |
| ScheduleHelper.RepeatedPollQuiet | app/src/main/java/com/example/lindyutilities/DailyScheduleHelper.java:141-144 | reading the same response again is quiet and changes nothing |
| ScheduleHelper.DailyScheduleHelper.constructor | app/src/main/java/com/example/lindyutilities/DailyScheduleHelper.java:39-48 | a new helper stores its employee ID and starts with no stored fingerprint and nothing posted |
| ScheduleHelper.DailyScheduleHelper.CheckForUpdates | app/src/main/java/com/example/lindyutilities/DailyScheduleHelper.java:123-148 | `lastHash` becomes what `Poll` gives, and exactly one update notice is posted when it notifies, none otherwise |
| ScheduleWorkerModel.CachedDateReadsBack | app/src/main/java/com/example/lindyutilities/ScheduleWorker.java:68-80 | the cached date reads "Not Found" while unset and reads back the date last written; writing it keeps the saved ID |
| ScheduleWorkerModel.FailsIffNoEmployeeId | app/src/main/java/com/example/lindyutilities/ScheduleWorker.java:32-58 | a run fails exactly when the ID is missing or empty, and then changes nothing; with an ID it succeeds whatever the fetch gives |
| ScheduleWorkerModel.NotifiesIffNewDate | app/src/main/java/com/example/lindyutilities/ScheduleWorker.java:42-49 | a run notifies exactly when it reads a schedule whose date differs from the cached one; the notice is "Your schedule has been updated for " + date and the date is cached |
| ScheduleWorkerModel.QuietRunKeepsPrefs | app/src/main/java/com/example/lindyutilities/ScheduleWorker.java:44-55 | a run that posts no notice leaves the preferences unchanged: a date equal to the cached one, or a fetch error, never rewrites `cachedDate` |
| ScheduleWorkerModel.OnlyDateChanges | app/src/main/java/com/example/lindyutilities/ScheduleWorker.java:44-55 | a run changes no preference but the cached date |
| ScheduleWorkerModel.RerunQuiet | app/src/main/java/com/example/lindyutilities/ScheduleWorker.java:44-48 | a second run against the same site is quiet and changes nothing |
| ScheduleWorkerModel.UndatedPageQuietOnFreshInstall | app/src/main/java/com/example/lindyutilities/ScheduleWorker.java:68-72 | with no date cached, a page read as "Not Found" does not notify |
| ScheduleWorkerModel.ScheduleWorker.DoWork | app/src/main/java/com/example/lindyutilities/ScheduleWorker.java:30-59 | result, preferences and posted notifications are those of `WorkRun` on the preferences before the run |
| Adapter.EmployeeAdapter.constructor | app/src/main/java/com/example/lindyutilities/EmployeeAdapter.java:22-29 | the full list is the given one, the shown list is a copy in the same order, nothing is expanded |
| Adapter.NameFiltered | app/src/main/java/com/example/lindyutilities/EmployeeAdapter.java:98-103 | the search never lengthens the list |
| Adapter.EmptyQueryKeepsAll | app/src/main/java/com/example/lindyutilities/EmployeeAdapter.java:96-97 | the empty query matches everyone, so its shortcut agrees with the search |
| Adapter.NameFilteredMembers | app/src/main/java/com/example/lindyutilities/EmployeeAdapter.java:98-103 | an employee is shown exactly when it is in the full list and its lower-cased name contains the lower-cased query |
| Adapter.NameFilteredAppend | app/src/main/java/com/example/lindyutilities/EmployeeAdapter.java:99-103 | the search keeps list order: it distributes over concatenation |
| Adapter.NameFilteredIdempotent | app/src/main/java/com/example/lindyutilities/EmployeeAdapter.java:94-106 | searching the result again with the same query changes nothing |
| Adapter.SearchIgnoresQueryCase | app/src/main/java/com/example/lindyutilities/EmployeeAdapter.java:100 | a query and its lower-cased form show the same employees |
| Adapter.EmployeeAdapter.Filter | app/src/main/java/com/example/lindyutilities/EmployeeAdapter.java:94-106 | the shown list becomes the search of the full list, whatever it showed before; the full list is untouched |
| Adapter.EmployeeAdapter.UpdateList | app/src/main/java/com/example/lindyutilities/EmployeeAdapter.java:130-135 | the shown list becomes `filteredList`; `originalList` and the full list play no part |
| Adapter.ToggleOneExpanded | app/src/main/java/com/example/lindyutilities/EmployeeAdapter.java:55-61 | a click on the expanded row collapses it; a click on another row makes it the only expanded one |
| Adapter.ToggleTwiceCollapses | app/src/main/java/com/example/lindyutilities/EmployeeAdapter.java:55-61 | from a collapsed row, two clicks on that row, each after it was bound again, leave nothing expanded |
| Adapter.EmployeeAdapter.OnItemClick | app/src/main/java/com/example/lindyutilities/EmployeeAdapter.java:59-64 | the expanded position becomes NO_POSITION if the row was bound expanded, else the row; with a current binding this is the toggle |
| Activity.JobSitesMembers | app/src/main/java/com/example/lindyutilities/MainActivity.java:148-151 | a job site is offered exactly when some employee of the full list works there |
| Activity.MainActivity.CollectJobSites | app/src/main/java/com/example/lindyutilities/MainActivity.java:148-151 | the loop collects the job sites of the full list |
| Activity.CrewsAtMembers | app/src/main/java/com/example/lindyutilities/MainActivity.java:188-193 | a crew is offered exactly when some employee at a selected job site is on it |
| Activity.MainActivity.CollectCrews | app/src/main/java/com/example/lindyutilities/MainActivity.java:186-193 | the loop collects the crews at the selected job sites |
| Activity.MainActivity.OnNext | app/src/main/java/com/example/lindyutilities/MainActivity.java:170-176 | the crew dialog opens exactly when a job site is ticked, offering the crews at the ticked sites |
| Activity.JobCrewFiltered | app/src/main/java/com/example/lindyutilities/MainActivity.java:214-219 | the selection never lengthens the list |
| Activity.JobCrewFilteredMembers | app/src/main/java/com/example/lindyutilities/MainActivity.java:214-219 | an employee is shown exactly when it is in the full list at a ticked job site on a ticked crew |
| Activity.JobCrewFilteredAppend | app/src/main/java/com/example/lindyutilities/MainActivity.java:214-219 | the selection keeps list order: it distributes over concatenation |
| Activity.SelectingEverythingShowsAll | app/src/main/java/com/example/lindyutilities/MainActivity.java:212-223 | ticking every job site and crew that occurs shows the whole list, as "All" does |
| Activity.MainActivity.OnApply | app/src/main/java/com/example/lindyutilities/MainActivity.java:212-223 | the shown list becomes the employees at a ticked job site on a ticked crew, in list order; the adapter's full list stays the screen's list |
| Activity.MainActivity.OnAll | app/src/main/java/com/example/lindyutilities/MainActivity.java:178-180 | the shown list becomes the full list; the adapter's full list stays the screen's list |
| Activity.RemoveFirst | app/src/main/java/com/example/lindyutilities/MainActivity.java:166 | unticking removes one occurrence of the item: the multiset of items loses exactly one copy, if it had one |
| Activity.RemoveAbsent | app/src/main/java/com/example/lindyutilities/MainActivity.java:166 | unticking an item that is not in the list leaves the list as it is |
| Activity.CheckThenUncheck | app/src/main/java/com/example/lindyutilities/MainActivity.java:162-168 | ticking then unticking a new item restores the list |
| Activity.Selection.OnChoice | app/src/main/java/com/example/lindyutilities/MainActivity.java:162-168 | a tick appends the item; an untick removes its first occurrence |
| Activity.DirectionsNeedAddressRow | app/src/main/java/com/example/lindyutilities/MainActivity.java:115 | the directions button is enabled only for a viewer entry read from a `current` row that owns an address row; the placeholder leaves it disabled |
| Activity.EnteredIdIff | app/src/main/java/com/example/lindyutilities/MainActivity.java:248-256 | the prompt asks again exactly when the typed text is all white space; a saved ID is non-empty and is the typed text with both ends trimmed |
| Activity.MainActivity.OnSaveEmployeeId | app/src/main/java/com/example/lindyutilities/MainActivity.java:247-257 | a non-empty trimmed ID is saved under "employeeId" and becomes the screen's ID; otherwise nothing changes and the prompt returns |
| Activity.SavedIdStartsWorker | app/src/main/java/com/example/lindyutilities/MainActivity.java:249-250 | an ID saved by the prompt never makes the background job fail |
| Activity.MainActivity.constructor | app/src/main/java/com/example/lindyutilities/MainActivity.java:117-118 | the screen keeps the delivered list and builds a fresh adapter from that same list, showing all of it with no row expanded; it keeps the ID read from the preferences |

## Left out

- Network I/O is not modelled: the OkHttp client, request building, the enqueue of calls and threads. A call's result is an input, given by a function from the `Cookie` header to the response.
- Jsoup HTML parsing and CSS selection are left out. A page is given as the values the selections return.
- ScheduleParser.EmployeeDetails: `Elements.text()` joins the texts of all elements a selection matches; the model reads a single cell per class.
- ScheduleParser.JobText: `split("<div")[0]` is the text before the first `<div`. The model does not capture one corner: Java's `split` drops trailing empty strings, so HTML made only of repeated `<div` has no element 0, and the source would throw there.
- The MD5 algorithm is an input: `digestOf` is a function fixed when a helper or worker is created.
- `NoSuchAlgorithmException` is not modelled.
- The charset `getBytes` uses is left out. Both belong to the digest input.
- `startCheckingForUpdates` and `stopCheckingForUpdates` are left out: they only schedule and cancel timers. Polls are modelled as sequential calls to `CheckForUpdates`.
- The race on `lastHash` between overlapping polls is a concurrency effect and is not modelled.
- ScheduleHelper.DailyScheduleHelper.FetchSchedule: a page with fewer than two schedule tables makes `get(1)` throw inside the response handler. The model delivers `NoCallback`. How the HTTP library then reports or rethrows the exception is not modelled.
- Notifications are entries in a `posted` list. Channels, intents, icons and the fixed notification ID are not modelled; the fixed ID means a later notice replaces the earlier one on screen.
- `Log` calls are not modelled.
- ScheduleWorkerModel.ScheduleWorker.DoWork: the fetch's callback runs on another thread, after `doWork` has already returned `success`. The model runs the callback before returning. It does not capture a callback that runs after, or never runs (for example when the work is cancelled).
- SharedPreferences persistence, `apply()` timing and WorkManager scheduling are left out. The preferences file is a map field.
- The activity and the worker each hold their own map, and the lemma `Activity.SavedIdStartsWorker` connects them.
- JavaStrings.ToLower: only ASCII letters are lower-cased. Java's locale-sensitive Unicode case mapping is not modelled.
- Adapter.EmployeeAdapter.OnItemClick: the listener captures `isExpanded` when the row is bound. The model takes that value as a parameter and proves the toggle only for a binding that is current. It does not model when RecyclerView rebinds rows.
- The list objects are Dafny sequences, so Java aliasing is not modelled. The adapter's `originalEmployees` is the activity's `originalEmployeeList` object; the model states only that the two are equal (`SharesList`), which holds because nothing changes either list after it is handed over.
- The loop of `parseEmployees` writes `mySchedule[0]` each time it meets a `current` row. The model's loop (`ScanRows`) keeps that entry in a local variable, and `ParseEmployees` stores it once after the loop. No caller can observe the array during the loop, so the result is the same.
- Getters are plain field reads, so the model reads the fields directly; the setters' contracts state what each getter then returns.
- View binding, dialogs, toasts, the call, message and map intents, permissions and battery-optimisation requests are not modelled.
- The text shown on `onError` in the activity is not modelled.
- `getItemCount` (`Adapter.EmployeeAdapter.ItemCount`) is the shown list's length. It appears only in the contracts of the adapter's constructor and `Filter`.
- `toString` (`EmployeeModel.Employee.ToString`) is specified through `Describe` and its read-back lemma.
