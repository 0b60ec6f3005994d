/**
 * The schedule parser: the date header, the per-row field extractor and the
 * single index-driven pass over the rows of the second schedule table that
 * classifies rows as "self" (`current`), "other employee" (`empRow`) or
 * ignored, and lets a person row consume the address row right after it.
 *
 * The HTML document is given already parsed: a row is a value carrying its
 * class flags and the texts that the CSS selections of the source would
 * return from it.
 */
module ScheduleParser {
  import opened Options
  import opened JavaStrings
  import opened EmployeeModel

  /** The sentinel of a field that the markup does not supply. */
  const NotAvailable := "N/A"
  /** The schedule date when the header is missing. */
  const NotFound := "Not Found"
  /** The label in front of the date in the page header. */
  const DateLabel := "Daily Schedule for "
  /** The label in front of the text of an address row. */
  const AddressLabel := "Job Address: "
  /** The job cell's own label ends where its first nested block element begins. */
  const JobCut := "<div"

  /** The self entry when no row is marked `current`. */
  const Placeholder := EmployeeRecord("You", NotAvailable, "Not scheduled today", NotAvailable,
                                      NotAvailable, NotAvailable, NotAvailable, NotAvailable)

  /**
   * A table cell: its own text (without nested elements), its full text, its
   * inner HTML, and the text of the first nested `span.empComments` and of the
   * first nested `span.noWrap.empComments`, if any.
   */
  datatype Cell = Cell(
    ownText: string,
    text: string,
    html: string,
    empComments: Option<string>,
    noWrapEmpComments: Option<string>)

  /**
   * A table row: whether it has class `current` or `empRow`, the text of its
   * `.dailySchedule.pnm-comments` elements (absent when it has none), and its
   * cells with classes employee, shift, job, foreman and crew (absent when missing).
   */
  datatype Row = Row(
    isCurrent: bool,
    isEmpRow: bool,
    comments: Option<string>,
    employee: Option<Cell>,
    shift: Option<Cell>,
    job: Option<Cell>,
    foreman: Option<Cell>,
    crew: Option<Cell>)

  /**
   * A fetched page: the text of the parent of the first `h3 span.dailySchedule`
   * (absent when there is none) and the rows of each `table.dailySchedule`, in
   * document order.
   */
  datatype Page = Page(dateHeader: Option<string>, scheduleTables: seq<seq<Row>>)

  /** One successful parse: the date label, the viewer's own entry and everyone else's. */
  datatype ScheduleDocument = ScheduleDocument(scheduleDate: string, self: EmployeeRecord, others: seq<EmployeeRecord>)

  /** The page has no second schedule table (the source's `get(1)` throws). */
  datatype ParseError = FewerThanTwoScheduleTables(found: nat)

  // ---------------------------------------------------------------------------
  // extractScheduleDate
  // ---------------------------------------------------------------------------

  /** The schedule date: the header with every date label removed, then trimmed. */
  function ExtractScheduleDate(header: Option<string>): (date: string)
    ensures header.None? ==> date == NotFound
    ensures header.Some? ==> IsTrimmed(date) && |date| <= |header.value|
  {
    match header
    case None => NotFound
    case Some(text) => Trim(RemoveAll(text, DateLabel))
  }

  /** A header reading "Daily Schedule for " and then a trimmed date gives that date. */
  lemma ScheduleDateOfHeader(date: string)
    requires IsTrimmed(date) && !Contains(date, DateLabel)
    ensures ExtractScheduleDate(Some(DateLabel + date)) == date
  {
    RemoveLeadingLabel(DateLabel, date);
    TrimOfTrimmed(date);
  }

  // ---------------------------------------------------------------------------
  // parseEmployeeDetails
  // ---------------------------------------------------------------------------

  function TextOf(c: Option<Cell>): string
  {
    if c.Some? then c.value.text else ""
  }

  function HtmlOf(c: Option<Cell>): string
  {
    if c.Some? then c.value.html else ""
  }

  /** The job label: the job cell's HTML before its first `<div`, trimmed. */
  function JobText(html: string): string
  {
    Trim(PrefixBefore(html, JobCut))
  }

  /** The job label has no nested block left in it, and is the whole trimmed HTML when there was none. */
  lemma JobTextClean(html: string)
    ensures IsTrimmed(JobText(html)) && !Contains(JobText(html), JobCut)
    ensures !Contains(html, JobCut) ==> JobText(html) == Trim(html)
  {
    TrimmedPrefixFree(html, JobCut);
    PrefixBeforeWhole(html, JobCut);
    if !Contains(html, JobCut) {
      assert PrefixBefore(html, JobCut) == html;
    }
  }

  /** The fields of one person row; the job address is filled in later. */
  function EmployeeDetails(row: Row): EmployeeRecord
  {
    var name := if row.employee.Some? then row.employee.value.ownText else NotAvailable;
    var employeePhone := if row.employee.Some? then row.employee.value.empComments.GetOr(NotAvailable) else NotAvailable;
    var foreman := if row.foreman.Some? then row.foreman.value.ownText else NotAvailable;
    var foremanPhone := if row.foreman.Some? then row.foreman.value.noWrapEmpComments.GetOr(NotAvailable) else NotAvailable;
    EmployeeRecord(name, TextOf(row.shift), JobText(HtmlOf(row.job)), foreman, TextOf(row.crew),
                   NotAvailable, employeePhone, foremanPhone)
  }

  /**
   * Each field of a person row falls back to "N/A" when its cell is missing;
   * the phone numbers also when the cell has no comment span; a missing shift,
   * job or crew cell gives empty text.
   */
  lemma EmployeeDetailsFields(row: Row)
    ensures var r := EmployeeDetails(row);
      && r.jobAddress == NotAvailable
      && (row.employee.None? ==> r.name == NotAvailable && r.employeePhone == NotAvailable)
      && (row.employee.Some? ==>
            r.name == row.employee.value.ownText
            && r.employeePhone == row.employee.value.empComments.GetOr(NotAvailable))
      && (row.foreman.None? ==> r.foreman == NotAvailable && r.foremanPhone == NotAvailable)
      && (row.foreman.Some? ==>
            r.foreman == row.foreman.value.ownText
            && r.foremanPhone == row.foreman.value.noWrapEmpComments.GetOr(NotAvailable))
      && r.shift == TextOf(row.shift) && r.crew == TextOf(row.crew)
      && IsTrimmed(r.job) && !Contains(r.job, JobCut)
      && (row.job.None? ==> r.job == "")
  {
    JobTextClean(HtmlOf(row.job));
    if row.job.None? {
      assert !Contains("", JobCut);
      TrimOfTrimmed("");
    }
  }

  /** `parseEmployeeDetails`: a new employee holding the fields of `row`. */
  method ParseEmployeeDetails(row: Row) returns (e: Employee)
    ensures fresh(e) && e.Record() == EmployeeDetails(row)
  {
    var d := EmployeeDetails(row);
    e := new Employee(d.name, d.shift, d.job, d.foreman, d.crew, NotAvailable, d.employeePhone, d.foremanPhone);
  }

  // ---------------------------------------------------------------------------
  // parseEmployees: the specification of the pass over the rows
  // ---------------------------------------------------------------------------

  predicate IsPersonRow(row: Row)
  {
    row.isCurrent || row.isEmpRow
  }

  predicate IsAddressRow(row: Row)
  {
    row.comments.Some?
  }

  /** The job address of a person row: the self row's is cleaned up, another employee's is kept raw. */
  function AddressFor(row: Row, address: Option<string>): string
  {
    match address
    case None => NotAvailable
    case Some(text) => if row.isCurrent then Trim(RemoveAll(text, AddressLabel)) else text
  }

  /** The entry of a person row, given the text of the address row it consumes. */
  function PersonRecord(row: Row, address: Option<string>): EmployeeRecord
  {
    EmployeeDetails(row).(jobAddress := AddressFor(row, address))
  }

  /** What the pass collects: the last self entry seen (if any) and the other employees in order. */
  datatype Parsed = Parsed(self: Option<EmployeeRecord>, others: seq<EmployeeRecord>)

  /** What has been collected so far, followed by what the remaining rows give. */
  function Combine(done: Parsed, rest: Parsed): Parsed
  {
    Parsed(if rest.self.Some? then rest.self else done.self, done.others + rest.others)
  }

  /** The text of the address row right after `rows[i]`, if there is one. */
  function AddressAfter(rows: seq<Row>, i: nat): Option<string>
    requires i < |rows|
  {
    if i + 1 < |rows| && IsAddressRow(rows[i + 1]) then rows[i + 1].comments else None
  }

  /** What one row adds to the collection, given the address text it consumes. */
  function Contribution(row: Row, address: Option<string>): Parsed
  {
    if !IsPersonRow(row) then Parsed(None, [])
    else if row.isCurrent then Parsed(Some(PersonRecord(row, address)), [])
    else Parsed(None, [PersonRecord(row, address)])
  }

  /** Where the pass continues after `rows[i]`: past the address row a person row consumes. */
  function NextIndex(rows: seq<Row>, i: nat): (next: nat)
    requires i < |rows|
    ensures i < next <= |rows|
  {
    if IsPersonRow(rows[i]) && AddressAfter(rows, i).Some? then i + 2 else i + 1
  }

  /** The pass over `rows` from index `i` on, step by step as the loop of the source takes it. */
  function ParseFrom(rows: seq<Row>, i: nat): Parsed
    requires i <= |rows|
    decreases |rows| - i
  {
    if i == |rows| then Parsed(None, [])
    else Combine(Contribution(rows[i], AddressAfter(rows, i)), ParseFrom(rows, NextIndex(rows, i)))
  }

  /** The whole pass over `rows`. */
  function ParseRows(rows: seq<Row>): Parsed
  {
    ParseFrom(rows, 0)
  }

  /** The whole page: a document, or the failure of a page without a second schedule table. */
  function ParseSchedule(page: Page): (r: Result<ScheduleDocument, ParseError>)
    ensures r.Err? <==> |page.scheduleTables| < 2
    ensures r.Ok? ==> r.value.scheduleDate == ExtractScheduleDate(page.dateHeader)
  {
    if |page.scheduleTables| < 2 then Err(FewerThanTwoScheduleTables(|page.scheduleTables|))
    else
      var parsed := ParseRows(page.scheduleTables[1]);
      Ok(ScheduleDocument(ExtractScheduleDate(page.dateHeader), parsed.self.GetOr(Placeholder), parsed.others))
  }

  // ---------------------------------------------------------------------------
  // A reference reading of the rows: each person row owns the address row after it
  // ---------------------------------------------------------------------------

  /** A person row with the address row it owns, if any, or a row the pass ignores. */
  datatype Group = Person(person: Row, address: Option<Row>) | Skipped(skipped: Row)

  /** The rows cut into groups, front to back: a person row takes the address row right after it. */
  function Groups(rows: seq<Row>): seq<Group>
    decreases |rows|
  {
    if rows == [] then []
    else if !IsPersonRow(rows[0]) then [Skipped(rows[0])] + Groups(rows[1..])
    else if |rows| > 1 && IsAddressRow(rows[1]) then [Person(rows[0], Some(rows[1]))] + Groups(rows[2..])
    else [Person(rows[0], None)] + Groups(rows[1..])
  }

  function RowsOf(g: Group): seq<Row>
  {
    match g
    case Person(p, None) => [p]
    case Person(p, Some(a)) => [p, a]
    case Skipped(r) => [r]
  }

  function Flatten(gs: seq<Group>): seq<Row>
  {
    if gs == [] then [] else RowsOf(gs[0]) + Flatten(gs[1..])
  }

  /**
   * The grouping is the one the pass uses: person groups start with a person
   * row, an owned row is an address row, ignored rows are not person rows, and
   * a person group owns no address row only when the next group does not start
   * with one.
   */
  ghost predicate WellGrouped(gs: seq<Group>)
  {
    && (forall j :: 0 <= j < |gs| && gs[j].Person? ==> IsPersonRow(gs[j].person))
    && (forall j :: 0 <= j < |gs| && gs[j].Person? && gs[j].address.Some? ==> IsAddressRow(gs[j].address.value))
    && (forall j :: 0 <= j < |gs| && gs[j].Skipped? ==> !IsPersonRow(gs[j].skipped))
    && (forall j :: 0 <= j < |gs| - 1 && gs[j].Person? && gs[j].address.None? ==> !IsAddressRow(RowsOf(gs[j + 1])[0]))
  }

  /** The groups cover every row once, in order. */
  lemma {:induction false} GroupsCover(rows: seq<Row>)
    ensures Flatten(Groups(rows)) == rows
    decreases |rows|
  {
    if rows != [] {
      var rest := if IsPersonRow(rows[0]) && |rows| > 1 && IsAddressRow(rows[1]) then rows[2..] else rows[1..];
      GroupsCover(rest);
      var g := Groups(rows)[0];
      var gs := Groups(rest);
      assert Groups(rows) == [g] + gs;
      assert ([g] + gs)[1..] == gs;
      assert RowsOf(g) + rest == rows;
    }
  }

  /** The groups are cut as the pass cuts the rows. */
  lemma {:induction false} GroupsWellCut(rows: seq<Row>)
    ensures WellGrouped(Groups(rows))
    decreases |rows|
  {
    if rows != [] {
      var rest := if IsPersonRow(rows[0]) && |rows| > 1 && IsAddressRow(rows[1]) then rows[2..] else rows[1..];
      GroupsWellCut(rest);
      var g := Groups(rows)[0];
      var gs := Groups(rest);
      assert Groups(rows) == [g] + gs;
      if gs != [] {
        assert RowsOf(gs[0])[0] == rest[0];
      }
    }
  }

  /** The entry a person group stands for. */
  function GroupEntry(g: Group): EmployeeRecord
    requires g.Person?
  {
    PersonRecord(g.person, if g.address.Some? then g.address.value.comments else None)
  }

  predicate IsSelfGroup(g: Group)
  {
    g.Person? && g.person.isCurrent
  }

  /** The entries of the other employees' groups, in order. */
  function OthersOf(gs: seq<Group>): seq<EmployeeRecord>
  {
    if gs == [] then []
    else (if gs[0].Person? && !gs[0].person.isCurrent then [GroupEntry(gs[0])] else []) + OthersOf(gs[1..])
  }

  /** The entry of the last self group, if there is one. */
  function LastSelf(gs: seq<Group>): Option<EmployeeRecord>
  {
    if gs == [] then None
    else if IsSelfGroup(gs[|gs| - 1]) then Some(GroupEntry(gs[|gs| - 1]))
    else LastSelf(gs[..|gs| - 1])
  }

  /** A group in front only decides the self entry when no later group is a self group. */
  lemma {:induction false} LastSelfCons(g: Group, gs: seq<Group>)
    ensures LastSelf([g] + gs) == if LastSelf(gs).Some? then LastSelf(gs) else if IsSelfGroup(g) then Some(GroupEntry(g)) else None
    decreases |gs|
  {
    if gs != [] && !IsSelfGroup(gs[|gs| - 1]) {
      assert ([g] + gs)[..|gs|] == [g] + gs[..|gs| - 1];
      LastSelfCons(g, gs[..|gs| - 1]);
    } else if gs == [] {
      assert ([g] + gs)[..0] == [];
    }
  }

  /** From any index on, the pass collects what the groups of the remaining rows stand for. */
  lemma {:induction false} ParseFromGroups(rows: seq<Row>, i: nat)
    requires i <= |rows|
    ensures ParseFrom(rows, i) == Parsed(LastSelf(Groups(rows[i..])), OthersOf(Groups(rows[i..])))
    decreases |rows| - i
  {
    if i < |rows| {
      var next := NextIndex(rows, i);
      ParseFromGroups(rows, next);
      var s := rows[i..];
      assert s[0] == rows[i];
      assert s[next - i..] == rows[next..];
      if i + 1 < |rows| {
        assert s[1] == rows[i + 1];
      }
      var gs := Groups(rows[next..]);
      var g := Groups(s)[0];
      assert Groups(s) == [g] + gs;
      assert ([g] + gs)[1..] == gs;
      LastSelfCons(g, gs);
    }
  }

  /** The pass over a table is the reading by groups: the last self group, and the other groups in order. */
  lemma ParseRowsByGroups(rows: seq<Row>)
    ensures ParseRows(rows) == Parsed(LastSelf(Groups(rows)), OthersOf(Groups(rows)))
  {
    ParseFromGroups(rows, 0);
    assert rows[0..] == rows;
  }

  /** A self entry is the entry of a row marked `current`, with the address row after it. */
  lemma {:induction false} SelfFromCurrentRow(rows: seq<Row>, i: nat)
    requires i <= |rows|
    ensures ParseFrom(rows, i).self.Some? ==>
              exists k :: i <= k < |rows| && rows[k].isCurrent
                          && ParseFrom(rows, i).self.value == PersonRecord(rows[k], AddressAfter(rows, k))
    decreases |rows| - i
  {
    if i < |rows| {
      SelfFromCurrentRow(rows, NextIndex(rows, i));
    }
  }

  /** Without a row marked `current`, the document's self entry is the placeholder. */
  lemma NoCurrentRowGivesPlaceholder(page: Page)
    requires |page.scheduleTables| >= 2
    requires forall k :: 0 <= k < |page.scheduleTables[1]| ==> !page.scheduleTables[1][k].isCurrent
    ensures ParseSchedule(page).Ok? && ParseSchedule(page).value.self == Placeholder
  {
    SelfFromCurrentRow(page.scheduleTables[1], 0);
  }

  /**
   * A row marked `current` that carries a comments block right after a person
   * row is taken as that person's address row, not as the self entry.
   */
  lemma CurrentRowTakenAsAddress(person: Row, current: Row)
    requires person.isEmpRow && !person.isCurrent
    requires current.isCurrent && IsAddressRow(current)
    ensures ParseRows([person, current]) == Parsed(None, [PersonRecord(person, current.comments)])
  {
    var rows := [person, current];
    assert NextIndex(rows, 0) == 2;
    assert ParseFrom(rows, 2) == Parsed(None, []);
    assert Contribution(person, AddressAfter(rows, 0)) == Parsed(None, [PersonRecord(person, current.comments)]);
  }

  // A worked page: the viewer's row with its address row, an employee without
  // one, and an employee with one.

  function ExampleRows(): seq<Row>
  {
    [Row(true, false, None, Some(Cell("Jane Doe", "Jane Doe", "", Some("555-0100"), None)), None, None, None, None),
     Row(false, false, Some("Job Address: 100 Main St"), None, None, None, None, None),
     Row(false, true, None, Some(Cell("Tom", "Tom", "", None, None)), None, None, None, None),
     Row(false, true, None, Some(Cell("Sara", "Sara", "", None, None)), None, None, None, None),
     Row(false, false, Some("200 Oak Ave"), None, None, None, None, None)]
  }

  /** The entry of a row with only a name cell, before its job address is filled in. */
  function NameOnly(name: string): EmployeeRecord
  {
    EmployeeRecord(name, "", "", NotAvailable, "", NotAvailable, NotAvailable, NotAvailable)
  }

  /** The viewer's address loses its label; the other employees' addresses are kept as they are. */
  lemma ExampleTable()
    ensures ParseRows(ExampleRows()) ==
              Parsed(Some(NameOnly("Jane Doe").(employeePhone := "555-0100", jobAddress := "100 Main St")),
                     [NameOnly("Tom"), NameOnly("Sara").(jobAddress := "200 Oak Ave")])
  {
    var rows := ExampleRows();
    assert !Contains("100 Main St", AddressLabel);
    RemoveLeadingLabel(AddressLabel, "100 Main St");
    assert AddressLabel + "100 Main St" == "Job Address: 100 Main St";
    TrimOfTrimmed("100 Main St");
    assert !Contains("", JobCut);
    JobTextClean("");
    TrimOfTrimmed("");
    assert EmployeeDetails(rows[0]) == NameOnly("Jane Doe").(employeePhone := "555-0100");
    assert EmployeeDetails(rows[2]) == NameOnly("Tom");
    assert EmployeeDetails(rows[3]) == NameOnly("Sara");
    assert NextIndex(rows, 3) == 5;
    assert NextIndex(rows, 2) == 3;
    assert NextIndex(rows, 0) == 2;
    assert AddressFor(rows[0], AddressAfter(rows, 0)) == "100 Main St";
  }

  /** The header gives the date once its label is removed. */
  lemma ExampleDate()
    ensures ExtractScheduleDate(Some("Daily Schedule for Monday")) == "Monday"
  {
    assert !Contains("Monday", DateLabel);
    ScheduleDateOfHeader("Monday");
    assert DateLabel + "Monday" == "Daily Schedule for Monday";
  }

  /** The whole worked page, the first schedule table being empty. */
  lemma ExampleSchedule()
    ensures ParseSchedule(Page(Some("Daily Schedule for Monday"), [[], ExampleRows()])) ==
              Ok(ScheduleDocument("Monday", NameOnly("Jane Doe").(employeePhone := "555-0100", jobAddress := "100 Main St"),
                                  [NameOnly("Tom"), NameOnly("Sara").(jobAddress := "200 Oak Ave")]))
  {
    ExampleTable();
    ExampleDate();
  }

  // ---------------------------------------------------------------------------
  // parseEmployees: the loop
  // ---------------------------------------------------------------------------

  /** Collecting is associative: what was done, then one step, then the rest. */
  lemma CombineAssoc(a: Parsed, b: Parsed, c: Parsed)
    ensures Combine(a, Combine(b, c)) == Combine(Combine(a, b), c)
  {
    assert a.others + (b.others + c.others) == (a.others + b.others) + c.others;
  }

  /** The loop's invariant carried over one step that collects `done'` from `done`. */
  lemma StepPreserves(rows: seq<Row>, i: nat, done: Parsed, done': Parsed)
    requires i < |rows|
    requires Combine(done, ParseFrom(rows, i)) == ParseRows(rows)
    requires done' == Combine(done, Contribution(rows[i], AddressAfter(rows, i)))
    ensures Combine(done', ParseFrom(rows, NextIndex(rows, i))) == ParseRows(rows)
  {
    CombineAssoc(done, Contribution(rows[i], AddressAfter(rows, i)), ParseFrom(rows, NextIndex(rows, i)));
  }

  /** Appending an employee appends its record. */
  lemma RecordsAppend(es: seq<Employee>, e: Employee)
    ensures Records(es + [e]) == Records(es) + [e.Record()]
  {
    assert (es + [e])[..|es|] == es;
  }

  /**
   * The body shared by both kinds of person row in `parseEmployees`: the row's
   * fields, plus the address row right after it, which the pass then skips.
   */
  method ReadPersonRow(rows: seq<Row>, i: nat) returns (e: Employee, next: nat)
    requires i < |rows| && IsPersonRow(rows[i])
    ensures fresh(e) && e.Record() == PersonRecord(rows[i], AddressAfter(rows, i))
    ensures next == NextIndex(rows, i)
  {
    e := ParseEmployeeDetails(rows[i]);
    var jobAddress := NotAvailable;
    next := i + 1;
    if i + 1 < |rows| && rows[i + 1].comments.Some? {
      jobAddress := rows[i + 1].comments.value;
      if rows[i].isCurrent {
        jobAddress := Trim(RemoveAll(jobAddress, AddressLabel));
      }
      next := i + 2;
    }
    e.SetJobAddress(jobAddress);
  }

  /**
   * The loop of `parseEmployees`: one pass over the rows, returning the last
   * self entry seen (null when there is none) and the other employees in order.
   */
  method ScanRows(rows: seq<Row>) returns (found: Employee?, employees: seq<Employee>)
    ensures Records(employees) == ParseRows(rows).others
    ensures forall k :: 0 <= k < |employees| ==> fresh(employees[k])
    ensures found == null <==> ParseRows(rows).self.None?
    ensures found != null ==> fresh(found) && found.Record() == ParseRows(rows).self.value
  {
    employees := [];
    found := null;
    ghost var self: Option<EmployeeRecord> := None;
    var i := 0;
    while i < |rows|
      invariant 0 <= i <= |rows|
      invariant Combine(Parsed(self, Records(employees)), ParseFrom(rows, i)) == ParseRows(rows)
      invariant forall k :: 0 <= k < |employees| ==> fresh(employees[k])
      invariant self.None? <==> found == null
      invariant found != null ==> fresh(found) && found.Record() == self.value
    {
      ghost var done := Parsed(self, Records(employees));
      ghost var at := i;
      var row := rows[i];
      if row.isCurrent {
        found, i := ReadPersonRow(rows, i);
        self := Some(found.Record());
        assert done.others + [] == done.others;
      } else if row.isEmpRow {
        var currentEmployee;
        currentEmployee, i := ReadPersonRow(rows, i);
        RecordsAppend(employees, currentEmployee);
        employees := employees + [currentEmployee];
      } else {
        assert done.others + [] == done.others;
        i := i + 1;
      }
      StepPreserves(rows, at, done, Parsed(self, Records(employees)));
    }
    assert Records(employees) + [] == Records(employees);
  }

  /**
   * `parseEmployees`: returns the other employees and leaves the self entry in
   * `mySchedule[0]`; a placeholder if the pass found none and the slot was still empty.
   */
  method ParseEmployees(rows: seq<Row>, mySchedule: array<Employee?>) returns (employees: seq<Employee>)
    requires mySchedule.Length == 1
    modifies mySchedule
    ensures Records(employees) == ParseRows(rows).others
    ensures forall k :: 0 <= k < |employees| ==> fresh(employees[k])
    ensures mySchedule[0] != null
    ensures ParseRows(rows).self.Some? ==>
              fresh(mySchedule[0]) && mySchedule[0].Record() == ParseRows(rows).self.value
    ensures ParseRows(rows).self.None? && old(mySchedule[0]) != null ==> mySchedule[0] == old(mySchedule[0])
    ensures ParseRows(rows).self.None? && old(mySchedule[0]) == null ==>
              fresh(mySchedule[0]) && mySchedule[0].Record() == Placeholder
  {
    var found;
    found, employees := ScanRows(rows);
    if found != null {
      mySchedule[0] := found;
    }
    if mySchedule[0] == null {
      mySchedule[0] := new Employee("You", NotAvailable, "Not scheduled today", NotAvailable,
                                    NotAvailable, NotAvailable, NotAvailable, NotAvailable);
    }
  }
}
