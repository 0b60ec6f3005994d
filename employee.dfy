/**
 * One person's row of the daily schedule: a mutable record of eight text
 * fields with a setter per field and a labelled multi-line rendering.
 */
module EmployeeModel {
  import opened Options
  import opened JavaStrings

  /** The value held by an `Employee`, in the order of its constructor's parameters. */
  datatype EmployeeRecord = EmployeeRecord(
    name: string,
    shift: string,
    job: string,
    foreman: string,
    crew: string,
    jobAddress: string,
    employeePhone: string,
    foremanPhone: string)

  /** The mutable schedule entry; its getters are plain reads of these fields. */
  class Employee {
    var name: string
    var shift: string
    var job: string
    var foreman: string
    var crew: string
    var jobAddress: string
    var employeePhone: string
    var foremanPhone: string

    /** The eight fields as one value. */
    function Record(): EmployeeRecord
      reads this
    {
      EmployeeRecord(name, shift, job, foreman, crew, jobAddress, employeePhone, foremanPhone)
    }

    constructor (name: string, shift: string, job: string, foreman: string, crew: string,
                 jobAddress: string, employeePhone: string, foremanPhone: string)
      ensures Record() == EmployeeRecord(name, shift, job, foreman, crew, jobAddress, employeePhone, foremanPhone)
    {
      this.name := name;
      this.shift := shift;
      this.job := job;
      this.foreman := foreman;
      this.crew := crew;
      this.jobAddress := jobAddress;
      this.employeePhone := employeePhone;
      this.foremanPhone := foremanPhone;
    }

    method SetName(v: string)
      modifies this
      ensures Record() == old(Record()).(name := v)
    {
      name := v;
    }

    method SetShift(v: string)
      modifies this
      ensures Record() == old(Record()).(shift := v)
    {
      shift := v;
    }

    method SetJob(v: string)
      modifies this
      ensures Record() == old(Record()).(job := v)
    {
      job := v;
    }

    method SetForeman(v: string)
      modifies this
      ensures Record() == old(Record()).(foreman := v)
    {
      foreman := v;
    }

    method SetCrew(v: string)
      modifies this
      ensures Record() == old(Record()).(crew := v)
    {
      crew := v;
    }

    method SetJobAddress(v: string)
      modifies this
      ensures Record() == old(Record()).(jobAddress := v)
    {
      jobAddress := v;
    }

    method SetEmployeePhone(v: string)
      modifies this
      ensures Record() == old(Record()).(employeePhone := v)
    {
      employeePhone := v;
    }

    method SetForemanPhone(v: string)
      modifies this
      ensures Record() == old(Record()).(foremanPhone := v)
    {
      foremanPhone := v;
    }

    /** `toString`: the labelled rendering of the current field values. */
    function ToString(): string
      reads this
    {
      Describe(Record())
    }
  }

  /** The values held by a list of employees, in list order. */
  function Records(es: seq<Employee>): (rs: seq<EmployeeRecord>)
    reads es
    ensures |rs| == |es|
  {
    if es == [] then [] else Records(es[..|es| - 1]) + [es[|es| - 1].Record()]
  }

  // ---------------------------------------------------------------------------
  // toString and reading it back
  // ---------------------------------------------------------------------------

  /** The label in front of each field, in rendering order. */
  const Labels: seq<string> :=
    ["Employee: ", "Shift: ", "Job: ", "Foreman: ", "Crew: ", "Job Address: ", "Employee Phone: ", "Foreman Phone: "]

  /** The field values in rendering order. */
  function Fields(r: EmployeeRecord): seq<string>
  {
    [r.name, r.shift, r.job, r.foreman, r.crew, r.jobAddress, r.employeePhone, r.foremanPhone]
  }

  /** Each line ended by a newline, concatenated. */
  function Unlines(lines: seq<string>): (s: string)
    ensures lines != [] ==> s != [] && s[|s| - 1] == '\n'
  {
    if lines == [] then "" else lines[0] + "\n" + Unlines(lines[1..])
  }

  /** Each field behind its label. */
  function LabelledFields(r: EmployeeRecord): seq<string>
  {
    seq(8, k requires 0 <= k < 8 => Labels[k] + Fields(r)[k])
  }

  /** The rendering of a record: label and value of every field, each on its own line. */
  function Describe(r: EmployeeRecord): string
  {
    Unlines(LabelledFields(r))
  }

  /** The lines of `s`, each without its terminating newline. */
  function SplitLines(s: string): seq<string>
    decreases |s|
  {
    if s == [] then []
    else
      var line := PrefixBefore(s, "\n");
      if |line| == |s| then [line] else [line] + SplitLines(s[|line| + 1..])
  }

  predicate NoNewline(t: string)
  {
    '\n' !in t
  }

  /** A line without a newline in it is read back as one line. */
  lemma SplitFirstLine(line: string, rest: string)
    requires NoNewline(line)
    ensures SplitLines(line + "\n" + rest) == [line] + SplitLines(rest)
  {
    var s := line + "\n" + rest;
    var p := PrefixBefore(s, "\n");
    PrefixBeforeFirst(s, "\n");
    assert OccursAt(s, "\n", |line|) by {
      assert s[|line|..|line| + 1] == "\n";
    }
    forall i | 0 <= i < |line| ensures !OccursAt(s, "\n", i) {
      assert s[i..i + 1] == [line[i]];
    }
    assert |p| == |line|;
    assert p == s[..|line|] == line;
    assert s[|line| + 1..] == rest;
  }

  /** Splitting the concatenation of newline-free lines gives those lines back. */
  lemma {:induction false} SplitUnlines(lines: seq<string>)
    requires forall k :: 0 <= k < |lines| ==> NoNewline(lines[k])
    ensures SplitLines(Unlines(lines)) == lines
  {
    if lines != [] {
      SplitFirstLine(lines[0], Unlines(lines[1..]));
      SplitUnlines(lines[1..]);
    }
  }

  /** Reads labelled lines back into a record, if there are eight and each carries its label. */
  function ReadFields(lines: seq<string>): Option<EmployeeRecord>
  {
    if |lines| == 8 && forall k :: 0 <= k < 8 ==> Labels[k] <= lines[k] then
      var v := seq(8, k requires 0 <= k < 8 => lines[k][|Labels[k]|..]);
      Some(EmployeeRecord(v[0], v[1], v[2], v[3], v[4], v[5], v[6], v[7]))
    else
      None
  }

  /** Reads a rendering back into a record, if it has the eight labelled lines. */
  function ReadBack(s: string): Option<EmployeeRecord>
  {
    ReadFields(SplitLines(s))
  }

  /** Every field is on one line. */
  predicate SingleLineFields(r: EmployeeRecord)
  {
    forall k :: 0 <= k < 8 ==> NoNewline(Fields(r)[k])
  }

  /** No label spans lines. */
  lemma LabelsSingleLine()
    ensures forall k :: 0 <= k < 8 ==> NoNewline(Labels[k])
  {
  }

  /** Stripping the labels off the labelled fields gives the fields. */
  lemma ReadLabelledFields(r: EmployeeRecord)
    ensures ReadFields(LabelledFields(r)) == Some(r)
  {
    var lines := LabelledFields(r);
    forall k | 0 <= k < 8 ensures Labels[k] <= lines[k] && lines[k][|Labels[k]|..] == Fields(r)[k] {
    }
  }

  /**
   * The rendering lists the eight labelled fields in order, one per line:
   * reading it back gives the record, as long as no field spans lines.
   */
  lemma DescribeRoundTrip(r: EmployeeRecord)
    requires SingleLineFields(r)
    ensures ReadBack(Describe(r)) == Some(r)
  {
    var lines := LabelledFields(r);
    LabelsSingleLine();
    forall k | 0 <= k < 8 ensures NoNewline(lines[k]) {
      assert NoNewline(Labels[k]) && NoNewline(Fields(r)[k]);
    }
    SplitUnlines(lines);
    ReadLabelledFields(r);
  }
}
