/**
 * The rules of the main screen: which job sites and crews the sort dialogs
 * offer, the job/crew selection and the list it shows, the directions
 * button, and the employee-ID prompt.
 */
module Activity {
  import opened Options
  import opened JavaStrings
  import opened EmployeeModel
  import opened ScheduleParser
  import opened ScheduleHelper
  import opened ScheduleWorkerModel
  import opened Adapter

  // ---------------------------------------------------------------------------
  // The sort dialogs
  // ---------------------------------------------------------------------------

  /** The set of job sites of the employees. */
  function JobSites(es: seq<Employee>): set<string>
    reads es
  {
    if es == [] then {} else JobSites(es[..|es| - 1]) + {es[|es| - 1].job}
  }

  /** A job site is offered exactly when some employee works there. */
  lemma {:induction false} JobSitesMembers(es: seq<Employee>, site: string)
    ensures site in JobSites(es) <==> exists k :: 0 <= k < |es| && es[k].job == site
  {
    if es != [] {
      var front := es[..|es| - 1];
      JobSitesMembers(front, site);
      if site in JobSites(front) {
        var k :| 0 <= k < |front| && front[k].job == site;
        assert es[k].job == site;
      }
      if exists k :: 0 <= k < |es| && es[k].job == site {
        var k :| 0 <= k < |es| && es[k].job == site;
        if k < |front| {
          assert front[k].job == site;
        }
      }
    }
  }

  /** The set of crews of the employees whose job site is selected. */
  function CrewsAt(es: seq<Employee>, selectedJobs: seq<string>): set<string>
    reads es
  {
    if es == [] then {}
    else
      var last := es[|es| - 1];
      CrewsAt(es[..|es| - 1], selectedJobs) + (if last.job in selectedJobs then {last.crew} else {})
  }

  /** A crew is offered exactly when some employee at a selected job site is on it. */
  lemma {:induction false} CrewsAtMembers(es: seq<Employee>, selectedJobs: seq<string>, crew: string)
    ensures crew in CrewsAt(es, selectedJobs) <==>
              exists k :: 0 <= k < |es| && es[k].job in selectedJobs && es[k].crew == crew
  {
    if es != [] {
      var front := es[..|es| - 1];
      CrewsAtMembers(front, selectedJobs, crew);
      if crew in CrewsAt(front, selectedJobs) {
        var k :| 0 <= k < |front| && front[k].job in selectedJobs && front[k].crew == crew;
        assert es[k] == front[k];
      }
      if exists k :: 0 <= k < |es| && es[k].job in selectedJobs && es[k].crew == crew {
        var k :| 0 <= k < |es| && es[k].job in selectedJobs && es[k].crew == crew;
        if k < |front| {
          assert front[k] == es[k];
        }
      }
    }
  }

  /** The employees at a selected job site on a selected crew, in list order. */
  function JobCrewFiltered(es: seq<Employee>, selectedJobs: seq<string>, selectedCrews: seq<string>): (r: seq<Employee>)
    reads es
    ensures |r| <= |es|
  {
    if es == [] then []
    else
      var last := es[|es| - 1];
      JobCrewFiltered(es[..|es| - 1], selectedJobs, selectedCrews)
        + (if last.job in selectedJobs && last.crew in selectedCrews then [last] else [])
  }

  /** An employee is shown exactly when it is in the list, at a selected job site and on a selected crew. */
  lemma {:induction false} JobCrewFilteredMembers(es: seq<Employee>, selectedJobs: seq<string>,
                                                  selectedCrews: seq<string>, e: Employee)
    ensures e in JobCrewFiltered(es, selectedJobs, selectedCrews) <==>
              e in es && e.job in selectedJobs && e.crew in selectedCrews
  {
    if es != [] {
      var front := es[..|es| - 1];
      JobCrewFilteredMembers(front, selectedJobs, selectedCrews, e);
      assert es == front + [es[|es| - 1]];
    }
  }

  /** The selection keeps list order: filtering two lists one after the other is filtering their concatenation. */
  lemma {:induction false} JobCrewFilteredAppend(a: seq<Employee>, b: seq<Employee>,
                                                 selectedJobs: seq<string>, selectedCrews: seq<string>)
    ensures JobCrewFiltered(a + b, selectedJobs, selectedCrews) ==
              JobCrewFiltered(a, selectedJobs, selectedCrews) + JobCrewFiltered(b, selectedJobs, selectedCrews)
  {
    if b == [] {
      assert a + b == a;
    } else {
      var front := b[..|b| - 1];
      JobCrewFilteredAppend(a, front, selectedJobs, selectedCrews);
      assert (a + b)[..|a + b| - 1] == a + front;
    }
  }

  /** Selecting every job site and every crew that occurs shows the whole list, as "All" does. */
  lemma {:induction false} SelectingEverythingShowsAll(es: seq<Employee>, selectedJobs: seq<string>,
                                                       selectedCrews: seq<string>)
    requires forall k :: 0 <= k < |es| ==> es[k].job in selectedJobs && es[k].crew in selectedCrews
    ensures JobCrewFiltered(es, selectedJobs, selectedCrews) == es
  {
    if es != [] {
      var front := es[..|es| - 1];
      assert forall k :: 0 <= k < |front| ==> front[k] == es[k];
      SelectingEverythingShowsAll(front, selectedJobs, selectedCrews);
      assert front + [es[|es| - 1]] == es;
    }
  }

  // ---------------------------------------------------------------------------
  // The multi-choice selections
  // ---------------------------------------------------------------------------

  /** `List.remove(Object)`: the list without the first occurrence of `x`, if any. */
  function RemoveFirst(s: seq<string>, x: string): (r: seq<string>)
    ensures multiset(r) == multiset(s) - multiset{x}
  {
    if s == [] then []
    else if s[0] == x then
      assert s == [s[0]] + s[1..];
      s[1..]
    else
      assert s == [s[0]] + s[1..];
      [s[0]] + RemoveFirst(s[1..], x)
  }

  /** Without `x` in the list, removing it leaves the list as it is. */
  lemma {:induction false} RemoveAbsent(s: seq<string>, x: string)
    requires x !in s
    ensures RemoveFirst(s, x) == s
  {
    if s != [] {
      RemoveAbsent(s[1..], x);
    }
  }

  /** Unchecking an item right after checking it restores the selection, when it was not already selected. */
  lemma {:induction false} CheckThenUncheck(s: seq<string>, x: string)
    requires x !in s
    ensures RemoveFirst(s + [x], x) == s
  {
    if s == [] {
    } else {
      assert (s + [x])[1..] == s[1..] + [x];
      CheckThenUncheck(s[1..], x);
      assert [s[0]] + s[1..] == s;
    }
  }

  /** The items the user has ticked, in the order they were ticked. */
  class Selection {
    var items: seq<string>

    constructor ()
      ensures items == []
    {
      items := [];
    }

    /** The multi-choice listener: a tick appends the item, an untick removes one occurrence of it. */
    method OnChoice(item: string, isChecked: bool)
      modifies this
      ensures isChecked ==> items == old(items) + [item]
      ensures !isChecked ==> items == RemoveFirst(old(items), item)
    {
      if isChecked {
        items := items + [item];
      } else {
        items := RemoveFirst(items, item);
      }
    }
  }

  // ---------------------------------------------------------------------------
  // The directions button and the employee-ID prompt
  // ---------------------------------------------------------------------------

  /** The directions button is enabled unless the viewer's job address is "N/A". */
  predicate DirectionsEnabled(mySchedule: EmployeeRecord)
  {
    mySchedule.jobAddress != NotAvailable
  }

  /**
   * The button can only be enabled by a row marked `current` that owns an
   * address row: the placeholder, and a viewer row without an address row,
   * leave it disabled.
   */
  lemma DirectionsNeedAddressRow(page: Page)
    requires ParseSchedule(page).Ok?
    requires DirectionsEnabled(ParseSchedule(page).value.self)
    ensures var rows := page.scheduleTables[1];
            exists k :: 0 <= k < |rows| && rows[k].isCurrent && AddressAfter(rows, k).Some?
                        && ParseSchedule(page).value.self == PersonRecord(rows[k], AddressAfter(rows, k))
  {
    var rows := page.scheduleTables[1];
    SelfFromCurrentRow(rows, 0);
    assert ParseRows(rows).self.Some?;
  }

  /** What the Save button does with the text typed in. */
  datatype IdEntry = Saved(id: string) | Reprompt

  /** The typed text is trimmed; a non-empty result is saved, an empty one asks again. */
  function EnteredId(typed: string): IdEntry
  {
    var id := Trim(typed);
    if id != "" then Saved(id) else Reprompt
  }

  /**
   * The prompt asks again exactly when the typed text is all white space; a
   * saved ID is the typed text with its white space cut off both ends.
   */
  lemma EnteredIdIff(typed: string)
    ensures EnteredId(typed).Reprompt? <==> forall k :: 0 <= k < |typed| ==> IsJavaSpace(typed[k])
    ensures EnteredId(typed).Saved? ==>
              var id := EnteredId(typed).id;
              id != "" && IsTrimmed(id) && CutFrom(typed, LeadingSpaces(typed), id)
  {
    TrimCuts(typed);
    if forall k :: 0 <= k < |typed| ==> IsJavaSpace(typed[k]) {
      assert CutFrom(typed, |typed|, "");
      TrimUnique(typed, |typed|, "");
    }
  }

  /** An ID saved by the prompt lets the background job run: it never fails for want of an ID. */
  lemma SavedIdStartsWorker(prefs: Prefs, typed: string, server: string -> HttpResult)
    requires EnteredId(typed).Saved?
    ensures WorkRun(prefs[EmployeeIdKey := EnteredId(typed).id], server).result == Success
  {
    FailsIffNoEmployeeId(prefs[EmployeeIdKey := EnteredId(typed).id], server);
  }

  // ---------------------------------------------------------------------------
  // The screen
  // ---------------------------------------------------------------------------

  class MainActivity {
    /** The colleagues of the last schedule delivered, as the parser listed them. */
    var originalEmployeeList: seq<Employee>
    var adapter: EmployeeAdapter
    var prefs: Prefs
    var employeeId: Option<string>

    /** The name search and the job/crew selection work on the same full list. */
    predicate SharesList()
      reads this, adapter
    {
      adapter.originalEmployees == originalEmployeeList
    }

    /**
     * The screen after a schedule is delivered: it keeps the colleagues list
     * and shows all of it through a new adapter built from that same list.
     */
    constructor (employees: seq<Employee>, prefs: Prefs)
      ensures originalEmployeeList == employees && this.prefs == prefs
      ensures fresh(adapter) && SharesList()
      ensures adapter.filteredEmployees == employees && adapter.expandedPosition == NoPosition
      ensures employeeId == CachedEmployeeId(prefs)
    {
      originalEmployeeList := employees;
      adapter := new EmployeeAdapter(employees);
      this.prefs := prefs;
      employeeId := CachedEmployeeId(prefs);
    }

    /** The job sites `showSortDialog` offers: every job site in the list, once. */
    method CollectJobSites() returns (jobSites: set<string>)
      ensures jobSites == JobSites(originalEmployeeList)
    {
      jobSites := {};
      for i := 0 to |originalEmployeeList|
        invariant jobSites == JobSites(originalEmployeeList[..i])
      {
        assert originalEmployeeList[..i + 1][..i] == originalEmployeeList[..i];
        jobSites := jobSites + {originalEmployeeList[i].job};
      }
      assert originalEmployeeList[..|originalEmployeeList|] == originalEmployeeList;
    }

    /** The crews `showCrewDialog` offers: every crew working at a selected job site, once. */
    method CollectCrews(selectedJobs: seq<string>) returns (crews: set<string>)
      ensures crews == CrewsAt(originalEmployeeList, selectedJobs)
    {
      crews := {};
      for i := 0 to |originalEmployeeList|
        invariant crews == CrewsAt(originalEmployeeList[..i], selectedJobs)
      {
        assert originalEmployeeList[..i + 1][..i] == originalEmployeeList[..i];
        var employee := originalEmployeeList[i];
        if employee.job in selectedJobs {
          crews := crews + {employee.crew};
        }
      }
      assert originalEmployeeList[..|originalEmployeeList|] == originalEmployeeList;
    }

    /** "Next": with no job site ticked nothing opens; otherwise the crew dialog opens with its crews. */
    method OnNext(selectedJobs: seq<string>) returns (crewDialog: Option<set<string>>)
      ensures crewDialog.Some? <==> selectedJobs != []
      ensures crewDialog.Some? ==> crewDialog.value == CrewsAt(originalEmployeeList, selectedJobs)
    {
      if selectedJobs != [] {
        var crews := CollectCrews(selectedJobs);
        crewDialog := Some(crews);
      } else {
        crewDialog := None;
      }
    }

    /** "Apply": shows the employees at a ticked job site on a ticked crew, in list order. */
    method OnApply(selectedJobs: seq<string>, selectedCrews: seq<string>)
      requires SharesList()
      modifies adapter`filteredEmployees
      ensures SharesList()
      ensures adapter.filteredEmployees == JobCrewFiltered(originalEmployeeList, selectedJobs, selectedCrews)
    {
      var filteredList := [];
      for i := 0 to |originalEmployeeList|
        invariant filteredList == JobCrewFiltered(originalEmployeeList[..i], selectedJobs, selectedCrews)
      {
        assert originalEmployeeList[..i + 1][..i] == originalEmployeeList[..i];
        var employee := originalEmployeeList[i];
        if employee.job in selectedJobs && employee.crew in selectedCrews {
          filteredList := filteredList + [employee];
        }
      }
      assert originalEmployeeList[..|originalEmployeeList|] == originalEmployeeList;
      adapter.UpdateList(originalEmployeeList, filteredList);
    }

    /** "All": shows the whole list again. */
    method OnAll()
      requires SharesList()
      modifies adapter`filteredEmployees
      ensures SharesList()
      ensures adapter.filteredEmployees == originalEmployeeList
    {
      adapter.UpdateList(originalEmployeeList, originalEmployeeList);
    }

    /** The Save button of the ID prompt: saves a non-empty trimmed ID, or asks again. */
    method OnSaveEmployeeId(typed: string) returns (reprompt: bool)
      modifies this`prefs, this`employeeId
      ensures reprompt <==> EnteredId(typed).Reprompt?
      ensures reprompt ==> prefs == old(prefs) && employeeId == old(employeeId)
      ensures !reprompt ==> prefs == old(prefs)[EmployeeIdKey := EnteredId(typed).id]
                            && employeeId == Some(EnteredId(typed).id)
    {
      var enteredId := Trim(typed);
      if enteredId != "" {
        prefs := prefs[EmployeeIdKey := enteredId];
        employeeId := Some(enteredId);
        reprompt := false;
      } else {
        reprompt := true;
      }
    }
  }
}
