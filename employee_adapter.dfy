/**
 * `EmployeeAdapter`: the list behind the colleagues view. It keeps the full
 * list, the list on screen (a name search or a job/crew selection of it),
 * and which row, if any, has its tray expanded.
 */
module Adapter {
  import opened JavaStrings
  import opened EmployeeModel

  /** `RecyclerView.NO_POSITION`: no row is expanded. */
  const NoPosition := -1

  // ---------------------------------------------------------------------------
  // The name search
  // ---------------------------------------------------------------------------

  /** The lower-cased name contains the lower-cased query. */
  predicate NameMatches(e: Employee, query: string)
    reads e
  {
    Contains(ToLower(e.name), ToLower(query))
  }

  /** The employees whose name matches, in list order. */
  function NameFiltered(es: seq<Employee>, query: string): (r: seq<Employee>)
    reads es
    ensures |r| <= |es|
  {
    if es == [] then []
    else
      var last := es[|es| - 1];
      NameFiltered(es[..|es| - 1], query) + (if NameMatches(last, query) then [last] else [])
  }

  /** Every text contains the empty text. */
  lemma ContainsEmpty(s: string)
    ensures Contains(s, "")
  {
    assert s[..0] == "";
  }

  /** The empty query matches every name, so the shortcut for it agrees with the search. */
  lemma {:induction false} EmptyQueryKeepsAll(es: seq<Employee>)
    ensures NameFiltered(es, "") == es
  {
    if es != [] {
      EmptyQueryKeepsAll(es[..|es| - 1]);
      ContainsEmpty(ToLower(es[|es| - 1].name));
      assert es[..|es| - 1] + [es[|es| - 1]] == es;
    }
  }

  /** An employee is shown exactly when it is in the list and its name matches. */
  lemma {:induction false} NameFilteredMembers(es: seq<Employee>, query: string, e: Employee)
    ensures e in NameFiltered(es, query) <==> e in es && NameMatches(e, query)
  {
    if es != [] {
      var front := es[..|es| - 1];
      NameFilteredMembers(front, query, e);
      assert es == front + [es[|es| - 1]];
    }
  }

  /** The search keeps list order: searching two lists one after the other is searching their concatenation. */
  lemma {:induction false} NameFilteredAppend(a: seq<Employee>, b: seq<Employee>, query: string)
    ensures NameFiltered(a + b, query) == NameFiltered(a, query) + NameFiltered(b, query)
  {
    if b == [] {
      assert a + b == a;
    } else {
      var front := b[..|b| - 1];
      NameFilteredAppend(a, front, query);
      assert (a + b)[..|a + b| - 1] == a + front;
    }
  }

  /** Searching the result again with the same query changes nothing. */
  lemma {:induction false} NameFilteredIdempotent(es: seq<Employee>, query: string)
    ensures NameFiltered(NameFiltered(es, query), query) == NameFiltered(es, query)
  {
    if es != [] {
      var front := es[..|es| - 1];
      var last := es[|es| - 1];
      NameFilteredIdempotent(front, query);
      var tail := if NameMatches(last, query) then [last] else [];
      NameFilteredAppend(NameFiltered(front, query), tail, query);
      if NameMatches(last, query) {
        assert tail[..0] == [];
      }
    }
  }

  /** The search ignores the case of the query. */
  lemma {:induction false} SearchIgnoresQueryCase(es: seq<Employee>, query: string)
    ensures NameFiltered(es, ToLower(query)) == NameFiltered(es, query)
  {
    ToLowerIdempotent(query);
    if es != [] {
      SearchIgnoresQueryCase(es[..|es| - 1], query);
    }
  }

  // ---------------------------------------------------------------------------
  // The expand toggle
  // ---------------------------------------------------------------------------

  /** The expanded position after a click on `position`, with the row bound while `expanded` was current. */
  function Toggled(expanded: int, position: int): int
  {
    if position == expanded then NoPosition else position
  }

  /**
   * A click on the expanded row collapses it; a click on any other row makes
   * it the one expanded row, collapsing the one before.
   */
  lemma ToggleOneExpanded(expanded: int, position: nat, q: nat)
    ensures Toggled(expanded, position) == q <==> q == position && expanded != position
    ensures position == expanded ==> Toggled(expanded, position) == NoPosition
  {
  }

  /** Two clicks on the same row, each after the row was bound again, leave nothing expanded. */
  lemma ToggleTwiceCollapses(expanded: int, position: nat)
    requires expanded != position
    ensures Toggled(Toggled(expanded, position), position) == NoPosition
  {
  }

  // ---------------------------------------------------------------------------
  // The adapter object
  // ---------------------------------------------------------------------------

  class EmployeeAdapter {
    /** The full list; the caller's own list object. */
    var originalEmployees: seq<Employee>
    /** The rows on screen, in order. */
    var filteredEmployees: seq<Employee>
    var expandedPosition: int

    /** Shows a copy of the whole list, with no row expanded. */
    constructor (employees: seq<Employee>)
      ensures originalEmployees == employees && filteredEmployees == employees
      ensures expandedPosition == NoPosition && ItemCount() == |employees|
    {
      originalEmployees := employees;
      filteredEmployees := employees;
      expandedPosition := NoPosition;
    }

    /** `getItemCount`: the number of rows on screen. */
    function ItemCount(): nat
      reads this
    {
      |filteredEmployees|
    }

    /** `filter`: shows the full list's employees whose name matches `query`, in list order. */
    method Filter(query: string)
      modifies this`filteredEmployees
      ensures filteredEmployees == NameFiltered(originalEmployees, query)
      ensures ItemCount() <= |originalEmployees|
    {
      filteredEmployees := [];
      if query == "" {
        filteredEmployees := originalEmployees;
        EmptyQueryKeepsAll(originalEmployees);
      } else {
        var lowerQuery := ToLower(query);
        for i := 0 to |originalEmployees|
          invariant filteredEmployees == NameFiltered(originalEmployees[..i], query)
        {
          var employee := originalEmployees[i];
          assert originalEmployees[..i + 1][..i] == originalEmployees[..i];
          if Contains(ToLower(employee.name), lowerQuery) {
            filteredEmployees := filteredEmployees + [employee];
          }
        }
        assert originalEmployees[..|originalEmployees|] == originalEmployees;
      }
    }

    /** `updateList`: shows a copy of `filteredList`; `originalList` is not used. */
    method UpdateList(originalList: seq<Employee>, filteredList: seq<Employee>)
      modifies this`filteredEmployees
      ensures filteredEmployees == filteredList
    {
      filteredEmployees := filteredList;
    }

    /** Whether the row at `position` is drawn expanded when it is bound. */
    function IsExpanded(position: int): bool
      reads this
    {
      position == expandedPosition
    }

    /** The click listener of the row at `position`, bound while `isExpanded` was that row's state. */
    method OnItemClick(position: int, isExpanded: bool)
      modifies this`expandedPosition
      ensures expandedPosition == (if isExpanded then NoPosition else position)
      ensures isExpanded == old(IsExpanded(position)) ==> expandedPosition == Toggled(old(expandedPosition), position)
    {
      expandedPosition := if isExpanded then NoPosition else position;
    }
  }
}
