/**
 * `pages/admin/EmployeesPage.tsx`: the administrator's directory table,
 * narrowed by a search term matched against name, email, department and
 * position, with a "Showing n of m" count.
 */
module EmployeesPage {
  import opened Common
  import opened Text
  import opened Seqs
  import opened ClientTypes
  import KioskPage

  /** The admin match: the lower-cased term inside any of the four lower-cased text fields. */
  predicate AdminMatches(e: Employee, search: string) {
    Includes(Lower(e.name), search) || Includes(Lower(e.email), search) ||
    Includes(Lower(e.department), search) || Includes(Lower(e.position), search)
  }

  function MatchesTerm(search: string): Employee -> bool {
    (e: Employee) => AdminMatches(e, search)
  }

  /** `filteredEmployees`: the matching employees, in the order of the shared state. */
  function FilteredEmployees(employees: seq<Employee>, searchTerm: string): (r: seq<Employee>)
    ensures forall i :: 0 <= i < |r| ==> AdminMatches(r[i], Lower(searchTerm))
    ensures forall i :: 0 <= i < |employees| && AdminMatches(employees[i], Lower(searchTerm)) ==> employees[i] in r
    ensures forall e :: e in r ==> e in employees
    ensures IsSubsequence(r, employees)
    ensures |r| <= |employees|
  {
    FilterIsSubsequence(employees, MatchesTerm(Lower(searchTerm)));
    Filter(employees, MatchesTerm(Lower(searchTerm)))
  }

  /** With no filter branch of its own, an empty term still keeps every employee. */
  lemma EmptyTermKeepsAll(employees: seq<Employee>)
    ensures FilteredEmployees(employees, "") == employees
  {
    forall i | 0 <= i < |employees| ensures MatchesTerm(Lower(""))(employees[i]) {
      IncludesEmpty(Lower(employees[i].name));
    }
    FilterAll(employees, MatchesTerm(Lower("")));
  }

  /**
   * The "Showing n of m employees" line: shown only while a term is typed and
   * something matches, with n the matches and m the whole list.
   */
  function ResultsCount(employees: seq<Employee>, searchTerm: string): (counts: Option<(nat, nat)>)
    ensures counts.Some? <==> searchTerm != "" && exists e :: e in employees && AdminMatches(e, Lower(searchTerm))
    ensures counts.Some? ==> counts.value == (|FilteredEmployees(employees, searchTerm)|, |employees|)
    ensures counts.Some? ==> 0 < counts.value.0 <= counts.value.1
  {
    var shown := FilteredEmployees(employees, searchTerm);
    if searchTerm != "" && |shown| > 0 then
      assert shown[0] in employees;
      Some((|shown|, |employees|))
    else
      assert forall e :: e in employees && AdminMatches(e, Lower(searchTerm)) ==> e in shown;
      None
  }

  /** The admin search finds everything the kiosk search finds. */
  lemma {:induction false} AdminFindsWhatKioskFinds(employees: seq<Employee>, searchTerm: string)
    ensures forall e :: e in KioskPage.FilteredEmployees(employees, searchTerm) ==>
      e in FilteredEmployees(employees, searchTerm)
  {
    var kiosk := KioskPage.FilteredEmployees(employees, searchTerm);
    forall e | e in kiosk ensures e in FilteredEmployees(employees, searchTerm) {
      var i :| 0 <= i < |kiosk| && kiosk[i] == e;
      if searchTerm == "" {
        IncludesEmpty(Lower(e.name));
      } else {
        assert KioskPage.KioskMatches(e, Lower(searchTerm));
      }
      assert AdminMatches(e, Lower(searchTerm));
      var j :| 0 <= j < |employees| && employees[j] == e;
    }
  }

  /** Unlike the kiosk, the admin page finds an employee whose email alone holds the term. */
  lemma AdminSearchesEmail(e: Employee, searchTerm: string)
    requires Includes(Lower(e.email), Lower(searchTerm))
    ensures FilteredEmployees([e], searchTerm) == [e]
  {
    assert MatchesTerm(Lower(searchTerm))(e);
    assert Filter([e], MatchesTerm(Lower(searchTerm))) == [e] + Filter([e][1..], MatchesTerm(Lower(searchTerm)));
  }
}
