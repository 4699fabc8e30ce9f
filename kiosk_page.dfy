/**
 * `pages/KioskPage.tsx`: the visitor-facing directory. It loads only active
 * employees and narrows them by a search term matched against name,
 * department and position, never against the email address.
 */
module KioskPage {
  import opened Text
  import opened Seqs
  import opened ClientTypes

  /** `emp.isActive`. */
  function IsActive(e: Employee): bool {
    e.isActive
  }

  /** `employees.filter(emp => emp.isActive)`: what the kiosk puts in the shared state. */
  function LoadDirectory(fetched: seq<Employee>): (r: seq<Employee>)
    ensures forall i :: 0 <= i < |r| ==> r[i].isActive
    ensures forall i :: 0 <= i < |fetched| && fetched[i].isActive ==> fetched[i] in r
    ensures forall e :: e in r ==> e in fetched
    ensures IsSubsequence(r, fetched)
  {
    FilterIsSubsequence(fetched, IsActive);
    Filter(fetched, IsActive)
  }

  /** The kiosk's match: the lower-cased term inside the lower-cased name, department or position. */
  predicate KioskMatches(e: Employee, search: string) {
    Includes(Lower(e.name), search) || Includes(Lower(e.department), search) || Includes(Lower(e.position), search)
  }

  function MatchesTerm(search: string): Employee -> bool {
    (e: Employee) => KioskMatches(e, search)
  }

  /** `filteredEmployees`: the whole list for an empty term, otherwise the matching employees in order. */
  function FilteredEmployees(employees: seq<Employee>, searchTerm: string): (r: seq<Employee>)
    ensures searchTerm == "" ==> r == employees
    ensures forall i :: 0 <= i < |r| ==> KioskMatches(r[i], Lower(searchTerm))
    ensures forall i :: 0 <= i < |employees| && KioskMatches(employees[i], Lower(searchTerm)) ==> employees[i] in r
    ensures forall e :: e in r ==> e in employees
    ensures IsSubsequence(r, employees)
  {
    if searchTerm == "" then
      forall i | 0 <= i < |employees| ensures KioskMatches(employees[i], Lower(searchTerm)) {
        IncludesEmpty(Lower(employees[i].name));
      }
      SubsequenceOfSelf(employees);
      employees
    else
      FilterIsSubsequence(employees, MatchesTerm(Lower(searchTerm)));
      Filter(employees, MatchesTerm(Lower(searchTerm)))
  }

  /** Every list is a subsequence of itself. */
  lemma {:induction false} SubsequenceOfSelf<T>(s: seq<T>)
    ensures IsSubsequence(s, s)
    decreases |s|
  {
    if s != [] {
      SubsequenceOfSelf(s[1..]);
    }
  }

  /** The email address plays no part: two employees that differ only there are kept or dropped together. */
  lemma EmailIsNotSearched(employees: seq<Employee>, k: int, otherEmail: string, searchTerm: string)
    requires 0 <= k < |employees|
    ensures var changed := employees[k := employees[k].(email := otherEmail)];
      (employees[k] in FilteredEmployees(employees, searchTerm) <==>
       changed[k] in FilteredEmployees(changed, searchTerm))
  {
    var changed := employees[k := employees[k].(email := otherEmail)];
    assert KioskMatches(employees[k], Lower(searchTerm)) == KioskMatches(changed[k], Lower(searchTerm));
  }

  /** A term that occurs only in an employee's email does not find that employee. */
  lemma EmailOnlyTermMisses(e: Employee, searchTerm: string)
    requires searchTerm != "" && Includes(Lower(e.email), Lower(searchTerm))
    requires !Includes(Lower(e.name), Lower(searchTerm)) && !Includes(Lower(e.department), Lower(searchTerm))
    requires !Includes(Lower(e.position), Lower(searchTerm))
    ensures FilteredEmployees([e], searchTerm) == []
  {
    assert !MatchesTerm(Lower(searchTerm))(e);
  }
}
