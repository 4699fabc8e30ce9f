/**
 * The server's SQLite database as an in-memory value: the `users`,
 * `employees` and `activity_logs` tables as sequences of rows in row-id
 * order and the AUTOINCREMENT counters. `Valid` collects what the schema guarantees: ascending row ids,
 * `email UNIQUE`, `username UNIQUE`, and the foreign key from a log to its
 * employee.
 */
module Store {
  import opened Common
  import opened Seqs

  /** A row of `employees`. Times are seconds; `isActive` is `is_active = 1`. */
  datatype Employee = Employee(
    id: nat,
    name: string,
    department: string,
    position: string,
    email: string,
    phone: Option<string>,
    photo: Option<string>,
    isActive: bool,
    createdAt: int,
    updatedAt: int)

  /** A row of `activity_logs`: one visit, open while `checkOutTime` is NULL. */
  datatype ActivityLog = ActivityLog(
    id: nat,
    employeeId: nat,
    guestName: string,
    guestPhone: Option<string>,
    guestEmail: Option<string>,
    purpose: string,
    checkInTime: int,
    checkOutTime: Option<int>,
    notes: Option<string>,
    createdAt: int)

  /** A row of `users`; `password` holds the bcrypt hash. */
  datatype User = User(id: nat, username: string, password: string, role: string, createdAt: int)

  // ---------------------------------------------------------------- lookups

  /** `SELECT … FROM employees WHERE id = ?`: the index of that row, or -1. */
  function EmployeeIndex(emps: seq<Employee>, id: int): (k: int)
    ensures -1 <= k < |emps|
    ensures k >= 0 ==> emps[k].id == id
    ensures k < 0 <==> forall j :: 0 <= j < |emps| ==> emps[j].id != id
  {
    FirstIndex(emps, (e: Employee) => e.id == id)
  }

  /** `SELECT id FROM employees WHERE email = ?`. */
  function EmailIndex(emps: seq<Employee>, email: string): (k: int)
    ensures -1 <= k < |emps|
    ensures k >= 0 ==> emps[k].email == email
    ensures k < 0 <==> forall j :: 0 <= j < |emps| ==> emps[j].email != email
  {
    FirstIndex(emps, (e: Employee) => e.email == email)
  }

  /** `SELECT … FROM activity_logs WHERE id = ?`. */
  function LogIndex(logs: seq<ActivityLog>, id: int): (k: int)
    ensures -1 <= k < |logs|
    ensures k >= 0 ==> logs[k].id == id
    ensures k < 0 <==> forall j :: 0 <= j < |logs| ==> logs[j].id != id
  {
    FirstIndex(logs, (l: ActivityLog) => l.id == id)
  }

  /** `SELECT … FROM users WHERE id = ?`. */
  function UserIndex(users: seq<User>, id: int): (k: int)
    ensures -1 <= k < |users|
    ensures k >= 0 ==> users[k].id == id
    ensures k < 0 <==> forall j :: 0 <= j < |users| ==> users[j].id != id
  {
    FirstIndex(users, (u: User) => u.id == id)
  }

  /** `SELECT … FROM users WHERE username = ?`. */
  function UsernameIndex(users: seq<User>, username: string): (k: int)
    ensures -1 <= k < |users|
    ensures k >= 0 ==> users[k].username == username
    ensures k < 0 <==> forall j :: 0 <= j < |users| ==> users[j].username != username
  {
    FirstIndex(users, (u: User) => u.username == username)
  }

  // ---------------------------------------------------------------- schema invariants

  function EmployeeIdBefore(a: Employee, b: Employee): bool {
    a.id < b.id
  }

  function EmailsDiffer(a: Employee, b: Employee): bool {
    a.email != b.email
  }

  ghost predicate EmployeeIdsBelow(emps: seq<Employee>, next: nat) {
    SortedBy(emps, EmployeeIdBefore) &&
    (forall i :: 0 <= i < |emps| ==> 1 <= emps[i].id < next)
  }

  function LogIdBefore(a: ActivityLog, b: ActivityLog): bool {
    a.id < b.id
  }

  ghost predicate LogIdsBelow(logs: seq<ActivityLog>, next: nat) {
    SortedBy(logs, LogIdBefore) &&
    (forall i :: 0 <= i < |logs| ==> 1 <= logs[i].id < next)
  }

  ghost predicate UserIdsBelow(users: seq<User>, next: nat) {
    (forall i, j :: 0 <= i < j < |users| ==> users[i].id < users[j].id) &&
    (forall i :: 0 <= i < |users| ==> 1 <= users[i].id < next)
  }

  /** `email TEXT UNIQUE NOT NULL`. */
  ghost predicate EmailsUnique(emps: seq<Employee>) {
    SortedBy(emps, EmailsDiffer)
  }

  /** `username TEXT UNIQUE NOT NULL`. */
  ghost predicate UsernamesUnique(users: seq<User>) {
    forall i, j :: 0 <= i < j < |users| ==> users[i].username != users[j].username
  }

  /** `FOREIGN KEY (employee_id) REFERENCES employees (id)`. */
  ghost predicate LogsReferenceEmployees(logs: seq<ActivityLog>, emps: seq<Employee>) {
    forall i :: 0 <= i < |logs| ==> EmployeeIndex(emps, logs[i].employeeId) >= 0
  }

  class Database {
    var employees: seq<Employee>
    var logs: seq<ActivityLog>
    var users: seq<User>
    var nextEmployeeId: nat
    var nextLogId: nat
    var nextUserId: nat

    /** The schema's guarantees. */
    ghost predicate Valid()
      reads this
    {
      nextEmployeeId >= 1 && nextLogId >= 1 && nextUserId >= 1 &&
      EmployeeIdsBelow(employees, nextEmployeeId) &&
      LogIdsBelow(logs, nextLogId) &&
      UserIdsBelow(users, nextUserId) &&
      EmailsUnique(employees) &&
      UsernamesUnique(users) &&
      LogsReferenceEmployees(logs, employees)
    }

    /** A freshly initialised, empty database. */
    constructor ()
      ensures Valid()
      ensures employees == [] && logs == [] && users == []
      ensures nextEmployeeId == 1 && nextLogId == 1 && nextUserId == 1
    {
      employees := [];
      logs := [];
      users := [];
      nextEmployeeId := 1;
      nextLogId := 1;
      nextUserId := 1;
    }
  }

  /** Ascending ids are distinct, so a lookup by id finds exactly the row at that index. */
  lemma EmployeeIndexOf(emps: seq<Employee>, next: nat, k: int)
    requires EmployeeIdsBelow(emps, next) && 0 <= k < |emps|
    ensures EmployeeIndex(emps, emps[k].id) == k
  {
  }

  lemma LogIndexOf(logs: seq<ActivityLog>, next: nat, k: int)
    requires LogIdsBelow(logs, next) && 0 <= k < |logs|
    ensures LogIndex(logs, logs[k].id) == k
  {
  }

  /** Appending a log with the next id for an existing employee keeps the log-table invariants. */
  lemma AppendLogKeepsInvariants(logs: seq<ActivityLog>, emps: seq<Employee>, next: nat, log: ActivityLog)
    requires LogIdsBelow(logs, next) && LogsReferenceEmployees(logs, emps)
    requires log.id == next >= 1 && EmployeeIndex(emps, log.employeeId) >= 0
    ensures LogIdsBelow(logs + [log], next + 1) && LogsReferenceEmployees(logs + [log], emps)
  {
    var logs' := logs + [log];
    assert forall i :: 0 <= i < |logs| ==> logs'[i] == logs[i];
  }

  /** Rewriting a log without touching its id or employee keeps the log-table invariants. */
  lemma UpdateLogKeepsInvariants(logs: seq<ActivityLog>, emps: seq<Employee>, next: nat, k: int, log: ActivityLog)
    requires LogIdsBelow(logs, next) && LogsReferenceEmployees(logs, emps)
    requires 0 <= k < |logs| && log.id == logs[k].id && log.employeeId == logs[k].employeeId
    ensures LogIdsBelow(logs[k := log], next) && LogsReferenceEmployees(logs[k := log], emps)
  {
  }

  /** Dropping employees keeps ids ascending and emails unique. */
  lemma FilterKeepsEmployeeInvariants(emps: seq<Employee>, next: nat, p: Employee -> bool)
    requires EmployeeIdsBelow(emps, next) && EmailsUnique(emps)
    ensures EmployeeIdsBelow(Filter(emps, p), next) && EmailsUnique(Filter(emps, p))
  {
    FilterKeepsSortedBy(emps, p, EmployeeIdBefore);
    FilterKeepsSortedBy(emps, p, EmailsDiffer);
    var r := Filter(emps, p);
    forall i | 0 <= i < |r| ensures 1 <= r[i].id < next {
      var k :| 0 <= k < |emps| && emps[k] == r[i];
    }
  }

  /** Appending an employee with the next id and an unused email keeps every invariant. */
  lemma AppendEmployeeKeepsInvariants(emps: seq<Employee>, logs: seq<ActivityLog>, next: nat, e: Employee)
    requires EmployeeIdsBelow(emps, next) && EmailsUnique(emps) && LogsReferenceEmployees(logs, emps)
    requires e.id == next >= 1 && EmailIndex(emps, e.email) < 0
    ensures EmployeeIdsBelow(emps + [e], next + 1) && EmailsUnique(emps + [e])
    ensures LogsReferenceEmployees(logs, emps + [e])
  {
    var emps' := emps + [e];
    assert forall i :: 0 <= i < |emps| ==> emps'[i] == emps[i];
    forall i | 0 <= i < |logs| ensures EmployeeIndex(emps', logs[i].employeeId) >= 0 {
      var k := EmployeeIndex(emps, logs[i].employeeId);
      assert emps'[k].id == logs[i].employeeId;
    }
  }

  /** Rewriting an employee in place, keeping its id and taking no other employee's email, keeps every invariant. */
  lemma ReplaceEmployeeKeepsInvariants(emps: seq<Employee>, logs: seq<ActivityLog>, next: nat, k: int, e: Employee)
    requires EmployeeIdsBelow(emps, next) && EmailsUnique(emps) && LogsReferenceEmployees(logs, emps)
    requires 0 <= k < |emps| && e.id == emps[k].id
    requires forall j :: 0 <= j < |emps| && j != k ==> emps[j].email != e.email
    ensures EmployeeIdsBelow(emps[k := e], next) && EmailsUnique(emps[k := e])
    ensures LogsReferenceEmployees(logs, emps[k := e])
  {
    var emps' := emps[k := e];
    forall i | 0 <= i < |logs| ensures EmployeeIndex(emps', logs[i].employeeId) >= 0 {
      var j := EmployeeIndex(emps, logs[i].employeeId);
      assert emps'[j].id == logs[i].employeeId;
    }
  }

  /** The employees other than `id`: what `DELETE FROM employees WHERE id = ?` keeps. */
  function OtherEmployee(id: int): Employee -> bool {
    (e: Employee) => e.id != id
  }

  /** The logs of employees other than `id`: what the cascade keeps. */
  function OtherEmployeesLog(id: int): ActivityLog -> bool {
    (l: ActivityLog) => l.employeeId != id
  }

  /** Dropping logs keeps ids ascending. */
  lemma FilterKeepsLogInvariants(logs: seq<ActivityLog>, next: nat, p: ActivityLog -> bool)
    requires LogIdsBelow(logs, next)
    ensures LogIdsBelow(Filter(logs, p), next)
  {
    FilterKeepsSortedBy(logs, p, LogIdBefore);
    var r := Filter(logs, p);
    forall i | 0 <= i < |r| ensures 1 <= r[i].id < next {
      var k :| 0 <= k < |logs| && logs[k] == r[i];
    }
  }

  /**
   * Deleting one employee together with its logs (the `ON DELETE CASCADE` of
   * the foreign key) leaves every remaining log pointing at a remaining employee.
   */
  lemma {:induction false} CascadeKeepsReferences(logs: seq<ActivityLog>, emps: seq<Employee>, id: int)
    requires LogsReferenceEmployees(logs, emps)
    ensures LogsReferenceEmployees(Filter(logs, OtherEmployeesLog(id)), Filter(emps, OtherEmployee(id)))
  {
    var logs' := Filter(logs, OtherEmployeesLog(id));
    var emps' := Filter(emps, OtherEmployee(id));
    forall i | 0 <= i < |logs'| ensures EmployeeIndex(emps', logs'[i].employeeId) >= 0 {
      var l := logs'[i];
      var a :| 0 <= a < |logs| && logs[a] == l;
      var k := EmployeeIndex(emps, l.employeeId);
      assert emps[k] in emps';
      var b :| 0 <= b < |emps'| && emps'[b] == emps[k];
      assert emps'[b].id == l.employeeId;
    }
  }

  /** Appending a user with the next id and an unused username keeps the user-table invariants. */
  lemma AppendUserKeepsInvariants(users: seq<User>, next: nat, u: User)
    requires UserIdsBelow(users, next) && UsernamesUnique(users)
    requires u.id == next >= 1 && UsernameIndex(users, u.username) < 0
    ensures UserIdsBelow(users + [u], next + 1) && UsernamesUnique(users + [u])
  {
    var users' := users + [u];
    assert forall i :: 0 <= i < |users| ==> users'[i] == users[i];
  }

  /** Ascending user ids are distinct, so a lookup by id finds exactly the row at that index. */
  lemma UserIndexOf(users: seq<User>, next: nat, k: int)
    requires UserIdsBelow(users, next) && 0 <= k < |users|
    ensures UserIndex(users, users[k].id) == k
  {
  }
}
