/**
 * `app.js`: the earlier single-file server. Its directory and its visit log
 * are module-level arrays that the handlers change in place, the photo
 * files live on disk, and an administrator is whoever holds a session whose
 * `isAdmin` flag was set by the fixed credentials.
 *
 * `Date.now()` is the `now` parameter (a non-negative millisecond count; an
 * id is its decimal text), and an uploaded file arrives as the name multer
 * stored it under.
 */
module LegacyApp {
  import opened Common
  import opened Text
  import opened Seqs

  /** An employee record as the handlers build it; `createdAt`/`updatedAt` are milliseconds. */
  datatype Employee = Employee(
    id: string,
    name: string,
    department: string,
    position: string,
    photo: Option<string>,
    createdAt: int,
    updatedAt: Option<int>)

  /** A logged visit. */
  datatype Activity = Activity(
    id: string,
    employeeId: string,
    employeeName: string,
    guestName: string,
    message: string,
    timestamp: int)

  /** `{ success, message, activity }` of a notification. */
  datatype Notice = Notice(message: string, activity: Activity)

  /** `value || fallback` on an optional request field. */
  function OrElse(value: Option<string>, fallback: string): (r: string)
    ensures Truthy(value) ==> r == value.value
    ensures !Truthy(value) ==> r == fallback
  {
    if Truthy(value) then value.value else fallback
  }

  /** Where an uploaded file is served from. */
  function UploadUrl(filename: string): string {
    "/public/uploads/" + filename
  }

  const AdminUsername := "admin"
  const AdminPassword := "admin123"
  const AuthRequired := "Authentication required"
  const EmployeeNotFound := "Employee not found"

  /** `req.session`: per-browser state kept by the server. */
  class Session {
    var isAdmin: bool

    /** A fresh session, as after `req.session.destroy()`. */
    constructor ()
      ensures !isAdmin
    {
      isAdmin := false;
    }

    /**
     * `POST /api/auth/login`: the fixed credentials set the flag; anything
     * else is a 401 and leaves the flag as it was.
     */
    method Login(username: Option<string>, password: Option<string>) returns (reply: Reply<string>)
      modifies this
      ensures isAdmin == (old(isAdmin) || (username == Some(AdminUsername) && password == Some(AdminPassword)))
      ensures reply.Body? <==> username == Some(AdminUsername) && password == Some(AdminPassword)
      ensures reply.Body? ==> reply == Body(200, "Login successful")
      ensures reply.Error? ==> reply == Error(401, "Invalid credentials")
    {
      if username == Some(AdminUsername) && password == Some(AdminPassword) {
        isAdmin := true;
        reply := Body(200, "Login successful");
      } else {
        reply := Error(401, "Invalid credentials");
      }
    }

    /** `POST /api/auth/logout`: the session ends, and with it the flag. */
    method Logout() returns (reply: Reply<string>)
      modifies this
      ensures !isAdmin && reply == Body(200, "Logged out")
    {
      isAdmin := false;
      reply := Body(200, "Logged out");
    }

    /** `requireAuth`: pass iff the flag is set, else 401. */
    function RequireAuth(): (denied: Option<Reply<string>>)
      reads this
      ensures denied.None? <==> isAdmin
      ensures denied.Some? ==> denied.value == Error(401, AuthRequired)
    {
      if !isAdmin then Some(Error(401, AuthRequired)) else None
    }
  }

  /** `emp.id === id`. */
  function HasId(id: string): Employee -> bool {
    (e: Employee) => e.id == id
  }

  /** `new Date(b.timestamp) - new Date(a.timestamp)`: newest first, ties kept in order. */
  function NewestFirst(a: Activity, b: Activity): bool {
    a.timestamp >= b.timestamp
  }

  /** The server's memory and the photo files on disk. */
  class App {
    var employees: seq<Employee>
    var activityLogs: seq<Activity>
    var files: set<string>

    /** What the JSON data files held at start-up, and the files already on disk. */
    constructor (employees: seq<Employee>, activityLogs: seq<Activity>, files: set<string>)
      ensures this.employees == employees && this.activityLogs == activityLogs && this.files == files
    {
      this.employees := employees;
      this.activityLogs := activityLogs;
      this.files := files;
    }

    /** `GET /api/employees`: the whole array, to anyone. */
    function ListEmployees(): (r: seq<Employee>)
      reads this
      ensures r == employees
    {
      employees
    }

    /**
     * `POST /api/employees`. Without the session flag: 401 and nothing
     * stored. Otherwise the upload is already on disk; a missing name is a
     * 400 that adds no employee, and a named one is appended with an empty
     * department and position by default and the uploaded photo if any.
     */
    method CreateEmployee(session: Session, name: Option<string>, department: Option<string>,
                          position: Option<string>, upload: Option<string>, now: nat)
      returns (reply: Reply<Employee>)
      modifies this
      ensures activityLogs == old(activityLogs)
      ensures !session.isAdmin ==>
        reply == Error(401, AuthRequired) && employees == old(employees) && files == old(files)
      ensures session.isAdmin ==>
        files == old(files) + (if upload.Some? then {UploadUrl(upload.value)} else {})
      ensures session.isAdmin && !Truthy(name) ==>
        reply == Error(400, "Name is required") && employees == old(employees)
      ensures session.isAdmin && Truthy(name) ==>
        var e := Employee(NatToString(now), name.value, OrElse(department, ""), OrElse(position, ""),
                          if upload.Some? then Some(UploadUrl(upload.value)) else None, now, None);
        employees == old(employees) + [e] && reply == Body(201, e)
    {
      var denied := session.RequireAuth();
      if denied.Some? {
        return Error(401, AuthRequired);
      }
      if upload.Some? {
        files := files + {UploadUrl(upload.value)};
      }
      if !Truthy(name) {
        return Error(400, "Name is required");
      }
      var photo := if upload.Some? then Some(UploadUrl(upload.value)) else None;
      var employee := Employee(NatToString(now), name.value, OrElse(department, ""), OrElse(position, ""), photo, now, None);
      employees := employees + [employee];
      reply := Body(201, employee);
    }

    /**
     * `PUT /api/employees/:id`: the first employee with that id gets each
     * supplied name, department and position (a falsy one keeps the old
     * value), the new photo in place of the old one, whose file is removed,
     * and an update time. No other employee changes.
     */
    method UpdateEmployee(session: Session, id: string, name: Option<string>, department: Option<string>,
                          position: Option<string>, upload: Option<string>, now: nat)
      returns (reply: Reply<Employee>)
      modifies this
      ensures activityLogs == old(activityLogs)
      ensures !session.isAdmin ==>
        reply == Error(401, AuthRequired) && employees == old(employees) && files == old(files)
      ensures session.isAdmin && FirstIndex(old(employees), HasId(id)) < 0 ==>
        reply == Error(404, EmployeeNotFound) && employees == old(employees) &&
        files == old(files) + (if upload.Some? then {UploadUrl(upload.value)} else {})
      ensures session.isAdmin && FirstIndex(old(employees), HasId(id)) >= 0 ==>
        var k := FirstIndex(old(employees), HasId(id));
        var e := old(employees)[k];
        var e' := e.(name := OrElse(name, e.name), department := OrElse(department, e.department),
                     position := OrElse(position, e.position),
                     photo := if upload.Some? then Some(UploadUrl(upload.value)) else e.photo,
                     updatedAt := Some(now));
        employees == old(employees)[k := e'] && reply == Body(200, e') &&
        files == (if upload.Some? && Truthy(e.photo)
                  then (old(files) + {UploadUrl(upload.value)}) - {e.photo.value}
                  else old(files) + (if upload.Some? then {UploadUrl(upload.value)} else {}))
    {
      var denied := session.RequireAuth();
      if denied.Some? {
        return Error(401, AuthRequired);
      }
      if upload.Some? {
        files := files + {UploadUrl(upload.value)};
      }
      var k := FirstIndex(employees, HasId(id));
      if k == -1 {
        return Error(404, EmployeeNotFound);
      }
      var employee := employees[k];
      employee := employee.(name := OrElse(name, employee.name));
      employee := employee.(department := OrElse(department, employee.department));
      employee := employee.(position := OrElse(position, employee.position));
      if upload.Some? {
        if Truthy(employee.photo) {
          files := files - {employee.photo.value};
        }
        employee := employee.(photo := Some(UploadUrl(upload.value)));
      }
      employee := employee.(updatedAt := Some(now));
      employees := employees[k := employee];
      reply := Body(200, employee);
    }

    /**
     * `DELETE /api/employees/:id`: the first employee with that id leaves the
     * array and its photo file leaves the disk; the visit log keeps its
     * entries for that employee.
     */
    method DeleteEmployee(session: Session, id: string) returns (reply: Reply<string>)
      modifies this
      ensures activityLogs == old(activityLogs)
      ensures !session.isAdmin ==>
        reply == Error(401, AuthRequired) && employees == old(employees) && files == old(files)
      ensures session.isAdmin && FirstIndex(old(employees), HasId(id)) < 0 ==>
        reply == Error(404, EmployeeNotFound) && employees == old(employees) && files == old(files)
      ensures session.isAdmin && FirstIndex(old(employees), HasId(id)) >= 0 ==>
        var k := FirstIndex(old(employees), HasId(id));
        var photo := old(employees)[k].photo;
        employees == old(employees)[..k] + old(employees)[k + 1..] &&
        files == (if Truthy(photo) then old(files) - {photo.value} else old(files)) &&
        reply == Body(200, "Employee deleted")
    {
      var denied := session.RequireAuth();
      if denied.Some? {
        return Error(401, AuthRequired);
      }
      var k := FirstIndex(employees, HasId(id));
      if k == -1 {
        return Error(404, EmployeeNotFound);
      }
      var photo := employees[k].photo;
      if Truthy(photo) {
        files := files - {photo.value};
      }
      employees := employees[..k] + employees[k + 1..];
      reply := Body(200, "Employee deleted");
    }

    /**
     * `POST /api/notify`, open to anyone: an unknown employee is a 404 that
     * logs nothing; otherwise one visit is appended, from "Guest" with "You
     * have a visitor" unless the request says otherwise.
     */
    method Notify(employeeId: Option<string>, guestName: Option<string>, guestMessage: Option<string>, now: nat)
      returns (reply: Reply<Notice>)
      modifies this`activityLogs
      ensures employeeId.None? || FirstIndex(employees, HasId(employeeId.value)) < 0 ==>
        reply == Error(404, EmployeeNotFound) && activityLogs == old(activityLogs)
      ensures employeeId.Some? && FirstIndex(employees, HasId(employeeId.value)) >= 0 ==>
        var e := employees[FirstIndex(employees, HasId(employeeId.value))];
        var a := Activity(NatToString(now), employeeId.value, e.name, OrElse(guestName, "Guest"),
                          OrElse(guestMessage, "You have a visitor"), now);
        activityLogs == old(activityLogs) + [a] && reply == Body(200, Notice("Notification sent to " + e.name, a))
    {
      if employeeId.None? {
        return Error(404, EmployeeNotFound);
      }
      var k := FirstIndex(employees, HasId(employeeId.value));
      if k < 0 {
        return Error(404, EmployeeNotFound);
      }
      var employee := employees[k];
      var activity := Activity(NatToString(now), employeeId.value, employee.name, OrElse(guestName, "Guest"),
                               OrElse(guestMessage, "You have a visitor"), now);
      activityLogs := activityLogs + [activity];
      reply := Body(200, Notice("Notification sent to " + employee.name, activity));
    }

    /**
     * `GET /api/activity`: the stored log itself is sorted newest first, and
     * that sorted array is the answer.
     */
    method ListActivity(session: Session) returns (reply: Reply<seq<Activity>>)
      modifies this`activityLogs
      ensures !session.isAdmin ==> reply == Error(401, AuthRequired) && activityLogs == old(activityLogs)
      ensures session.isAdmin ==>
        activityLogs == SortBy(old(activityLogs), NewestFirst) && reply == Body(200, activityLogs) &&
        SortedBy(activityLogs, NewestFirst) && multiset(activityLogs) == multiset(old(activityLogs))
    {
      var denied := session.RequireAuth();
      if denied.Some? {
        return Error(401, AuthRequired);
      }
      assert TotalPreorder(NewestFirst);
      SortBySorted(activityLogs, NewestFirst);
      activityLogs := SortBy(activityLogs, NewestFirst);
      reply := Body(200, activityLogs);
    }
  }

  /** Sorting a log that is already newest first leaves it as it is, so a second listing reorders nothing. */
  lemma {:induction false} SortSortedIsIdentity(logs: seq<Activity>)
    requires SortedBy(logs, NewestFirst)
    ensures SortBy(logs, NewestFirst) == logs
    decreases |logs|
  {
    if logs != [] {
      var rest := logs[1..];
      assert SortedBy(rest, NewestFirst) by {
        forall i, j | 0 <= i < j < |rest| ensures NewestFirst(rest[i], rest[j]) {
          assert rest[i] == logs[i + 1] && rest[j] == logs[j + 1];
        }
      }
      SortSortedIsIdentity(rest);
      assert logs == [logs[0]] + rest;
      if rest != [] {
        assert NewestFirst(logs[0], logs[1]);
      }
    }
  }
}
