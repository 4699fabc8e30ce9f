/**
 * The employee directory (`/employees`): the filtered, paginated listing,
 * lookup by id, the per-department head count, and creation, partial update
 * and deletion with their photo-file bookkeeping and the cascade to the
 * activity logs.
 */
module EmployeeController {
  import opened Common
  import opened Text
  import opened Seqs
  import opened Paging
  import opened Store
  import opened Upload
  import opened SqlLike

  // ---------------------------------------------------------------- listing

  /**
   * The query string of `GET /employees`. `page` and `limit` are the values
   * after `parseInt`; absent they default to 1 and 20.
   */
  datatype EmployeeQuery = EmployeeQuery(
    department: Option<string>,
    active: Option<string>,
    search: Option<string>,
    page: Option<int>,
    limit: Option<int>)

  /**
   * Every supplied filter holds: a non-empty department by equality, a
   * present `active` by comparison with `active === 'true'`, and a non-empty
   * search term as `%term%` against name, email, department or position.
   */
  predicate EmployeeMatches(q: EmployeeQuery, e: Employee) {
    (Truthy(q.department) ==> e.department == q.department.value) &&
    (q.active.Some? ==> e.isActive == (q.active.value == "true")) &&
    (Truthy(q.search) ==>
       var p := Contains(q.search.value);
       LikeMatch(e.name, p) || LikeMatch(e.email, p) || LikeMatch(e.department, p) || LikeMatch(e.position, p))
  }

  /** `ORDER BY created_at DESC`. */
  function NewerFirst(a: Employee, b: Employee): bool {
    a.createdAt >= b.createdAt
  }

  lemma NewerFirstIsTotal()
    ensures TotalPreorder(NewerFirst)
  {
  }

  /** Every matching employee, newest first; the listing shows one page of these. */
  function OrderedEmployees(emps: seq<Employee>, q: EmployeeQuery): (r: seq<Employee>)
    ensures SortedBy(r, NewerFirst)
    ensures multiset(r) == multiset(Filter(emps, (e: Employee) => EmployeeMatches(q, e)))
    ensures forall k :: 0 <= k < |r| ==> EmployeeMatches(q, r[k])
  {
    var m := Filter(emps, (e: Employee) => EmployeeMatches(q, e));
    NewerFirstIsTotal();
    SortBySorted(m, NewerFirst);
    PermutationKeeps(SortBy(m, NewerFirst), m, (e: Employee) => EmployeeMatches(q, e));
    SortBy(m, NewerFirst)
  }

  datatype EmployeePage = EmployeePage(employees: seq<Employee>, pagination: Pagination)

  /** A page of sorted, matching employees holds matching employees, newest first. */
  lemma PageOfMatches(all: seq<Employee>, q: EmployeeQuery, page: int, limit: int)
    requires SortedBy(all, NewerFirst)
    requires forall k :: 0 <= k < |all| ==> EmployeeMatches(q, all[k])
    ensures var p := Page(all, page, limit);
            (forall k :: 0 <= k < |p| ==> EmployeeMatches(q, p[k])) && SortedBy(p, NewerFirst)
  {
    var p := Page(all, page, limit);
    var lo := Clamp(Offset(page, limit), |all|);
    assert forall k :: 0 <= k < |p| ==> p[k] == all[lo + k];
  }

  /**
   * `GET /employees`: one page of the matching employees, newest first, with
   * the number of matching employees and `Math.ceil(total / limit)`.
   */
  function GetAllEmployees(emps: seq<Employee>, q: EmployeeQuery): (r: EmployeePage)
    ensures var page, limit := q.page.GetOr(1), q.limit.GetOr(20);
            && r.pagination.total == |Filter(emps, (e: Employee) => EmployeeMatches(q, e))|
            && r.pagination.pages == PageCount(r.pagination.total, limit)
            && r.pagination.current == page
            && (limit >= 0 ==> |r.employees| <= limit)
            && (forall k :: 0 <= k < |r.employees| ==> EmployeeMatches(q, r.employees[k]))
            && SortedBy(r.employees, NewerFirst)
            && r.employees == Page(OrderedEmployees(emps, q), page, limit)
  {
    var page, limit := q.page.GetOr(1), q.limit.GetOr(20);
    var all := OrderedEmployees(emps, q);
    PageOfMatches(all, q, page, limit);
    EmployeePage(Page(all, page, limit), Pagination(page, PageCount(|all|, limit), |all|))
  }

  /** An employee is listed (on some page) exactly when it matches every filter. */
  lemma EmployeeListingIsExact(emps: seq<Employee>, q: EmployeeQuery, e: Employee)
    requires e in emps
    ensures e in OrderedEmployees(emps, q) <==> EmployeeMatches(q, e)
  {
    var m := Filter(emps, (x: Employee) => EmployeeMatches(q, x));
    assert e in multiset(OrderedEmployees(emps, q)) <==> e in multiset(m);
  }

  /**
   * A search term without `%` or `_` finds exactly the employees in whose
   * name, email, department or position it occurs, ignoring ASCII case.
   */
  lemma SearchIsSubstring(q: EmployeeQuery, e: Employee)
    requires Truthy(q.search) && Literal(q.search.value)
    ensures var t := Lower(q.search.value);
            (EmployeeMatches(q, e) <==>
               (Truthy(q.department) ==> e.department == q.department.value) &&
               (q.active.Some? ==> e.isActive == (q.active.value == "true")) &&
               (Includes(Lower(e.name), t) || Includes(Lower(e.email), t) ||
                Includes(Lower(e.department), t) || Includes(Lower(e.position), t)))
  {
    var term := q.search.value;
    ContainsMeansIncludes(e.name, term);
    ContainsMeansIncludes(e.email, term);
    ContainsMeansIncludes(e.department, term);
    ContainsMeansIncludes(e.position, term);
  }

  /** With no filter at all, every employee is listed. */
  lemma NoFilterListsAll(emps: seq<Employee>, page: Option<int>, limit: Option<int>)
    ensures var q := EmployeeQuery(None, None, None, page, limit);
            multiset(OrderedEmployees(emps, q)) == multiset(emps)
  {
    var q := EmployeeQuery(None, None, None, page, limit);
    FilterAll(emps, (e: Employee) => EmployeeMatches(q, e));
  }

  // ---------------------------------------------------------------- lookup

  /** `GET /employees/:id`. */
  function GetEmployeeById(emps: seq<Employee>, id: int): (r: Reply<Employee>)
    ensures r.Error? <==> forall j :: 0 <= j < |emps| ==> emps[j].id != id
    ensures r.Error? ==> r == Error(404, "Employee not found")
    ensures r.Body? ==> r.code == 200 && r.body in emps && r.body.id == id
  {
    var k := EmployeeIndex(emps, id);
    if k < 0 then Error(404, "Employee not found") else Body(200, emps[k])
  }

  // ---------------------------------------------------------------- departments

  /** One row of `GET /employees/departments`. */
  datatype DepartmentCount = DepartmentCount(department: string, count: nat)

  /** `ORDER BY department` over the groups, which have distinct names. */
  function DepartmentBefore(a: DepartmentCount, b: DepartmentCount): bool {
    LexLess(a.department, b.department)
  }

  /** The active employees of department `d`. */
  function InDepartment(d: string): Employee -> bool {
    (e: Employee) => e.isActive && e.department == d
  }

  function IsActive(e: Employee): bool {
    e.isActive
  }

  /** The count recorded for `d`, 0 when it has no row. */
  function CountOf(t: seq<DepartmentCount>, d: string): nat {
    if t == [] then 0
    else if t[0].department == d then t[0].count
    else CountOf(t[1..], d)
  }

  /** The sum of the counts. */
  function Total(t: seq<DepartmentCount>): nat {
    if t == [] then 0 else t[0].count + Total(t[1..])
  }

  ghost predicate Positive(t: seq<DepartmentCount>) {
    forall i :: 0 <= i < |t| ==> t[i].count >= 1
  }

  /** Count one more employee of `d`, keeping the rows ordered by name. */
  function Bump(t: seq<DepartmentCount>, d: string): seq<DepartmentCount> {
    if t == [] || LexLess(d, t[0].department) then [DepartmentCount(d, 1)] + t
    else if t[0].department == d then [DepartmentCount(d, t[0].count + 1)] + t[1..]
    else [t[0]] + Bump(t[1..], d)
  }

  /** A name below every row has no count. */
  lemma {:induction false} CountOfBelow(t: seq<DepartmentCount>, d: string)
    requires SortedBy(t, DepartmentBefore)
    requires forall i :: 0 <= i < |t| ==> LexLess(d, t[i].department)
    ensures CountOf(t, d) == 0
    decreases |t|
  {
    if t != [] {
      LexLessIrreflexive(d);
      CountOfBelow(t[1..], d);
    }
  }

  lemma {:induction false} BumpAbove(t: seq<DepartmentCount>, d: string, x: string)
    requires forall i :: 0 <= i < |t| ==> LexLess(x, t[i].department)
    requires LexLess(x, d)
    ensures forall i :: 0 <= i < |Bump(t, d)| ==> LexLess(x, Bump(t, d)[i].department)
    decreases |t|
  {
    if t != [] && !LexLess(d, t[0].department) && t[0].department != d {
      BumpAbove(t[1..], d, x);
    }
  }

  /** Counting one more employee of `d` adds one to `d` and to the total, and to nothing else. */
  lemma BumpCounts(t: seq<DepartmentCount>, d: string)
    requires SortedBy(t, DepartmentBefore) && Positive(t)
    ensures SortedBy(Bump(t, d), DepartmentBefore) && Positive(Bump(t, d))
    ensures forall x :: CountOf(Bump(t, d), x) == CountOf(t, x) + (if x == d then 1 else 0)
    ensures Total(Bump(t, d)) == Total(t) + 1
  {
    BumpKeepsOrder(t, d);
    forall x ensures CountOf(Bump(t, d), x) == CountOf(t, x) + (if x == d then 1 else 0) {
      BumpCountOf(t, d, x);
    }
    BumpTotal(t, d);
  }

  lemma {:induction false} BumpKeepsOrder(t: seq<DepartmentCount>, d: string)
    requires SortedBy(t, DepartmentBefore) && Positive(t)
    ensures SortedBy(Bump(t, d), DepartmentBefore) && Positive(Bump(t, d))
    decreases |t|
  {
    var b := Bump(t, d);
    if t == [] || LexLess(d, t[0].department) {
      forall j | 0 <= j < |t| ensures LexLess(d, t[j].department) {
        if j > 0 {
          LexLessTransitive(d, t[0].department, t[j].department);
        }
      }
      assert b[1..] == t;
    } else if t[0].department == d {
      assert b[1..] == t[1..];
    } else {
      LexLessTotal(d, t[0].department);
      var rest := t[1..];
      BumpKeepsOrder(rest, d);
      BumpAbove(rest, d, t[0].department);
      assert b[1..] == Bump(rest, d);
      forall i, j | 0 <= i < j < |b| ensures DepartmentBefore(b[i], b[j]) {
        if i > 0 {
          assert b[i] == Bump(rest, d)[i - 1] && b[j] == Bump(rest, d)[j - 1];
        }
      }
    }
  }

  lemma {:induction false} BumpCountOf(t: seq<DepartmentCount>, d: string, x: string)
    requires SortedBy(t, DepartmentBefore)
    ensures CountOf(Bump(t, d), x) == CountOf(t, x) + (if x == d then 1 else 0)
    decreases |t|
  {
    var b := Bump(t, d);
    if t == [] || LexLess(d, t[0].department) {
      if x == d {
        forall j | 0 <= j < |t| ensures LexLess(d, t[j].department) {
          if j > 0 {
            LexLessTransitive(d, t[0].department, t[j].department);
          }
        }
        CountOfBelow(t, d);
      }
      assert b[1..] == t;
    } else if t[0].department == d {
      assert b[1..] == t[1..];
    } else {
      var rest := t[1..];
      assert SortedBy(rest, DepartmentBefore) by {
        forall i, j | 0 <= i < j < |rest| ensures DepartmentBefore(rest[i], rest[j]) {
          assert rest[i] == t[i + 1] && rest[j] == t[j + 1];
        }
      }
      BumpCountOf(rest, d, x);
      assert b[1..] == Bump(rest, d);
    }
  }

  lemma {:induction false} BumpTotal(t: seq<DepartmentCount>, d: string)
    ensures Total(Bump(t, d)) == Total(t) + 1
    decreases |t|
  {
    var b := Bump(t, d);
    if t == [] || LexLess(d, t[0].department) {
      assert b[1..] == t;
    } else if t[0].department == d {
      assert b[1..] == t[1..];
    } else {
      BumpTotal(t[1..], d);
      assert b[1..] == Bump(t[1..], d);
    }
  }

  /** The row for each department and the total read off the ordered rows. */
  lemma {:induction false} CountOfRows(t: seq<DepartmentCount>)
    requires SortedBy(t, DepartmentBefore) && Positive(t)
    ensures forall i :: 0 <= i < |t| ==> CountOf(t, t[i].department) == t[i].count
    ensures forall d :: CountOf(t, d) > 0 ==> exists i :: 0 <= i < |t| && t[i].department == d
    decreases |t|
  {
    if t != [] {
      CountOfRows(t[1..]);
      forall i | 0 < i < |t| ensures CountOf(t, t[i].department) == t[i].count {
        LexLessIrreflexive(t[0].department);
        assert t[1..][i - 1] == t[i];
      }
      forall d | CountOf(t, d) > 0 ensures exists i :: 0 <= i < |t| && t[i].department == d {
        if t[0].department != d {
          assert CountOf(t[1..], d) > 0;
          var i :| 0 <= i < |t[1..]| && t[1..][i].department == d;
          assert t[i + 1].department == d;
        }
      }
    }
  }

  /**
   * `GROUP BY department` over the active employees, one employee at a time:
   * the rows stay ordered, each department's row counts its active
   * employees, and the counts add up to all active employees.
   */
  function Tally(emps: seq<Employee>): (t: seq<DepartmentCount>)
    ensures SortedBy(t, DepartmentBefore) && Positive(t)
    ensures forall d :: CountOf(t, d) == |Filter(emps, InDepartment(d))|
    ensures Total(t) == |Filter(emps, IsActive)|
  {
    if emps == [] then []
    else
      var rest := Tally(emps[1..]);
      if emps[0].isActive then
        BumpCounts(rest, emps[0].department);
        Bump(rest, emps[0].department)
      else rest
  }

  /**
   * `GET /employees/departments`: one row per department that has an active
   * employee, in name order, counting that department's active employees.
   */
  function GetDepartments(emps: seq<Employee>): (r: seq<DepartmentCount>)
    ensures forall i, j :: 0 <= i < j < |r| ==> LexLess(r[i].department, r[j].department)
    ensures forall i :: 0 <= i < |r| ==> r[i].count == |Filter(emps, InDepartment(r[i].department))| >= 1
    ensures forall e :: e in emps && e.isActive ==> exists i :: 0 <= i < |r| && r[i].department == e.department
    ensures Total(r) == |Filter(emps, IsActive)|
  {
    var t := Tally(emps);
    CountOfRows(t);
    ActiveAreCounted(emps, t);
    t
  }

  lemma ActiveAreCounted(emps: seq<Employee>, t: seq<DepartmentCount>)
    requires forall d :: CountOf(t, d) == |Filter(emps, InDepartment(d))|
    requires forall d :: CountOf(t, d) > 0 ==> exists i :: 0 <= i < |t| && t[i].department == d
    ensures forall e :: e in emps && e.isActive ==> exists i :: 0 <= i < |t| && t[i].department == e.department
  {
    forall e | e in emps && e.isActive ensures exists i :: 0 <= i < |t| && t[i].department == e.department {
      var k :| 0 <= k < |emps| && emps[k] == e;
      assert InDepartment(e.department)(emps[k]);
      assert e in Filter(emps, InDepartment(e.department));
      assert CountOf(t, e.department) > 0;
    }
  }

  // ---------------------------------------------------------------- photo files

  /** What `deletePhoto(name)` leaves of the uploads directory. */
  function Discarded(files: set<string>, name: string): (r: set<string>)
    ensures name == "" ==> r == files
    ensures name != "" ==> name !in r
    ensures r <= files && files - r <= {name}
  {
    if name == "" then files else files - {name}
  }

  /** `if (req.file) deletePhoto(req.file.filename)`. */
  function WithoutUpload(files: set<string>, upload: Option<string>): set<string> {
    if upload.Some? then Discarded(files, upload.value) else files
  }

  /**
   * The file behind a stored photo URL removed: the last `/`-segment of a
   * non-empty `photo`, if that segment is non-empty.
   */
  function WithoutStoredPhoto(files: set<string>, photo: Option<string>): set<string> {
    if Truthy(photo) then Discarded(files, LastSegment(photo.value)) else files
  }

  /** The old photo's file goes only when a new one is uploaded. */
  function WithoutReplacedPhoto(files: set<string>, photo: Option<string>, upload: Option<string>): set<string> {
    if upload.Some? then WithoutStoredPhoto(files, photo) else files
  }

  /** The `photo` column for an upload: its URL, or NULL without one. */
  function PhotoOf(upload: Option<string>): (r: Option<string>)
    ensures r.Some? <==> upload.Some?
    ensures upload.Some? ==> r.value == PhotoUrl(upload.value)
  {
    if upload.Some? then Some(PhotoUrl(upload.value)) else None
  }

  /** `if (req.file) deletePhoto(req.file.filename)`, run on every failure after an upload. */
  method DiscardUpload(dir: UploadsDirectory, upload: Option<string>)
    modifies dir
    ensures dir.files == WithoutUpload(old(dir.files), upload)
  {
    if upload.Some? {
      DeletePhoto(dir, upload.value);
    }
  }

  /** Removing the file behind an employee's current photo URL, when it has one. */
  method DiscardStoredPhoto(dir: UploadsDirectory, photo: Option<string>)
    modifies dir
    ensures dir.files == WithoutStoredPhoto(old(dir.files), photo)
  {
    if Truthy(photo) {
      var name := LastSegment(photo.value);
      if name != "" {
        DeletePhoto(dir, name);
      }
    }
  }

  /** A reply carrying an employee: `{ message, employee }`. */
  datatype Saved = Saved(message: string, employee: Employee)

  // ---------------------------------------------------------------- create

  /**
   * `POST /employees`. `upload` is the file name multer stored, if a photo
   * came with the request; `now` is `CURRENT_TIMESTAMP`.
   */
  method CreateEmployee(
    db: Database, dir: UploadsDirectory, name: string, department: string, position: string, email: string,
    phone: Option<string>, isActive: Option<bool>, upload: Option<string>, now: int)
    returns (reply: Reply<Saved>)
    requires db.Valid()
    modifies db, dir
    ensures db.Valid()
    ensures db.logs == old(db.logs) && db.users == old(db.users)
    ensures db.nextLogId == old(db.nextLogId) && db.nextUserId == old(db.nextUserId)
    ensures if EmailIndex(old(db.employees), email) >= 0 then
              reply == Error(400, "Employee with this email already exists") &&
              db.employees == old(db.employees) && db.nextEmployeeId == old(db.nextEmployeeId) &&
              dir.files == WithoutUpload(old(dir.files), upload)
            else
              var e := Employee(old(db.nextEmployeeId), name, department, position, email, phone,
                                PhotoOf(upload), isActive.GetOr(true), now, now);
              db.employees == old(db.employees) + [e] && db.nextEmployeeId == old(db.nextEmployeeId) + 1 &&
              dir.files == old(dir.files) &&
              reply == Body(201, Saved("Employee created successfully", e))
    ensures reply.Body? ==> GetEmployeeById(db.employees, reply.body.employee.id) == Body(200, reply.body.employee)
  {
    if EmailIndex(db.employees, email) >= 0 {
      DiscardUpload(dir, upload);
      return Error(400, "Employee with this email already exists");
    }
    var emps, next := db.employees, db.nextEmployeeId;
    var e := Employee(next, name, department, position, email, phone, PhotoOf(upload), isActive.GetOr(true), now, now);
    AppendEmployeeKeepsInvariants(emps, db.logs, next, e);
    EmployeeIndexOf(emps + [e], next + 1, |emps|);
    db.employees := emps + [e];
    db.nextEmployeeId := next + 1;
    reply := Body(201, Saved("Employee created successfully", e));
  }

  // ---------------------------------------------------------------- update

  /**
   * The body of `PUT /employees/:id`: `None` is a field left out. `phone`
   * may be sent as `null`, which clears the column.
   */
  datatype EmployeeChanges = EmployeeChanges(
    name: Option<string>,
    department: Option<string>,
    position: Option<string>,
    email: Option<string>,
    phone: Option<Option<string>>,
    isActive: Option<bool>)

  /** Nothing to `SET`: no field supplied and no photo uploaded. */
  predicate NoFields(c: EmployeeChanges, upload: Option<string>) {
    c.name.None? && c.department.None? && c.position.None? && c.email.None? &&
    c.phone.None? && c.isActive.None? && upload.None?
  }

  /** The row after the `UPDATE`: each supplied field replaced, `updated_at` stamped. */
  function Changed(e: Employee, c: EmployeeChanges, upload: Option<string>, now: int): (r: Employee)
    ensures r.id == e.id && r.createdAt == e.createdAt && r.updatedAt == now
    ensures r.name == (if c.name.Some? then c.name.value else e.name)
    ensures r.department == (if c.department.Some? then c.department.value else e.department)
    ensures r.position == (if c.position.Some? then c.position.value else e.position)
    ensures r.email == NewEmail(e, c) == (if c.email.Some? then c.email.value else e.email)
    ensures r.phone == (if c.phone.Some? then c.phone.value else e.phone)
    ensures r.photo == (if upload.Some? then PhotoOf(upload) else e.photo)
    ensures r.isActive == (if c.isActive.Some? then c.isActive.value else e.isActive)
  {
    e.(name := c.name.GetOr(e.name),
       department := c.department.GetOr(e.department),
       position := c.position.GetOr(e.position),
       email := c.email.GetOr(e.email),
       phone := c.phone.GetOr(e.phone),
       photo := if upload.Some? then PhotoOf(upload) else e.photo,
       isActive := c.isActive.GetOr(e.isActive),
       updatedAt := now)
  }

  /** The email the row has after the update. */
  function NewEmail(e: Employee, c: EmployeeChanges): string {
    c.email.GetOr(e.email)
  }

  /** `SELECT id FROM employees WHERE email = ? AND id != ?`. */
  predicate TakenByOther(emps: seq<Employee>, email: string, id: int) {
    exists j :: 0 <= j < |emps| && emps[j].email == email && emps[j].id != id
  }

  /** How `PUT /employees/:id` ends. */
  datatype UpdateOutcome = NotFound | EmailTaken | NothingToUpdate | Conflict | Updated(k: nat)

  /**
   * The decision chain of `updateEmployee`: a missing row, then a new,
   * non-empty email held by another row, then an empty change set, then the
   * `UNIQUE` constraint of the `UPDATE` itself.
   */
  function UpdateOutcomeOf(emps: seq<Employee>, id: int, c: EmployeeChanges, upload: Option<string>): (o: UpdateOutcome)
    ensures o.Updated? ==> o.k < |emps| && emps[o.k].id == id
    ensures o == NotFound <==> EmployeeIndex(emps, id) < 0
    ensures o == EmailTaken <==>
              var k := EmployeeIndex(emps, id);
              k >= 0 && Truthy(c.email) && c.email.value != emps[k].email && TakenByOther(emps, c.email.value, id)
  {
    var k := EmployeeIndex(emps, id);
    if k < 0 then NotFound
    else if Truthy(c.email) && c.email.value != emps[k].email && TakenByOther(emps, c.email.value, id) then EmailTaken
    else if NoFields(c, upload) then NothingToUpdate
    else if TakenByOther(emps, NewEmail(emps[k], c), id) then Conflict
    else Updated(k)
  }

  /** Sending one's own email back, or no email, never counts as taken. */
  lemma OwnEmailIsAllowed(emps: seq<Employee>, next: nat, id: int, c: EmployeeChanges, upload: Option<string>)
    requires EmployeeIdsBelow(emps, next) && EmailsUnique(emps)
    requires EmployeeIndex(emps, id) >= 0
    requires c.email.None? || c.email == Some(emps[EmployeeIndex(emps, id)].email)
    ensures UpdateOutcomeOf(emps, id, c, upload) != EmailTaken
    ensures UpdateOutcomeOf(emps, id, c, upload) != Conflict
  {
    var k := EmployeeIndex(emps, id);
    forall j | 0 <= j < |emps| && emps[j].id != id ensures emps[j].email != emps[k].email {
      if j < k {
        assert EmailsDiffer(emps[j], emps[k]);
      } else {
        assert EmailsDiffer(emps[k], emps[j]);
      }
    }
  }

  /**
   * The `UNIQUE` constraint can only fire on an update that sets the email
   * to the empty string, which skips the explicit check.
   */
  lemma ConflictNeedsEmptyEmail(emps: seq<Employee>, next: nat, id: int, c: EmployeeChanges, upload: Option<string>)
    requires EmployeeIdsBelow(emps, next) && EmailsUnique(emps)
    requires UpdateOutcomeOf(emps, id, c, upload) == Conflict
    ensures c.email == Some("")
  {
    var k := EmployeeIndex(emps, id);
    if c.email.None? || c.email == Some(emps[k].email) {
      OwnEmailIsAllowed(emps, next, id, c, upload);
    }
  }

  /** A request with nothing to change is refused once the row is found. */
  lemma NoFieldsIsRefused(emps: seq<Employee>, id: int, c: EmployeeChanges, upload: Option<string>)
    requires EmployeeIndex(emps, id) >= 0 && NoFields(c, upload)
    ensures UpdateOutcomeOf(emps, id, c, upload) == NothingToUpdate
  {
  }

  /** A change set applied twice is the change set applied once, at the later time. */
  lemma ChangedIdempotent(e: Employee, c: EmployeeChanges, upload: Option<string>, t1: int, t2: int)
    ensures Changed(Changed(e, c, upload, t1), c, upload, t2) == Changed(e, c, upload, t2)
  {
  }

  /** Supplying every field replaces the whole row except its id and creation time. */
  lemma ChangedAllFields(e: Employee, name: string, department: string, position: string, email: string,
                         phone: Option<string>, isActive: bool, upload: string, now: int)
    ensures var c := EmployeeChanges(Some(name), Some(department), Some(position), Some(email), Some(phone), Some(isActive));
            Changed(e, c, Some(upload), now) ==
            Employee(e.id, name, department, position, email, phone, Some(PhotoUrl(upload)), isActive, e.createdAt, now)
  {
  }

  /**
   * `PUT /employees/:id`. A new photo makes the old photo's file go before
   * the `UPDATE` runs; every failure after the row is found also removes
   * the newly uploaded file.
   */
  method UpdateEmployee(db: Database, dir: UploadsDirectory, id: int, c: EmployeeChanges, upload: Option<string>, now: int)
    returns (reply: Reply<Saved>)
    requires db.Valid()
    modifies db, dir
    ensures db.Valid()
    ensures db.logs == old(db.logs) && db.users == old(db.users)
    ensures db.nextEmployeeId == old(db.nextEmployeeId) && db.nextLogId == old(db.nextLogId) && db.nextUserId == old(db.nextUserId)
    ensures match UpdateOutcomeOf(old(db.employees), id, c, upload)
            case NotFound =>
              reply == Error(404, "Employee not found") && db.employees == old(db.employees) &&
              dir.files == WithoutUpload(old(dir.files), upload)
            case EmailTaken =>
              reply == Error(400, "Email is already taken by another employee") && db.employees == old(db.employees) &&
              dir.files == WithoutUpload(old(dir.files), upload)
            case NothingToUpdate =>
              reply == Error(400, "No fields to update") && db.employees == old(db.employees) &&
              dir.files == old(dir.files)
            case Conflict =>
              reply == Error(500, "Internal server error") && db.employees == old(db.employees) &&
              dir.files == WithoutUpload(WithoutReplacedPhoto(old(dir.files), old(db.employees)[EmployeeIndex(old(db.employees), id)].photo, upload), upload)
            case Updated(k) =>
              var e := Changed(old(db.employees)[k], c, upload, now);
              db.employees == old(db.employees)[k := e] &&
              dir.files == WithoutReplacedPhoto(old(dir.files), old(db.employees)[k].photo, upload) &&
              reply == Body(200, Saved("Employee updated successfully", e))
  {
    var emps := db.employees;
    ghost var outcome := UpdateOutcomeOf(emps, id, c, upload);
    var k := EmployeeIndex(emps, id);
    if k < 0 {
      DiscardUpload(dir, upload);
      assert outcome == NotFound;
      return Error(404, "Employee not found");
    }
    var existing := emps[k];
    if Truthy(c.email) && c.email.value != existing.email && TakenByOther(emps, c.email.value, id) {
      DiscardUpload(dir, upload);
      assert outcome == EmailTaken;
      return Error(400, "Email is already taken by another employee");
    }
    if upload.Some? {
      DiscardStoredPhoto(dir, existing.photo);
    }
    if NoFields(c, upload) {
      assert outcome == NothingToUpdate;
      return Error(400, "No fields to update");
    }
    var e := Changed(existing, c, upload, now);
    if TakenByOther(emps, e.email, id) {
      DiscardUpload(dir, upload);
      assert outcome == Conflict;
      return Error(500, "Internal server error");
    }
    assert outcome == Updated(k);
    ReplaceEmployee(db, k, e);
    reply := Body(200, Saved("Employee updated successfully", e));
  }

  /** The `UPDATE … WHERE id = ?` itself, once the new row is known not to clash. */
  method ReplaceEmployee(db: Database, k: int, e: Employee)
    requires db.Valid() && 0 <= k < |db.employees| && e.id == db.employees[k].id
    requires !TakenByOther(db.employees, e.email, e.id)
    modifies db`employees
    ensures db.Valid() && db.employees == old(db.employees)[k := e]
  {
    UpdateKeepsInvariants(db.employees, db.logs, db.nextEmployeeId, k, e);
    db.employees := db.employees[k := e];
  }

  lemma UpdateKeepsInvariants(emps: seq<Employee>, logs: seq<ActivityLog>, next: nat, k: int, e: Employee)
    requires EmployeeIdsBelow(emps, next) && EmailsUnique(emps) && LogsReferenceEmployees(logs, emps)
    requires 0 <= k < |emps| && e.id == emps[k].id
    requires !TakenByOther(emps, e.email, e.id)
    ensures EmployeeIdsBelow(emps[k := e], next) && EmailsUnique(emps[k := e])
    ensures LogsReferenceEmployees(logs, emps[k := e])
  {
    forall j | 0 <= j < |emps| && j != k ensures emps[j].email != e.email {
      if emps[j].email == e.email {
        EmployeeIndexOf(emps, next, j);
        EmployeeIndexOf(emps, next, k);
      }
    }
    ReplaceEmployeeKeepsInvariants(emps, logs, next, k, e);
  }

  // ---------------------------------------------------------------- delete

  /**
   * `DELETE /employees/:id`: the row goes, its activity logs go with it
   * (`ON DELETE CASCADE`), and so does the file of its photo, if any.
   */
  method DeleteEmployee(db: Database, dir: UploadsDirectory, id: int) returns (reply: Reply<string>)
    requires db.Valid()
    modifies db, dir
    ensures db.Valid()
    ensures db.users == old(db.users)
    ensures db.nextEmployeeId == old(db.nextEmployeeId) && db.nextLogId == old(db.nextLogId) && db.nextUserId == old(db.nextUserId)
    ensures var k := EmployeeIndex(old(db.employees), id);
            if k < 0 then
              reply == Error(404, "Employee not found") &&
              db.employees == old(db.employees) && db.logs == old(db.logs) && dir.files == old(dir.files)
            else
              reply == Body(200, "Employee deleted successfully") &&
              db.employees == Filter(old(db.employees), OtherEmployee(id)) &&
              db.logs == Filter(old(db.logs), OtherEmployeesLog(id)) &&
              dir.files == WithoutStoredPhoto(old(dir.files), old(db.employees)[k].photo)
  {
    var emps, logs := db.employees, db.logs;
    var k := EmployeeIndex(emps, id);
    if k < 0 {
      return Error(404, "Employee not found");
    }
    var photo := emps[k].photo;
    var emps', logs' := Filter(emps, OtherEmployee(id)), Filter(logs, OtherEmployeesLog(id));
    FilterKeepsEmployeeInvariants(emps, db.nextEmployeeId, OtherEmployee(id));
    FilterKeepsLogInvariants(logs, db.nextLogId, OtherEmployeesLog(id));
    CascadeKeepsReferences(logs, emps, id);
    db.employees, db.logs := emps', logs';
    assert db.Valid();
    DiscardStoredPhoto(dir, photo);
    reply := Body(200, "Employee deleted successfully");
  }

  /** After a delete, the employee cannot be found and no log refers to it. */
  lemma DeletedIsGone(emps: seq<Employee>, logs: seq<ActivityLog>, id: int)
    ensures GetEmployeeById(Filter(emps, OtherEmployee(id)), id) == Error(404, "Employee not found")
    ensures forall i :: 0 <= i < |Filter(logs, OtherEmployeesLog(id))| ==> Filter(logs, OtherEmployeesLog(id))[i].employeeId != id
  {
    var r := Filter(emps, OtherEmployee(id));
    assert forall j :: 0 <= j < |r| ==> OtherEmployee(id)(r[j]);
  }

  /** Ids are distinct, so deleting by id removes exactly the one row with it. */
  lemma {:induction false} DeleteRemovesOne(emps: seq<Employee>, next: nat, k: int)
    requires EmployeeIdsBelow(emps, next) && 0 <= k < |emps|
    ensures Filter(emps, OtherEmployee(emps[k].id)) == emps[..k] + emps[k + 1..]
  {
    var p := OtherEmployee(emps[k].id);
    forall i | 0 <= i < |emps| && i != k ensures p(emps[i]) {
      if i < k {
        assert EmployeeIdBefore(emps[i], emps[k]);
      } else {
        assert EmployeeIdBefore(emps[k], emps[i]);
      }
    }
    FilterRemovesOne(emps, k, p);
  }
}
