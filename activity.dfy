/**
 * The visit log (`activity_logs`): check-in, check-out, the filtered and
 * paginated listings, and the visitor counts. A log is checked in while its
 * check-out time is NULL; check-out sets it once and for all.
 */
module ActivityController {
  import opened Common
  import opened Seqs
  import opened Paging
  import opened Store

  // ---------------------------------------------------------------- status and views

  /** The reported status: `checked_out` once a check-out time is set, `checked_in` before. */
  function Status(log: ActivityLog): (s: string)
    ensures s == "checked_in" <==> log.checkOutTime.None?
    ensures s == "checked_out" <==> log.checkOutTime.Some?
  {
    if log.checkOutTime.Some? then "checked_out" else "checked_in"
  }

  /** A log joined with its employee: one row of `activity_logs al JOIN employees e`. */
  datatype Row = Row(log: ActivityLog, employee: Employee)

  /** A log as the listing and the check-in/check-out replies carry it. */
  datatype LogView = LogView(
    id: nat,
    employeeId: nat,
    employeeName: string,
    department: string,
    position: string,
    guestName: string,
    guestPhone: Option<string>,
    guestEmail: Option<string>,
    purpose: string,
    checkInTime: int,
    checkOutTime: Option<int>,
    notes: Option<string>,
    createdAt: int,
    status: string)

  function View(row: Row): LogView {
    var l := row.log;
    LogView(l.id, l.employeeId, row.employee.name, row.employee.department, row.employee.position,
            l.guestName, l.guestPhone, l.guestEmail, l.purpose, l.checkInTime, l.checkOutTime,
            l.notes, l.createdAt, Status(l))
  }

  /**
   * The inner join, in log-table order: a log whose employee row is missing
   * is dropped, every other log appears once with its employee.
   */
  function Joined(logs: seq<ActivityLog>, emps: seq<Employee>): (r: seq<Row>)
    ensures |r| <= |logs|
    ensures forall k :: 0 <= k < |r| ==>
              r[k].log in logs && r[k].employee in emps && r[k].employee.id == r[k].log.employeeId
    ensures forall i :: 0 <= i < |logs| && EmployeeIndex(emps, logs[i].employeeId) >= 0 ==>
              Row(logs[i], emps[EmployeeIndex(emps, logs[i].employeeId)]) in r
  {
    if logs == [] then []
    else
      var k := EmployeeIndex(emps, logs[0].employeeId);
      var rest := Joined(logs[1..], emps);
      assert forall i :: 1 <= i < |logs| ==> logs[i] == logs[1..][i - 1];
      if k >= 0 then [Row(logs[0], emps[k])] + rest else rest
  }

  /**
   * Under the foreign key every log has its employee, so the join drops no
   * log and repeats none: its logs are the log table, in order.
   */
  lemma {:induction false} JoinedKeepsEveryLog(logs: seq<ActivityLog>, emps: seq<Employee>)
    requires LogsReferenceEmployees(logs, emps)
    ensures Map(Joined(logs, emps), (r: Row) => r.log) == logs
    decreases |logs|
  {
    if logs != [] {
      var rest := logs[1..];
      assert forall i :: 0 <= i < |rest| ==> rest[i] == logs[i + 1];
      JoinedKeepsEveryLog(rest, emps);
      var j := Joined(logs, emps);
      assert j == [j[0]] + Joined(rest, emps);
      assert j[0].log == logs[0];
    }
  }

  // ---------------------------------------------------------------- listing

  /**
   * The query string of `GET /activity`, `limit` and `page` already passed
   * through `parseInt`; an absent `page` is 1 and an absent `limit` 20.
   */
  datatype LogQuery = LogQuery(
    employeeId: Option<int>,
    date: Option<string>,
    status: Option<string>,
    page: Option<int>,
    limit: Option<int>)

  function PageOf(q: LogQuery): int {
    q.page.GetOr(1)
  }

  function LimitOf(q: LogQuery): int {
    q.limit.GetOr(20)
  }

  /**
   * Every supplied filter holds: the employee id, the calendar date of the
   * check-in (`DATE(check_in_time)`, given as `dateOf`), and the status.
   * A status other than `checked_in`/`checked_out` filters nothing.
   */
  predicate Matches(q: LogQuery, dateOf: int -> string, log: ActivityLog) {
    (q.employeeId.Some? ==> log.employeeId == q.employeeId.value) &&
    (Truthy(q.date) ==> dateOf(log.checkInTime) == q.date.value) &&
    (q.status == Some("checked_in") ==> log.checkOutTime.None?) &&
    (q.status == Some("checked_out") ==> log.checkOutTime.Some?)
  }

  /** `ORDER BY check_in_time DESC`. */
  function LaterFirst(a: Row, b: Row): bool {
    a.log.checkInTime >= b.log.checkInTime
  }

  lemma LaterFirstIsTotal()
    ensures TotalPreorder(LaterFirst)
  {
  }

  function MatchingRows(logs: seq<ActivityLog>, emps: seq<Employee>, q: LogQuery, dateOf: int -> string): seq<Row> {
    Filter(Joined(logs, emps), (r: Row) => Matches(q, dateOf, r.log))
  }

  /** All matching rows, newest check-in first; the listing shows one page of these. */
  function OrderedRows(logs: seq<ActivityLog>, emps: seq<Employee>, q: LogQuery, dateOf: int -> string): (r: seq<Row>)
    ensures SortedBy(r, LaterFirst)
    ensures multiset(r) == multiset(MatchingRows(logs, emps, q, dateOf))
    ensures forall k :: 0 <= k < |r| ==> Matches(q, dateOf, r[k].log)
  {
    var m := MatchingRows(logs, emps, q, dateOf);
    LaterFirstIsTotal();
    SortBySorted(m, LaterFirst);
    PermutationKeeps(SortBy(m, LaterFirst), m, (r: Row) => Matches(q, dateOf, r.log));
    SortBy(m, LaterFirst)
  }

  datatype ActivityPage = ActivityPage(logs: seq<LogView>, pagination: Pagination)

  /** What a filter asks of a listed log, read off its view. */
  predicate ViewMatches(q: LogQuery, dateOf: int -> string, v: LogView) {
    (q.employeeId.Some? ==> v.employeeId == q.employeeId.value) &&
    (Truthy(q.date) ==> dateOf(v.checkInTime) == q.date.value) &&
    (q.status == Some("checked_in") ==> v.status == "checked_in") &&
    (q.status == Some("checked_out") ==> v.status == "checked_out")
  }

  /** A page of sorted, matching rows shows matching logs, newest first. */
  lemma PageViews(all: seq<Row>, q: LogQuery, dateOf: int -> string, page: int, limit: int)
    requires SortedBy(all, LaterFirst)
    requires forall k :: 0 <= k < |all| ==> Matches(q, dateOf, all[k].log)
    ensures var vs := Map(Page(all, page, limit), View);
            (forall k :: 0 <= k < |vs| ==> ViewMatches(q, dateOf, vs[k])) &&
            (forall i, j :: 0 <= i < j < |vs| ==> vs[i].checkInTime >= vs[j].checkInTime)
  {
    var w := Page(all, page, limit);
    var lo := Clamp(Offset(page, limit), |all|);
    assert forall k :: 0 <= k < |w| ==> w[k] == all[lo + k];
  }

  /**
   * `GET /activity`: one page of the matching logs, newest first, with the
   * total count of matching logs and the page count.
   */
  function GetAllActivityLogs(logs: seq<ActivityLog>, emps: seq<Employee>, q: LogQuery, dateOf: int -> string): (r: ActivityPage)
    ensures r.pagination.total == |OrderedRows(logs, emps, q, dateOf)|
    ensures r.pagination.pages == PageCount(r.pagination.total, LimitOf(q))
    ensures r.pagination.current == PageOf(q)
    ensures LimitOf(q) >= 0 ==> |r.logs| <= LimitOf(q)
    ensures forall k :: 0 <= k < |r.logs| ==> ViewMatches(q, dateOf, r.logs[k])
    ensures forall i, j :: 0 <= i < j < |r.logs| ==> r.logs[i].checkInTime >= r.logs[j].checkInTime
    ensures var all := OrderedRows(logs, emps, q, dateOf);
            r.logs == Map(Page(all, PageOf(q), LimitOf(q)), View)
  {
    var page, limit := PageOf(q), LimitOf(q);
    var all := OrderedRows(logs, emps, q, dateOf);
    PageViews(all, q, dateOf, page, limit);
    ActivityPage(Map(Page(all, page, limit), View), Pagination(page, PageCount(|all|, limit), |all|))
  }

  /**
   * A joined log is listed (on some page) exactly when it matches every
   * filter, and the pages 1 .. `pages` together hold every matching log once.
   */
  lemma ListingIsExact(logs: seq<ActivityLog>, emps: seq<Employee>, q: LogQuery, dateOf: int -> string, i: int)
    requires 0 <= i < |logs| && EmployeeIndex(emps, logs[i].employeeId) >= 0
    ensures var row := Row(logs[i], emps[EmployeeIndex(emps, logs[i].employeeId)]);
            row in OrderedRows(logs, emps, q, dateOf) <==> Matches(q, dateOf, logs[i])
  {
    var row := Row(logs[i], emps[EmployeeIndex(emps, logs[i].employeeId)]);
    var joined := Joined(logs, emps);
    var m := MatchingRows(logs, emps, q, dateOf);
    assert row in multiset(OrderedRows(logs, emps, q, dateOf)) <==> row in multiset(m);
    if Matches(q, dateOf, logs[i]) {
      var a :| 0 <= a < |joined| && joined[a] == row;
      assert row in m;
    }
  }

  lemma ListingPagesCoverAll(logs: seq<ActivityLog>, emps: seq<Employee>, q: LogQuery, dateOf: int -> string)
    requires LimitOf(q) >= 1
    ensures var all := OrderedRows(logs, emps, q, dateOf);
            var pages := GetAllActivityLogs(logs, emps, q, dateOf).pagination.pages.value;
            FirstPages(all, LimitOf(q), pages) == all &&
            forall p :: p > pages ==> Page(all, p, LimitOf(q)) == []
  {
    var all, limit := OrderedRows(logs, emps, q, dateOf), LimitOf(q);
    PagesCoverRows(all, limit);
    forall p | p > PageCount(|all|, limit).value ensures Page(all, p, limit) == [] {
      PastLastPage(all, p, limit);
    }
  }

  /**
   * Under the foreign key the filtered join holds each matching log once, in
   * table order, so `total` is the number of matching logs.
   */
  lemma MatchingRowsAreMatchingLogs(logs: seq<ActivityLog>, emps: seq<Employee>, q: LogQuery, dateOf: int -> string)
    requires LogsReferenceEmployees(logs, emps)
    ensures Map(MatchingRows(logs, emps, q, dateOf), (r: Row) => r.log) ==
            Filter(logs, (l: ActivityLog) => Matches(q, dateOf, l))
  {
    JoinedKeepsEveryLog(logs, emps);
    MapFilter(Joined(logs, emps), (r: Row) => r.log, (r: Row) => Matches(q, dateOf, r.log),
              (l: ActivityLog) => Matches(q, dateOf, l));
  }

  lemma ListingTotalCountsMatchingLogs(logs: seq<ActivityLog>, emps: seq<Employee>, q: LogQuery, dateOf: int -> string)
    requires LogsReferenceEmployees(logs, emps)
    ensures GetAllActivityLogs(logs, emps, q, dateOf).pagination.total ==
            |Filter(logs, (l: ActivityLog) => Matches(q, dateOf, l))|
  {
    var all := OrderedRows(logs, emps, q, dateOf);
    assert |multiset(all)| == |multiset(MatchingRows(logs, emps, q, dateOf))|;
    MatchingRowsAreMatchingLogs(logs, emps, q, dateOf);
  }

  // ---------------------------------------------------------------- check-in

  /** The `{ message, log }` body of a successful check-in or check-out. */
  datatype Recorded = Recorded(message: string, log: LogView)

  /**
   * `POST /activity/checkin`: only an active employee can receive a visitor;
   * the new log is open (no check-out time), stamped `now`, and takes the
   * next row id.
   */
  method CreateActivityLog(
    db: Database, employeeId: int, guestName: string, guestPhone: Option<string>,
    guestEmail: Option<string>, purpose: string, notes: Option<string>, now: int)
    returns (reply: Reply<Recorded>)
    requires db.Valid()
    modifies db
    ensures db.Valid()
    ensures db.employees == old(db.employees) && db.users == old(db.users)
    ensures db.nextEmployeeId == old(db.nextEmployeeId) && db.nextUserId == old(db.nextUserId)
    ensures var k := EmployeeIndex(old(db.employees), employeeId);
            if k < 0 || !old(db.employees)[k].isActive then
              reply == Error(404, "Employee not found or inactive") &&
              db.logs == old(db.logs) && db.nextLogId == old(db.nextLogId)
            else
              var log := ActivityLog(old(db.nextLogId), employeeId, guestName, guestPhone, guestEmail,
                                     purpose, now, None, notes, now);
              db.logs == old(db.logs) + [log] && db.nextLogId == old(db.nextLogId) + 1 &&
              reply == Body(201, Recorded("Check-in recorded successfully", View(Row(log, old(db.employees)[k]))))
    ensures reply.Body? ==> reply.body.log.status == "checked_in" &&
                               ActiveVisitors(db.logs) == ActiveVisitors(old(db.logs)) + 1
  {
    var k := EmployeeIndex(db.employees, employeeId);
    if k < 0 || !db.employees[k].isActive {
      return Error(404, "Employee not found or inactive");
    }
    var logs, next := db.logs, db.nextLogId;
    var log := ActivityLog(next, employeeId, guestName, guestPhone, guestEmail,
                           purpose, now, None, notes, now);
    AppendLogKeepsInvariants(logs, db.employees, next, log);
    OpenLogCounts(logs, log);
    db.logs := logs + [log];
    db.nextLogId := next + 1;
    reply := Body(201, Recorded("Check-in recorded successfully", View(Row(log, db.employees[k]))));
    assert reply.body.log.status == "checked_in";
  }

  /** A new open log adds one active visitor. */
  lemma OpenLogCounts(logs: seq<ActivityLog>, log: ActivityLog)
    requires log.checkOutTime.None?
    ensures ActiveVisitors(logs + [log]) == ActiveVisitors(logs) + 1
  {
    FilterConcat(logs, [log], IsOpen);
  }

  // ---------------------------------------------------------------- check-out

  /** The log after `UPDATE … SET check_out_time = now, notes = COALESCE(notes_in, notes)`. */
  function CheckedOut(log: ActivityLog, notes: Option<string>, now: int): (r: ActivityLog)
    ensures r.checkOutTime == Some(now)
    ensures notes.Some? ==> r.notes == notes
    ensures notes.None? ==> r.notes == log.notes
    ensures r == log.(checkOutTime := r.checkOutTime, notes := r.notes)
  {
    log.(checkOutTime := Some(now), notes := if notes.Some? then notes else log.notes)
  }

  /**
   * `PUT /activity/:id/checkout`: only an open log can be checked out. It
   * gets the check-out time `now`, its notes are replaced only when new
   * notes are given, and no other log changes.
   */
  method CheckOut(db: Database, id: int, notes: Option<string>, now: int) returns (reply: Reply<Recorded>)
    requires db.Valid()
    modifies db
    ensures db.Valid()
    ensures db.employees == old(db.employees) && db.users == old(db.users)
    ensures db.nextEmployeeId == old(db.nextEmployeeId) && db.nextLogId == old(db.nextLogId)
    ensures db.nextUserId == old(db.nextUserId)
    ensures var k := LogIndex(old(db.logs), id);
            if k < 0 || old(db.logs)[k].checkOutTime.Some? then
              reply == Error(404, "Active check-in record not found") && db.logs == old(db.logs)
            else
              var log := CheckedOut(old(db.logs)[k], notes, now);
              var e := EmployeeIndex(old(db.employees), log.employeeId);
              e >= 0 && db.logs == old(db.logs)[k := log] &&
              reply == Body(200, Recorded("Check-out recorded successfully", View(Row(log, old(db.employees)[e])))) &&
              ActiveVisitors(db.logs) + 1 == ActiveVisitors(old(db.logs))
    ensures reply.Body? ==> reply.body.log.id == id && reply.body.log.status == "checked_out" &&
                               reply.body.log.checkOutTime == Some(now)
  {
    var k := LogIndex(db.logs, id);
    if k < 0 || db.logs[k].checkOutTime.Some? {
      return Error(404, "Active check-in record not found");
    }
    var log := CheckedOut(db.logs[k], notes, now);
    FilterUpdateCount(db.logs, k, log, IsOpen);
    UpdateLogKeepsInvariants(db.logs, db.employees, db.nextLogId, k, log);
    assert EmployeeIndex(db.employees, db.logs[k].employeeId) >= 0;
    LogIndexOf(db.logs, db.nextLogId, k);
    db.logs := db.logs[k := log];
    var e := EmployeeIndex(db.employees, log.employeeId);
    reply := Body(200, Recorded("Check-out recorded successfully", View(Row(log, db.employees[e]))));
  }

  /**
   * Check-out is one way: once a log is checked out, looking it up again
   * finds it closed, so a second check-out of the same id is refused.
   */
  lemma CheckOutIsFinal(logs: seq<ActivityLog>, next: nat, k: int, notes: Option<string>, now: int)
    requires LogIdsBelow(logs, next) && 0 <= k < |logs|
    ensures var logs' := logs[k := CheckedOut(logs[k], notes, now)];
            LogIdsBelow(logs', next) &&
            var k' := LogIndex(logs', logs[k].id);
            k' == k && logs'[k'].checkOutTime.Some?
  {
    var logs' := logs[k := CheckedOut(logs[k], notes, now)];
    LogIndexOf(logs', next, k);
  }

  // ---------------------------------------------------------------- per-employee history

  datatype VisitorView = VisitorView(
    id: nat,
    guestName: string,
    guestPhone: Option<string>,
    guestEmail: Option<string>,
    purpose: string,
    checkInTime: int,
    checkOutTime: Option<int>,
    notes: Option<string>,
    status: string)

  function VisitorViewOf(l: ActivityLog): VisitorView {
    VisitorView(l.id, l.guestName, l.guestPhone, l.guestEmail, l.purpose, l.checkInTime,
                l.checkOutTime, l.notes, Status(l))
  }

  datatype VisitorPage = VisitorPage(employee: string, logs: seq<VisitorView>, pagination: Pagination)

  /** The history filter: the employee's own logs, `active` (open) or `completed` (closed) when asked. */
  predicate VisitedBy(id: int, status: Option<string>, l: ActivityLog) {
    l.employeeId == id &&
    (status == Some("active") ==> l.checkOutTime.None?) &&
    (status == Some("completed") ==> l.checkOutTime.Some?)
  }

  function NewestFirst(a: ActivityLog, b: ActivityLog): bool {
    a.checkInTime >= b.checkInTime
  }

  function EmployeeHistory(logs: seq<ActivityLog>, id: int, status: Option<string>): (r: seq<ActivityLog>)
    ensures SortedBy(r, NewestFirst)
    ensures multiset(r) == multiset(Filter(logs, (l: ActivityLog) => VisitedBy(id, status, l)))
    ensures forall k :: 0 <= k < |r| ==> VisitedBy(id, status, r[k])
  {
    var own := Filter(logs, (l: ActivityLog) => VisitedBy(id, status, l));
    assert TotalPreorder(NewestFirst);
    SortBySorted(own, NewestFirst);
    PermutationKeeps(SortBy(own, NewestFirst), own, (l: ActivityLog) => VisitedBy(id, status, l));
    SortBy(own, NewestFirst)
  }

  /** A page of the history shows the asked-for status, newest first. */
  lemma HistoryPageViews(all: seq<ActivityLog>, id: int, status: Option<string>, page: int, limit: int)
    requires SortedBy(all, NewestFirst)
    requires forall k :: 0 <= k < |all| ==> VisitedBy(id, status, all[k])
    ensures var vs := Map(Page(all, page, limit), VisitorViewOf);
            (forall k :: 0 <= k < |vs| ==>
               (status == Some("active") ==> vs[k].status == "checked_in") &&
               (status == Some("completed") ==> vs[k].status == "checked_out")) &&
            (forall i, j :: 0 <= i < j < |vs| ==> vs[i].checkInTime >= vs[j].checkInTime)
  {
    var w := Page(all, page, limit);
    var lo := Clamp(Offset(page, limit), |all|);
    assert forall k :: 0 <= k < |w| ==> w[k] == all[lo + k];
  }

  /**
   * `GET /activity/employee/:id`: 404 for an unknown employee (active or
   * not); otherwise one page of that employee's logs, newest first.
   */
  function GetEmployeeVisitors(
    logs: seq<ActivityLog>, emps: seq<Employee>, id: int, status: Option<string>,
    pageParam: Option<int>, limitParam: Option<int>)
    : (r: Reply<VisitorPage>)
    ensures r.Error? <==> EmployeeIndex(emps, id) < 0
    ensures r.Error? ==> r == Error(404, "Employee not found")
    ensures r.Body? ==>
              var body, page, limit := r.body, pageParam.GetOr(1), limitParam.GetOr(20);
              var all := EmployeeHistory(logs, id, status);
              r.code == 200 &&
              body.employee == emps[EmployeeIndex(emps, id)].name &&
              body.pagination == Pagination(page, PageCount(|all|, limit), |all|) &&
              body.logs == Map(Page(all, page, limit), VisitorViewOf) &&
              (limit >= 0 ==> |body.logs| <= limit) &&
              (forall k :: 0 <= k < |body.logs| ==>
                 (status == Some("active") ==> body.logs[k].status == "checked_in") &&
                 (status == Some("completed") ==> body.logs[k].status == "checked_out")) &&
              (forall i, j :: 0 <= i < j < |body.logs| ==> body.logs[i].checkInTime >= body.logs[j].checkInTime)
  {
    var k := EmployeeIndex(emps, id);
    var page, limit := pageParam.GetOr(1), limitParam.GetOr(20);
    if k < 0 then Error(404, "Employee not found")
    else
      var all := EmployeeHistory(logs, id, status);
      HistoryPageViews(all, id, status, page, limit);
      Body(200, VisitorPage(emps[k].name, Map(Page(all, page, limit), VisitorViewOf),
                               Pagination(page, PageCount(|all|, limit), |all|)))
  }

  /** Every log of the employee that passes the status filter is in the history, and nothing else is. */
  lemma HistoryIsExact(logs: seq<ActivityLog>, id: int, status: Option<string>, i: int)
    requires 0 <= i < |logs|
    ensures logs[i] in EmployeeHistory(logs, id, status) <==> VisitedBy(id, status, logs[i])
  {
    var f := Filter(logs, (l: ActivityLog) => VisitedBy(id, status, l));
    assert logs[i] in multiset(EmployeeHistory(logs, id, status)) <==> logs[i] in multiset(f);
  }

  // ---------------------------------------------------------------- statistics

  predicate IsOpen(l: ActivityLog) {
    l.checkOutTime.None?
  }

  predicate IsClosed(l: ActivityLog) {
    l.checkOutTime.Some?
  }

  /** `activeVisitors`: open logs, whatever day they were opened. */
  function ActiveVisitors(logs: seq<ActivityLog>): nat {
    |Filter(logs, IsOpen)|
  }

  /** `todayVisitors`: logs whose check-in falls on the calendar date of `now`. */
  function TodayVisitors(logs: seq<ActivityLog>, dateOf: int -> string, now: int): (n: nat)
    ensures n <= |logs|
  {
    |Filter(logs, (l: ActivityLog) => dateOf(l.checkInTime) == dateOf(now))|
  }

  /** `periodVisitors`: logs checked in at most `days` days (of 86400 seconds) before `now`. */
  function PeriodVisitors(logs: seq<ActivityLog>, now: int, days: int): (n: nat)
    ensures n <= |logs|
  {
    |Filter(logs, (l: ActivityLog) => l.checkInTime >= now - days * 86400)|
  }

  /** A new log adds one to today's count exactly when it was checked in on the date of `now`. */
  lemma TodayVisitorsAppend(logs: seq<ActivityLog>, log: ActivityLog, dateOf: int -> string, now: int)
    ensures TodayVisitors(logs + [log], dateOf, now) ==
            TodayVisitors(logs, dateOf, now) + (if dateOf(log.checkInTime) == dateOf(now) then 1 else 0)
  {
    FilterConcat(logs, [log], (l: ActivityLog) => dateOf(l.checkInTime) == dateOf(now));
  }

  /** A new log adds one to the period count exactly when it was checked in within the period. */
  lemma PeriodVisitorsAppend(logs: seq<ActivityLog>, log: ActivityLog, now: int, days: int)
    ensures PeriodVisitors(logs + [log], now, days) ==
            PeriodVisitors(logs, now, days) + (if log.checkInTime >= now - days * 86400 then 1 else 0)
  {
    FilterConcat(logs, [log], (l: ActivityLog) => l.checkInTime >= now - days * 86400);
  }

  /** Every log is either open or closed, so the open and the closed ones add up to all logs. */
  lemma OpenAndClosedPartition(logs: seq<ActivityLog>)
    ensures ActiveVisitors(logs) + |Filter(logs, IsClosed)| == |logs|
  {
    FilterComplement(logs, IsOpen, IsClosed);
  }

  /** A longer look-back period counts at least as many visitors. */
  lemma {:induction false} PeriodVisitorsMonotone(logs: seq<ActivityLog>, now: int, d1: int, d2: int)
    requires d1 <= d2
    ensures PeriodVisitors(logs, now, d1) <= PeriodVisitors(logs, now, d2)
    decreases |logs|
  {
    if logs != [] {
      PeriodVisitorsMonotone(logs[1..], now, d1, d2);
      assert d1 * 86400 <= d2 * 86400;
    }
  }
}
