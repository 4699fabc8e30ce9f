/**
 * `notificationController.ts`: how a visitor notification is fanned out to
 * an employee's email address and phone, and how the per-channel results,
 * the overall verdict and the bulk summary are put together. The mail and
 * SMS senders are oracles (`sendVisitorNotification`,
 * `sendSMSNotification`); every call made to them is recorded in a call
 * log, so "the sender is not called" is a statement about that log.
 */
module NotificationController {
  import opened Common
  import opened Seqs
  import opened Store

  /** The request body of `POST /notifications/send`. */
  datatype NotificationRequest = NotificationRequest(
    notificationType: string,
    employeeId: int,
    guestName: string,
    guestPhone: Option<string>,
    guestEmail: Option<string>,
    purpose: string,
    message: Option<string>)

  /** What one sender call does: resolves to `true`, resolves to `false`, or throws. */
  datatype SendOutcome = Sent | NotSent | Threw

  /** A sender oracle: the outcome of sending `request` to an address. */
  type Sender = (string, NotificationRequest) -> SendOutcome

  datatype Channel = EmailChannel | SmsChannel

  /** One call made to a sender. */
  datatype Call = Call(channel: Channel, address: string, request: NotificationRequest)

  /** `{ success, message }` for one channel. */
  datatype ChannelResult = ChannelResult(success: bool, message: string)

  /** The record a channel keeps when it is not requested. */
  const Untried := ChannelResult(false, "")

  /** The four messages a channel reports; the single and the bulk endpoint word them differently. */
  datatype Wording = Wording(unavailable: string, sent: string, failed: string, serviceError: string)

  const SingleEmail := Wording("Employee email not available", "Email sent successfully", "Failed to send email", "Email service error")
  const SingleSms := Wording("Employee phone number not available", "SMS sent successfully", "Failed to send SMS", "SMS service error")
  const BulkEmail := Wording("No email address", "Sent", "Failed", "Service error")
  const BulkSms := Wording("No phone number", "Sent", "Failed", "Service error")

  /** `type === 'email' || type === 'both'`, and likewise for `sms`. */
  predicate Requested(notificationType: string, ch: Channel) {
    notificationType == "both" ||
    (ch == EmailChannel && notificationType == "email") ||
    (ch == SmsChannel && notificationType == "sms")
  }

  /** The channel reaches its sender and the sender resolves to `true`. */
  predicate Delivered(requested: bool, address: Option<string>, send: Sender, request: NotificationRequest) {
    requested && Truthy(address) && send(address.value, request) == Sent
  }

  /**
   * One channel's result: the default when not requested, "not available"
   * when the address is falsy, otherwise the sender's verdict, with a
   * thrown error caught as a failure.
   */
  function ChannelReport(requested: bool, address: Option<string>, send: Sender, request: NotificationRequest, w: Wording): (r: ChannelResult)
    ensures r.success <==> Delivered(requested, address, send, request)
    ensures !requested ==> r == Untried
    ensures requested && !Truthy(address) ==> r == ChannelResult(false, w.unavailable)
    ensures requested && Truthy(address) ==>
      r.message == (match send(address.value, request)
                    case Sent => w.sent
                    case NotSent => w.failed
                    case Threw => w.serviceError)
  {
    if !requested then Untried
    else if !Truthy(address) then ChannelResult(false, w.unavailable)
    else
      match send(address.value, request)
      case Sent => ChannelResult(true, w.sent)
      case NotSent => ChannelResult(false, w.failed)
      case Threw => ChannelResult(false, w.serviceError)
  }

  /** A channel with no usable address gives the same result whatever its sender would do. */
  lemma MissingAddressIgnoresSender(requested: bool, address: Option<string>, send1: Sender, send2: Sender,
                                    request: NotificationRequest, w: Wording)
    requires !Truthy(address)
    ensures ChannelReport(requested, address, send1, request, w) == ChannelReport(requested, address, send2, request, w)
  {
  }

  /** The sender calls one channel makes: one call exactly when it is requested and has an address. */
  function ChannelCalls(requested: bool, ch: Channel, address: Option<string>, request: NotificationRequest): (calls: seq<Call>)
    ensures |calls| <= 1
    ensures |calls| == 1 <==> requested && Truthy(address)
    ensures forall c :: c in calls ==> c == Call(ch, address.value, request)
  {
    if requested && Truthy(address) then [Call(ch, address.value, request)] else []
  }

  /** `overallSuccess`: the requested channel succeeded, or either one for `both`. */
  function OverallSuccess(notificationType: string, email: ChannelResult, sms: ChannelResult): bool {
    (notificationType == "email" && email.success) ||
    (notificationType == "sms" && sms.success) ||
    (notificationType == "both" && (email.success || sms.success))
  }

  /** The overall verdict holds exactly when some channel was delivered. */
  lemma OverallMeansSomeDelivery(request: NotificationRequest, emailAddress: Option<string>, phone: Option<string>,
                                 sendEmail: Sender, sendSms: Sender, we: Wording, ws: Wording)
    ensures var t := request.notificationType;
      OverallSuccess(t, ChannelReport(Requested(t, EmailChannel), emailAddress, sendEmail, request, we),
                        ChannelReport(Requested(t, SmsChannel), phone, sendSms, request, ws))
      <==> Delivered(Requested(t, EmailChannel), emailAddress, sendEmail, request) ||
           Delivered(Requested(t, SmsChannel), phone, sendSms, request)
  {
  }

  /**
   * Try the requested channels of one notification in turn, email first,
   * overwriting each channel's default result with what happened.
   */
  method Dispatch(t: string, emailAddress: Option<string>, phone: Option<string>, request: NotificationRequest,
                  sendEmail: Sender, sendSms: Sender, we: Wording, ws: Wording)
    returns (email: ChannelResult, sms: ChannelResult, made: seq<Call>)
    ensures email == ChannelReport(Requested(t, EmailChannel), emailAddress, sendEmail, request, we)
    ensures sms == ChannelReport(Requested(t, SmsChannel), phone, sendSms, request, ws)
    ensures made == ChannelCalls(Requested(t, EmailChannel), EmailChannel, emailAddress, request) +
                    ChannelCalls(Requested(t, SmsChannel), SmsChannel, phone, request)
  {
    email, sms := Untried, Untried;
    made := [];
    if t == "email" || t == "both" {
      if !Truthy(emailAddress) {
        email := ChannelResult(false, we.unavailable);
      } else {
        var outcome := sendEmail(emailAddress.value, request);
        made := made + [Call(EmailChannel, emailAddress.value, request)];
        email := match outcome
          case Sent => ChannelResult(true, we.sent)
          case NotSent => ChannelResult(false, we.failed)
          case Threw => ChannelResult(false, we.serviceError);
      }
    }
    if t == "sms" || t == "both" {
      if !Truthy(phone) {
        sms := ChannelResult(false, ws.unavailable);
      } else {
        var outcome := sendSms(phone.value, request);
        made := made + [Call(SmsChannel, phone.value, request)];
        sms := match outcome
          case Sent => ChannelResult(true, ws.sent)
          case NotSent => ChannelResult(false, ws.failed)
          case Threw => ChannelResult(false, ws.serviceError);
      }
    }
  }

  // ---------------------------------------------------------------- sendNotification

  /** The contact details echoed back in the reply. */
  datatype Contact = Contact(name: string, email: string, phone: Option<string>)

  datatype NotificationReport = NotificationReport(message: string, employee: Contact, email: ChannelResult, sms: ChannelResult)

  /** `SELECT … FROM employees WHERE id = ? AND is_active = 1` found a row. */
  predicate ActiveEmployee(emps: seq<Employee>, id: int) {
    var k := EmployeeIndex(emps, id);
    k >= 0 && emps[k].isActive
  }

  /**
   * `sendNotification`: look the employee up, try each requested channel in
   * turn (email, then SMS), and answer 200 when the overall verdict holds,
   * 500 otherwise.
   */
  method SendNotification(db: Database, request: NotificationRequest, sendEmail: Sender, sendSms: Sender)
    returns (reply: Reply<NotificationReport>, calls: seq<Call>)
    ensures !ActiveEmployee(db.employees, request.employeeId) ==>
      reply == Error(404, "Employee not found or inactive") && calls == []
    ensures ActiveEmployee(db.employees, request.employeeId) ==>
      var e := db.employees[EmployeeIndex(db.employees, request.employeeId)];
      var t := request.notificationType;
      var wantEmail, wantSms := Requested(t, EmailChannel), Requested(t, SmsChannel);
      var email := ChannelReport(wantEmail, Some(e.email), sendEmail, request, SingleEmail);
      var sms := ChannelReport(wantSms, e.phone, sendSms, request, SingleSms);
      var delivered := Delivered(wantEmail, Some(e.email), sendEmail, request) || Delivered(wantSms, e.phone, sendSms, request);
      reply.Body? &&
      reply.body.employee == Contact(e.name, e.email, e.phone) &&
      reply.body.email == email && reply.body.sms == sms &&
      (reply.code == 200 <==> delivered) &&
      (reply.code == 200 || reply.code == 500) &&
      reply.body.message == (if delivered then "Notification sent successfully" else "Failed to send notification") &&
      calls == ChannelCalls(wantEmail, EmailChannel, Some(e.email), request) +
               ChannelCalls(wantSms, SmsChannel, e.phone, request)
  {
    var k := EmployeeIndex(db.employees, request.employeeId);
    if k < 0 || !db.employees[k].isActive {
      return Error(404, "Employee not found or inactive"), [];
    }
    var e := db.employees[k];
    var t := request.notificationType;
    var email, sms;
    email, sms, calls := Dispatch(t, Some(e.email), e.phone, request, sendEmail, sendSms, SingleEmail, SingleSms);
    OverallMeansSomeDelivery(request, Some(e.email), e.phone, sendEmail, sendSms, SingleEmail, SingleSms);
    var overall := OverallSuccess(t, email, sms);
    var code := if overall then 200 else 500;
    reply := Body(code, NotificationReport(
      if overall then "Notification sent successfully" else "Failed to send notification",
      Contact(e.name, e.email, e.phone), email, sms));
  }

  // ---------------------------------------------------------------- bulkNotify

  /** One entry of the bulk `results` array. */
  datatype BulkResult = BulkResult(employeeId: nat, employeeName: string, email: ChannelResult, sms: ChannelResult)

  datatype Summary = Summary(totalEmployees: nat, successfulEmails: nat, successfulSms: nat)

  datatype BulkReport = BulkReport(message: string, summary: Summary, results: seq<BulkResult>)

  /** `WHERE id IN (…) AND is_active = 1`. */
  function ActiveAmong(ids: seq<int>): Employee -> bool {
    (e: Employee) => e.isActive && e.id in ids
  }

  /** The rows the bulk query returns, in table order. */
  function BulkRecipients(emps: seq<Employee>, ids: seq<int>): seq<Employee> {
    Filter(emps, ActiveAmong(ids))
  }

  /** The notification built for one recipient: the shared fields with that employee's id. */
  function RequestFor(template: NotificationRequest, e: Employee): NotificationRequest {
    template.(employeeId := e.id)
  }

  function BulkResultFor(template: NotificationRequest, sendEmail: Sender, sendSms: Sender, e: Employee): BulkResult {
    var t := template.notificationType;
    var request := RequestFor(template, e);
    BulkResult(e.id, e.name,
      ChannelReport(Requested(t, EmailChannel), Some(e.email), sendEmail, request, BulkEmail),
      ChannelReport(Requested(t, SmsChannel), e.phone, sendSms, request, BulkSms))
  }

  function CallsFor(template: NotificationRequest, e: Employee): seq<Call> {
    var t := template.notificationType;
    var request := RequestFor(template, e);
    ChannelCalls(Requested(t, EmailChannel), EmailChannel, Some(e.email), request) +
    ChannelCalls(Requested(t, SmsChannel), SmsChannel, e.phone, request)
  }

  /** Every sender call of the fan-out, recipient by recipient. */
  function FanOutCalls(template: NotificationRequest, es: seq<Employee>): seq<Call> {
    if es == [] then [] else FanOutCalls(template, es[..|es| - 1]) + CallsFor(template, es[|es| - 1])
  }

  predicate EmailSucceeded(r: BulkResult) {
    r.email.success
  }

  predicate SmsSucceeded(r: BulkResult) {
    r.sms.success
  }

  /** The recipients whose email (resp. SMS) was delivered. */
  function EmailDeliveredTo(template: NotificationRequest, sendEmail: Sender): Employee -> bool {
    (e: Employee) => Delivered(Requested(template.notificationType, EmailChannel), Some(e.email), sendEmail, RequestFor(template, e))
  }

  function SmsDeliveredTo(template: NotificationRequest, sendSms: Sender): Employee -> bool {
    (e: Employee) => Delivered(Requested(template.notificationType, SmsChannel), e.phone, sendSms, RequestFor(template, e))
  }

  /** Two sequences that agree pointwise on `p` and `q` have as many elements satisfying each. */
  lemma {:induction false} FilterCountsAgree<T, U>(a: seq<T>, p: T -> bool, b: seq<U>, q: U -> bool)
    requires |a| == |b|
    requires forall i :: 0 <= i < |a| ==> (p(a[i]) <==> q(b[i]))
    ensures |Filter(a, p)| == |Filter(b, q)|
    decreases |a|
  {
    if a != [] {
      FilterCountsAgree(a[1..], p, b[1..], q);
    }
  }

  /** The `for … of employees` loop: notify each recipient in turn and collect its result. */
  method FanOut(found: seq<Employee>, template: NotificationRequest, sendEmail: Sender, sendSms: Sender)
    returns (results: seq<BulkResult>, calls: seq<Call>)
    ensures |results| == |found|
    ensures forall k :: 0 <= k < |found| ==> results[k] == BulkResultFor(template, sendEmail, sendSms, found[k])
    ensures calls == FanOutCalls(template, found)
  {
    results := [];
    calls := [];
    var i := 0;
    while i < |found|
      invariant 0 <= i <= |found|
      invariant |results| == i
      invariant forall k :: 0 <= k < i ==> results[k] == BulkResultFor(template, sendEmail, sendSms, found[k])
      invariant calls == FanOutCalls(template, found[..i])
    {
      var e := found[i];
      var email, sms, made := Dispatch(template.notificationType, Some(e.email), e.phone, RequestFor(template, e),
                                       sendEmail, sendSms, BulkEmail, BulkSms);
      assert BulkResult(e.id, e.name, email, sms) == BulkResultFor(template, sendEmail, sendSms, e);
      results := results + [BulkResult(e.id, e.name, email, sms)];
      assert found[..i + 1][..i] == found[..i];
      calls := calls + made;
      i := i + 1;
    }
    assert found[..|found|] == found;
  }

  /** The summary's success counts are the numbers of recipients whose email, resp. SMS, was delivered. */
  lemma SummaryCounts(results: seq<BulkResult>, found: seq<Employee>, template: NotificationRequest, sendEmail: Sender, sendSms: Sender)
    requires |results| == |found|
    requires forall k :: 0 <= k < |found| ==> results[k] == BulkResultFor(template, sendEmail, sendSms, found[k])
    ensures |Filter(results, EmailSucceeded)| == |Filter(found, EmailDeliveredTo(template, sendEmail))|
    ensures |Filter(results, SmsSucceeded)| == |Filter(found, SmsDeliveredTo(template, sendSms))|
  {
    FilterCountsAgree(results, EmailSucceeded, found, EmailDeliveredTo(template, sendEmail));
    FilterCountsAgree(results, SmsSucceeded, found, SmsDeliveredTo(template, sendSms));
  }

  /**
   * `bulkNotify`: 400 without a non-empty id list, 404 when none of the ids
   * is an active employee, otherwise one result per recipient found and a
   * summary of how many emails and SMS got through.
   */
  method BulkNotify(db: Database, ids: Option<seq<int>>, template: NotificationRequest, sendEmail: Sender, sendSms: Sender)
    returns (reply: Reply<BulkReport>, calls: seq<Call>)
    ensures ids.None? || ids.value == [] ==>
      reply == Error(400, "Employee IDs array is required") && calls == []
    ensures ids.Some? && ids.value != [] && BulkRecipients(db.employees, ids.value) == [] ==>
      reply == Error(404, "No active employees found") && calls == []
    ensures ids.Some? && ids.value != [] && BulkRecipients(db.employees, ids.value) != [] ==>
      var found := BulkRecipients(db.employees, ids.value);
      reply.Body? && reply.code == 200 && reply.body.message == "Bulk notification completed" &&
      |reply.body.results| == |found| &&
      (forall k :: 0 <= k < |found| ==> reply.body.results[k] == BulkResultFor(template, sendEmail, sendSms, found[k])) &&
      reply.body.summary == Summary(|found|,
                                    |Filter(found, EmailDeliveredTo(template, sendEmail))|,
                                    |Filter(found, SmsDeliveredTo(template, sendSms))|) &&
      calls == FanOutCalls(template, found)
  {
    if ids.None? || ids.value == [] {
      return Error(400, "Employee IDs array is required"), [];
    }
    var found := BulkRecipients(db.employees, ids.value);
    if found == [] {
      return Error(404, "No active employees found"), [];
    }
    var results;
    results, calls := FanOut(found, template, sendEmail, sendSms);
    SummaryCounts(results, found, template, sendEmail, sendSms);
    var summary := Summary(|results|, |Filter(results, EmailSucceeded)|, |Filter(results, SmsSucceeded)|);
    reply := Body(200, BulkReport("Bulk notification completed", summary, results));
  }

  /**
   * The bulk recipients are exactly the distinct active employees listed,
   * in ascending id order, so no employee is notified twice however often
   * its id is repeated.
   */
  lemma BulkRecipientsAreDistinct(emps: seq<Employee>, next: nat, ids: seq<int>)
    requires EmployeeIdsBelow(emps, next)
    ensures var found := BulkRecipients(emps, ids);
      (forall i, j :: 0 <= i < j < |found| ==> found[i].id < found[j].id) &&
      (forall k :: 0 <= k < |found| ==> found[k].isActive && found[k].id in ids) &&
      (forall e :: e in emps && e.isActive && e.id in ids ==> e in found)
  {
    FilterKeepsSortedBy(emps, ActiveAmong(ids), EmployeeIdBefore);
  }

  // ---------------------------------------------------------------- configuration tests

  /** `testEmailConfiguration` and `testSMSConfiguration`: a missing address is 400; a throwing sender escapes to the 500 handler. */
  function TestConfiguration(address: Option<string>, send: string -> SendOutcome, missing: string, sent: string, failed: string): (r: Reply<ChannelResult>)
    ensures !Truthy(address) ==> r == Error(400, missing)
    ensures Truthy(address) && send(address.value) == Threw ==> r == Error(500, "Internal server error")
    ensures r.Body? <==> Truthy(address) && send(address.value) != Threw
    ensures r.Body? ==> (r.code == 200 <==> r.body.success) && (r.code == 200 || r.code == 500)
    ensures r.Body? ==> r.body.message == (if r.body.success then sent else failed)
  {
    if !Truthy(address) then Error(400, missing)
    else
      match send(address.value)
      case Threw => Error(500, "Internal server error")
      case Sent => Body(200, ChannelResult(true, sent))
      case NotSent => Body(500, ChannelResult(false, failed))
  }

  function TestEmailConfiguration(email: Option<string>, sendTestEmail: string -> SendOutcome): Reply<ChannelResult> {
    TestConfiguration(email, sendTestEmail, "Email address is required", "Test email sent successfully", "Failed to send test email")
  }

  function TestSmsConfiguration(phone: Option<string>, sendTestSms: string -> SendOutcome): Reply<ChannelResult> {
    TestConfiguration(phone, sendTestSms, "Phone number is required", "Test SMS sent successfully", "Failed to send test SMS")
  }
}
