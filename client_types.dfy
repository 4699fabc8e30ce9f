/**
 * `src/types/index.ts`: the records the browser client works with. Ids are
 * strings on this side of the API; the string unions are enumerations.
 */
module ClientTypes {
  import opened Common

  /** An employee as the client holds it. */
  datatype Employee = Employee(
    id: string,
    name: string,
    email: string,
    department: string,
    position: string,
    photo: Option<string>,
    isActive: bool,
    createdAt: string,
    updatedAt: string)

  /** `'pending' | 'notified' | 'failed'`: the only three states of a visit notice. */
  datatype VisitStatus = Pending | Notified | Failed

  /** A visit as the activity page lists it; `timestamp` is milliseconds since the epoch. */
  datatype VisitorLog = VisitorLog(
    id: string,
    visitorName: string,
    employeeId: string,
    employeeName: string,
    timestamp: int,
    status: VisitStatus)

  datatype NotifyMethod = EmailMethod | Slack | Teams

  datatype NotificationSettings = NotificationSettings(channel: NotifyMethod, enabled: bool, customMessage: Option<string>)

  datatype AdminRole = Admin | Manager

  datatype AdminUser = AdminUser(id: string, username: string, role: AdminRole)

  datatype AuthState = AuthState(user: Option<AdminUser>, isAuthenticated: bool, isLoading: bool)
}
