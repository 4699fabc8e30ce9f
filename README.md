# doors: a verified model of the visitor check-in service

doors is a visitor check-in service. A kiosk shows a directory of employees. A
visitor picks the person they are here to see, and that employee is notified by
email or SMS. Each visit is logged as an activity record that stays checked in
until it is checked out. An administration area manages employees, lists the
visit log, and sends notifications. It sits behind a JWT login whose inputs
are checked by express-validator chains, and photos are uploaded through multer.
Errors are mapped to HTTP status codes by one error handler. The repository also
holds an older single-file Express server (`app.js`) that keeps employees and
visits in in-memory arrays.

This project models the server's business rules in Dafny:

- The three SQLite tables become sequences of rows in one `Store.Database`
  object. The schema's guarantees (ascending AUTOINCREMENT ids, `email UNIQUE`,
  `username UNIQUE`, the log-to-employee foreign key) are its `Valid` invariant.
- Every mutating controller is a method that keeps `Valid`. Its `ensures` give
  the whole new state and the reply on every branch.
- The uploads directory is a set of file names.
- The read-only listings are functions. They are tied by lemmas to
  order-independent reference definitions: "exactly the rows that match", "pages
  tile the result", "counts add up".

The client-side logic is modelled as well:

- the rate-limit hook as a class;
- the shared-state reducer;
- the search and status filters of the kiosk and admin pages;
- the relative-time buckets of the visit list.

The legacy `app.js` arrays are the fields of a `LegacyApp.App` object, which
its route handlers update in place.

Everything outside the code is a parameter:

- time (`now`), the calendar date of a timestamp (`dateOf`) and the uploaded
  file's generated name;
- bcrypt (`hash`, `matches`) and JWT (`sign`, `verify`);
- the two notification senders, which return a `SendOutcome`: sent, not sent,
  or threw;
- express-validator's `isEmail` and `isMobilePhone`.

Server timestamps are whole seconds. Client and legacy timestamps are whole
milliseconds.

Shared modules:

- `Common`: `Option`, JavaScript truthiness of optional strings, and the
  `Reply` type (a body with a status code, or `{ error }` with a code).
- `Seqs`: filter, map, subsequence and a stable insertion sort.
- `Text`: ASCII lower-casing, substring search, trimming, splitting and
  `NatToString`.
- `Paging`: SQLite `LIMIT`/`OFFSET` and `Math.ceil` page counts.
- `SqlLike`: SQLite's `LIKE`.

## Model

| member | source | states |
|---|---|---|
| Store.Database.constructor | server/config/database.ts:17-60 | An empty database satisfies the schema invariant: ids ascending below their AUTOINCREMENT counters, unique emails and usernames, and every log's `employee_id` naming an existing employee. |
| Store.EmployeeIndex | server/controllers/employeeController.ts:73 | The lookup by id finds a row with that id, or -1 exactly when no row has it. |
| Store.EmailIndex | server/controllers/employeeController.ts:106 | The lookup by email finds a row with that email, or -1 exactly when none has it. |
| Store.UsernameIndex | server/controllers/authController.ts:11 | The lookup by username finds the row with that name, or -1 exactly when none has it. |
| Store.AppendEmployeeKeepsInvariants | server/config/database.ts:31-42 | Inserting an employee with the next id and an unused email keeps ids ascending, emails unique and every log's reference intact. |
| Store.ReplaceEmployeeKeepsInvariants | server/config/database.ts:36 | Rewriting a row in place with its own id and an email no other row has keeps every invariant. |
| Store.FilterKeepsEmployeeInvariants | server/config/database.ts:31-42 | Deleting any set of employees keeps ids ascending and emails unique. |
| Store.AppendLogKeepsInvariants | server/config/database.ts:47-59 | Inserting a log with the next id for an existing employee keeps the log invariants. |
| Store.UpdateLogKeepsInvariants | server/config/database.ts:47-59 | Updating a log without changing its id or employee keeps the log invariants. |
| Store.CascadeKeepsReferences | server/config/database.ts:58 | After deleting an employee together with its logs (`ON DELETE CASCADE`), every remaining log still refers to a remaining employee. |
| Store.AppendUserKeepsInvariants | server/config/database.ts:20-26 | Inserting a user with the next id and an unused username keeps ids ascending and usernames unique. |
| Store.EmployeeIndexOf | server/config/database.ts:32 | Because ids ascend, looking up the id of row k finds row k. |
| Store.LogIndexOf | server/config/database.ts:48 | Because log ids ascend, looking up the id of log k finds log k. |
| Store.UserIndexOf | server/config/database.ts:21 | Because user ids ascend, looking up the id of user k finds user k. |
| Paging.SqlWindow | server/controllers/activityController.ts:41-46 | `LIMIT`/`OFFSET` returns a contiguous run of the ordered rows that starts at the clamped offset and holds at most `limit` rows when the limit is non-negative. |
| Paging.PageCount | server/controllers/activityController.ts:70 | `Math.ceil(total / limit)`. It is null when the limit is 0. For a positive limit it is the least count whose pages hold all the rows, and 0 when there are no rows. For a negative limit, reachable on the unvalidated employee listing, it is the non-positive ceiling of the negative quotient. |
| Paging.PageElements | server/controllers/activityController.ts:44 | Page p holds exactly the existing rows at indices [(p-1)·limit, p·limit). |
| Paging.WindowElements | server/controllers/employeeController.ts:37-39 | A window at a non-negative offset holds the rows that exist from that offset on, up to the limit. |
| Paging.OffsetOfPage | server/controllers/employeeController.ts:37 | The offset `(page - 1) * limit` of page p ends where page p+1 begins. |
| Paging.FirstPagesPrefix | server/controllers/activityController.ts:41-44 | Pages 1..n laid end to end are the first n·limit rows. |
| Paging.PagesCoverRows | server/controllers/employeeController.ts:34-59 | Pages 1..`pages` together are exactly the rows, in order. No row is missed or repeated. |
| Paging.PastLastPage | server/controllers/activityController.ts:70 | A page number beyond `pages` is empty. |
| Paging.CeilingBounds | server/controllers/employeeController.ts:59 | The integer ceiling meets both bounds of `Math.ceil`. |
| Paging.NegativeCeilingBounds | server/controllers/employeeController.ts:59 | With a negative limit, the negated floor quotient is the least integer at or above `total / limit`. |
| SqlLike.PercentMatchesAll | server/controllers/employeeController.ts:23-24 | `%` matches every text. |
| SqlLike.LiteralPrefix | server/controllers/employeeController.ts:23-24 | A wildcard-free literal followed by `%` matches exactly the texts that start with it, ignoring ASCII case. |
| SqlLike.PercentSkips | server/controllers/employeeController.ts:23-24 | A leading `%` matches exactly when the rest of the pattern matches some suffix. |
| SqlLike.ContainsMeansIncludes | server/controllers/employeeController.ts:23-24 | For a term without wildcards, `text LIKE '%term%'` holds exactly when the lower-cased term occurs in the lower-cased text. |
| ActivityController.Status | server/controllers/activityController.ts:63 | A log is reported `checked_in` exactly when its check-out time is null, and `checked_out` otherwise. |
| ActivityController.Joined | server/controllers/activityController.ts:9-11 | The inner join yields rows of logs with their own employee. Every log whose employee exists appears. |
| ActivityController.JoinedKeepsEveryLog | server/config/database.ts:47-59 | When every log's employee exists, as the foreign key guarantees, the join's logs are the log table itself, in order: none is dropped and none repeated. |
| ActivityController.LaterFirstIsTotal | server/controllers/activityController.ts:41 | `ORDER BY check_in_time DESC` is a total preorder. |
| ActivityController.OrderedRows | server/controllers/activityController.ts:16-41 | The result is sorted newest check-in first. It is a permutation of the joined rows that match every supplied filter. |
| ActivityController.PageViews | server/controllers/activityController.ts:41-64 | Any page of the sorted matching rows shows only matching logs, newest first. |
| ActivityController.GetAllActivityLogs | server/controllers/activityController.ts:4-73 | An absent `page` is 1 and an absent `limit` 20. `total` counts the matching joined rows and `pages` is `ceil(total/limit)`. The page is the requested slice of the sorted matches, every listed log satisfies every filter, and the list is newest first. |
| ActivityController.ListingIsExact | server/controllers/activityController.ts:16-30 | A joined log is among the listed rows exactly when it matches the employee, date and status filters. |
| ActivityController.ListingPagesCoverAll | server/controllers/activityController.ts:41-70 | Together, pages 1..`pages` of the listing are every matching log once, and every later page is empty. |
| ActivityController.MatchingRowsAreMatchingLogs | server/controllers/activityController.ts:8-30 | Under the foreign key, the logs of the filtered join are exactly the logs that pass every filter, in table order. |
| ActivityController.ListingTotalCountsMatchingLogs | server/controllers/activityController.ts:33-38 | Under the foreign key, `total` is the number of logs that pass every filter. |
| ActivityController.CreateActivityLog | server/controllers/activityController.ts:80-130 | A missing or inactive employee gives 404 "Employee not found or inactive" and inserts nothing. Otherwise exactly one open log stamped `now` is appended with the next id, the reply is 201 with "Check-in recorded successfully" and the new log joined with its employee, with status `checked_in`, and active visitors grow by one. |
| ActivityController.OpenLogCounts | server/controllers/activityController.ts:200-203 | Appending an open log adds one active visitor. |
| ActivityController.CheckedOut | server/controllers/activityController.ts:145-151 | Check-out sets the check-out time. It replaces the notes only when notes are given (`COALESCE`) and changes nothing else in the log. |
| ActivityController.CheckOut | server/controllers/activityController.ts:133-185 | An unknown or already closed log gives 404 "Active check-in record not found" and changes nothing. Otherwise only that log is closed: its check-out time is `now` and its notes are replaced only when notes are given. The reply is 200 with "Check-out recorded successfully" and that log joined with its employee, status `checked_out`. Active visitors drop by one. |
| ActivityController.CheckOutIsFinal | server/controllers/activityController.ts:139-142 | After a check-out the same id finds a closed log, so a second check-out is refused: the transition happens once. |
| ActivityController.EmployeeHistory | server/controllers/activityController.ts:278-292 | An employee's history is sorted newest first. It is a permutation of that employee's logs that pass the `active`/`completed` filter. |
| ActivityController.HistoryPageViews | server/controllers/activityController.ts:280-308 | A page of the history shows `checked_in` logs only under `active` and `checked_out` only under `completed`, newest first. |
| ActivityController.GetEmployeeVisitors | server/controllers/activityController.ts:266-323 | An unknown employee gives 404 "Employee not found", active or not. Otherwise the reply carries the employee's name, the requested page of the history (page 1 and limit 20 by default) and its pagination. |
| ActivityController.HistoryIsExact | server/controllers/activityController.ts:278-284 | A log is in the history exactly when it is the employee's and passes the status filter. |
| ActivityController.TodayVisitors | server/controllers/activityController.ts:193-197 | Today's count never exceeds the number of logs. |
| ActivityController.TodayVisitorsAppend | server/controllers/activityController.ts:193-197 | A new log raises today's count by one exactly when its check-in falls on the calendar date of `now`, and leaves it unchanged otherwise. |
| ActivityController.PeriodVisitors | server/controllers/activityController.ts:207-211 | The period count never exceeds the number of logs. |
| ActivityController.PeriodVisitorsAppend | server/controllers/activityController.ts:207-211 | A new log raises the period count by one exactly when it was checked in no more than `days` days before `now`. |
| ActivityController.OpenAndClosedPartition | server/controllers/activityController.ts:200-204 | Active visitors (open logs, whatever their date) plus closed logs are all the logs. |
| ActivityController.PeriodVisitorsMonotone | server/controllers/activityController.ts:207-211 | A longer look-back period never counts fewer visitors. |
| EmployeeController.NewerFirstIsTotal | server/controllers/employeeController.ts:34 | `ORDER BY created_at DESC` is a total preorder. |
| EmployeeController.OrderedEmployees | server/controllers/employeeController.ts:12-34 | The result is sorted newest first and is a permutation of the employees that match every supplied filter. |
| EmployeeController.PageOfMatches | server/controllers/employeeController.ts:34-39 | Every page of the ordered matches holds only matching employees, newest first. |
| EmployeeController.GetAllEmployees | server/controllers/employeeController.ts:5-62 | Page and limit default to 1 and 20. `total` counts every matching employee and `pages` is `ceil(total/limit)`. The page is the requested slice of the ordered matches, each listed employee matches, and the list is newest first. |
| EmployeeController.EmployeeListingIsExact | server/controllers/employeeController.ts:12-26 | An employee is listed on some page exactly when it matches the department, active and search filters. |
| EmployeeController.SearchIsSubstring | server/controllers/employeeController.ts:22-25 | For a search term without wildcards, the filter is department equality, the active flag, and the lower-cased term inside the name, email, department or position. |
| EmployeeController.NoFilterListsAll | server/controllers/employeeController.ts:9-26 | Without filters every employee is listed. |
| EmployeeController.GetEmployeeById | server/controllers/employeeController.ts:69-97 | The reply is 404 "Employee not found" exactly when no row has the id. Otherwise it is 200 with the row that has it. |
| EmployeeController.Tally | server/controllers/employeeController.ts:295-301 | The groups are ordered by name. Each department's count is its number of active employees, and the counts add up to all active employees. |
| EmployeeController.GetDepartments | server/controllers/employeeController.ts:293-307 | Departments are strictly ascending. Each count is that department's active-employee count, and it is at least 1. Every active employee's department is listed, and the counts add up to all active employees. |
| EmployeeController.BumpCounts | server/controllers/employeeController.ts:297-300 | Counting one more employee of a department keeps the groups ordered and positive, and adds one to that department and to the total only. |
| EmployeeController.CountOfRows | server/controllers/employeeController.ts:299-300 | In ordered groups, each row's count is the count read for its name, and a positive count has a row. |
| EmployeeController.ActiveAreCounted | server/controllers/employeeController.ts:298-299 | Every active employee's department appears among the groups. |
| EmployeeController.Discarded | server/middleware/upload.ts:53-65 | Deleting a photo removes that name (when non-empty) and nothing else. An empty name leaves the files as they are. |
| EmployeeController.PhotoOf | server/controllers/employeeController.ts:103 | The `photo` column is `/uploads/<file>` for an upload and null without one. |
| EmployeeController.DiscardUpload | server/controllers/employeeController.ts:108-111 | On a failed request the just-uploaded file is removed. |
| EmployeeController.DiscardStoredPhoto | server/controllers/employeeController.ts:278-283 | The file behind an employee's current photo URL is removed when it has one. |
| EmployeeController.CreateEmployee | server/controllers/employeeController.ts:100-150 | A taken email gives 400 "Employee with this email already exists", inserts nothing and deletes the upload. Otherwise one row is appended with the next id, `isActive` defaulting to true and `photo` to null, and the reply is 201. The new row is found again by its id. |
| EmployeeController.Changed | server/controllers/employeeController.ts:183-217 | Every supplied field is replaced, every other field is kept, a new upload replaces the photo, and `updated_at` is stamped. The id and creation time never change. |
| EmployeeController.UpdateOutcomeOf | server/controllers/employeeController.ts:160-223 | The update stops with 404 exactly when the id is unknown. It stops with "email taken" exactly when the row exists and a non-empty new email, different from the row's own, is held by another employee. It succeeds only on the row with that id. |
| EmployeeController.OwnEmailIsAllowed | server/controllers/employeeController.ts:169-175 | Sending one's own email back, or no email, is never reported as taken and never conflicts. |
| EmployeeController.ConflictNeedsEmptyEmail | server/controllers/employeeController.ts:169-231 | With unique emails the `UPDATE` can break the `UNIQUE` constraint only through an empty email, which skips the taken check. |
| EmployeeController.NoFieldsIsRefused | server/controllers/employeeController.ts:219-223 | A request with nothing to change, for an existing row, gets 400 "No fields to update". |
| EmployeeController.ChangedIdempotent | server/controllers/employeeController.ts:183-217 | Applying the same changes twice is applying them once at the later time. |
| EmployeeController.ChangedAllFields | server/controllers/employeeController.ts:183-217 | Supplying every field rewrites the whole row except its id and creation time. |
| EmployeeController.UpdateEmployee | server/controllers/employeeController.ts:153-258 | 404 for an unknown id and 400 for an email another employee has: in both the row is unchanged and the upload deleted. 400 "No fields to update" leaves everything unchanged. On success only that row changes, and an uploaded photo replaces the old one, whose file is deleted. The constraint failure gives 500 with the row unchanged. |
| EmployeeController.ReplaceEmployee | server/controllers/employeeController.ts:229-231 | The `UPDATE` of one row with a non-clashing email keeps the invariant and changes only that row. |
| EmployeeController.UpdateKeepsInvariants | server/controllers/employeeController.ts:169-175 | An update that passes the taken-email check keeps emails unique and references intact. |
| EmployeeController.DeleteEmployee | server/controllers/employeeController.ts:261-290 | An unknown id gives 404 and changes nothing. Otherwise the employee and all its logs are removed (cascade), its photo file is deleted and the reply is 200. |
| EmployeeController.DeletedIsGone | server/config/database.ts:58 | After a delete the id is not found and no remaining log refers to it. |
| EmployeeController.DeleteRemovesOne | server/controllers/employeeController.ts:276 | Because ids are distinct, deleting by id removes exactly the one row at its index. |
| NotificationController.ChannelReport | server/controllers/notificationController.ts:18-55 | A channel that is not requested keeps `{false, ''}`. A missing address fails with the "not available" message. Otherwise the sender's answer gives success or failure, and a throw gives "service error". Success holds exactly when the sender delivered. |
| NotificationController.MissingAddressIgnoresSender | server/controllers/notificationController.ts:25-43 | Without an address the sender's behaviour has no effect on the result. |
| NotificationController.ChannelCalls | server/controllers/notificationController.ts:24-46 | A sender is called at most once, and exactly when its channel is requested and has an address. |
| NotificationController.OverallMeansSomeDelivery | server/controllers/notificationController.ts:58-60 | Overall success holds exactly when some requested channel was delivered (email for `email`, SMS for `sms`, either for `both`). |
| NotificationController.Dispatch | server/controllers/notificationController.ts:18-55 | The step-by-step overwriting of `results` produces the two channel reports and exactly the sender calls of the requested channels that have addresses. |
| NotificationController.SendNotification | server/controllers/notificationController.ts:7-78 | An unknown or inactive employee gives 404 with no sender call. Otherwise the reply is 200 exactly when some channel delivered and 500 otherwise, with the matching message, the employee's contact details and both channel results. |
| NotificationController.FilterCountsAgree | server/controllers/notificationController.ts:218-219 | Two lists that agree pointwise on their predicates have equal filtered counts. |
| NotificationController.FanOut | server/controllers/notificationController.ts:159-214 | The loop yields one result per recipient, in order, each built from that recipient's own request, and makes exactly the recipients' sender calls. |
| NotificationController.SummaryCounts | server/controllers/notificationController.ts:216-219 | The summary's email and SMS success counts are the numbers of recipients whose email or SMS was delivered. |
| NotificationController.BulkNotify | server/controllers/notificationController.ts:139-235 | A missing or empty id list gives 400. No active match gives 404. In either case no sender is called. Otherwise there is one result per active listed employee, `totalEmployees` is their number and the success counts are the delivered counts. |
| NotificationController.BulkRecipientsAreDistinct | server/controllers/notificationController.ts:149-153 | The recipients are distinct, active and listed, and every active listed employee is among them. |
| NotificationController.TestConfiguration | server/controllers/notificationController.ts:80-120 | A missing address gives 400. A throwing sender gives 500 "Internal server error". Otherwise the code is 200 exactly when the test message was sent, with a matching message. |
| AuthMiddleware.TokenPayload | server/middleware/auth.ts:47-52 | The signed payload is exactly the user's id, username and role. |
| AuthMiddleware.ExtractToken | server/middleware/auth.ts:16-17 | A token is found exactly when the header is present and contains a space. It is the second space-separated word. |
| AuthMiddleware.ExtractTokenOfHeader | server/middleware/auth.ts:17 | Whatever the scheme word, `scheme token` yields the token: the scheme is not checked. |
| AuthMiddleware.AuthenticateToken | server/middleware/auth.ts:15-38 | No token gives 401 "Access token required". A failed verification gives 403 "Invalid token". The request passes exactly when the token verifies to the id of an existing user, and it then carries that user's database row, not the claims. |
| AuthMiddleware.RequireAdmin | server/middleware/auth.ts:40-45 | The request passes exactly when there is a user whose role is `admin`. Otherwise the answer is 403 "Admin access required". |
| AuthMiddleware.IssuedTokenAuthenticates | server/middleware/auth.ts:15-53 | A token issued for a stored user, sent as `Bearer <token>`, authenticates as that user. |
| AuthMiddleware.ClaimsDoNotGrantRole | server/middleware/auth.ts:27-45 | Admin access depends on the role stored in the database, not on the role in the token's claims. |
| AuthController.Register | server/controllers/authController.ts:6-40 | A taken username gives 400 and leaves the table unchanged. Otherwise one user is appended with the hash of the password and the role defaulting to `employee`, and the reply is 201 with the passwordless user and its token. |
| AuthController.RegisteredUserIsFound | server/controllers/authController.ts:11-29 | A newly registered user is found again by its username. |
| AuthController.Login | server/controllers/authController.ts:42-70 | Unknown user and wrong password give the same 401 "Invalid credentials". Success returns the user without its password, and a token for it. |
| AuthController.LoginRevealsNoHash | server/controllers/authController.ts:59-64 | The login reply does not depend on the stored hash beyond whether it matches. |
| AuthController.ChangePassword | server/controllers/authController.ts:76-108 | A missing (or zero) user id gives 401, an unknown user 404, and a wrong current password 400; these three leave the hash unchanged. Otherwise only that user's password becomes the hash of the new one. |
| AuthController.ChangedPasswordLogsIn | server/controllers/authController.ts:98-101 | After a change the new password logs in, and the old one gets "Invalid credentials". |
| Validation.Check | server/middleware/validation.ts:4-240 | One validator reports no error exactly when it holds, and otherwise one error for its field. |
| Validation.FirstLine | server/middleware/validation.ts:117 | The part of the text before the first line terminator, which is all that `.*` can cover. |
| Validation.MixedClassesOneLine | server/middleware/validation.ts:117 | On a single line, the look-ahead pattern asks for one lowercase letter, one uppercase letter and one digit. |
| Validation.IntValue | server/middleware/validation.ts:46 | Only non-empty text denotes an integer. |
| Validation.IntValueOfNumeral | server/middleware/validation.ts:223-227 | A number written in decimal reads back as itself. |
| Validation.RequiredText | server/middleware/validation.ts:5-24 | A required trimmed field passes exactly when it is non-empty and within its length bounds. |
| Validation.OptionalText | server/middleware/validation.ts:49-65 | An optional trimmed field passes exactly when it is absent or within its bounds. |
| Validation.OptionalBy | server/middleware/validation.ts:32-36 | An optional field checked by a library predicate passes exactly when it is absent or the predicate holds. |
| Validation.OptionalBoolean | server/middleware/validation.ts:38-41 | `isActive` passes exactly when it is absent or a boolean. |
| Validation.ValidateCreateEmployee | server/middleware/validation.ts:4-42 | The body passes exactly when the name is 2–100 characters, department and position are 1–50, the email is valid, and the phone and `isActive` are valid when present. |
| Validation.ValidateUpdateEmployee | server/middleware/validation.ts:44-84 | The id is an integer ≥ 1, and every body field is optional with its bounds applying when present. |
| Validation.CreateBodyPassesUpdate | server/middleware/validation.ts:4-84 | A body that passes create passes as a full update of any positive id. |
| Validation.ValidateLogin | server/middleware/validation.ts:87-100 | The username is 3–50 characters after trimming. The password needs only 6 characters and no character classes. |
| Validation.StrongPassword | server/middleware/validation.ts:112-137 | A password passes exactly when it has at least 6 characters and the lower, upper and digit look-aheads hold. |
| Validation.ValidateRegister | server/middleware/validation.ts:102-124 | The username is 3–50 characters of `[a-zA-Z0-9_]`, the password is strong, and the role, when given, is `admin` or `employee`. |
| Validation.ValidateChangePassword | server/middleware/validation.ts:126-138 | The current password is present and the new password is strong. |
| Validation.RegisteredCredentialsPassLogin | server/middleware/validation.ts:87-124 | Credentials accepted at registration are accepted at login. |
| Validation.RegisteredUsernameIsOneWord | server/middleware/validation.ts:109 | A registered username has no space and is unchanged by trimming. |
| Validation.LoginIsLaxerThanRegister | server/middleware/validation.ts:95-117 | A 6-character password without uppercase letters passes login but not registration. |
| Validation.ValidateNotification | server/middleware/validation.ts:141-181 | The type is `email`, `sms` or `both`, and the employee id is an integer ≥ 1. The guest name is 2–100 characters, the purpose 1–200, and the message at most 500. The guest phone and email are valid when present. |
| Validation.ValidateActivityLog | server/middleware/validation.ts:184-220 | The same rules for check-in, with notes of at most 500 characters. |
| Validation.ValidateId | server/middleware/validation.ts:223-227 | The id is an integer ≥ 1. |
| Validation.ValidatePagination | server/middleware/validation.ts:229-239 | The page is ≥ 1 and the limit is 1–100, each when present. |
| Validation.ValidIdsArePositive | server/middleware/validation.ts:223-227 | A decimal numeral is a valid id exactly when it is positive, and every valid id reads as a positive number. |
| Upload.FileFilter | server/middleware/upload.ts:23-42 | A file is accepted exactly when its type is in the allow-list and its known size is at most 5 MiB. A non-image gets "Only image files are allowed.", an oversized image the size message, and any other image type the invalid-type message. The checks run in that order. |
| Upload.UploadDecision | server/middleware/upload.ts:44-51 | An upload is stored exactly when the filter accepts it and multer's `fileSize` limit holds. |
| Upload.Extname | server/middleware/upload.ts:18 | `path.extname` is empty, or a dot followed by no slash, and is never longer than the path. |
| Upload.ExtnameOfDottedName | server/middleware/upload.ts:18 | The extension of `stem.ext` is `.ext`. |
| Upload.ExtnameUndotted | server/middleware/upload.ts:18 | A name with no dot has no extension. |
| Upload.ExtnameLeadingDot | server/middleware/upload.ts:18 | A dot-file such as `.profile` has no extension. |
| Upload.PhotoFilename | server/middleware/upload.ts:15-20 | A stored name is `employee-` plus the unique suffix plus the original's extension, and has no slash. |
| Upload.PhotoUrlNamesItsFile | server/controllers/employeeController.ts:207-210 | The last path segment of a photo URL (`split('/').pop()`) is the stored file name, which is never empty. |
| Upload.UploadsDirectory.constructor | server/middleware/upload.ts:6-9 | The directory starts with the given files. |
| Upload.DeletePhoto | server/middleware/upload.ts:53-65 | An empty name changes nothing. Any other name is removed if present, and nothing else changes. |
| ErrorHandler.NewAppError | server/middleware/errorHandler.ts:7-11 | An `AppError` is operational and carries its own message and status code. |
| ErrorHandler.HandleError | server/middleware/errorHandler.ts:16-73 | An `AppError` keeps its code and message. Otherwise a message with "File too large" or "Invalid file type" gives 400. A `ValidationError` that no message rule caught gives 400 "Validation failed" with the message as `details`. Anything else thrown is 400, 401 or 500: 401 exactly for the two token errors that no earlier rule caught, and 500 exactly when no rule matched. A 500 hides the message and the stack in production. |
| ErrorHandler.UniqueViolationNamesField | server/middleware/errorHandler.ts:42-47 | A `UNIQUE constraint failed` message gives 400, naming `email` when the message mentions it and `username` otherwise. |
| ErrorHandler.AppErrorWinsOverMessage | server/middleware/errorHandler.ts:25-30 | The class test comes first: an `AppError` keeps its code whatever its message says. |
| ErrorHandler.ProductionHidesInternals | server/middleware/errorHandler.ts:67-72 | In production no answer carries a stack, and a 500 says only "Internal server error". |
| ErrorHandler.TokenErrors | server/middleware/errorHandler.ts:58-64 | `JsonWebTokenError` gives 401 "Invalid token" and `TokenExpiredError` gives 401 "Token expired". |
| RateLimit.RateLimiter.constructor | src/hooks/useRateLimit.ts:16-20 | The limiter starts with no attempts, not limited, its window starting now. |
| RateLimit.RateLimiter.CheckRateLimit | src/hooks/useRateLimit.ts:22-42 | Past the window: the count resets, the window restarts and the result is false. Inside it: the result is true, and the form is marked limited, exactly when the count has reached the maximum; otherwise nothing changes. |
| RateLimit.RateLimiter.Increment | src/hooks/useRateLimit.ts:44-64 | Past the window the count becomes 1 in a new window, not limited. Inside it the count grows by one and the form is limited exactly when the count reaches the maximum. |
| RateLimit.RateLimiter.Reset | src/hooks/useRateLimit.ts:66-72 | No attempts, not limited, the window restarting now. |
| RateLimit.RateLimiter.TimeUntilReset | src/hooks/useRateLimit.ts:74-76 | It is 0 when not limited and `max(0, windowMs - elapsed)` otherwise. It lies in [0, windowMs] once the window has started, and is positive while a limited window is still running. A positive wait means the maximum number of attempts was counted. |
| RateLimit.RateLimiter.Message | src/hooks/useRateLimit.ts:85 | The configured message, or the wait in whole seconds rounded up. |
| RateLimit.CeilDiv | src/hooks/useRateLimit.ts:85 | `Math.ceil(n / d)`: the least quotient whose multiple covers n. |
| AppContext.InitialState | src/contexts/AppContext.tsx:22-35 | No employees. Nobody is signed in and the session check is pending. Notifications are by email, enabled, with no custom message. No error. |
| AppContext.Reduce | src/contexts/AppContext.tsx:42-74 | Each action changes only its own field, and an unknown action changes nothing. ADD appends at the end, UPDATE replaces exactly the matching ids in place, and DELETE keeps exactly the employees with other ids. SET_AUTH merges the payload and ends loading. |
| AppContext.DeleteKeepsOrder | src/contexts/AppContext.tsx:55-59 | A delete keeps the relative order of the employees it keeps. |
| AppContext.DeleteUnknownIsNoOp | src/contexts/AppContext.tsx:55-59 | Deleting an id nobody has leaves the state as it was. |
| AppContext.AddThenDelete | src/contexts/AppContext.tsx:46-59 | Adding an employee with a fresh id and then deleting that id restores the state. |
| AppContext.UpdateIdempotent | src/contexts/AppContext.tsx:48-54 | Applying the same update twice is applying it once. |
| AppContext.RestoreSession | src/contexts/AppContext.tsx:80-89 | On mount the client is authenticated exactly when a token and a stored user are present. Loading ends and nothing but auth changes. |
| KioskPage.LoadDirectory | src/pages/KioskPage.tsx:28 | The kiosk keeps exactly the active employees, in order. |
| KioskPage.FilteredEmployees | src/pages/KioskPage.tsx:37-46 | An empty term keeps the whole list. Otherwise an employee is kept exactly when the lower-cased term is in its name, department or position. The result is a subsequence of the input. |
| KioskPage.SubsequenceOfSelf | src/pages/KioskPage.tsx:38 | The unfiltered list is trivially an order-preserving selection of itself. |
| KioskPage.EmailIsNotSearched | src/pages/KioskPage.tsx:40-45 | Changing only an employee's email never changes whether the search keeps it. |
| KioskPage.EmailOnlyTermMisses | src/pages/KioskPage.tsx:40-45 | A term found only in the email does not find the employee. |
| EmployeesPage.FilteredEmployees | src/pages/admin/EmployeesPage.tsx:39-44 | An employee is kept exactly when the lower-cased term is in its name, email, department or position. The result is an order-preserving subsequence no longer than the input. |
| EmployeesPage.EmptyTermKeepsAll | src/pages/admin/EmployeesPage.tsx:39-44 | An empty term keeps every employee: the empty string is in every field. |
| EmployeesPage.ResultsCount | src/pages/admin/EmployeesPage.tsx:256-259 | The line is shown exactly when a term is typed and some employee matches it. It then shows the number of matches, which is positive and at most the total, and the total length of the list. |
| EmployeesPage.AdminFindsWhatKioskFinds | src/pages/admin/EmployeesPage.tsx:39-44 | The admin search keeps everything the kiosk search keeps. |
| EmployeesPage.AdminSearchesEmail | src/pages/admin/EmployeesPage.tsx:41 | A term in the email finds the employee on the admin page. |
| ActivityLogsPage.FilteredLogs | src/pages/admin/ActivityLogsPage.tsx:69-72 | `all` keeps every log. Any other filter keeps exactly the logs of that status, in order. |
| ActivityLogsPage.CountOf | src/pages/admin/ActivityLogsPage.tsx:162 | A per-status tally never exceeds the number of logs. |
| ActivityLogsPage.CountsSumToTotal | src/pages/admin/ActivityLogsPage.tsx:162-209 | The notified, pending and failed tallies add up to the total, because a log has exactly one of the three statuses (src/types/index.ts:19). |
| ActivityLogsPage.AgeOf | src/pages/admin/ActivityLogsPage.tsx:74-86 | Under an hour the age is the floored minutes, 0–59 for past times. Under a day it is the floored hours, 1–23. Beyond that it is the absolute date. |
| ActivityLogsPage.IntToString | src/pages/admin/ActivityLogsPage.tsx:82 | The text starts with a minus exactly when the number is negative. The rest is decimal digits that read back as the number's magnitude. |
| ActivityLogsPage.FormatTimestamp | src/pages/admin/ActivityLogsPage.tsx:74-89 | Under an hour the text is "n minutes ago", under a day "n hours ago", and otherwise the absolute date text. |
| LegacyApp.Session.constructor | app.js:149-154 | A new session is not signed in. |
| LegacyApp.Session.Login | app.js:179-189 | `admin`/`admin123` sets the admin flag with "Login successful". Anything else is 401 "Invalid credentials" and leaves the flag as it was. |
| LegacyApp.Session.Logout | app.js:192-195 | Destroying the session clears the admin flag, and the reply is "Logged out". |
| LegacyApp.Session.RequireAuth | app.js:149-154 | A request passes exactly when the session is an admin's. Otherwise the answer is 401 "Authentication required". |
| LegacyApp.App.constructor | app.js:15-72 | The app starts with the given employees, visit log and files. |
| LegacyApp.App.ListEmployees | app.js:198-200 | The employee array is returned as it is. |
| LegacyApp.App.CreateEmployee | app.js:203-223 | Without a session: 401 and nothing changes. The uploaded file is stored even when the name is missing. A missing name gives 400 "Name is required" and nothing is appended. Otherwise exactly one employee is appended, with department and position defaulting to '' and photo to null. |
| LegacyApp.App.UpdateEmployee | app.js:226-255 | An unknown id gives 404 and no employee changes. Otherwise only the first match changes: each falsy field keeps its old value, a new photo replaces the old one (whose file is removed), and the update time is set. |
| LegacyApp.App.DeleteEmployee | app.js:258-280 | An unknown id gives 404. Otherwise exactly the first match is spliced out and its photo file removed, while the visit log is untouched (no cascade). |
| LegacyApp.App.Notify | app.js:283-313 | An unknown employee gives 404 and logs nothing. Otherwise one visit is appended, with guest name "Guest" and message "You have a visitor" by default. |
| LegacyApp.App.ListActivity | app.js:316-318 | The stored log is sorted newest first in place, as a permutation of itself, and returned. |
| LegacyApp.SortSortedIsIdentity | app.js:317 | Sorting a log that is already newest first leaves it unchanged, so listing twice reorders nothing. |

## Left out

- SQL engine and wiring: query-string assembly, `better-sqlite3`, the Express routes, and `server/index.ts` are not modelled. The tables are sequences, and each handler is a method on them.
- The outer `try`/`catch` of every controller, which turns a database exception into 500 "Internal server error", is not modelled. The one such exception the rules allow to happen, the `UNIQUE` failure of an update to an empty email, is modelled.
- `getActivityStats`: its daily statistics, top employees and average visit duration are left out, because they use SQL grouping and floating-point arithmetic. Only its three visitor counts are modelled, and they are not put together into the reply.
- `getNotificationSettings` reads process environment variables and is left out.
- `getProfile` only echoes `req.user` and is left out.
- `asyncHandler` is promise plumbing and is left out.
- Time and dates: SQLite's `CURRENT_TIMESTAMP`, `DATE()` and `datetime('now', '-N days')` become the `now` argument and a `dateOf` function. ISO timestamp text and JavaScript `Date` parsing (and its NaN) are out, and timestamps are whole numbers instead. The locale date text of old visits is a parameter.
- `parseInt` yielding NaN for non-numeric `page`/`limit` is not modelled. The listings take the parsed integers, or the defaults 1 and 20 when they are absent.
- Ties in `ORDER BY ... DESC`: SQLite's order among equal timestamps is unspecified. The model sorts stably and promises only "sorted and a permutation".
- bcrypt and JWT are uninterpreted functions. A bcrypt salt is not modelled, so `hash` is a function of the password. Token expiry is out.
- express-validator's `isEmail`, `isMobilePhone` and `normalizeEmail` are opaque predicates. `trim` strips exactly JavaScript's `\s` set (`Text.IsSpace`).
- EmployeeController.CreateEmployee and EmployeeController.UpdateEmployee take `isActive` as a boolean. The source stores `isActive ? 1 : 0`, the truthiness of the raw body value, so a multipart form's text "false" or "0" stores an active employee; the model does not capture that.
- `Validation.LengthBetween`: `isLength` counts characters, not UTF-16 units, so surrogate pairs are counted as single characters. `optional()` does not tell `null` from a missing field.
- Lower-casing is ASCII only, both in the client's `toLowerCase` and in SQLite's `LIKE`.
- Sending mail and SMS (`emailService`, `smsService`) is done by sender oracles. A sender returns sent, not sent, or throws, and is deterministic in its address and request.
- File system: `fs.existsSync`, `unlinkSync` and its caught failure are reduced to removing a name from a set. multer's disk storage, `Date.now()` and `Math.random()` become parameters.
- React: rendering, `localStorage`, navigation, axios and `useState` batching are not modelled. The stored token and user are arguments of `AppContext.RestoreSession`. A stale closure in the rate-limit hook's callbacks is not modelled: each call sees the latest state.
- `app.js` is modelled only in part:
  - The seed employees and the JSON files they are loaded from and saved to (`saveData`) are not modelled, and neither are sessions beyond the single `isAdmin` flag. The seed rows' `email` and `photo_url` fields are dropped.
  - The `app.js` multer filter and its error middleware are not modelled; an upload is given as already stored.
  - `Date.now()` ids are `NatToString(now)`, so two creations in the same millisecond collide, as in the source.
  - `path.join(__dirname, photo)` is the photo URL itself, used as the file name.
  - `Array.prototype.sort` is modelled by a stable insertion sort, which defines the order of equal timestamps.
- The server's `express-rate-limit` middleware is not modelled; only the client's `useRateLimit` hook is.
- The client's zod form schemas and the service worker are not modelled.
