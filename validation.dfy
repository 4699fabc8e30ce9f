/**
 * `middleware/validation.ts`: the express-validator chains in front of the
 * routes. A chain trims where it says so, then runs every validator of the
 * field and reports one error per failing validator, with that validator's
 * message; `.optional()` skips an absent field. A request is let through
 * exactly when no chain reports an error. `isEmail` and `isMobilePhone` are
 * library predicates and stay oracles.
 */
module Validation {
  import opened Common
  import opened Text

  /** One entry of the validation result: the field and the failing check's message. */
  datatype FieldError = FieldError(field: string, message: string)

  /** One validator: no error when it holds, its message otherwise. */
  function Check(ok: bool, field: string, message: string): (r: seq<FieldError>)
    ensures r == [] <==> ok
    ensures !ok ==> r == [FieldError(field, message)]
  {
    if ok then [] else [FieldError(field, message)]
  }

  /** `isLength({ min, max })`, counting characters. */
  predicate LengthBetween(s: string, min: nat, max: nat) {
    min <= |s| <= max
  }

  // ---------------------------------------------------------------- messages

  const MsgCurrentPasswordRequired := "Current password is required"
  const MsgDepartmentRequired := "Department is required"
  const MsgDepartmentTooLong := "Department must not exceed 50 characters"
  const MsgGuestNameRequired := "Guest name is required"
  const MsgGuestNameLength := "Guest name must be between 2 and 100 characters"
  const MsgLimitRange := "Limit must be between 1 and 100"
  const MsgMessageTooLong := "Message must not exceed 500 characters"
  const MsgNameRequired := "Name is required"
  const MsgNameLength := "Name must be between 2 and 100 characters"
  const MsgNewPasswordRequired := "New password is required"
  const MsgNewPasswordShort := "New password must be at least 6 characters"
  const MsgNewPasswordWeak := "New password must contain at least one lowercase letter, one uppercase letter, and one number"
  const MsgNotesTooLong := "Notes must not exceed 500 characters"
  const MsgPagePositive := "Page must be a positive integer"
  const MsgPasswordRequired := "Password is required"
  const MsgPasswordShort := "Password must be at least 6 characters"
  const MsgPasswordWeak := "Password must contain at least one lowercase letter, one uppercase letter, and one number"
  const MsgPositionRequired := "Position is required"
  const MsgPositionTooLong := "Position must not exceed 50 characters"
  const MsgPurposeRequired := "Purpose is required"
  const MsgPurposeTooLong := "Purpose must not exceed 200 characters"
  const MsgRoleUnknown := "Role must be either admin or employee"
  const MsgTypeUnknown := "Type must be email, sms, or both"
  const MsgUsernameChars := "Username can only contain letters, numbers, and underscores"
  const MsgUsernameRequired := "Username is required"
  const MsgUsernameLength := "Username must be between 3 and 50 characters"
  const MsgIdInvalid := "Valid ID is required"
  const MsgEmailInvalid := "Valid email is required"
  const MsgEmployeeIdInvalid := "Valid employee ID is required"
  const MsgPhoneInvalid := "Valid phone number is required"
  const MsgIsActiveNotBoolean := "isActive must be a boolean"

  // ---------------------------------------------------------------- character classes

  predicate IsAsciiLower(c: char) {
    'a' <= c <= 'z'
  }

  predicate IsAsciiUpper(c: char) {
    'A' <= c <= 'Z'
  }

  /** `[a-zA-Z0-9_]`. */
  predicate IsWordChar(c: char) {
    IsAsciiLower(c) || IsAsciiUpper(c) || IsDigit(c) || c == '_'
  }

  /** `/^[a-zA-Z0-9_]+$/`. */
  predicate IsWord(s: string) {
    s != [] && forall i :: 0 <= i < |s| ==> IsWordChar(s[i])
  }

  /** The characters a regular-expression `.` does not match. */
  predicate IsLineTerminator(c: char) {
    c == '\n' || c == '\r' || c as int == 0x2028 || c as int == 0x2029
  }

  /** The text before the first line terminator: what `.*` can run over from the start. */
  function FirstLine(s: string): (r: string)
    ensures |r| <= |s| && r == s[..|r|]
    ensures forall i :: 0 <= i < |r| ==> !IsLineTerminator(r[i])
    ensures |r| < |s| ==> IsLineTerminator(s[|r|])
  {
    if s == [] || IsLineTerminator(s[0]) then []
    else
      var r := [s[0]] + FirstLine(s[1..]);
      assert s[..|r|] == [s[0]] + s[1..][..|r| - 1];
      r
  }

  /**
   * `/^(?=.*[a-z])(?=.*[A-Z])(?=.*\d)/`: a lower-case letter, an upper-case
   * letter and a digit, each reachable from the start by `.*`, that is, in
   * the first line.
   */
  predicate MixedClasses(s: string) {
    var line := FirstLine(s);
    (exists i :: 0 <= i < |line| && IsAsciiLower(line[i])) &&
    (exists i :: 0 <= i < |line| && IsAsciiUpper(line[i])) &&
    (exists i :: 0 <= i < |line| && IsDigit(line[i]))
  }

  /** Without line breaks, the look-aheads just ask for one character of each class anywhere. */
  lemma MixedClassesOneLine(s: string)
    requires forall i :: 0 <= i < |s| ==> !IsLineTerminator(s[i])
    ensures MixedClasses(s) <==>
      (exists i :: 0 <= i < |s| && IsAsciiLower(s[i])) &&
      (exists i :: 0 <= i < |s| && IsAsciiUpper(s[i])) &&
      (exists i :: 0 <= i < |s| && IsDigit(s[i]))
  {
    assert FirstLine(s) == s;
  }

  // ---------------------------------------------------------------- isInt, isBoolean, isIn

  predicate AllDigits(s: string) {
    forall i :: 0 <= i < |s| ==> IsDigit(s[i])
  }

  /** The number a string matching `/^[-+]?[0-9]+$/` denotes, as `isInt` reads it; `None` otherwise. */
  function IntValue(s: string): (v: Option<int>)
    ensures v.Some? ==> s != []
  {
    var signed := s != [] && (s[0] == '-' || s[0] == '+');
    var digits := if signed then s[1..] else s;
    if digits == [] || !AllDigits(digits) then None
    else
      var n: int := DigitsValue(digits);
      if signed && s[0] == '-' then Some(-n) else Some(n)
  }

  /** `isInt({ min, max })`. */
  predicate IsIntIn(s: string, min: int, max: Option<int>) {
    var v := IntValue(s);
    v.Some? && min <= v.value && (max.None? || v.value <= max.value)
  }

  /** A number written out by `String(n)` reads back as itself. */
  lemma IntValueOfNumeral(n: nat)
    ensures IntValue(NatToString(n)) == Some(n)
  {
    var s := NatToString(n);
    DigitsValueOfNatToString(n);
    assert IsDigit(s[0]);
  }

  /** `isBoolean()` in its strict form. */
  predicate IsBooleanText(s: string) {
    s == "true" || s == "false" || s == "1" || s == "0"
  }

  // ---------------------------------------------------------------- field chains

  /** A required field that is trimmed, must be non-empty and has length bounds. */
  function RequiredText(value: string, field: string, required: string, min: nat, max: nat, bounds: string): (r: seq<FieldError>)
    ensures r == [] <==> 1 <= |Trim(value)| && LengthBetween(Trim(value), min, max)
  {
    var t := Trim(value);
    Check(t != [], field, required) + Check(LengthBetween(t, min, max), field, bounds)
  }

  /** An optional trimmed field with length bounds. */
  function OptionalText(value: Option<string>, field: string, min: nat, max: nat, bounds: string): (r: seq<FieldError>)
    ensures r == [] <==> value.None? || LengthBetween(Trim(value.value), min, max)
  {
    if value.None? then [] else Check(LengthBetween(Trim(value.value), min, max), field, bounds)
  }

  /** An optional trimmed field checked by a library predicate. */
  function OptionalBy(value: Option<string>, field: string, ok: string -> bool, message: string): (r: seq<FieldError>)
    ensures r == [] <==> value.None? || ok(Trim(value.value))
  {
    if value.None? then [] else Check(ok(Trim(value.value)), field, message)
  }

  function OptionalBoolean(value: Option<string>): (r: seq<FieldError>)
    ensures r == [] <==> value.None? || IsBooleanText(value.value)
  {
    if value.None? then [] else Check(IsBooleanText(value.value), "isActive", MsgIsActiveNotBoolean)
  }

  // ---------------------------------------------------------------- employees

  /** `validateCreateEmployee`. */
  function ValidateCreateEmployee(name: string, department: string, position: string, email: string,
                                  phone: Option<string>, isActive: Option<string>,
                                  isEmail: string -> bool, isMobilePhone: string -> bool): (r: seq<FieldError>)
    ensures r == [] <==>
      LengthBetween(Trim(name), 2, 100) &&
      LengthBetween(Trim(department), 1, 50) &&
      LengthBetween(Trim(position), 1, 50) &&
      isEmail(Trim(email)) &&
      (phone.Some? ==> isMobilePhone(Trim(phone.value))) &&
      (isActive.Some? ==> IsBooleanText(isActive.value))
  {
    RequiredText(name, "name", MsgNameRequired, 2, 100, MsgNameLength) +
    RequiredText(department, "department", MsgDepartmentRequired, 0, 50, MsgDepartmentTooLong) +
    RequiredText(position, "position", MsgPositionRequired, 0, 50, MsgPositionTooLong) +
    Check(isEmail(Trim(email)), "email", MsgEmailInvalid) +
    OptionalBy(phone, "phone", isMobilePhone, MsgPhoneInvalid) +
    OptionalBoolean(isActive)
  }

  /** `validateUpdateEmployee`: every body field optional, the same bounds when present. */
  function ValidateUpdateEmployee(id: string, name: Option<string>, department: Option<string>, position: Option<string>,
                                  email: Option<string>, phone: Option<string>, isActive: Option<string>,
                                  isEmail: string -> bool, isMobilePhone: string -> bool): (r: seq<FieldError>)
    ensures r == [] <==>
      IsIntIn(id, 1, None) &&
      (name.Some? ==> LengthBetween(Trim(name.value), 2, 100)) &&
      (department.Some? ==> LengthBetween(Trim(department.value), 0, 50)) &&
      (position.Some? ==> LengthBetween(Trim(position.value), 0, 50)) &&
      (email.Some? ==> isEmail(Trim(email.value))) &&
      (phone.Some? ==> isMobilePhone(Trim(phone.value))) &&
      (isActive.Some? ==> IsBooleanText(isActive.value))
  {
    Check(IsIntIn(id, 1, None), "id", MsgEmployeeIdInvalid) +
    OptionalText(name, "name", 2, 100, MsgNameLength) +
    OptionalText(department, "department", 0, 50, MsgDepartmentTooLong) +
    OptionalText(position, "position", 0, 50, MsgPositionTooLong) +
    OptionalBy(email, "email", isEmail, MsgEmailInvalid) +
    OptionalBy(phone, "phone", isMobilePhone, MsgPhoneInvalid) +
    OptionalBoolean(isActive)
  }

  /** Whatever passes on create passes again as a full update of an existing id. */
  lemma CreateBodyPassesUpdate(id: nat, name: string, department: string, position: string, email: string,
                               phone: Option<string>, isActive: Option<string>,
                               isEmail: string -> bool, isMobilePhone: string -> bool)
    requires id >= 1
    requires ValidateCreateEmployee(name, department, position, email, phone, isActive, isEmail, isMobilePhone) == []
    ensures ValidateUpdateEmployee(NatToString(id), Some(name), Some(department), Some(position), Some(email),
                                   phone, isActive, isEmail, isMobilePhone) == []
  {
    IntValueOfNumeral(id);
  }

  // ---------------------------------------------------------------- authentication

  function UsernameChain(username: string): seq<FieldError> {
    RequiredText(username, "username", MsgUsernameRequired, 3, 50, MsgUsernameLength)
  }

  /** `validateLogin`: the password has only a length requirement and is not trimmed. */
  function ValidateLogin(username: string, password: string): (r: seq<FieldError>)
    ensures r == [] <==> LengthBetween(Trim(username), 3, 50) && |password| >= 6
  {
    UsernameChain(username) +
    Check(password != [], "password", MsgPasswordRequired) +
    Check(|password| >= 6, "password", MsgPasswordShort)
  }

  /** The password rules of registration and of a new password, worded per field. */
  function StrongPassword(password: string, field: string, required: string, short: string, weak: string): (r: seq<FieldError>)
    ensures r == [] <==> |password| >= 6 && MixedClasses(password)
  {
    Check(password != [], field, required) +
    Check(|password| >= 6, field, short) +
    Check(MixedClasses(password), field, weak)
  }

  /** `validateRegister`. */
  function ValidateRegister(username: string, password: string, role: Option<string>): (r: seq<FieldError>)
    ensures r == [] <==>
      LengthBetween(Trim(username), 3, 50) && IsWord(Trim(username)) &&
      |password| >= 6 && MixedClasses(password) &&
      (role.Some? ==> role.value == "admin" || role.value == "employee")
  {
    UsernameChain(username) +
    Check(IsWord(Trim(username)), "username", MsgUsernameChars) +
    StrongPassword(password, "password", MsgPasswordRequired, MsgPasswordShort, MsgPasswordWeak) +
    (if role.None? then [] else Check(role.value == "admin" || role.value == "employee", "role", MsgRoleUnknown))
  }

  /** `validateChangePassword`: the current password need only be present. */
  function ValidateChangePassword(currentPassword: string, newPassword: string): (r: seq<FieldError>)
    ensures r == [] <==> currentPassword != [] && |newPassword| >= 6 && MixedClasses(newPassword)
  {
    Check(currentPassword != [], "currentPassword", MsgCurrentPasswordRequired) +
    StrongPassword(newPassword, "newPassword", MsgNewPasswordRequired, MsgNewPasswordShort,
                   MsgNewPasswordWeak)
  }

  /** Credentials accepted at registration are accepted at login. */
  lemma RegisteredCredentialsPassLogin(username: string, password: string, role: Option<string>)
    requires ValidateRegister(username, password, role) == []
    ensures ValidateLogin(username, password) == []
  {
  }

  /** A registered username is one word: no space, and trimming leaves it unchanged. */
  lemma RegisteredUsernameIsOneWord(username: string)
    requires IsWord(Trim(username))
    ensures var t := Trim(username); ' ' !in t && Trim(t) == t
  {
    var t := Trim(username);
    assert forall i :: 0 <= i < |t| ==> IsWordChar(t[i]) && !IsSpace(t[i]);
    TrimNoOp(t);
  }

  /**
   * Login asks nothing of the character classes: a password of six or more
   * characters without an upper-case letter passes login but not registration.
   */
  lemma LoginIsLaxerThanRegister(username: string, password: string)
    requires LengthBetween(Trim(username), 3, 50)
    requires |password| >= 6 && forall i :: 0 <= i < |password| ==> !IsAsciiUpper(password[i])
    ensures ValidateLogin(username, password) == []
    ensures ValidateRegister(username, password, None) != []
  {
    var line := FirstLine(password);
    assert forall i :: 0 <= i < |line| ==> !IsAsciiUpper(line[i]) by {
      forall i | 0 <= i < |line| ensures !IsAsciiUpper(line[i]) {
        assert line[i] == password[i];
      }
    }
  }

  // ---------------------------------------------------------------- visits and notifications

  function GuestName(guestName: string): seq<FieldError> {
    RequiredText(guestName, "guestName", MsgGuestNameRequired, 2, 100, MsgGuestNameLength)
  }

  function Purpose(purpose: string): seq<FieldError> {
    RequiredText(purpose, "purpose", MsgPurposeRequired, 0, 200, MsgPurposeTooLong)
  }

  function EmployeeId(employeeId: string): seq<FieldError> {
    Check(IsIntIn(employeeId, 1, None), "employeeId", MsgEmployeeIdInvalid)
  }

  /** `validateNotification`. */
  function ValidateNotification(notificationType: string, employeeId: string, guestName: string,
                                guestPhone: Option<string>, guestEmail: Option<string>, purpose: string,
                                message: Option<string>, isEmail: string -> bool, isMobilePhone: string -> bool): (r: seq<FieldError>)
    ensures r == [] <==>
      (notificationType == "email" || notificationType == "sms" || notificationType == "both") &&
      IsIntIn(employeeId, 1, None) &&
      LengthBetween(Trim(guestName), 2, 100) &&
      (guestPhone.Some? ==> isMobilePhone(Trim(guestPhone.value))) &&
      (guestEmail.Some? ==> isEmail(Trim(guestEmail.value))) &&
      LengthBetween(Trim(purpose), 1, 200) &&
      (message.Some? ==> |Trim(message.value)| <= 500)
  {
    Check(notificationType == "email" || notificationType == "sms" || notificationType == "both", "type", MsgTypeUnknown) +
    EmployeeId(employeeId) +
    GuestName(guestName) +
    OptionalBy(guestPhone, "guestPhone", isMobilePhone, MsgPhoneInvalid) +
    OptionalBy(guestEmail, "guestEmail", isEmail, MsgEmailInvalid) +
    Purpose(purpose) +
    OptionalText(message, "message", 0, 500, MsgMessageTooLong)
  }

  /** `validateActivityLog`. */
  function ValidateActivityLog(employeeId: string, guestName: string, guestPhone: Option<string>, guestEmail: Option<string>,
                               purpose: string, notes: Option<string>,
                               isEmail: string -> bool, isMobilePhone: string -> bool): (r: seq<FieldError>)
    ensures r == [] <==>
      IsIntIn(employeeId, 1, None) &&
      LengthBetween(Trim(guestName), 2, 100) &&
      (guestPhone.Some? ==> isMobilePhone(Trim(guestPhone.value))) &&
      (guestEmail.Some? ==> isEmail(Trim(guestEmail.value))) &&
      LengthBetween(Trim(purpose), 1, 200) &&
      (notes.Some? ==> |Trim(notes.value)| <= 500)
  {
    EmployeeId(employeeId) +
    GuestName(guestName) +
    OptionalBy(guestPhone, "guestPhone", isMobilePhone, MsgPhoneInvalid) +
    OptionalBy(guestEmail, "guestEmail", isEmail, MsgEmailInvalid) +
    Purpose(purpose) +
    OptionalText(notes, "notes", 0, 500, MsgNotesTooLong)
  }

  // ---------------------------------------------------------------- generic

  /** `validateId`. */
  function ValidateId(id: string): (r: seq<FieldError>)
    ensures r == [] <==> IsIntIn(id, 1, None)
  {
    Check(IsIntIn(id, 1, None), "id", MsgIdInvalid)
  }

  /** `validatePagination`. */
  function ValidatePagination(page: Option<string>, limit: Option<string>): (r: seq<FieldError>)
    ensures r == [] <==> (page.Some? ==> IsIntIn(page.value, 1, None)) && (limit.Some? ==> IsIntIn(limit.value, 1, Some(100)))
  {
    (if page.None? then [] else Check(IsIntIn(page.value, 1, None), "page", MsgPagePositive)) +
    (if limit.None? then [] else Check(IsIntIn(limit.value, 1, Some(100)), "limit", MsgLimitRange))
  }

  /** Every positive id written as a number is a valid id, and nothing that reads as zero or less is. */
  lemma ValidIdsArePositive(id: string, n: nat)
    ensures ValidateId(NatToString(n)) == [] <==> n >= 1
    ensures ValidateId(id) == [] ==> IntValue(id).value >= 1
  {
    IntValueOfNumeral(n);
  }
}
