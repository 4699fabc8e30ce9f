/**
 * `contexts/AppContext.tsx`: the client's shared state and the reducer that
 * is its only way to change. Every action replaces one field of the state
 * and leaves the others as they were.
 */
module AppContext {
  import opened Common
  import opened Seqs
  import opened ClientTypes

  datatype AppState = AppState(
    employees: seq<Employee>,
    auth: AuthState,
    notifications: NotificationSettings,
    isLoading: bool,
    error: Option<string>)

  /** The actions the reducer knows, and `Other` for any action type it does not. */
  datatype Action =
    | SetEmployees(list: seq<Employee>)
    | AddEmployee(added: Employee)
    | UpdateEmployee(updated: Employee)
    | DeleteEmployee(deletedId: string)
    | SetAuth(user: Option<AdminUser>, isAuthenticated: bool)
    | SetLoading(loading: bool)
    | SetError(message: Option<string>)
    | SetNotifications(settings: NotificationSettings)
    | Other(kind: string)

  /** `initialState`: nobody signed in yet, the session check still pending. */
  function InitialState(): (s: AppState)
    ensures s.employees == [] && s.auth.user.None? && !s.auth.isAuthenticated && s.auth.isLoading
    ensures s.notifications == NotificationSettings(EmailMethod, true, None)
    ensures !s.isLoading && s.error.None?
  {
    AppState([], AuthState(None, false, true), NotificationSettings(EmailMethod, true, None), false, None)
  }

  /** `emp.id === payload.id ? payload : emp`. */
  function Replace(updated: Employee): Employee -> Employee {
    (e: Employee) => if e.id == updated.id then updated else e
  }

  /** `emp.id !== payload`. */
  function Keeps(id: string): Employee -> bool {
    (e: Employee) => e.id != id
  }

  /** `appReducer`. */
  function Reduce(state: AppState, action: Action): (r: AppState)
    // only the employee list moves under the employee actions
    ensures action.SetEmployees? || action.AddEmployee? || action.UpdateEmployee? || action.DeleteEmployee? ==>
      r == state.(employees := r.employees)
    ensures action.SetEmployees? ==> r.employees == action.list
    ensures action.AddEmployee? ==>
      |r.employees| == |state.employees| + 1 && r.employees[..|state.employees|] == state.employees &&
      r.employees[|state.employees|] == action.added
    ensures action.UpdateEmployee? ==>
      |r.employees| == |state.employees| &&
      forall i :: 0 <= i < |state.employees| ==>
        (state.employees[i].id == action.updated.id ==> r.employees[i] == action.updated) &&
        (state.employees[i].id != action.updated.id ==> r.employees[i] == state.employees[i])
    ensures action.DeleteEmployee? ==>
      (forall i :: 0 <= i < |r.employees| ==> r.employees[i].id != action.deletedId) &&
      (forall i :: 0 <= i < |state.employees| && state.employees[i].id != action.deletedId ==>
         state.employees[i] in r.employees) &&
      (forall e :: e in r.employees ==> e in state.employees)
    // the auth payload is merged in and loading is over
    ensures action.SetAuth? ==>
      r == state.(auth := AuthState(action.user, action.isAuthenticated, false))
    ensures action.SetLoading? ==> r == state.(isLoading := action.loading)
    ensures action.SetError? ==> r == state.(error := action.message)
    ensures action.SetNotifications? ==> r == state.(notifications := action.settings)
    ensures action.Other? ==> r == state
  {
    match action
    case SetEmployees(list) => state.(employees := list)
    case AddEmployee(e) => state.(employees := state.employees + [e])
    case UpdateEmployee(e) => state.(employees := Map(state.employees, Replace(e)))
    case DeleteEmployee(id) => state.(employees := Filter(state.employees, Keeps(id)))
    case SetAuth(user, isAuthenticated) =>
      state.(auth := state.auth.(user := user, isAuthenticated := isAuthenticated, isLoading := false))
    case SetLoading(b) => state.(isLoading := b)
    case SetError(m) => state.(error := m)
    case SetNotifications(n) => state.(notifications := n)
    case Other(_) => state
  }

  /** A delete keeps the relative order of the employees it keeps. */
  lemma DeleteKeepsOrder(state: AppState, id: string)
    ensures IsSubsequence(Reduce(state, DeleteEmployee(id)).employees, state.employees)
  {
    FilterIsSubsequence(state.employees, Keeps(id));
  }

  /** Deleting an id nobody has changes nothing. */
  lemma DeleteUnknownIsNoOp(state: AppState, id: string)
    requires forall i :: 0 <= i < |state.employees| ==> state.employees[i].id != id
    ensures Reduce(state, DeleteEmployee(id)) == state
  {
    FilterAll(state.employees, Keeps(id));
  }

  /** Adding an employee with a fresh id and deleting that id restores the list. */
  lemma {:induction false} AddThenDelete(state: AppState, e: Employee)
    requires forall i :: 0 <= i < |state.employees| ==> state.employees[i].id != e.id
    ensures Reduce(Reduce(state, AddEmployee(e)), DeleteEmployee(e.id)) == state
  {
    var s := state.employees;
    FilterConcat(s, [e], Keeps(e.id));
    FilterAll(s, Keeps(e.id));
    assert Filter([e], Keeps(e.id)) == [];
    assert Reduce(state, AddEmployee(e)).employees == s + [e];
  }

  /** Applying the same update twice is applying it once. */
  lemma UpdateIdempotent(state: AppState, e: Employee)
    ensures var once := Reduce(state, UpdateEmployee(e));
      Reduce(once, UpdateEmployee(e)) == once
  {
    var once := Reduce(state, UpdateEmployee(e));
    var twice := Reduce(once, UpdateEmployee(e));
    assert twice.employees == once.employees;
  }

  /**
   * The mount effect: a stored token and a stored user restore an
   * authenticated session; without a token, or with no stored user, the
   * client is signed out. Either way the session check is over.
   */
  function RestoreSession(state: AppState, token: Option<string>, storedUser: Option<AdminUser>): (r: AppState)
    ensures r.auth.isAuthenticated <==> Truthy(token) && storedUser.Some?
    ensures r.auth.user == (if Truthy(token) then storedUser else None)
    ensures !r.auth.isLoading && r == state.(auth := r.auth)
  {
    if Truthy(token) then Reduce(state, SetAuth(storedUser, storedUser.Some?))
    else Reduce(state, SetAuth(None, false))
  }
}
