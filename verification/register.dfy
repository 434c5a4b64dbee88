/**
 * The registration form of `src/pages/Register.jsx`: the role taken from
 * the query string, the checks run before `saveUser`, and what the submit
 * handler leaves behind (store, error line, redirect).
 */
module Register {
  import opened Results
  import opened Storage

  /** `searchParams.get('role') || 'student'`: a missing or empty parameter means student. */
  function RoleFromQuery(param: Option<string>): (role: string)
    ensures param.None? ==> role == StudentRole
    ensures param.Some? ==> role == (if param.value == "" then StudentRole else param.value)
    ensures role != ""
  {
    match param
    case Some(r) => if r == "" then StudentRole else r
    case None => StudentRole
  }

  /** The four text fields of the form. */
  datatype RegisterForm = RegisterForm(name: string, email: string, password: string, area: string)

  const MissingFieldsMessage: string := "Please fill in all required fields"
  const MissingAreaMessage: string := "Service area is required for partners"

  /**
   * The checks of `handleRegister`: the save request handed to `saveUser`,
   * or the message shown before anything is saved.
   */
  function ValidateRegistration(form: RegisterForm, role: string): (r: Result<UserData, string>)
    ensures r.Ok? <==>
      form.name != "" && form.email != "" && form.password != "" && (role == StudentRole || form.area != "")
    ensures (form.name == "" || form.email == "" || form.password == "") ==> r == Err(MissingFieldsMessage)
    ensures form.name != "" && form.email != "" && form.password != "" && role != StudentRole && form.area == ""
      ==> r == Err(MissingAreaMessage)
    ensures r.Ok? ==> r.value == UserData(None, form.name, form.email, form.password, role, Some(form.area), None, None)
  {
    if form.name == "" || form.email == "" || form.password == "" then
      Err(MissingFieldsMessage)
    else if role != StudentRole && form.area == "" then
      Err(MissingAreaMessage)
    else
      Ok(UserData(None, form.name, form.email, form.password, role, Some(form.area), None, None))
  }

  /** What the page is left with after a submit: the store, the error line, and where it navigated. */
  datatype RegisterOutcome = RegisterOutcome(store: Store, error: string, redirect: Option<string>)

  /** The login page for this role: `/login?role=${role}`. */
  function LoginPath(role: string): (path: string) {
    "/login?role=" + role
  }

  /**
   * `handleRegister`: validate, then save; a thrown error's message is
   * shown and no navigation happens, otherwise the page goes to login.
   */
  function HandleRegister(st: Store, form: RegisterForm, roleParam: Option<string>, freshId: string)
    : (out: RegisterOutcome)
    ensures out.redirect.Some? <==>
      ValidateRegistration(form, RoleFromQuery(roleParam)).Ok? && !EmailTaken(GetUsers(st), form.email)
    ensures out.redirect.Some? ==> out.redirect.value == LoginPath(RoleFromQuery(roleParam)) && out.error == ""
    ensures out.redirect.None? ==> out.store == st && out.error != ""
    ensures ValidateRegistration(form, RoleFromQuery(roleParam)).Err? ==>
      out.error == ValidateRegistration(form, RoleFromQuery(roleParam)).error && out.redirect.None?
    ensures ValidateRegistration(form, RoleFromQuery(roleParam)).Ok? && EmailTaken(GetUsers(st), form.email)
      ==> out.error == Message(DuplicateEmail)
    ensures out.redirect.Some? ==>
      exists u :: GetUsers(out.store) == GetUsers(st) + [u]
        && u.name == form.name && u.email == form.email && u.password == form.password
        && u.role == RoleFromQuery(roleParam) && u.area == Some(form.area) && u.id == freshId
    ensures out.redirect.Some? ==>
      out.store == SaveUser(st, ValidateRegistration(form, RoleFromQuery(roleParam)).value, freshId).value.0
  {
    var role := RoleFromQuery(roleParam);
    match ValidateRegistration(form, role)
    case Err(msg) => RegisterOutcome(st, msg, None)
    case Ok(data) =>
      match SaveUser(st, data, freshId)
      case Err(e) => RegisterOutcome(st, Message(e), None)
      case Ok((st', u)) => RegisterOutcome(st', "", Some(LoginPath(role)))
  }

  /** Submitting the same form twice: the second submit fails on the email and changes nothing. */
  lemma {:induction false} SecondRegistrationRejected(st: Store, form: RegisterForm, roleParam: Option<string>, id1: string, id2: string)
    requires HandleRegister(st, form, roleParam, id1).redirect.Some?
    ensures var st' := HandleRegister(st, form, roleParam, id1).store;
      var again := HandleRegister(st', form, roleParam, id2);
      again.redirect.None? && again.store == st' && again.error == Message(DuplicateEmail)
  {
    var st' := HandleRegister(st, form, roleParam, id1).store;
    var u :| GetUsers(st') == GetUsers(st) + [u] && u.email == form.email;
    assert u in GetUsers(st');
  }
}
