/**
 * The user registry and the login session of `src/utils/storage.js`.
 *
 * The browser's key-value storage is two fields of an immutable `Store`:
 * the `users` key (absent until the first registration) and the `session`
 * key. Every operation returns a new store, or the error it would throw,
 * in which case nothing was written. The clock-derived id of a new user is
 * a parameter.
 */
module Storage {
  import opened Results
  import opened Text

  /** The role strings the code compares against. */
  const StudentRole: string := "student"
  const SellerRole: string := "seller"

  /** A stored account. `rating`/`reviews` are set only for sellers. */
  datatype User = User(
    id: string,
    name: string,
    email: string,
    password: string,
    role: string,
    area: Option<string>,
    rating: Option<int>,
    reviews: Option<int>)

  /** The object handed to `saveUser`; every field but the four strings may be missing. */
  datatype UserData = UserData(
    id: Option<string>,
    name: string,
    email: string,
    password: string,
    role: string,
    area: Option<string>,
    rating: Option<int>,
    reviews: Option<int>)

  /** The single active session: a snapshot of the logged-in user. */
  datatype Session = Session(userId: string, name: string, role: string, area: Option<string>)

  /** The two storage keys; `None` is a key that is not present. */
  datatype Store = Store(users: Option<seq<User>>, session: Option<Session>)

  /** A fresh browser: neither key has been written. */
  const EmptyStore: Store := Store(None, None)

  /** The errors the store throws. */
  datatype StoreError = DuplicateEmail | InvalidCredentials | RoleMismatch(actualRole: string)

  /** The `message` of the thrown `Error`. */
  function Message(e: StoreError): (m: string)
    ensures e == DuplicateEmail ==> m == "Email already registered"
    ensures e == InvalidCredentials ==> m == "Invalid email or password"
    ensures e.RoleMismatch? ==> Includes(m, e.actualRole)
  {
    match e
    case DuplicateEmail => "Email already registered"
    case InvalidCredentials => "Invalid email or password"
    case RoleMismatch(role) =>
      var m := RoleMismatchPrefix + role + ".";
      assert m[|RoleMismatchPrefix|..|RoleMismatchPrefix| + |role|] == role;
      assert OccursAt(m, role, |RoleMismatchPrefix|);
      IncludesIff(m, role);
      m
  }

  /** The fixed text in front of the role in a role-mismatch message. */
  const RoleMismatchPrefix: string := "Invalid role. Please login as a "

  /** The message shown is enough to tell which error was thrown, and for which role. */
  lemma MessageDeterminesError(e1: StoreError, e2: StoreError)
    ensures Message(e1) == Message(e2) <==> e1 == e2
  {
    var m1, m2 := Message(e1), Message(e2);
    if m1 == m2 {
      if e1.RoleMismatch? && e2.RoleMismatch? {
        assert e1.actualRole == m1[|RoleMismatchPrefix|..|m1| - 1];
        assert e2.actualRole == m2[|RoleMismatchPrefix|..|m2| - 1];
      }
    }
  }

  /** `getUsers`: the stored list, or the empty list when the key is absent. */
  function GetUsers(st: Store): (users: seq<User>)
    ensures st.users.None? ==> users == []
    ensures st.users.Some? ==> users == st.users.value
  {
    st.users.GetOr([])
  }

  /** Some stored user already has exactly this email. */
  predicate EmailTaken(users: seq<User>, email: string) {
    exists u :: u in users && u.email == email
  }

  /** No two stored users share an email. */
  predicate DistinctEmails(users: seq<User>) {
    forall i, j :: 0 <= i < j < |users| ==> users[i].email != users[j].email
  }

  /**
   * The record built by the object spread: a caller-supplied `id` wins over
   * the generated one, while `rating`/`reviews` are computed from the role
   * and win over whatever the caller passed.
   */
  function NewUser(data: UserData, freshId: string): (u: User)
    ensures u.name == data.name && u.email == data.email && u.password == data.password
    ensures u.role == data.role && u.area == data.area
    ensures data.id.Some? ==> u.id == data.id.value
    ensures data.id.None? ==> u.id == freshId
    ensures u.rating == Some(0) && u.reviews == Some(0) <==> data.role == SellerRole
    ensures data.role != SellerRole ==> u.rating.None? && u.reviews.None?
  {
    var defaultScore := if data.role == SellerRole then Some(0) else None;
    User(data.id.GetOr(freshId), data.name, data.email, data.password, data.role, data.area,
         defaultScore, defaultScore)
  }

  /**
   * `saveUser`: rejects an email some stored user already has, otherwise
   * appends exactly one record and rewrites the `users` key.
   */
  function SaveUser(st: Store, data: UserData, freshId: string): (r: Result<(Store, User), StoreError>)
    ensures r.Err? <==> EmailTaken(GetUsers(st), data.email)
    ensures r.Err? ==> r.error == DuplicateEmail
    ensures r.Ok? ==> GetUsers(r.value.0) == GetUsers(st) + [r.value.1]
    ensures r.Ok? ==> r.value.0.session == st.session
    ensures r.Ok? ==> r.value.1 == NewUser(data, freshId)
    ensures r.Ok? && DistinctEmails(GetUsers(st)) ==> DistinctEmails(GetUsers(r.value.0))
  {
    var users := GetUsers(st);
    if EmailTaken(users, data.email) then
      Err(DuplicateEmail)
    else
      var u := NewUser(data, freshId);
      Ok((st.(users := Some(users + [u])), u))
  }

  /** A stored user matches the typed email and password exactly. */
  predicate CredentialsMatch(u: User, email: string, password: string) {
    u.email == email && u.password == password
  }

  /** `users.find(...)`: the position of the first user with these credentials. */
  function FindCredentials(users: seq<User>, email: string, password: string): (r: Option<nat>)
    ensures r.Some? ==> r.value < |users| && CredentialsMatch(users[r.value], email, password)
    ensures r.Some? ==> forall j :: 0 <= j < r.value ==> !CredentialsMatch(users[j], email, password)
    ensures r.None? <==> forall j :: 0 <= j < |users| ==> !CredentialsMatch(users[j], email, password)
  {
    if users == [] then None
    else if CredentialsMatch(users[0], email, password) then Some(0)
    else match FindCredentials(users[1..], email, password)
      case None => None
      case Some(i) => Some(i + 1)
  }

  /** The session written for a user who logged in. */
  function SessionOf(u: User): (s: Session)
    ensures s.userId == u.id && s.name == u.name && s.role == u.role && s.area == u.area
  {
    Session(u.id, u.name, u.role, u.area)
  }

  /**
   * `loginUser`: credentials are checked first, then the role; on success
   * the session key is overwritten with a snapshot of the matched user.
   */
  function LoginUser(st: Store, email: string, password: string, expectedRole: string)
    : (r: Result<(Store, Session), StoreError>)
    ensures r == Err(InvalidCredentials) <==>
      forall j :: 0 <= j < |GetUsers(st)| ==> !CredentialsMatch(GetUsers(st)[j], email, password)
    ensures FindCredentials(GetUsers(st), email, password).Some? ==>
      var u := GetUsers(st)[FindCredentials(GetUsers(st), email, password).value];
      && (u.role != expectedRole ==> r == Err(RoleMismatch(u.role)))
      && (u.role == expectedRole ==> r.Ok? && r.value.1 == SessionOf(u))
    ensures r.Ok? ==> r.value.0 == st.(session := Some(r.value.1))
    ensures r.Ok? ==> GetSession(r.value.0) == Some(r.value.1) && GetUsers(r.value.0) == GetUsers(st)
  {
    var users := GetUsers(st);
    match FindCredentials(users, email, password)
    case None => Err(InvalidCredentials)
    case Some(i) =>
      var u := users[i];
      if u.role != expectedRole then Err(RoleMismatch(u.role))
      else
        var session := SessionOf(u);
        Ok((st.(session := Some(session)), session))
  }

  /**
   * What a caller of `saveUser` can read off a success: the stored record
   * carries the submitted email and role, and a rating exactly for sellers.
   */
  lemma SaveUserRecord(st: Store, data: UserData, freshId: string)
    requires SaveUser(st, data, freshId).Ok?
    ensures var u := SaveUser(st, data, freshId).value.1;
      && u.email == data.email && u.role == data.role
      && (u.rating == Some(0) <==> data.role == SellerRole)
  {
  }

  /**
   * The three outcomes of `loginUser` in terms of some matching user: a
   * role mismatch names a matching user's role, which differs from the
   * expected one; a success is a matching user's session with that role;
   * `DuplicateEmail` is never raised by a login.
   */
  lemma LoginUserOutcomes(st: Store, email: string, password: string, expectedRole: string)
    ensures var r := LoginUser(st, email, password, expectedRole);
      var users := GetUsers(st);
      && (r.Err? ==> r.error != DuplicateEmail)
      && (r.Err? && r.error.RoleMismatch? ==>
            exists j :: 0 <= j < |users| && CredentialsMatch(users[j], email, password)
              && users[j].role == r.error.actualRole && r.error.actualRole != expectedRole)
      && (r.Ok? ==> r.value.1.role == expectedRole)
      && (r.Ok? ==>
            exists j :: 0 <= j < |users| && CredentialsMatch(users[j], email, password)
              && r.value.1 == SessionOf(users[j]))
  {
  }

  /** `getSession`: the stored session, or null when the key is absent. */
  function GetSession(st: Store): (s: Option<Session>)
    ensures s.None? <==> st.session.None?
    ensures s.Some? ==> s == st.session
  {
    st.session
  }

  /** `logoutUser`: removes the session key and nothing else. */
  function LogoutUser(st: Store): (r: Store)
    ensures GetSession(r).None?
    ensures GetUsers(r) == GetUsers(st) && r.users == st.users
  {
    st.(session := None)
  }

  /** Logging out twice is logging out once. */
  lemma LogoutIdempotent(st: Store)
    ensures LogoutUser(LogoutUser(st)) == LogoutUser(st)
  {
  }

  /** With distinct emails a login finds the one user with that email, if the password matches. */
  lemma LoginFindsUniqueUser(st: Store, k: nat, password: string, role: string)
    requires DistinctEmails(GetUsers(st))
    requires k < |GetUsers(st)| && GetUsers(st)[k].password == password
    ensures var u := GetUsers(st)[k];
      LoginUser(st, u.email, password, role) ==
        if u.role == role then Ok((st.(session := Some(SessionOf(u))), SessionOf(u)))
        else Err(RoleMismatch(u.role))
  {
    var users := GetUsers(st);
    assert CredentialsMatch(users[k], users[k].email, password);
  }

  /** A registration followed by a login with the same credentials and role succeeds. */
  lemma {:induction false} RegisterThenLogin(st: Store, data: UserData, freshId: string, role: string)
    requires SaveUser(st, data, freshId).Ok?
    ensures var (st', u) := SaveUser(st, data, freshId).value;
      LoginUser(st', data.email, data.password, role) ==
        if role == data.role then Ok((st'.(session := Some(SessionOf(u))), SessionOf(u)))
        else Err(RoleMismatch(data.role))
  {
    var (st', u) := SaveUser(st, data, freshId).value;
    var users := GetUsers(st);
    var found := FindCredentials(users + [u], data.email, data.password);
    assert CredentialsMatch((users + [u])[|users|], data.email, data.password);
  }

  /** Everything a page can do to the store. */
  datatype Op =
    | SignUp(data: UserData, freshId: string)
    | Login(email: string, password: string, role: string)
    | Logout

  /** One operation; a thrown error leaves the store as it was. */
  function Apply(st: Store, op: Op): (st': Store) {
    match op
    case SignUp(data, freshId) =>
      (match SaveUser(st, data, freshId)
       case Ok((st', _)) => st'
       case Err(_) => st)
    case Login(email, password, role) =>
      (match LoginUser(st, email, password, role)
       case Ok((st', _)) => st'
       case Err(_) => st)
    case Logout => LogoutUser(st)
  }

  /** A sequence of operations, applied in order. */
  function Run(st: Store, ops: seq<Op>): (st': Store)
    decreases |ops|
  {
    if ops == [] then st else Run(Apply(st, ops[0]), ops[1..])
  }

  /** Since `saveUser` is the only writer of `users`, emails stay pairwise distinct. */
  lemma {:induction false} RunKeepsEmailsDistinct(st: Store, ops: seq<Op>)
    requires DistinctEmails(GetUsers(st))
    ensures DistinctEmails(GetUsers(Run(st, ops)))
    decreases |ops|
  {
    if ops != [] {
      RunKeepsEmailsDistinct(Apply(st, ops[0]), ops[1..]);
    }
  }

  /** Every store reachable from a fresh browser has distinct emails. */
  lemma ReachableEmailsDistinct(ops: seq<Op>)
    ensures DistinctEmails(GetUsers(Run(EmptyStore, ops)))
  {
    RunKeepsEmailsDistinct(EmptyStore, ops);
  }

  /** The user list is append-only: earlier users are never changed or removed. */
  lemma {:induction false} RunIsAppendOnly(st: Store, ops: seq<Op>)
    ensures GetUsers(st) <= GetUsers(Run(st, ops))
    decreases |ops|
  {
    if ops != [] {
      RunIsAppendOnly(Apply(st, ops[0]), ops[1..]);
    }
  }

  /** Running one more operation applies it to the store the earlier ones left. */
  lemma {:induction false} RunAppend(st: Store, ops: seq<Op>, op: Op)
    ensures Run(st, ops + [op]) == Apply(Run(st, ops), op)
    decreases |ops|
  {
    if ops != [] {
      assert (ops + [op])[1..] == ops[1..] + [op];
      RunAppend(Apply(st, ops[0]), ops[1..], op);
    }
  }

  /** After a trailing logout no session is active, whatever came before. */
  lemma LogoutEndsSession(st: Store, ops: seq<Op>)
    ensures GetSession(Run(st, ops + [Logout])).None?
  {
    RunAppend(st, ops, Logout);
  }
}
