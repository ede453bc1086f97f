/** Signup and login: the signup validation chain, the creation of the user
    document, and the credential check. */
module AuthController {
  import opened Common
  import opened Sequences
  import opened ObjectIds
  import opened Models
  import EmailPattern

  datatype SignupRequest = SignupRequest(
    fullname: Option<string>,
    username: Option<string>,
    email: Option<string>,
    password: Option<string>,
    confirmation: Option<string>)

  predicate AllPresent(req: SignupRequest)
  {
    Truthy(req.fullname) && Truthy(req.username) && Truthy(req.email)
    && Truthy(req.password) && Truthy(req.confirmation)
  }

  /** The six checks of signup, in the order they run. */
  const SignupSteps: seq<Reason> :=
    [MissingField, InvalidEmail, UsernameTaken, EmailTaken, PasswordTooShort, PasswordMismatch]

  /** Whether check `k` of `SignupSteps` passes. The checks after the first
      only look at a request whose fields are all present. */
  predicate StepHolds(users: seq<User>, req: SignupRequest, k: nat)
  {
    if k == 0 then AllPresent(req)
    else !AllPresent(req) || LaterStepHolds(users, req, k)
  }

  predicate LaterStepHolds(users: seq<User>, req: SignupRequest, k: nat)
    requires AllPresent(req)
  {
    if k == 1 then EmailPattern.Matches(req.email.value)
    else if k == 2 then forall u :: u in users ==> u.username != req.username.value
    else if k == 3 then forall u :: u in users ==> u.email != req.email.value
    else if k == 4 then |req.password.value| >= 6
    else req.password.value == req.confirmation.value
  }

  /** The signup validation chain: `None` when every check passes, otherwise
      the first failing check. */
  function SignupCheck(users: seq<User>, req: SignupRequest): (r: Option<Reason>)
    ensures r.None? <==> forall k :: 0 <= k < |SignupSteps| ==> StepHolds(users, req, k)
    ensures r.Some? ==> exists k :: (0 <= k < |SignupSteps| && r.value == SignupSteps[k]
      && !StepHolds(users, req, k) && forall j :: 0 <= j < k ==> StepHolds(users, req, j))
  {
    if !AllPresent(req) then
      assert !StepHolds(users, req, 0);
      Some(MissingField)
    else
      var username, email, password := req.username.value, req.email.value, req.password.value;
      if !EmailPattern.Matches(email) then
        assert !StepHolds(users, req, 1);
        Some(InvalidEmail)
      else if Find(users, UserName, username).Some? then
        assert users[Find(users, UserName, username).value] in users;
        assert !StepHolds(users, req, 2);
        Some(UsernameTaken)
      else if Find(users, UserEmail, email).Some? then
        assert users[Find(users, UserEmail, email).value] in users;
        assert !StepHolds(users, req, 3);
        Some(EmailTaken)
      else if |password| < 6 then
        assert !StepHolds(users, req, 4);
        Some(PasswordTooShort)
      else if password != req.confirmation.value then
        assert !StepHolds(users, req, 5);
        Some(PasswordMismatch)
      else
        None
  }

  /** The document signup stores: the digest of the password, empty lists and
      empty profile fields. */
  function NewUser(id: Oid, req: SignupRequest, salt: nat): (u: User)
    requires AllPresent(req)
    ensures u.id == id && u.username == req.username.value && u.fullname == req.fullname.value
    ensures u.email == req.email.value
    ensures forall p :: Compare(p, u.password) <==> p == req.password.value
    ensures u.followers == [] && u.following == []
    ensures u.profileImg == "" && u.coverImg == "" && u.bio == "" && u.link == ""
  {
    User(id, req.username.value, req.fullname.value, req.email.value,
         Hash(req.password.value, salt), [], [], "", "", "", "")
  }

  /** A signup that passes its checks keeps usernames and emails unique. */
  lemma SignupKeepsIdentitiesUnique(users: seq<User>, req: SignupRequest, id: Oid, salt: nat)
    requires SignupCheck(users, req).None?
    requires UniqueKeys(users, UserName) && UniqueKeys(users, UserEmail)
    ensures UniqueKeys(users + [NewUser(id, req, salt)], UserName)
    ensures UniqueKeys(users + [NewUser(id, req, salt)], UserEmail)
  {
    assert StepHolds(users, req, 2) && StepHolds(users, req, 3);
    var all := users + [NewUser(id, req, salt)];
    forall i, j | 0 <= i < j < |all| ensures UserName(all[i]) != UserName(all[j]) && UserEmail(all[i]) != UserEmail(all[j]) {
      if j == |users| {
        assert all[i] in users;
      }
    }
  }

  /** `POST /auth/signup`. On success one user is appended and its session
      view is returned; on failure the store is unchanged. */
  method Signup(db: Store, req: SignupRequest, newId: Oid, salt: nat) returns (r: Result<SessionUser, Failure>)
    requires db.Valid()
    requires Find(db.users, UserId, newId).None?
    modifies db
    ensures db.Valid()
    ensures db.posts == old(db.posts) && db.comments == old(db.comments)
    ensures db.notifications == old(db.notifications)
    ensures SignupCheck(old(db.users), req).Some? ==>
      r == Err(BadRequest(SignupCheck(old(db.users), req).value)) && db.users == old(db.users)
    ensures SignupCheck(old(db.users), req).None? ==>
      && db.users == old(db.users) + [NewUser(newId, req, salt)]
      && r == Ok(Session(NewUser(newId, req, salt)))
  {
    var check := SignupCheck(db.users, req);
    if check.Some? {
      return Err(BadRequest(check.value));
    }
    assert StepHolds(db.users, req, 0);
    var user := NewUser(newId, req, salt);
    db.users := db.users + [user];
    r := Ok(Session(user));
  }

  /** `POST /auth/login`: the first user with that username, if the password
      matches its digest; an unknown username and a wrong password give the same error. */
  function Login(users: seq<User>, username: string, password: string): (r: Result<SessionUser, Failure>)
    ensures r.Ok? <==> (Find(users, UserName, username).Some?
      && Compare(password, users[Find(users, UserName, username).value].password))
    ensures r.Ok? ==> r.value == Session(users[Find(users, UserName, username).value])
    ensures r.Err? ==> r.error == BadRequest(InvalidCredentials)
  {
    match Find(users, UserName, username)
    case None => Err(BadRequest(InvalidCredentials))
    case Some(i) =>
      if Compare(password, users[i].password) then Ok(Session(users[i]))
      else Err(BadRequest(InvalidCredentials))
  }

  /** With unique usernames, login succeeds exactly when some user has that
      username and the password matches that user's digest. */
  lemma LoginIffCredentials(users: seq<User>, username: string, password: string)
    requires UniqueKeys(users, UserName)
    ensures Login(users, username, password).Ok? <==>
      exists i :: 0 <= i < |users| && users[i].username == username && Compare(password, users[i].password)
  {
    if exists i :: 0 <= i < |users| && users[i].username == username && Compare(password, users[i].password) {
      var i :| 0 <= i < |users| && users[i].username == username && Compare(password, users[i].password);
      FindUnique(users, UserName, username, i);
    }
  }

  /** After a successful signup, login with the same username accepts the
      signup password and refuses every other. */
  lemma SignupThenLogin(users: seq<User>, req: SignupRequest, id: Oid, salt: nat, password: string)
    requires SignupCheck(users, req).None?
    ensures AllPresent(req)
    ensures Login(users + [NewUser(id, req, salt)], req.username.value, password).Ok?
      <==> password == req.password.value
  {
    assert StepHolds(users, req, 0) && StepHolds(users, req, 2);
    var name := req.username.value;
    FindAppended(users, UserName, NewUser(id, req, salt), name);
  }
}
