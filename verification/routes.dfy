/**
 * The six route handlers over the user directory, each a pure transition
 * from (directory, request) to (directory', response). Hashing, comparing,
 * signing and email validation are library calls the model does not see
 * into; they arrive as the function fields of `Libraries`. The id a new
 * user gets is random in the service and is a parameter here.
 */
module Routes {
  import opened Wrappers
  import opened Directory
  import opened Jwt
  import opened Http

  const FieldsRequired: string := "Name, Email, and Password are required"
  const InvalidEmailFormat: string := "Invalid email format"
  const EmailInUse: string := "Email is already in use"
  const HashingError: string := "Password hashing error"
  const SignUpSuccessful: string := "Sign up successful by user"
  const CredentialsRequired: string := "Email and Password are required"
  const ComparisonError: string := "Password comparison error"
  const LoginSuccessful: string := "Login successful"
  const LoginFailed: string := "Login failed"
  const EmailDoesNotExist: string := "Email does not exist"
  const NotOnDatabase: string := "user on the database does exist"
  const UserNotFound: string := "User not found"
  const UserUpdated: string := "User updated successfully"
  const UserDeleted: string := "user successfully"
  const PasswordRequired: string := "New password is required"
  const PasswordChanged: string := "Password changed successfully"

  /** A JSON request body, as far as the handlers read it; each property may be absent. */
  datatype Body = Body(name: Option<string>, email: Option<string>, password: Option<string>)

  /** JavaScript truthiness of an optional string property: present and non-empty. */
  predicate Truthy(f: Option<string>) {
    f.Some? && f.value != ""
  }

  /** The JSON payload of a response. */
  datatype Payload =
    | Failure(error: string)
    | SignedUp(detail: User, message: string)
    | LoggedIn(data: User, token: string, message: string)
    | Profile(user: User)
    | Updated(echo: Body, message: string)
    | Note(text: string)
    | Message(message: string)

  datatype Response = Response(status: int, payload: Payload)

  /**
   * A handler's outcome: the directory after the request, the response sent,
   * and whether a rewrite of the snapshot file was started.
   */
  datatype Reply = Reply(dir: Dir, response: Response, saved: bool)

  /**
   * The foreign libraries. `hash` is bcrypt at 10 salt rounds and `compare`
   * its check; `None` stands for the error their callbacks receive. `sign`
   * issues a token with a one-hour expiry; `validEmail` is the email-syntax check.
   */
  datatype Libraries = Libraries(
    hash: string -> Option<string>,
    compare: (string, string) -> Option<bool>,
    sign: Claims -> string,
    validEmail: string -> bool)

  /**
   * What the handlers rely on from bcrypt: comparing a password with a hash
   * that `hash` produced for that same password succeeds.
   */
  ghost predicate CompareAcceptsOwnHash(lib: Libraries) {
    forall p: string, h: string :: lib.hash(p) == Some(h) ==> lib.compare(p, h) == Some(true)
  }

  /** An error response that leaves the directory alone and writes nothing. */
  function Reject(dir: Dir, status: int, error: string): Reply {
    Reply(dir, Response(status, Failure(error)), false)
  }

  /** The claims a login token is signed over: the user's id and email. */
  function LoginClaims(u: User): (c: Claims)
    ensures c.Keys == {"id", "email"} && "username" !in c
    ensures c["id"] == JNum(u.id) && c["email"] == JStr(u.email)
  {
    map["id" := JNum(u.id), "email" := JStr(u.email)]
  }

  /** True when name, email and password are all present and non-empty. */
  predicate SignUpComplete(body: Body) {
    Truthy(body.name) && Truthy(body.email) && Truthy(body.password)
  }

  /** `signUp`: register a new user, appending its record to the directory. */
  function SignUp(dir: Dir, body: Body, lib: Libraries, id: int): (r: Reply)
    requires 10 <= id <= 99
    ensures r.response.status == CREATED || r.response.status == BAD_REQUEST || r.response.status == SERVER_ERROR
    ensures r.response.status != CREATED ==> r.dir == dir && !r.saved && r.response.payload.Failure?
    // the guards, in the order they are checked
    ensures !SignUpComplete(body) ==> r.response == Response(BAD_REQUEST, Failure(FieldsRequired))
    ensures SignUpComplete(body) && !lib.validEmail(body.email.value) ==>
              r.response == Response(BAD_REQUEST, Failure(InvalidEmailFormat))
    ensures SignUpComplete(body) && lib.validEmail(body.email.value) && !IsEmailUnique(dir, body.email.value) ==>
              r.response == Response(BAD_REQUEST, Failure(EmailInUse))
    ensures SignUpComplete(body) && lib.validEmail(body.email.value) && IsEmailUnique(dir, body.email.value)
            && lib.hash(body.password.value).None? ==>
              r == Reject(dir, SERVER_ERROR, HashingError)
    ensures r.response.status == CREATED <==>
              SignUpComplete(body) && lib.validEmail(body.email.value)
              && (forall j :: 0 <= j < |dir| ==> dir[j].email != body.email.value)
              && lib.hash(body.password.value).Some?
    // success appends exactly one record and touches nothing else
    ensures r.response.status == CREATED ==>
              && r.saved
              && |r.dir| == |dir| + 1
              && r.dir[..|dir|] == dir
              && r.dir[|dir|] == User(id, body.name.value, body.email.value, lib.hash(body.password.value).value)
              && r.response.payload == SignedUp(r.dir[|dir|], SignUpSuccessful)
  {
    if !SignUpComplete(body) then
      Reject(dir, BAD_REQUEST, FieldsRequired)
    else if !lib.validEmail(body.email.value) then
      Reject(dir, BAD_REQUEST, InvalidEmailFormat)
    else if !IsEmailUnique(dir, body.email.value) then
      Reject(dir, BAD_REQUEST, EmailInUse)
    else
      match lib.hash(body.password.value)
      case None => Reject(dir, SERVER_ERROR, HashingError)
      case Some(hash) =>
        var user := User(id, body.name.value, body.email.value, hash);
        var dir' := dir + [user];
        assert dir'[..|dir|] == dir;
        Reply(dir', Response(CREATED, SignedUp(user, SignUpSuccessful)), true)
  }

  /** `login`: check the password of the first record with the email and issue a token. */
  function Login(dir: Dir, body: Body, lib: Libraries): (r: Reply)
    ensures r.dir == dir && !r.saved
    ensures !Truthy(body.email) || !Truthy(body.password) ==>
              r.response == Response(BAD_REQUEST, Failure(CredentialsRequired))
    ensures Truthy(body.email) && Truthy(body.password) && IsEmailUnique(dir, body.email.value) ==>
              r.response == Response(UNAUTHORIZED, Failure(EmailDoesNotExist))
    ensures Truthy(body.email) && Truthy(body.password) && !IsEmailUnique(dir, body.email.value) ==>
              var u := dir[IndexOfEmail(dir, body.email.value)];
              match lib.compare(body.password.value, u.password)
              case None => r.response == Response(SERVER_ERROR, Failure(ComparisonError))
              case Some(false) => r.response == Response(UNAUTHORIZED, Failure(LoginFailed))
              case Some(true) => r.response == Response(OK, LoggedIn(u, lib.sign(LoginClaims(u)), LoginSuccessful))
    ensures r.response.status == OK <==>
              Truthy(body.email) && Truthy(body.password)
              && (exists k :: (0 <= k < |dir| && dir[k].email == body.email.value
                               && (forall j :: 0 <= j < k ==> dir[j].email != body.email.value)
                               && lib.compare(body.password.value, dir[k].password) == Some(true)))
  {
    if !Truthy(body.email) || !Truthy(body.password) then
      Reject(dir, BAD_REQUEST, CredentialsRequired)
    else
      var k := IndexOfEmail(dir, body.email.value);
      assert forall i :: (0 <= i < |dir| && dir[i].email == body.email.value
                          && (forall j :: 0 <= j < i ==> dir[j].email != body.email.value)) ==> i == k;
      if k == -1 then
        Reject(dir, UNAUTHORIZED, EmailDoesNotExist)
      else
        var found := dir[k];
        match lib.compare(body.password.value, found.password)
        case None => Reject(dir, SERVER_ERROR, ComparisonError)
        case Some(false) => Reject(dir, UNAUTHORIZED, LoginFailed)
        case Some(true) =>
          var token := lib.sign(LoginClaims(found));
          Reply(dir, Response(OK, LoggedIn(found, token, LoginSuccessful)), false)
  }

  /** `getUser`: the first record with the id, or 404. */
  function GetUser(dir: Dir, id: int): (r: Reply)
    ensures r.dir == dir && !r.saved
    ensures r.response.status == OK || r.response.status == NOT_FOUND
    ensures r.response.status == NOT_FOUND <==> forall j :: 0 <= j < |dir| ==> dir[j].id != id
    ensures r.response.status == NOT_FOUND ==> r.response.payload == Failure(NotOnDatabase)
    ensures r.response.status == OK ==> r.response.payload == Profile(dir[IndexOfId(dir, id)])
  {
    match FindUserById(dir, id)
    case Some(user) => Reply(dir, Response(OK, Profile(user)), false)
    case None => Reject(dir, NOT_FOUND, NotOnDatabase)
  }

  /** The record after a partial patch: name and email are replaced only when truthy in the body. */
  function Patch(u: User, body: Body): (v: User)
    ensures v.id == u.id && v.password == u.password
    ensures v.name == (if Truthy(body.name) then body.name.value else u.name)
    ensures v.email == (if Truthy(body.email) then body.email.value else u.email)
  {
    var named := if Truthy(body.name) then u.(name := body.name.value) else u;
    if Truthy(body.email) then named.(email := body.email.value) else named
  }

  /** `updateUser`: patch the first record with the id; the response echoes the body. */
  function UpdateUser(dir: Dir, id: int, body: Body): (r: Reply)
    ensures |r.dir| == |dir|
    ensures (forall j :: 0 <= j < |dir| ==> dir[j].id != id) ==> r == Reject(dir, NOT_FOUND, UserNotFound)
    ensures (exists j :: 0 <= j < |dir| && dir[j].id == id) ==>
              && r.saved
              && r.response == Response(OK, Updated(body, UserUpdated))
              && var k := IndexOfId(dir, id);
                 && (forall j :: 0 <= j < |dir| && j != k ==> r.dir[j] == dir[j])
                 && r.dir[k].id == dir[k].id && r.dir[k].password == dir[k].password
                 && r.dir[k].name == (if Truthy(body.name) then body.name.value else dir[k].name)
                 && r.dir[k].email == (if Truthy(body.email) then body.email.value else dir[k].email)
  {
    var k := IndexOfId(dir, id);
    if k == -1 then
      Reject(dir, NOT_FOUND, UserNotFound)
    else
      Reply(dir[k := Patch(dir[k], body)], Response(OK, Updated(body, UserUpdated)), true)
  }

  /** `deleteUser`: remove the first record with the id. */
  function DeleteUser(dir: Dir, id: int): (r: Reply)
    ensures (forall j :: 0 <= j < |dir| ==> dir[j].id != id) ==> r == Reject(dir, NOT_FOUND, UserNotFound)
    ensures (exists j :: 0 <= j < |dir| && dir[j].id == id) ==>
              && r.saved
              && r.response == Response(OK, Note(UserDeleted))
              && |r.dir| == |dir| - 1
              && var k := IndexOfId(dir, id);
                 r.dir[..k] == dir[..k] && r.dir[k..] == dir[k + 1..]
  {
    var k := IndexOfId(dir, id);
    if k == -1 then
      Reject(dir, NOT_FOUND, UserNotFound)
    else
      var dir' := RemoveAt(dir, k);
      assert dir'[..k] == dir[..k] && dir'[k..] == dir[k + 1..];
      Reply(dir', Response(OK, Note(UserDeleted)), true)
  }

  /** `changePassword`: replace the stored hash of the first record with the id. */
  function ChangePassword(dir: Dir, id: int, body: Body, lib: Libraries): (r: Reply)
    ensures r.response.status != CREATED ==> r.dir == dir && !r.saved
    // an unknown id is reported before a missing password
    ensures (forall j :: 0 <= j < |dir| ==> dir[j].id != id) ==> r == Reject(dir, NOT_FOUND, UserNotFound)
    ensures (exists j :: 0 <= j < |dir| && dir[j].id == id) && !Truthy(body.password) ==>
              r == Reject(dir, BAD_REQUEST, PasswordRequired)
    ensures (exists j :: 0 <= j < |dir| && dir[j].id == id) && Truthy(body.password)
            && lib.hash(body.password.value).None? ==>
              r == Reject(dir, SERVER_ERROR, HashingError)
    ensures r.response.status == CREATED <==>
              (exists j :: 0 <= j < |dir| && dir[j].id == id)
              && Truthy(body.password) && lib.hash(body.password.value).Some?
    ensures r.response.status == CREATED ==>
              && r.saved
              && r.response.payload == Message(PasswordChanged)
              && var k := IndexOfId(dir, id);
                 r.dir == dir[k := dir[k].(password := lib.hash(body.password.value).value)]
  {
    var k := IndexOfId(dir, id);
    if k == -1 then
      Reject(dir, NOT_FOUND, UserNotFound)
    else if !Truthy(body.password) then
      Reject(dir, BAD_REQUEST, PasswordRequired)
    else
      match lib.hash(body.password.value)
      case None => Reject(dir, SERVER_ERROR, HashingError)
      case Some(hash) =>
        Reply(dir[k := dir[k].(password := hash)], Response(CREATED, Message(PasswordChanged)), true)
  }
}
