/** Signup and login as the user controller runs them on the validated body. */
module UserController {
  import opened Wrappers
  import opened Documents
  import opened Responses
  import opened CommonService
  import opened UserService
  import Schemas
  import Messages

  /** The validated `{email, password}` body; both keys are optional. */
  datatype Credentials = Credentials(email: Option<string>, password: Option<string>)

  /** The data a new user is stored with: the body with `password` replaced by
      its salted hash and the salt added. */
  function SignupData(body: Credentials, salt: string,
                      hash: (Option<string>, Option<string>) -> string): (p: Patch)
    ensures "password" in p && p["password"] == VStr(hash(body.password, Some(salt)))
    ensures "salt" in p && p["salt"] == VStr(salt)
    ensures "email" in p <==> body.email.Some?
    ensures body.email.Some? ==> p["email"] == VStr(body.email.value)
    ensures p.Keys <= {"email", "password", "salt"}
  {
    var p := map["password" := VStr(hash(body.password, Some(salt))), "salt" := VStr(salt)];
    if body.email.Some? then p["email" := VStr(body.email.value)] else p
  }

  /** `create`: an email already held by an active user gives a 409 response
      carrying that user and inserts nothing; otherwise the user is stored
      with the salt and the salted hash, and the 201 response is returned. */
  method Create(users: Collection, body: Credentials, salt: string,
                hash: (Option<string>, Option<string>) -> string) returns (r: Reply)
    requires users.Valid()
    modifies users
    ensures users.Valid()
    ensures var existing := old(FindByEmail(users, body.email, None));
            if existing.Some?
            then r == Formatted(409, One(existing.value), Messages.AlreadyExist, None)
                 && users.docs == old(users.docs) && users.nextId == old(users.nextId)
            else var d := users.NewDoc(old(users.nextId), SignupData(body, salt, hash));
                 users.docs == old(users.docs) + [d]
                 && r == Formatted(201, One(d), Messages.Created, None)
  {
    var existing := FindByEmail(users, body.email, None);
    if existing.Some? {
      return Formatted(409, One(existing.value), Messages.AlreadyExist, None);
    }
    r := users.Create(SignupData(body, salt, hash), true);
  }

  /** `loginUser`: the service's login result; its error object is what is
      thrown, unchanged. */
  function LoginUser(users: Collection, body: Credentials,
                     hash: (Option<string>, Option<string>) -> string, sign: Doc -> string)
    : (r: Result<Reply>)
    reads users
    ensures r.Fail? ==> r.error == Error(409, Messages.LoginFailed)
    ensures r.Ok? <==> var u := FindByEmail(users, body.email, None);
                       u.Some? && PasswordMatches(u.value, body.password, hash)
    ensures r.Ok? ==> r.value.Formatted? && r.value.status == 200 && r.value.cookie.Some?
  {
    UserLogin(users, body.email, body.password, hash, sign)
  }

  /** Signup followed by login with the same credentials succeeds: the stored
      user is the first active one with that email and its stored password
      is the hash of the same password with the stored salt. */
  lemma LoginAfterSignup(users: Collection, before: seq<Doc>, id: Id, body: Credentials, salt: string,
                         hash: (Option<string>, Option<string>) -> string, sign: Doc -> string)
    requires users.schema == Schemas.UserKeys && users.defaults == Schemas.UserDefaults
    requires forall d :: d in before ==> !IsUser(d, body.email, None)
    requires users.docs == before + [users.NewDoc(id, SignupData(body, salt, hash))]
    ensures LoginUser(users, body, hash, sign).Ok?
  {
    var d := users.NewDoc(id, SignupData(body, salt, hash));
    assert d.fields["status"] == Active;
    assert SaltOf(d) == Some(salt);
    assert IsUser(d, body.email, None);
    var u := FindByEmail(users, body.email, None);
    assert u.Some? by { assert d in users.docs; }
    assert u.value == d by {
      var k :| 0 <= k < |users.docs| && users.docs[k] == u.value;
      assert k == |before|;
    }
  }
}
