/** User lookups and login. The user service's `findByName` and
    `findAndRemoveTags` are the tag registry's code run on the User
    collection: they are `TagService`'s members applied to the users'
    `Collection`, where no user carries a `name`, so the first always gives
    the 404 error and the second changes nothing. Hashing and token signing
    are parameters. */
module UserService {
  import opened Wrappers
  import opened Documents
  import opened Responses
  import opened CommonService
  import Messages

  /** The condition an `email` key puts on the stored email: an undefined
      email matches users without one. */
  function EmailCond(email: Option<string>): Cond {
    if email.Some? then Eq(VStr(email.value)) else Absent
  }

  /** The filter `{email, status: "active"}`, with `_id` added when an id is given. */
  function ByEmail(email: Option<string>, id: Option<Id>): Filter {
    var f := map[Top("email") := EmailCond(email), Top("status") := Eq(Active)];
    if id.Some? then f[IdPath := Eq(VId(id.value))] else f
  }

  predicate HasEmail(d: Doc, email: Option<string>) {
    Get(d, Top("email")) == if email.Some? then Some(VStr(email.value)) else None
  }

  /** An active user with that email, and with that id when one is given. */
  predicate IsUser(d: Doc, email: Option<string>, id: Option<Id>) {
    HasEmail(d, email) && IsActive(d) && (id.Some? ==> d.id == id.value)
  }

  lemma MatchesByEmail(d: Doc, email: Option<string>, id: Option<Id>)
    ensures Matches(d, ByEmail(email, id)) <==> IsUser(d, email, id)
  {
    var f := ByEmail(email, id);
    assert Top("email") in f && Top("status") in f;
    assert f[Top("email")] == EmailCond(email) && f[Top("status")] == Eq(Active);
    if id.Some? {
      assert IdPath in f && f[IdPath] == Eq(VId(id.value));
    }
  }

  /** `findByEmail`: the first active user with that email (and id). */
  function FindByEmail(users: Collection, email: Option<string>, id: Option<Id>): (r: Option<Doc>)
    reads users
    ensures r.Some? ==> r.value in users.docs && IsUser(r.value, email, id)
    ensures r.None? <==> !exists d :: d in users.docs && IsUser(d, email, id)
  {
    var r := users.FindOne(ByEmail(email, id));
    if r.Some? then
      MatchesByEmail(r.value, email, id);
      r
    else
      assert forall d :: d in users.docs ==> !IsUser(d, email, id) by {
        forall d | d in users.docs ensures !IsUser(d, email, id) { MatchesByEmail(d, email, id); }
      }
      r
  }

  /** The stored salt; a missing one reads as `undefined`. */
  function SaltOf(d: Doc): Option<string> {
    match Get(d, Top("salt"))
    case Some(VStr(s)) => Some(s)
    case _ => None
  }

  /** The stored password is the hash of `password` with the stored salt. */
  predicate PasswordMatches(d: Doc, password: Option<string>,
                            hash: (Option<string>, Option<string>) -> string) {
    Get(d, Top("password")) == Some(VStr(hash(password, SaltOf(d))))
  }

  /** `userLogin`: 200 with the user and a signed token as cookie iff the
      first active user with that email exists and its stored password is
      `hash(password, salt)`; otherwise the 409 "Login failed" error. */
  function UserLogin(users: Collection, email: Option<string>, password: Option<string>,
                     hash: (Option<string>, Option<string>) -> string, sign: Doc -> string)
    : (r: Result<Reply>)
    reads users
    ensures var u := FindByEmail(users, email, None);
            r.Ok? <==> u.Some? && PasswordMatches(u.value, password, hash)
    ensures r.Ok? ==> r.value.Formatted? && r.value.data.One?
                      && r.value == Formatted(200, r.value.data, Messages.LoginSuccess, Some(sign(r.value.data.doc)))
    ensures r.Ok? ==> var u := r.value.data.doc;
                      u in users.docs && IsUser(u, email, None) && PasswordMatches(u, password, hash)
    ensures r.Fail? ==> r.error == Error(409, Messages.LoginFailed)
  {
    match FindByEmail(users, email, None)
    case Some(u) =>
      if PasswordMatches(u, password, hash)
      then Ok(Formatted(200, One(u), Messages.LoginSuccess, Some(sign(u))))
      else Fail(Error(409, Messages.LoginFailed))
    case None => Fail(Error(409, Messages.LoginFailed))
  }
}
