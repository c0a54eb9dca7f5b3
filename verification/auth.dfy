/** `AuthService`, as far as its test suite pins it down: sign-up hashes the
    password, creates the user and signs a token over the new user's
    username and id; login looks the user up by username, compares the
    password with the stored hash and signs the same kind of token. Both
    login failures end in one and the same exception. */
module Auth {
  import opened Wrappers
  import opened Db
  import opened Crypto
  import opened Exceptions
  import Users

  datatype AccessToken = AccessToken(access_token: string)

  /** The one exception a rejected login throws, whichever half of the
      credentials was wrong. */
  const InvalidCredentials: Error := Unauthorized("Invalid credentials")

  function IssueToken(row: Row, sign: Signer): (t: AccessToken) {
    AccessToken(sign(Claims(row.user.username, row.id)))
  }

  /** `signUp`: hash once at cost 10, store `{username, email, hash}`, sign
      over the stored user. The record reaches the table as given. */
  function SignUp(s: Store, username: string, password: string, email: string, h: Hasher, sign: Signer, id: Id, fault: Option<string>)
    : (r: Result<(Store, AccessToken), Error>)
    ensures r.Success? <==> fault.None? && id !in s && !UsernameTaken(s, username) && !EmailTaken(s, email)
    ensures r.Success? ==>
      && r.value.0 == s[id := User(username, email, h.hash(password, SaltRounds))]
      && r.value.1 == AccessToken(sign(Claims(username, id)))
    ensures fault.Some? ==> r == Failure(Persistence(DbFault(fault.value)))
    ensures fault.None? && id !in s && UsernameTaken(s, username) ==> r == Failure(Conflict(ConflictMessage("username")))
    ensures fault.None? && id !in s && !UsernameTaken(s, username) && EmailTaken(s, email) ==>
      r == Failure(Conflict(ConflictMessage("email")))
  {
    var hashed := h.hash(password, SaltRounds);
    match Users.CreateRecord(s, Users.CreateUserDto(username, email, hashed), id, fault)
    case Failure(e) => Failure(e)
    case Success((s', row)) => Success((s', IssueToken(row, sign)))
  }

  /** `signUp` composed with `UsersService.create` as that is written: the
      hash signUp computes is hashed a second time before it is stored. */
  function SignUpAsWritten(s: Store, username: string, password: string, email: string, h: Hasher, sign: Signer, id: Id, fault: Option<string>)
    : (r: Result<(Store, AccessToken), Error>)
    ensures r.Success? <==> fault.None? && id !in s && !UsernameTaken(s, username) && !EmailTaken(s, email)
    ensures r.Success? ==>
      && r.value.0 == s[id := User(username, email, h.hash(h.hash(password, SaltRounds), SaltRounds))]
      && r.value.1 == AccessToken(sign(Claims(username, id)))
  {
    var hashed := h.hash(password, SaltRounds);
    match Users.Create(s, Users.CreateUserDto(username, email, hashed), h, id, fault)
    case Failure(e) => Failure(e)
    case Success((s', row)) => Success((s', IssueToken(row, sign)))
  }

  /** `login`: find by username, compare against the stored hash, sign. */
  function Login(s: Store, username: string, password: string, h: Hasher, sign: Signer): (r: Result<AccessToken, Error>)
    ensures r.Success? <==> exists id :: id in s && s[id].username == username && h.compare(password, s[id].password)
    ensures r.Success? ==> exists id :: id in s && s[id].username == username && r.value == AccessToken(sign(Claims(username, id)))
    ensures r.Failure? ==> r.error == InvalidCredentials
  {
    match Users.FindByUsername(s, username)
    case None => Failure(InvalidCredentials)
    case Some(row) =>
      if h.compare(password, row.user.password) then Success(IssueToken(row, sign))
      else Failure(InvalidCredentials)
  }

  /** Credentials that signed up log in, and receive a token signed over the
      same claims `{username, sub: id}` as the one sign-up issued. */
  lemma SignUpThenLogin(s: Store, username: string, password: string, email: string, h: Hasher, sign: Signer, id: Id)
    requires Sound(h)
    requires SignUp(s, username, password, email, h, sign, id, None).Success?
    ensures
      var s' := SignUp(s, username, password, email, h, sign, id, None).value.0;
      Login(s', username, password, h, sign) == Success(AccessToken(sign(Claims(username, id))))
  {
    var (s', token) := SignUp(s, username, password, email, h, sign, id, None).value;
    assert s'[id].password == h.hash(password, SaltRounds);
    assert UsernameTaken(s', username);
    var row := Users.FindByUsername(s', username).value;
    assert row.id == id;
  }

  /** A toy hasher that satisfies `Sound`: the digest is a fixed prefix
      followed by the plaintext, and compare accepts exactly that digest. */
  function PrefixHasher(): (h: Hasher)
    ensures Sound(h)
  {
    Hasher((p: string, cost: nat) => "$2b$" + p, (p: string, d: string) => d == "$2b$" + p)
  }

  /** With the composition as written, the scenario of the sign-up test
      followed by a login with the same credentials is rejected. */
  lemma SignUpAsWrittenLocksOut(sign: Signer)
    ensures
      var h := PrefixHasher();
      var signedUp := SignUpAsWritten(map[], "testuser", "password123", "test@example.com", h, sign, "1", None);
      && signedUp.Success?
      && Login(signedUp.value.0, "testuser", "password123", h, sign) == Failure(InvalidCredentials)
  {
    var h := PrefixHasher();
    var s: Store := map[];
    assert !UsernameTaken(s, "testuser") && !EmailTaken(s, "test@example.com");
    var s' := SignUpAsWritten(s, "testuser", "password123", "test@example.com", h, sign, "1", None).value.0;
    var digest := h.hash(h.hash("password123", SaltRounds), SaltRounds);
    assert s'.Keys == {"1"} && s'["1"].password == digest;
    assert |digest| == |"password123"| + 8;
    assert !h.compare("password123", digest);
  }

  /** An unknown username and a wrong password are rejected identically. */
  lemma LoginFailuresIndistinguishable(
    s1: Store, unknown: string, p1: string,
    s2: Store, known: string, p2: string,
    h: Hasher, sign: Signer)
    requires !UsernameTaken(s1, unknown)
    requires Users.FindByUsername(s2, known).Some?
    requires !h.compare(p2, Users.FindByUsername(s2, known).value.user.password)
    ensures Login(s1, unknown, p1, h, sign) == Login(s2, known, p2, h, sign) == Failure(InvalidCredentials)
  {
  }

  /** Signing up a username that is already stored fails with the username
      conflict, whatever the email. */
  lemma SignUpDuplicateUsername(s: Store, username: string, password: string, email: string, h: Hasher, sign: Signer, id: Id)
    requires id !in s
    requires UsernameTaken(s, username)
    ensures SignUp(s, username, password, email, h, sign, id, None) == Failure(Conflict(ConflictMessage("username")))
  {
  }
}
