/** `UsersService`: create, list, look up, patch and delete user records.
    Every operation takes the table and returns the table after it, so
    "nothing else changes" is a statement about the returned map. The new
    primary key and the outcome of each write query are parameters: the
    database chooses the one and can fail the other. */
module Users {
  import opened Wrappers
  import opened Db
  import opened Crypto
  import opened Exceptions

  datatype CreateUserDto = CreateUserDto(username: string, email: string, password: string)

  /** Every field optional; an absent or empty field leaves the column alone. */
  datatype UpdateUserDto = UpdateUserDto(username: Option<string>, email: Option<string>, password: Option<string>)

  /** JavaScript truthiness of an optional string field. */
  predicate Provided(f: Option<string>) {
    f.Some? && f.value != ""
  }

  /** The exception `create` throws for a rejected insert: a unique-constraint
      violation becomes a conflict naming its first column, anything else is
      rethrown unchanged. */
  function CreateError(e: DbError): (x: Error)
    ensures e.UniqueConstraint? && |e.fields| > 0 <==> x.Conflict?
    ensures e.UniqueConstraint? && |e.fields| > 0 ==> x.message == ConflictMessage(e.fields[0])
    ensures e.UniqueConstraint? && |e.fields| == 0 ==> x == TypeError
    ensures e.DbFault? ==> x == Persistence(e)
  {
    match e
    case UniqueConstraint(fields) =>
      if |fields| == 0 then TypeError else Conflict(ConflictMessage(fields[0]))
    case DbFault(_) => Persistence(e)
  }

  /** The insert of `create` with its error mapping, storing the DTO exactly
      as given. */
  function CreateRecord(s: Store, dto: CreateUserDto, id: Id, fault: Option<string>): (r: Result<(Store, Row), Error>)
    ensures r.Success? <==> fault.None? && id !in s && !UsernameTaken(s, dto.username) && !EmailTaken(s, dto.email)
    ensures r.Success? ==>
      var u := User(dto.username, dto.email, dto.password);
      r.value == (s[id := u], Row(id, u))
    ensures fault.Some? ==> r == Failure(Persistence(DbFault(fault.value)))
    ensures fault.None? && id in s ==> r == Failure(Conflict(ConflictMessage("id")))
    ensures fault.None? && id !in s && UsernameTaken(s, dto.username) ==> r == Failure(Conflict(ConflictMessage("username")))
    ensures fault.None? && id !in s && !UsernameTaken(s, dto.username) && EmailTaken(s, dto.email) ==>
      r == Failure(Conflict(ConflictMessage("email")))
  {
    var u := User(dto.username, dto.email, dto.password);
    match Insert(s, id, u, fault)
    case Success(s') => Success((s', Row(id, u)))
    case Failure(e) => Failure(CreateError(e))
  }

  /** `create`: hash the password at cost 10, then insert. */
  function Create(s: Store, dto: CreateUserDto, h: Hasher, id: Id, fault: Option<string>): (r: Result<(Store, Row), Error>)
    ensures r.Success? <==> fault.None? && id !in s && !UsernameTaken(s, dto.username) && !EmailTaken(s, dto.email)
    ensures r.Success? ==>
      var u := User(dto.username, dto.email, h.hash(dto.password, SaltRounds));
      r.value == (s[id := u], Row(id, u))
    ensures fault.Some? ==> r == Failure(Persistence(DbFault(fault.value)))
    ensures fault.None? && id in s ==> r == Failure(Conflict(ConflictMessage("id")))
    ensures fault.None? && id !in s && UsernameTaken(s, dto.username) ==> r == Failure(Conflict(ConflictMessage("username")))
    ensures fault.None? && id !in s && !UsernameTaken(s, dto.username) && EmailTaken(s, dto.email) ==>
      r == Failure(Conflict(ConflictMessage("email")))
  {
    CreateRecord(s, dto.(password := h.hash(dto.password, SaltRounds)), id, fault)
  }

  /** `findAll`: every row of the table, each exactly once. */
  method FindAll(s: map<Id, User>) returns (rows: seq<Row>)
    ensures |rows| == |s|
    ensures forall i :: 0 <= i < |rows| ==> rows[i].id in s && s[rows[i].id] == rows[i].user
    ensures forall id :: id in s ==> exists i :: 0 <= i < |rows| && rows[i].id == id
    ensures forall i, j :: 0 <= i < j < |rows| ==> rows[i].id != rows[j].id
  {
    rows := [];
    var pending := s.Keys;
    while pending != {}
      invariant pending <= s.Keys
      invariant |rows| + |pending| == |s|
      invariant forall i :: 0 <= i < |rows| ==> rows[i].id in s && rows[i].id !in pending && s[rows[i].id] == rows[i].user
      invariant forall id :: id in s && id !in pending ==> exists i :: 0 <= i < |rows| && rows[i].id == id
      invariant forall i, j :: 0 <= i < j < |rows| ==> rows[i].id != rows[j].id
      decreases pending
    {
      var id :| id in pending;
      var rows' := rows + [Row(id, s[id])];
      forall k | k in s && k !in pending - {id}
        ensures exists i :: 0 <= i < |rows'| && rows'[i].id == k
      {
        if k == id {
          assert rows'[|rows|].id == k;
        } else {
          var i :| 0 <= i < |rows| && rows[i].id == k;
          assert rows'[i].id == k;
        }
      }
      rows := rows';
      pending := pending - {id};
    }
  }

  /** `findOne`: the row under `id`, or `NotFound`. */
  function FindOne(s: Store, id: Id): (r: Result<Row, Error>)
    ensures r.Success? <==> id in s
    ensures r.Success? ==> r.value == Row(id, s[id])
    ensures r.Failure? ==> r.error == NotFound(NotFoundMessage(id))
  {
    if id in s then Success(Row(id, s[id])) else Failure(NotFound(NotFoundMessage(id)))
  }

  /** `findByUsername`: the row with this username, or null. Usernames are
      unique, so there is at most one. */
  function FindByUsername(s: Store, username: string): (r: Option<Row>)
    ensures r.None? <==> !UsernameTaken(s, username)
    ensures r.Some? ==> r.value.id in s && s[r.value.id] == r.value.user && r.value.user.username == username
  {
    if UsernameTaken(s, username) then
      var id :| id in s && s[id].username == username;
      Some(Row(id, s[id]))
    else None
  }

  /** The columns after applying a patch: each provided field replaces its
      column, the password only as its hash. */
  function Patch(u: User, p: UpdateUserDto, h: Hasher): (u': User)
    ensures u'.email == (if Provided(p.email) then p.email.value else u.email)
    ensures u'.username == (if Provided(p.username) then p.username.value else u.username)
    ensures u'.password == (if Provided(p.password) then h.hash(p.password.value, SaltRounds) else u.password)
  {
    var u1 := if Provided(p.email) then u.(email := p.email.value) else u;
    var u2 := if Provided(p.username) then u1.(username := p.username.value) else u1;
    if Provided(p.password) then u2.(password := h.hash(p.password.value, SaltRounds)) else u2
  }

  /** `update`: look the row up, patch it, save it. A unique-constraint error
      from the save is not mapped to a conflict: it is rethrown as it came. */
  function Update(s: Store, id: Id, p: UpdateUserDto, h: Hasher, fault: Option<string>): (r: Result<(Store, Row), Error>)
    ensures id !in s ==> r == Failure(NotFound(NotFoundMessage(id)))
    ensures r.Success? ==>
      && id in s
      && r.value.1 == Row(id, Patch(s[id], p, h))
      && r.value.0 == s[id := Patch(s[id], p, h)]
    ensures id in s && fault.None? ==>
      (r.Success? <==> !UsernameTaken(s - {id}, Patch(s[id], p, h).username) && !EmailTaken(s - {id}, Patch(s[id], p, h).email))
    ensures id in s && fault.Some? ==> r == Failure(Persistence(DbFault(fault.value)))
    ensures r.Failure? ==> r.error.NotFound? || r.error.Persistence?
    ensures id in s && r.Failure? ==> r.error.Persistence?
    ensures id in s && fault.None? && r.Failure? ==> r.error.cause.UniqueConstraint? && |r.error.cause.fields| > 0
  {
    match FindOne(s, id)
    case Failure(e) => Failure(e)
    case Success(row) =>
      var u := Patch(row.user, p, h);
      match Save(s, id, u, fault)
      case Success(s') => Success((s', Row(id, u)))
      case Failure(e) => Failure(Persistence(e))
  }

  /** `remove`: look the row up, then destroy it. */
  function Remove(s: Store, id: Id, fault: Option<string>): (r: Result<Store, Error>)
    ensures id !in s ==> r == Failure(NotFound(NotFoundMessage(id)))
    ensures id in s && fault.Some? ==> r == Failure(Persistence(DbFault(fault.value)))
    ensures r.Success? <==> id in s && fault.None?
    ensures r.Success? ==> r.value.Keys == s.Keys - {id} && forall k :: k in r.value ==> r.value[k] == s[k]
  {
    match FindOne(s, id)
    case Failure(e) => Failure(e)
    case Success(_) =>
      match Destroy(s, id, fault)
      case Success(s') => Success(s')
      case Failure(e) => Failure(Persistence(e))
  }

  // Properties relating the operations to one another.

  /** A created user is found under its new key; every other row is found
      as before. */
  lemma CreateThenFindOne(s: Store, dto: CreateUserDto, h: Hasher, id: Id)
    requires Create(s, dto, h, id, None).Success?
    ensures
      var (s', row) := Create(s, dto, h, id, None).value;
      && FindOne(s', id) == Success(row)
      && row.user.password == h.hash(dto.password, SaltRounds)
      && forall k :: k != id ==> FindOne(s', k) == FindOne(s, k)
  {
  }

  /** Removing a freshly created user restores the table it was created in. */
  lemma CreateThenRemove(s: Store, dto: CreateUserDto, h: Hasher, id: Id)
    requires Create(s, dto, h, id, None).Success?
    ensures Remove(Create(s, dto, h, id, None).value.0, id, None) == Success(s)
  {
    var s' := Create(s, dto, h, id, None).value.0;
    assert id in s';
    var back := Remove(s', id, None).value;
    assert back.Keys == s.Keys;
    assert forall k :: k in back ==> back[k] == s[k];
    assert back == s;
  }

  /** Under a fresh key, a rejected create without a database fault is a
      conflict on the username or on the email, the username winning. */
  lemma CreateConflictNamesField(s: Store, dto: CreateUserDto, h: Hasher, id: Id)
    requires id !in s
    requires Create(s, dto, h, id, None).Failure?
    ensures var e := Create(s, dto, h, id, None).error;
      || (UsernameTaken(s, dto.username) && e == Conflict(ConflictMessage("username")))
      || (!UsernameTaken(s, dto.username) && EmailTaken(s, dto.email) && e == Conflict(ConflictMessage("email")))
  {
  }

  /** Patching only the email leaves the username and the password hash
      exactly as they were, and changes no other row. */
  lemma UpdateEmailOnly(s: Store, id: Id, email: string, h: Hasher)
    requires email != ""
    requires Update(s, id, UpdateUserDto(None, Some(email), None), h, None).Success?
    ensures
      var (s', row) := Update(s, id, UpdateUserDto(None, Some(email), None), h, None).value;
      && row.user == s[id].(email := email)
      && s'.Keys == s.Keys
      && forall k :: k in s && k != id ==> s'[k] == s[k]
  {
  }

  /** A new password is stored only as its hash at cost 10; the username and
      the email stay as they were. */
  lemma UpdatePasswordRehashed(s: Store, id: Id, password: string, h: Hasher)
    requires password != ""
    requires Update(s, id, UpdateUserDto(None, None, Some(password)), h, None).Success?
    ensures
      var (s', row) := Update(s, id, UpdateUserDto(None, None, Some(password)), h, None).value;
      && s'[id] == User(s[id].username, s[id].email, h.hash(password, SaltRounds))
      && row.user == s'[id]
  {
  }

  /** After a remove the key is gone and every other row is still found. */
  lemma RemoveThenFindOne(s: Store, id: Id)
    requires id in s
    ensures
      var s' := Remove(s, id, None).value;
      && FindOne(s', id) == Failure(NotFound(NotFoundMessage(id)))
      && forall k :: k != id ==> FindOne(s', k) == FindOne(s, k)
  {
  }
}
