/** The `users` table behind the Sequelize `User` model, as a finite map from
    primary key to record. The database, not the service, enforces that no
    two rows share a username or an email; that constraint is the invariant
    of the `Store` type, so every operation that writes must preserve it. */
module Db {
  import opened Wrappers

  type Id = string

  /** A row's columns (timestamps are not modelled). */
  datatype User = User(username: string, email: string, password: string)

  /** A model instance as Sequelize returns it: the primary key with its columns. */
  datatype Row = Row(id: Id, user: User)

  predicate Unique(t: map<Id, User>) {
    forall a, b :: a in t && b in t && a != b ==>
      t[a].username != t[b].username && t[a].email != t[b].email
  }

  type Store = t: map<Id, User> | Unique(t) witness map[]

  /** What a failed query rejects with: a `UniqueConstraintError` listing the
      violated columns, or any other database failure. */
  datatype DbError = UniqueConstraint(fields: seq<string>) | DbFault(detail: string)

  predicate UsernameTaken(t: map<Id, User>, username: string) {
    exists k :: k in t && t[k].username == username
  }

  predicate EmailTaken(t: map<Id, User>, email: string) {
    exists k :: k in t && t[k].email == email
  }

  /** The unique columns `u` would violate if stored under `id` next to the
      rows of `others`, in the order the table declares them. */
  function Violations(others: map<Id, User>, id: Id, u: User): (v: seq<string>)
    ensures |v| == 0 <==> id !in others && !UsernameTaken(others, u.username) && !EmailTaken(others, u.email)
    ensures |v| > 0 && id in others ==> v[0] == "id"
    ensures |v| > 0 && id !in others && UsernameTaken(others, u.username) ==> v[0] == "username"
    ensures |v| > 0 && id !in others && !UsernameTaken(others, u.username) ==> v[0] == "email"
  {
    (if id in others then ["id"] else [])
    + (if UsernameTaken(others, u.username) then ["username"] else [])
    + (if EmailTaken(others, u.email) then ["email"] else [])
  }

  lemma FreshRowKeepsUnique(t: Store, id: Id, u: User)
    requires id !in t && !UsernameTaken(t, u.username) && !EmailTaken(t, u.email)
    ensures Unique(t[id := u])
  {
    var t' := t[id := u];
    forall a, b | a in t' && b in t' && a != b
      ensures t'[a].username != t'[b].username && t'[a].email != t'[b].email
    {
      if a == id {
        assert b in t;
      } else if b == id {
        assert a in t;
      }
    }
  }

  /** `Model.create(values)`: insert a row under a fresh primary key. `fault`
      is a failure of the database unrelated to the unique constraints. */
  function Insert(t: Store, id: Id, u: User, fault: Option<string>): (r: Result<Store, DbError>)
    ensures r.Success? <==> fault.None? && id !in t && !UsernameTaken(t, u.username) && !EmailTaken(t, u.email)
    ensures r.Success? ==> r.value == t[id := u]
    ensures fault.Some? ==> r == Failure(DbFault(fault.value))
    ensures fault.None? && r.Failure? ==> r.error.UniqueConstraint? && |r.error.fields| > 0
  {
    if fault.Some? then Failure(DbFault(fault.value))
    else
      var v := Violations(t, id, u);
      if |v| > 0 then Failure(UniqueConstraint(v))
      else
        FreshRowKeepsUnique(t, id, u);
        Success(t[id := u])
  }

  /** `instance.save()`: write the changed columns of an existing row back. */
  function Save(t: Store, id: Id, u: User, fault: Option<string>): (r: Result<Store, DbError>)
    requires id in t
    ensures r.Success? <==> fault.None? && !UsernameTaken(t - {id}, u.username) && !EmailTaken(t - {id}, u.email)
    ensures r.Success? ==> r.value == t[id := u]
    ensures fault.Some? ==> r == Failure(DbFault(fault.value))
    ensures fault.None? && r.Failure? ==> r.error.UniqueConstraint? && |r.error.fields| > 0
  {
    if fault.Some? then Failure(DbFault(fault.value))
    else
      var others: Store := t - {id};
      var v := Violations(others, id, u);
      if |v| > 0 then Failure(UniqueConstraint(v))
      else
        FreshRowKeepsUnique(others, id, u);
        assert others[id := u] == t[id := u];
        Success(t[id := u])
  }

  /** `instance.destroy()`: delete an existing row. */
  function Destroy(t: Store, id: Id, fault: Option<string>): (r: Result<Store, DbError>)
    requires id in t
    ensures r.Success? <==> fault.None?
    ensures r.Success? ==> r.value.Keys == t.Keys - {id} && forall k :: k in r.value ==> r.value[k] == t[k]
    ensures r.Failure? ==> r.error == DbFault(fault.value)
  {
    if fault.Some? then Failure(DbFault(fault.value)) else Success(t - {id})
  }
}
