/** `JwtAuthGuard.handleRequest(err, user)`: the filter applied to the result
    of the passport JWT strategy. `err` and `user` are each `None` for every
    falsy value: null, undefined, and the `false` passport hands over when
    there is no user. A `JwtUser` object is always truthy. */
module Guard {
  import opened Wrappers
  import opened Exceptions

  /** What `handleRequest` throws: the upstream error itself, or an
      exception it raises. */
  datatype Thrown<E> = Rethrown(err: E) | Raised(exception: Error)

  function HandleRequest<E, U>(err: Option<E>, user: Option<U>): (r: Result<U, Thrown<E>>)
    ensures err.Some? ==> r == Failure(Rethrown(err.value))
    ensures err.None? && user.None? ==> r == Failure(Raised(Unauthorized("Unauthorized")))
    ensures err.None? && user.Some? ==> r == Success(user.value)
  {
    if err.Some? || user.None? then
      Failure(if err.Some? then Rethrown(err.value) else Raised(Unauthorized("Unauthorized")))
    else Success(user.value)
  }

  /** The guard lets a request through exactly when there is no error and
      there is a user, and then with that user unchanged: no path returns a
      missing user. */
  lemma GuardPassesOnlyAuthenticated<E, U>(err: Option<E>, user: Option<U>)
    ensures HandleRequest(err, user).Success? <==> err.None? && user.Some?
    ensures HandleRequest(err, user).Success? ==> user == Some(HandleRequest(err, user).value)
  {
  }
}
