/** What the services throw: the NestJS HTTP exceptions they construct, a
    database error rethrown as it came, or the `TypeError` JavaScript raises
    when a unique-constraint error carries no violated column. */
module Exceptions {
  import opened Db

  datatype Error =
    | NotFound(message: string)
    | Conflict(message: string)
    | Unauthorized(message: string)
    | Persistence(cause: DbError)
    | TypeError

  function ConflictMessage(field: string): (m: string) {
    "A user with this " + field + " already exists"
  }

  function NotFoundMessage(id: Id): (m: string) {
    "User with ID " + id + " not found"
  }
}
