/** Values shared by the blog application's screens: an optional value, the
    `Blog` record, and the shapes of the replies the hosted backend returns.
    The backend itself is not modelled: each of its replies is an input. */
module Common {

  datatype Option<+T> = None | Some(value: T)

  /** `x ?? d` for an optional value. */
  function GetOr<T>(o: Option<T>, d: T): (r: T)
    ensures o.Some? ==> r == o.value
    ensures o.None? ==> r == d
  {
    match o
    case Some(v) => v
    case None => d
  }

  /** JavaScript truthiness of an optional string: `!s` holds for `null`
      and for the empty string. */
  predicate Falsy(o: Option<string>)
  {
    o.None? || o.value == ""
  }

  /** One row of the `blogs` table. The author's email is optional: the
      declared type says it is a string, but the card tests it for being
      empty or absent, and rows written by the create page carry no
      `author_email` at all. */
  datatype Blog = Blog(
    id: string,
    title: string,
    content: string,
    author_email: Option<string>,
    created_at: string,
    updated_at: Option<string>)

  /** The user object of an authentication reply. */
  datatype AuthUser = AuthUser(id: string, email: Option<string>)

  /** `{ data: { user }, error }` as returned by `getUser`, `signUp` and
      `signInWithPassword`: an optional error message and an optional user,
      independently of each other. */
  datatype AuthReply = AuthReply(error: Option<string>, user: Option<AuthUser>)

  /** The `{ error }` of an insert: `Done` when `error` is null. */
  datatype WriteReply = Done | Failed(message: string)
}
