/**
 * The signed-in user as the components read it from the authentication context:
 * `useAuth().user`, which is `null` when nobody is signed in.
 */
module Session {
  import opened Wrappers
  import Text

  /** A Firebase user: its uid and its (possibly missing) e-mail address. */
  datatype User = User(uid: string, email: Option<string>)

  /** The author name stored when a user has no e-mail address. */
  const Anonymous: string := "익명"

  /** `user.email || "익명"`, and `user?.email || "익명"` when the user may be absent. */
  function AuthorEmail(user: Option<User>): (r: string)
    ensures user.Some? && user.value.email.Some? && user.value.email.value != "" ==> r == user.value.email.value
    ensures user.None? || user.value.email.None? || user.value.email == Some("") ==> r == Anonymous
  {
    if user.None? then Anonymous else Text.OrElse(user.value.email, Anonymous)
  }

  /** `user?.uid`: undefined when nobody is signed in. */
  function Uid(user: Option<User>): (r: Option<string>)
    ensures r.Some? <==> user.Some?
    ensures r.Some? ==> r.value == user.value.uid
  {
    if user.None? then None else Some(user.value.uid)
  }
}
