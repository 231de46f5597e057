/** The stand-alone create page (`CreateBlogPage`): the authentication guard
    and the submission, which looks the user up again and inserts a row
    whose author is the user's email or "anonymous". */
module CreatePage {
  import opened Common
  import opened Text

  const MSG_REQUIRED := "Title and content are required"
  const ANONYMOUS := "anonymous"

  /** The page's state. */
  datatype CreatePageState = CreatePageState(
    title: string,
    content: string,
    loading: bool,
    error: Option<string>,
    checkingAuth: bool)

  /** The page as it mounts: still checking authentication. */
  const Initial := CreatePageState("", "", false, None, true)

  /** The row the page inserts into `blogs`. */
  datatype AuthoredRow = AuthoredRow(title: string, content: string, author: string)

  /** What the page does outside itself, in order. */
  datatype Effect = GetUser | InsertBlog(row: AuthoredRow) | Navigate(path: string)

  /** The form is rendered instead of "Checking authentication...": never
      while the check runs, so not as the page mounts. */
  function ShowsForm(s: CreatePageState): (b: bool)
    ensures s.checkingAuth ==> !b
    ensures s == Initial ==> !b
  {
    !s.checkingAuth
  }

  /** The guard: without a user the page redirects to "/login" and keeps
      checking, so the form never renders; with one the form renders. */
  method CheckAuth(s: CreatePageState, reply: AuthReply) returns (t: CreatePageState, effects: seq<Effect>)
    ensures reply.error.Some? || reply.user.None? ==>
              t == s && effects == [Navigate("/login")]
    ensures reply.error.None? && reply.user.Some? ==>
              t == s.(checkingAuth := false) && effects == [] && ShowsForm(t)
  {
    t := s;
    effects := [];
    if reply.error.Some? || reply.user.None? {
      effects := effects + [Navigate("/login")];
      return;
    }
    t := t.(checkingAuth := false);
  }

  /** `user?.email ?? "anonymous"`. */
  function AuthorOf(user: Option<AuthUser>): (author: string)
    ensures user.Some? && user.value.email.Some? ==> author == user.value.email.value
    ensures user.None? || user.value.email.None? ==> author == ANONYMOUS
  {
    match user
    case Some(u) => GetOr(u.email, ANONYMOUS)
    case None => ANONYMOUS
  }

  /** `handleSubmit`, reachable only once the form renders, with the
      replies of `getUser` and of the insert as inputs. Blank fields are
      refused before any call; a `getUser` error stops before the insert;
      an insert error stays on the page with its message; success goes
      to "/". Loading is off again whenever a call was made. */
  method HandleSubmit(s: CreatePageState, userReply: AuthReply, insert: WriteReply)
    returns (t: CreatePageState, effects: seq<Effect>)
    requires ShowsForm(s)
    ensures t == s.(loading := t.loading, error := t.error)
    ensures Blank(s.title) || Blank(s.content) ==>
              t == s.(error := Some(MSG_REQUIRED)) && effects == []
    ensures !Blank(s.title) && !Blank(s.content) ==> !t.loading && |effects| >= 1 && effects[0] == GetUser
    ensures !Blank(s.title) && !Blank(s.content) && userReply.error.Some? ==>
              t.error == userReply.error && effects == [GetUser]
    ensures !Blank(s.title) && !Blank(s.content) && userReply.error.None? ==>
              var row := AuthoredRow(s.title, s.content, AuthorOf(userReply.user));
              && (insert.Failed? ==> t.error == Some(insert.message) && effects == [GetUser, InsertBlog(row)])
              && (insert.Done? ==> t.error == None && effects == [GetUser, InsertBlog(row), Navigate("/")])
    ensures Navigate("/") in effects <==>
              !Blank(s.title) && !Blank(s.content) && userReply.error.None? && insert.Done?
  {
    t := s.(error := None);
    effects := [];

    if Blank(t.title) || Blank(t.content) {
      t := t.(error := Some(MSG_REQUIRED));
      return;
    }

    t := t.(loading := true);
    effects := effects + [GetUser];

    if userReply.error.Some? {
      t := t.(error := userReply.error);
      t := t.(loading := false);
      return;
    }

    var author := AuthorOf(userReply.user);
    effects := effects + [InsertBlog(AuthoredRow(t.title, t.content, author))];
    t := t.(loading := false);

    if insert.Failed? {
      t := t.(error := Some(insert.message));
      return;
    }

    effects := effects + [Navigate("/")];
  }
}
