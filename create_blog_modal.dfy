/** The create dialog of the listing page (`CreateBlogModal`): the
    authentication check made when it opens, the prompt that replaces the
    form for a signed-out viewer, the controls disabled while saving, and
    the submission. */
module CreateBlogModal {
  import opened Common
  import opened Text

  const MSG_REQUIRED := "Title and content are required"
  const MSG_UNAUTHENTICATED := "User not authenticated"

  /** The dialog's state. */
  datatype CreateForm = CreateForm(
    title: string,
    content: string,
    loading: bool,
    error: Option<string>,
    unauthenticated: bool,
    authChecked: bool,
    userId: Option<string>,
    userEmail: Option<string>)

  /** The dialog as it opens, before the authentication check resolves. */
  const Initial := CreateForm("", "", false, None, false, false, None, None)

  /** The row the dialog inserts into `blogs`. */
  datatype NewBlogRow = NewBlogRow(title: string, content: string, author_id: string, author_email: string)

  /** What a submission does outside the dialog, in order. */
  datatype Effect = InsertBlog(row: NewBlogRow) | BlogCreated | Close

  /** How a control appears. */
  datatype Control = Hidden | Disabled | Enabled

  /** What the dialog renders: the backdrop and the X (both close it), the
      login prompt, and the form's Cancel and submit buttons. */
  datatype ModalView = ModalView(backdrop: Control, close: Control, prompt: bool, cancel: Control, submit: Control)

  /** "Please login to create a blog." replaces the form: only once the
      check has finished, and only when it found nobody. */
  function ShowsLoginPrompt(f: CreateForm): (b: bool)
    ensures !f.authChecked ==> !b
    ensures b ==> f.unauthenticated
  {
    f.unauthenticated && f.authChecked
  }

  /** The prompt replaces the form exactly when the check found nobody; the
      X, Cancel and submit are disabled while saving; the backdrop always
      closes the dialog. */
  function Render(f: CreateForm): (v: ModalView)
    ensures v.prompt <==> f.unauthenticated && f.authChecked
    ensures v.backdrop == Enabled
    ensures v.close != Hidden && (v.close == Enabled <==> !f.loading)
    ensures v.cancel == Hidden <==> v.prompt
    ensures v.submit == Hidden <==> v.prompt
    ensures !v.prompt ==> v.cancel == v.close && v.submit == v.close
  {
    var prompt := ShowsLoginPrompt(f);
    var live := if f.loading then Disabled else Enabled;
    ModalView(Enabled, live, prompt, if prompt then Hidden else live, if prompt then Hidden else live)
  }

  /** `checkAuth`: a failed check or one without a user marks the viewer
      signed out, so the prompt shows, and leaves the dialog open; a user
      found is remembered with its email (if any). */
  method CheckAuth(f: CreateForm, reply: AuthReply) returns (g: CreateForm)
    ensures reply.error.Some? || reply.user.None? ==>
              g == f.(unauthenticated := true, authChecked := true)
    ensures reply.error.None? && reply.user.Some? ==>
              g == f.(userId := Some(reply.user.value.id), userEmail := reply.user.value.email,
                      unauthenticated := false, authChecked := true)
    ensures g.authChecked && (ShowsLoginPrompt(g) <==> reply.error.Some? || reply.user.None?)
  {
    g := f;
    if reply.error.Some? || reply.user.None? {
      g := g.(unauthenticated := true);
      g := g.(authChecked := true);
      return;
    }
    g := g.(userId := Some(reply.user.value.id));
    g := g.(userEmail := reply.user.value.email);
    g := g.(unauthenticated := false);
    g := g.(authChecked := true);
  }

  /** Both fields are filled in and a user with an email is known. */
  predicate ReadyToInsert(f: CreateForm)
  {
    !Blank(f.title) && !Blank(f.content) && !Falsy(f.userId) && !Falsy(f.userEmail)
  }

  /** `handleSubmit`, with the insert's reply as input. Blank fields, then a
      missing user id or email, are refused before any insert. The row
      inserted carries the fields and the user's id and email. A failure
      shows the message and keeps the fields; a success clears them, then
      tells the list and closes the dialog. */
  method HandleSubmit(f: CreateForm, insert: WriteReply) returns (g: CreateForm, effects: seq<Effect>)
    ensures g == f.(title := g.title, content := g.content, loading := g.loading, error := g.error)
    ensures Blank(f.title) || Blank(f.content) ==>
              g == f.(error := Some(MSG_REQUIRED)) && effects == []
    ensures !Blank(f.title) && !Blank(f.content) && (Falsy(f.userId) || Falsy(f.userEmail)) ==>
              g == f.(error := Some(MSG_UNAUTHENTICATED)) && effects == []
    ensures ReadyToInsert(f) ==>
              && |effects| >= 1 && !g.loading
              && effects[0] == InsertBlog(NewBlogRow(f.title, f.content, f.userId.value, f.userEmail.value))
    ensures ReadyToInsert(f) && insert.Failed? ==>
              g == f.(loading := false, error := Some(insert.message)) && |effects| == 1
    ensures ReadyToInsert(f) && insert.Done? ==>
              g == f.(title := "", content := "", loading := false, error := None)
              && effects[1..] == [BlogCreated, Close]
    ensures BlogCreated in effects <==> ReadyToInsert(f) && insert.Done?
  {
    g := f.(error := None);
    effects := [];

    if Blank(g.title) || Blank(g.content) {
      g := g.(error := Some(MSG_REQUIRED));
      return;
    }

    if Falsy(g.userId) || Falsy(g.userEmail) {
      g := g.(error := Some(MSG_UNAUTHENTICATED));
      return;
    }

    g := g.(loading := true);
    effects := effects + [InsertBlog(NewBlogRow(g.title, g.content, g.userId.value, g.userEmail.value))];
    g := g.(loading := false);

    if insert.Failed? {
      g := g.(error := Some(insert.message));
      return;
    }
    g := g.(title := "");
    g := g.(content := "");

    effects := effects + [BlogCreated, Close];
  }

  /** Without a user id or email, whatever the fields and whatever an
      earlier submission left, a submission never reaches the insert: so
      not before the authentication check has found a user. */
  lemma NoInsertWithoutUser(f: CreateForm)
    requires Falsy(f.userId) || Falsy(f.userEmail)
    ensures !ReadyToInsert(f)
  {
  }
}
