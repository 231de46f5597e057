/** The login / register dialog (`AuthModal`): field validation in a fixed
    order, then sign-up, profile insert and sign-in with early returns, and
    the switch between the two modes. */
module AuthModal {
  import opened Common
  import opened Text

  const MSG_REQUIRED := "Email and password are required"
  const MSG_FULL_NAME := "Full name is required"
  const MSG_MISMATCH := "Passwords do not match"
  const MSG_REGISTRATION_FAILED := "Registration failed"
  const MSG_PROFILE_FAILED := "User profile creation failed"
  const MSG_AUTH_FAILED := "Failed to authenticate"

  /** The dialog's state. */
  datatype AuthForm = AuthForm(
    email: string,
    password: string,
    confirmPassword: string,
    fullName: string,
    showPassword: bool,
    loading: bool,
    error: Option<string>,
    isRegister: bool)

  /** What a submission does outside the dialog, in order: backend calls,
      writes of the cached `userEmail`, and the parent's callbacks. */
  datatype Effect =
    | SignUp(email: string, password: string)
    | InsertProfile(id: string, fullName: string, email: string)
    | SignIn(email: string, password: string)
    | StoreEmail(email: string)
    | LoginSuccess(userId: string)
    | Close

  /** The dialog as it opens: empty fields, login mode. */
  const Initial := AuthForm("", "", "", "", false, false, None, false)

  /** An authentication reply that does not produce a user. */
  predicate NoUser(r: AuthReply)
  {
    r.error.Some? || r.user.None?
  }

  /** The checks `handleSubmit` makes before any backend call. Login mode
      looks at the email and password only. */
  predicate PassesValidation(f: AuthForm)
  {
    && !Blank(f.email) && !Blank(f.password)
    && (f.isRegister ==> !Blank(f.fullName) && f.password == f.confirmPassword)
  }

  /** The effects of a submission that passed validation up to and
      including the sign-in call, when every earlier step succeeded. */
  function EffectsUpToSignIn(f: AuthForm, userId: string): (es: seq<Effect>)
    ensures |es| >= 1 && es[|es| - 1] == SignIn(f.email, f.password)
    ensures f.isRegister ==> es[0] == SignUp(f.email, f.password)
    ensures !f.isRegister ==> |es| == 1
  {
    (if f.isRegister then
       [SignUp(f.email, f.password), InsertProfile(userId, f.fullName, f.email), StoreEmail(f.email)]
     else [])
    + [SignIn(f.email, f.password)]
  }

  /** `handleSubmit`, with the backend's replies to sign-up, to the profile
      insert and to sign-in as inputs (a reply is used only when its call is
      made). Only `loading` and `error` change in the dialog; the effects
      issued are exactly those of the path taken. */
  method HandleSubmit(f: AuthForm, signUp: AuthReply, insert: WriteReply, signIn: AuthReply)
    returns (g: AuthForm, effects: seq<Effect>)
    ensures g == f.(loading := g.loading, error := g.error)
    // validation: in this order, no call issued, loading untouched
    ensures Blank(f.email) || Blank(f.password) ==>
              g == f.(error := Some(MSG_REQUIRED)) && effects == []
    ensures f.isRegister && !Blank(f.email) && !Blank(f.password) && Blank(f.fullName) ==>
              g == f.(error := Some(MSG_FULL_NAME)) && effects == []
    ensures f.isRegister && !Blank(f.email) && !Blank(f.password) && !Blank(f.fullName)
            && f.password != f.confirmPassword ==>
              g == f.(error := Some(MSG_MISMATCH)) && effects == []
    ensures !PassesValidation(f) <==> effects == []
    // sign-up refused: nothing more is attempted
    ensures PassesValidation(f) && f.isRegister && NoUser(signUp) ==>
              && g == f.(loading := false, error := Some(GetOr(signUp.error, MSG_REGISTRATION_FAILED)))
              && effects == [SignUp(f.email, f.password)]
    // profile insert refused: sign-in is not attempted
    ensures PassesValidation(f) && f.isRegister && !NoUser(signUp) && insert.Failed? ==>
              && g == f.(loading := false, error := Some(MSG_PROFILE_FAILED))
              && effects == [SignUp(f.email, f.password), InsertProfile(signUp.user.value.id, f.fullName, f.email)]
    // sign-in attempted
    ensures PassesValidation(f) && (f.isRegister ==> !NoUser(signUp) && insert.Done?) ==>
              var upTo := EffectsUpToSignIn(f, if f.isRegister then signUp.user.value.id else "");
              && !g.loading
              && (NoUser(signIn) ==>
                    g.error == Some(GetOr(signIn.error, MSG_AUTH_FAILED)) && effects == upTo)
              && (!NoUser(signIn) ==>
                    g.error == None
                    && effects == upTo + [StoreEmail(f.email), LoginSuccess(signIn.user.value.id), Close])
    // the dialog closes itself only after a sign-in that produced a user
    ensures Close in effects <==>
              PassesValidation(f) && (f.isRegister ==> !NoUser(signUp) && insert.Done?) && !NoUser(signIn)
  {
    g := f.(error := None);
    effects := [];

    if Blank(g.email) || Blank(g.password) {
      g := g.(error := Some(MSG_REQUIRED));
      return;
    }

    if g.isRegister {
      if Blank(g.fullName) {
        g := g.(error := Some(MSG_FULL_NAME));
        return;
      }
      if g.password != g.confirmPassword {
        g := g.(error := Some(MSG_MISMATCH));
        return;
      }
    }

    g := g.(loading := true);
    var userId := "";

    if g.isRegister {
      effects := effects + [SignUp(g.email, g.password)];
      if NoUser(signUp) {
        g := g.(loading := false);
        g := g.(error := Some(GetOr(signUp.error, MSG_REGISTRATION_FAILED)));
        return;
      }
      userId := signUp.user.value.id;

      effects := effects + [InsertProfile(userId, g.fullName, g.email)];
      if insert.Failed? {
        g := g.(loading := false);
        g := g.(error := Some(MSG_PROFILE_FAILED));
        return;
      }
      effects := effects + [StoreEmail(g.email)];
    }

    effects := effects + [SignIn(g.email, g.password)];
    g := g.(loading := false);

    if NoUser(signIn) {
      g := g.(error := Some(GetOr(signIn.error, MSG_AUTH_FAILED)));
      return;
    }

    effects := effects + [StoreEmail(g.email), LoginSuccess(signIn.user.value.id), Close];
  }

  /** "Register here" / "Login here": the mode flips and the error is
      cleared; nothing else changes. */
  method ToggleMode(f: AuthForm) returns (g: AuthForm)
    ensures g.isRegister != f.isRegister && g.error == None
    ensures g == f.(isRegister := g.isRegister, error := None)
  {
    g := f.(isRegister := !f.isRegister);
    g := g.(error := None);
  }
}
