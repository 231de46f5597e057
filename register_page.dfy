/** The stand-alone register page (`RegisterPage`): sign-up followed by
    sign-in, each with an early return on error. */
module RegisterPage {
  import opened Common
  import opened Text

  const MSG_REQUIRED := "Email and password are required"

  /** The page's state. */
  datatype RegisterState = RegisterState(email: string, password: string, loading: bool, error: Option<string>)

  /** The page as it mounts. */
  const Initial := RegisterState("", "", false, None)

  /** What the page does outside itself, in order. */
  datatype Effect = SignUp(email: string, password: string) | SignIn(email: string, password: string) | Navigate(path: string)

  /** `handleSubmit`, with the errors of sign-up and sign-in as inputs
      (only the error of each reply is looked at). Blank fields are refused
      before sign-up; a sign-up error stops before sign-in; a sign-in error
      stays on the page; only when both succeed does it go to "/". */
  method HandleSubmit(s: RegisterState, signUpError: Option<string>, signInError: Option<string>)
    returns (t: RegisterState, effects: seq<Effect>)
    ensures t == s.(loading := t.loading, error := t.error)
    ensures Blank(s.email) || Blank(s.password) ==>
              t == s.(error := Some(MSG_REQUIRED)) && effects == []
    ensures !Blank(s.email) && !Blank(s.password) ==>
              !t.loading && |effects| >= 1 && effects[0] == SignUp(s.email, s.password)
    ensures !Blank(s.email) && !Blank(s.password) && signUpError.Some? ==>
              t.error == signUpError && |effects| == 1
    ensures !Blank(s.email) && !Blank(s.password) && signUpError.None? ==>
              && |effects| >= 2 && effects[1] == SignIn(s.email, s.password)
              && t.error == signInError
              && (signInError.Some? ==> |effects| == 2)
              && (signInError.None? ==> effects[2..] == [Navigate("/")])
    ensures Navigate("/") in effects <==>
              !Blank(s.email) && !Blank(s.password) && signUpError.None? && signInError.None?
  {
    t := s.(error := None);
    effects := [];

    if Blank(t.email) || Blank(t.password) {
      t := t.(error := Some(MSG_REQUIRED));
      return;
    }

    t := t.(loading := true);
    effects := effects + [SignUp(t.email, t.password)];

    if signUpError.Some? {
      t := t.(loading := false);
      t := t.(error := signUpError);
      return;
    }

    effects := effects + [SignIn(t.email, t.password)];
    t := t.(loading := false);

    if signInError.Some? {
      t := t.(error := signInError);
      return;
    }

    effects := effects + [Navigate("/")];
  }
}
