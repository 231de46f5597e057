/** The `auth` slice of the store: one optional user string, set by
    `setUser` and cleared by `logout`. */
module AuthSlice {
  import opened Common

  /** The slice's state; `user` is its only field. */
  class AuthState {
    var user: Option<string>

    /** `initialState`: nobody is signed in. */
    constructor ()
      ensures user == None
    {
      user := None;
    }

    /** `setUser(payload)`: the user becomes the payload, including a null
        one. */
    method SetUser(payload: Option<string>)
      modifies this
      ensures user == payload
    {
      user := payload;
    }

    /** `logout`: nobody is signed in, whatever the state was. */
    method Logout()
      modifies this
      ensures user == None
    {
      user := None;
    }
  }
}
