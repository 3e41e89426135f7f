/**
 * The login form (cat-web/src/app/components/login/login.component.ts): two checks in
 * a fixed order, then a `login` request whose reply sets the final state.
 */
module Login {
  import opened Wrappers
  import opened Email
  import opened Forms

  const CredentialsMissing := "Por favor, ingresa email y contrase\U{00F1}a"
  const InvalidEmail := "Por favor, ingresa un email v\U{00E1}lido"
  const LoginFailed := "Error al iniciar sesi\U{00F3}n"

  /** Where a successful login leads. */
  const BreedsRoute := "/breeds"

  /** The body of `login`. */
  datatype Credentials = Credentials(email: string, password: string)

  /** The message of the first check of `onSubmit` that fails, or `None` when both pass. */
  function FirstError(email: string, password: string): (r: Option<string>)
    ensures r.None? <==> email != "" && password != "" && IsValidEmail(email)
    ensures email == "" || password == "" ==> r == Some(CredentialsMissing)
    ensures r == Some(InvalidEmail) <==> email != "" && password != "" && !IsValidEmail(email)
  {
    if email == "" || password == "" then Some(CredentialsMissing)
    else if !IsValidEmail(email) then Some(InvalidEmail)
    else None
  }

  /** The checks of the component's tests. */
  lemma FormTestCases()
    ensures FirstError("", "") == Some(CredentialsMissing)
    ensures FirstError("invalid-email", "password123") == Some(InvalidEmail)
    ensures FirstError("test@example.com", "password123") == None
    ensures FirstError("test@example.com", "wrongpassword") == None
  {
    AcceptsTestAddress();
    RejectsTestAddresses();
  }

  class LoginComponent {
    var email: string
    var password: string
    var loading: bool
    var error: string

    /** The field initialisers. */
    constructor ()
      ensures email == "" && password == "" && !loading && error == ""
    {
      email, password := "", "";
      loading, error := false, "";
    }

    /**
     * `onSubmit` up to the request: a failing check sets its message and nothing is
     * sent; otherwise `loading` is set, `error` cleared and the request is `{email, password}`.
     */
    method OnSubmit() returns (request: Option<Credentials>)
      modifies this
      ensures email == old(email) && password == old(password)
      ensures var e := FirstError(email, password);
        && (e.Some? ==> request.None? && error == e.value && loading == old(loading))
        && (e.None? ==> request == Some(Credentials(email, password)) && error == "" && loading)
    {
      var e := FirstError(email, password);
      if e.Some? {
        error := e.value;
        return None;
      }
      loading := true;
      error := "";
      request := Some(Credentials(email, password));
    }

    /** The `next` callback of `login`: done, and the route to navigate to. */
    method OnLoggedIn() returns (route: string)
      modifies this
      ensures !loading && route == BreedsRoute
      ensures error == old(error) && email == old(email) && password == old(password)
    {
      loading := false;
      route := BreedsRoute;
    }

    /** The `error` callback of `login`, given the server's `mensaje` if any. */
    method OnLoginError(mensaje: Option<string>)
      modifies this
      ensures !loading
      ensures error == ServerMessage(mensaje, LoginFailed)
      ensures email == old(email) && password == old(password)
    {
      loading := false;
      error := ServerMessage(mensaje, LoginFailed);
    }
  }
}
