/**
 * The registration form (cat-web/src/app/components/registro/registro.component.ts):
 * four checks in a fixed order, the first failing one reported, then a `register`
 * request whose reply sets the final state.
 */
module Registro {
  import opened Wrappers
  import opened Email
  import opened Forms

  const FieldsMissing := "Por favor, completa todos los campos"
  const InvalidEmail := "Por favor, ingresa un email v\U{00E1}lido"
  const PasswordTooShort := "La contrase\U{00F1}a debe tener al menos 6 caracteres"
  const PasswordsDiffer := "Las contrase\U{00F1}as no coinciden"
  const RegisterFailed := "Error al registrarse"

  /** The shortest password the form accepts. */
  const MinPasswordLength := 6

  /** The body of `register`: the confirmation is not sent. */
  datatype RegisterRequest = RegisterRequest(name: string, email: string, password: string)

  predicate AllFilled(name: string, email: string, password: string, confirm: string) {
    name != "" && email != "" && password != "" && confirm != ""
  }

  /**
   * The message of the first check of `onSubmit` that fails, or `None` when all pass.
   * A later message is only ever reported when every earlier check passed.
   */
  function FirstError(name: string, email: string, password: string, confirm: string): (r: Option<string>)
    ensures r.None? <==>
      AllFilled(name, email, password, confirm) && IsValidEmail(email) &&
      |password| >= MinPasswordLength && password == confirm
    ensures !AllFilled(name, email, password, confirm) ==> r == Some(FieldsMissing)
    ensures r == Some(InvalidEmail) <==> AllFilled(name, email, password, confirm) && !IsValidEmail(email)
    ensures r == Some(PasswordTooShort) <==>
      AllFilled(name, email, password, confirm) && IsValidEmail(email) && |password| < MinPasswordLength
    ensures r == Some(PasswordsDiffer) <==>
      AllFilled(name, email, password, confirm) && IsValidEmail(email) &&
      |password| >= MinPasswordLength && password != confirm
  {
    if !AllFilled(name, email, password, confirm) then Some(FieldsMissing)
    else if !IsValidEmail(email) then Some(InvalidEmail)
    else if |password| < MinPasswordLength then Some(PasswordTooShort)
    else if password != confirm then Some(PasswordsDiffer)
    else None
  }

  /** The checks of the component's tests, each answered by its own message. */
  lemma FormTestCases()
    ensures FirstError("", "", "", "") == Some(FieldsMissing)
    ensures FirstError("Test User", "invalid-email", "password123", "password123") == Some(InvalidEmail)
    ensures FirstError("Test User", "test@example.com", "12345", "12345") == Some(PasswordTooShort)
    ensures FirstError("Test User", "test@example.com", "123456", "123456") == None
    ensures FirstError("Test User", "test@example.com", "password123", "different123") == Some(PasswordsDiffer)
    ensures FirstError("Test User", "test@example.com", "password123", "password123") == None
  {
    AcceptsTestAddress();
    RejectsTestAddresses();
  }

  class RegistroComponent {
    var name: string
    var email: string
    var password: string
    var confirmPassword: string
    var loading: bool
    var error: string
    var success: bool

    /** The field initialisers. */
    constructor ()
      ensures name == "" && email == "" && password == "" && confirmPassword == ""
      ensures !loading && error == "" && !success
    {
      name, email, password, confirmPassword := "", "", "", "";
      loading, error, success := false, "", false;
    }

    /**
     * `onSubmit` up to the request: the first failing check sets its message and nothing
     * is sent; otherwise `loading` is set and the request is `{name, email, password}`.
     */
    method OnSubmit() returns (request: Option<RegisterRequest>)
      modifies this
      ensures name == old(name) && email == old(email)
      ensures password == old(password) && confirmPassword == old(confirmPassword)
      ensures success == old(success)
      ensures var e := FirstError(name, email, password, confirmPassword);
        && (e.Some? ==> request.None? && error == e.value && loading == old(loading))
        && (e.None? ==> request == Some(RegisterRequest(name, email, password)) && error == "" && loading)
    {
      error := "";
      var e := FirstError(name, email, password, confirmPassword);
      if e.Some? {
        error := e.value;
        return None;
      }
      loading := true;
      request := Some(RegisterRequest(name, email, password));
    }

    /** The `next` callback of `register`: done, and the success message shows. */
    method OnRegistered()
      modifies this
      ensures !loading && success
      ensures error == old(error)
      ensures name == old(name) && email == old(email)
      ensures password == old(password) && confirmPassword == old(confirmPassword)
    {
      loading := false;
      success := true;
    }

    /** The `error` callback of `register`, given the server's `mensaje` if any. */
    method OnRegisterError(mensaje: Option<string>)
      modifies this
      ensures !loading
      ensures error == ServerMessage(mensaje, RegisterFailed)
      ensures success == old(success)
      ensures name == old(name) && email == old(email)
      ensures password == old(password) && confirmPassword == old(confirmPassword)
    {
      loading := false;
      error := ServerMessage(mensaje, RegisterFailed);
    }
  }
}
