/**
 * What the login and the registration forms share besides the e-mail check: the
 * message shown when the server rejects a request, `error.error?.mensaje || fallback`.
 */
module Forms {
  import opened Wrappers

  /** The server's `mensaje` when it is present and not empty, the fallback otherwise. */
  function ServerMessage(mensaje: Option<string>, fallback: string): (r: string)
    ensures mensaje.Some? && mensaje.value != "" ==> r == mensaje.value
    ensures mensaje.None? || mensaje == Some("") ==> r == fallback
  {
    match mensaje
    case Some(m) => if m != "" then m else fallback
    case None => fallback
  }
}
