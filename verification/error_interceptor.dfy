/**
  The HTTP error interceptor (src/app/core/interceptors/error.interceptor.ts):
  for a failed request it picks one message from the shape of the error,
  raises it as one error alert, and rethrows the error unchanged.
 */
module ErrorInterceptor {
  import opened Common
  import opened Text

  /**
    The `errors` property of a server body: absent (or falsy), present but
    not an array, or an array of entries.
   */
  datatype ErrorsField = NoErrorsField | NotAList | ErrorList(items: seq<ApiError>)

  /**
    `error.error`: a client-side `ErrorEvent`, or whatever the server sent.
    A null body, a plain-text body and a JSON body without `message` and
    `errors` are all `ServerBody(None, NoErrorsField)`.
   */
  datatype ErrorBody = ClientEvent(message: string) | ServerBody(serverMessage: Option<string>, errors: ErrorsField)

  datatype HttpError = HttpError(body: ErrorBody, status: int, statusText: string)

  /** The initial value of the message variable. */
  const Placeholder := "Ha ocurrido un error"

  /** The statuses the switch names, with their fixed texts. */
  const KnownStatusText: map<int, string> := map[
    400 := "Petición inválida",
    401 := "No autorizado",
    403 := "Acceso denegado",
    404 := "Recurso no encontrado",
    422 := "Error de validación",
    500 := "Error interno del servidor"]

  /** The switch on the status code. */
  function StatusMessage(status: int, statusText: string): string
  {
    if status == 400 then "Petición inválida"
    else if status == 401 then "No autorizado"
    else if status == 403 then "Acceso denegado"
    else if status == 404 then "Recurso no encontrado"
    else if status == 422 then "Error de validación"
    else if status == 500 then "Error interno del servidor"
    else "Error " + IntToString(status) + ": " + statusText
  }

  /** `errors.map(e => e.message)`. */
  function Messages(items: seq<ApiError>): (r: seq<string>)
    ensures |r| == |items|
    ensures forall i :: 0 <= i < |items| ==> r[i] == items[i].message
  {
    seq(|items|, i requires 0 <= i < |items| => items[i].message)
  }

  /** The message the interceptor selects. */
  function Message(e: HttpError): string
  {
    match e.body
    case ClientEvent(m) => "Error: " + m
    case ServerBody(m, errs) =>
      if TruthyText(m) then m.value
      else if errs.ErrorList? then Join(Messages(errs.items), ", ")
      else StatusMessage(e.status, e.statusText)
  }

  /** The result of the interceptor: the alerts it raised and what it rethrows. */
  datatype Interception = Interception(alerts: seq<Alert>, rethrown: HttpError)

  /** Exactly one error alert carrying the selected message; the error itself goes on unchanged. */
  function Intercept(e: HttpError): (r: Interception)
    ensures |r.alerts| == 1 && r.alerts[0] == ErrorAlert(Message(e))
    ensures r.rethrown == e
  {
    Interception([ErrorAlert(Message(e))], e)
  }

  // ---------------------------------------------------------------------------
  // Properties of the selection

  /** A client-side error reads "Error: " followed by its message, which can be read back. */
  lemma ClientErrorMessage(m: string, status: int, statusText: string)
    ensures var r := Message(HttpError(ClientEvent(m), status, statusText));
      r[..7] == "Error: " && r[7..] == m
  {
  }

  /**
    A non-empty server message is shown verbatim, whatever the `errors`
    array holds and whatever the status is.
   */
  lemma ServerMessageWins(m: string, errs: ErrorsField, status: int, statusText: string)
    requires m != ""
    ensures Message(HttpError(ServerBody(Some(m), errs), status, statusText)) == m
  {
  }

  /**
    Without a server message, an `errors` array decides the message,
    whatever the status: its messages in order, joined by ", ". An empty
    array gives the empty message, a one-entry array its one message, and
    when no message contains a comma the result has one comma fewer than
    there are entries.
   */
  lemma ErrorListJoined(m: Option<string>, items: seq<ApiError>, status: int, statusText: string)
    requires !TruthyText(m)
    ensures var r := Message(HttpError(ServerBody(m, ErrorList(items)), status, statusText));
      && r == Join(Messages(items), ", ")
      && (|items| == 0 ==> r == "")
      && (|items| == 1 ==> r == items[0].message)
      && (|items| >= 1 && (forall i :: 0 <= i < |items| ==> ',' !in items[i].message) ==> Count(r, ',') == |items| - 1)
  {
    if |items| >= 1 && forall i :: 0 <= i < |items| ==> ',' !in items[i].message {
      assert Count(", ", ',') == 1 by {
        assert ", "[..1] == [','] && [','][..0] == [];
      }
      JoinSeparatorCount(Messages(items), ", ", ',');
    }
  }

  /**
    The status code and text matter only when there is neither a client
    event, nor a non-empty server message, nor an `errors` array.
   */
  lemma StatusOnlyAsLastResort(e: HttpError, status: int, statusText: string)
    requires e.body.ClientEvent? || TruthyText(e.body.serverMessage) || e.body.errors.ErrorList?
    ensures Message(e.(status := status, statusText := statusText)) == Message(e)
  {
  }

  /** The switch follows the table of known statuses, and formats every other status. */
  lemma StatusMessageFollowsTable(status: int, statusText: string)
    ensures status in KnownStatusText ==> StatusMessage(status, statusText) == KnownStatusText[status]
    ensures status !in KnownStatusText ==>
      StatusMessage(status, statusText) == "Error " + IntToString(status) + ": " + statusText
  {
  }

  /** The generic message for an unlisted status is never one of the fixed texts. */
  lemma GenericNeverFixed(status: int, statusText: string, k: int)
    requires status !in KnownStatusText && k in KnownStatusText
    ensures StatusMessage(status, statusText) != KnownStatusText[k]
  {
    var n := IntToString(status);
    var r := StatusMessage(status, statusText);
    assert r[6] == n[0];
    assert IsDigit(n[0]) || n[0] == '-';
    var t := KnownStatusText[k];
    if |t| == |r| {
      assert t[6] != r[6];
    }
  }

  /** The six fixed texts are pairwise different. */
  lemma FixedTextsDistinct(a: int, b: int)
    requires a in KnownStatusText && b in KnownStatusText && a != b
    ensures KnownStatusText[a] != KnownStatusText[b]
  {
  }

  /** The generic message names its status and text: different inputs, different messages. */
  lemma GenericIdentifiesStatus(a: int, ta: string, b: int, tb: string)
    requires a !in KnownStatusText && b !in KnownStatusText
    requires StatusMessage(a, ta) == StatusMessage(b, tb)
    ensures a == b && ta == tb
  {
    var x, y := IntToString(a), IntToString(b);
    var r := StatusMessage(a, ta);
    assert r[6..] == x + [':'] + (" " + ta);
    assert r[6..] == y + [':'] + (" " + tb);
    IntToStringAvoids(a, ':');
    IntToStringAvoids(b, ':');
    HeadBeforeMark(x, y, ':', " " + ta, " " + tb);
    IntToStringInjective(a, b);
    assert r[8 + |x|..] == ta;
  }

  /**
    The initial placeholder is never chosen by the interceptor itself: it
    shows only when the server sent it, as its message or inside its
    `errors` array.
   */
  lemma PlaceholderOnlyFromServer(e: HttpError)
    ensures Message(e) == Placeholder ==>
      e.body.ServerBody? && (e.body.serverMessage == Some(Placeholder) || e.body.errors.ErrorList?)
  {
    var r := Message(e);
    if e.body.ClientEvent? {
      assert r[0] == 'E';
    } else if !TruthyText(e.body.serverMessage) && !e.body.errors.ErrorList? && e.status !in KnownStatusText {
      assert r[0] == 'E';
    }
  }
}
