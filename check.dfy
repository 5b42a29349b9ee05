/** The `check` helper: return present data or throw. */
module Check {
  import opened Common
  import Js

  /** The second argument of `check`: a message for a NotFound, or an exception to throw as is. */
  datatype CheckError = Message(text: string) | Exception(error: Error)

  const DefaultCheckError: CheckError := Message("Not found")

  function Check(data: Js.Value, error: CheckError := DefaultCheckError): (r: Result<Js.Value>)
    ensures r.Ok? <==> Js.Truthy(data)
    ensures r.Ok? ==> r.value == data
    ensures r.Err? && error.Message? ==> r.error == HttpError(NotFound, error.text)
    ensures r.Err? && error.Exception? ==> r.error == error.error
  {
    if !Js.Truthy(data) then
      match error
      case Message(text) => Err(HttpError(NotFound, text))
      case Exception(e) => Err(e)
    else Ok(data)
  }

  /**
   * Every falsy value counts as missing, not only null: zero, the empty
   * string and false are rejected with the default message.
   */
  lemma FalsyValuesAreMissing()
    ensures Check(Js.Num(0.0)) == Err(HttpError(NotFound, "Not found"))
    ensures Check(Js.Str("")) == Err(HttpError(NotFound, "Not found"))
    ensures Check(Js.Bool(false)) == Err(HttpError(NotFound, "Not found"))
    ensures Check(Js.NaN) == Err(HttpError(NotFound, "Not found"))
    ensures Check(Js.Undefined) == Err(HttpError(NotFound, "Not found"))
  {
  }

  /**
   * On an ORM row, `check` succeeds exactly when the row exists and returns
   * it; an empty object or array still passes.
   */
  lemma CheckRow(row: Option<map<string, Js.Value>>, message: string)
    ensures Check(Js.RowValue(row), Message(message)).Ok? <==> row.Some?
    ensures row.None? ==> Check(Js.RowValue(row), Message(message)) == Err(HttpError(NotFound, message))
    ensures row.Some? ==> Check(Js.RowValue(row), Message(message)) == Ok(Js.Obj(row.value))
  {
  }
}
