/** What a controller sends back: a status code and either a JSON value or a `{ message }`. */
module Http {

  /** A fixed message, or the text of a caught exception echoed back (`error.message`). */
  datatype Message = Text(text: string) | ExceptionText

  datatype Reply<T> = Ok(code: nat, value: T) | Err(code: nat, message: Message)
}
