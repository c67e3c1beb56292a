/** Values shared by every part of the task queue: an optional value and the
    errors the stores, the codec and the HTTP task report. */
module Common {

  datatype Option<+T> = None | Some(value: T)

  /** The errors of the queue. Store and codec failures are not computed by the
      model: a caller passes them in as the backend's answer. */
  datatype Error =
    | Backend(op: string)              // a Redis or SQL call, or the gob encoder, failed
    | Undecodable                      // a stored snapshot does not decode into a task
    | MissingParameter(name: string)   // Validate: "incorrect parameter: <name>"
    | Transport(reason: string)        // the HTTP request itself failed
    | BadReply                         // the HTTP reply body is not the agreed JSON
    | ReplyCode(code: int, message: string)  // the reply carried a non-zero code
}
