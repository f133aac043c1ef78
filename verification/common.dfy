/** Vocabulary shared by every module of the model: optional values, the
    HTTP-style replies the controllers send, and the identifiers of the
    document store. */
module Common {

  /** A value that may be absent (`undefined` or `null` in the source). */
  datatype Option<+T> = None | Some(value: T) {

    /** The wrapped value, or `default` when absent (a schema default). */
    function GetOr(default: T): T {
      match this
      case Some(v) => v
      case None => default
    }
  }

  /** Document identifiers (MongoDB ObjectIds), compared by equality only. */
  type Id = nat

  /** Timestamps (`createdAt`, `lastLogin`), ordered by `<=`. */
  type Time = int

  /** A signed bearer token, treated as an opaque string. */
  type Token = string

  /** The reply a controller sends: a success status with a body, or an
      error status with the `message` field of the JSON body. */
  datatype Reply<+T> = Ok(status: nat, value: T) | Error(status: nat, message: string)

  /** A controller call: the reply together with the collection after it. */
  datatype Step<+T, +S> = Step(reply: Reply<T>, state: S)

  /** JavaScript truthiness of a string field: present and non-empty.
      Absent body fields are modelled as the empty string. */
  predicate Truthy(s: string) {
    s != ""
  }

  /** The source's `a || b` on string fields: `a` when truthy, else `b`. */
  function OrElse(a: string, b: string): string {
    if Truthy(a) then a else b
  }
}
