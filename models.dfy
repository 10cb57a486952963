/** The record type `models.User` and the slice of the request framework the
    handlers depend on: reading a JSON body into a record that is already
    filled in with defaults. */
module Models {

  datatype Option<T> = None | Some(value: T) {
    /** The carried value, or `default` when there is none. */
    function GetOr(default: T): T {
      match this
      case Some(v) => v
      case None => default
    }
  }

  /** Either a value or the text of the error that prevented it. */
  datatype Result<T> = Ok(value: T) | Err(error: string)

  /** A user record: its key, a free-text name and an unconstrained age. */
  datatype User = User(id: string, name: string, age: int)

  /** The zero value of the record type: what a lookup of a missing key yields. */
  const ZeroUser := User("", "", 0)

  /** The fields a decoded JSON body carries; a field absent from the body
      (or given as null) is `None`. */
  datatype Payload = Payload(id: Option<string>, name: Option<string>, age: Option<int>)

  /** What reading the request body produced: a decoding error with its
      message, or the fields the body carried. */
  datatype ReadOutcome = DecodeFailed(err: string) | Decoded(payload: Payload)

  /** Decoding into an already filled record: every field the body carries
      replaces the one in `into`, every other field keeps its value. */
  function Overlay(p: Payload, into: User): User {
    User(p.id.GetOr(into.id), p.name.GetOr(into.name), p.age.GetOr(into.age))
  }

  /** The request's ReadEntity call on a record pre-filled with `into`. */
  function ReadEntity(body: ReadOutcome, into: User): Result<User> {
    match body
    case DecodeFailed(e) => Err(e)
    case Decoded(p) => Ok(Overlay(p, into))
  }
}
