/** The records held by the booking store and the replies its handlers give. */
module Bookings {

  datatype Option<+T> = None | Some(value: T)

  /** A JSON value as it arrives in a request body or in the seed file
      (numbers are integers here). */
  datatype Value = Undefined | Null | Bool(b: bool) | Number(n: int) | Str(s: string)

  /** JavaScript truthiness of a JSON value: every value except the falsy ones
      `undefined`, `null`, `false`, `0` and `""`. */
  function Truthy(v: Value): (r: bool)
    ensures r <==> v !in {Undefined, Null, Bool(false), Number(0), Str("")}
  {
    match v
    case Undefined => false
    case Null => false
    case Bool(b) => b
    case Number(n) => n != 0
    case Str(s) => s != []
  }

  /** A stored booking: the numeric `id` and the seven fields of the record. */
  datatype Booking = Booking(
    id: int,
    title: Value,
    firstName: Value,
    surname: Value,
    email: Value,
    roomId: Value,
    checkInDate: Value,
    checkOutDate: Value)

  /** The body of a `POST /bookings` request, before an `id` is set on it. */
  datatype BookingRequest = BookingRequest(
    title: Value,
    firstName: Value,
    surname: Value,
    email: Value,
    roomId: Value,
    checkInDate: Value,
    checkOutDate: Value)

  /** The error answers, each with the HTTP status it is sent with. */
  datatype Failure =
    | AllFieldsRequired      // admission with a missing or falsy field
    | LookupNotFound(id: int) // GET /bookings/:id with no such id
    | DeleteNotFound(id: int) // DELETE /bookings/:id with no such id
    | NotText                // `toUpperCase` called on a name field that is not a string
  {
    /** 404 only for a delete of a missing id, 500 only for a thrown
        `toUpperCase`, 400 for every other failure. */
    function Status(): (code: nat)
      ensures code == 404 <==> DeleteNotFound?
      ensures code == 500 <==> NotText?
      ensures code == 400 <==> AllFieldsRequired? || LookupNotFound?
    {
      match this
      case AllFieldsRequired => 400
      case LookupNotFound(_) => 400
      case DeleteNotFound(_) => 404
      case NotText => 500
    }
  }

  /** What a handler answers: nothing at all, a success value, or a failure. */
  datatype Reply<+T> = NoReply | Ok(value: T) | Err(failure: Failure)
}
