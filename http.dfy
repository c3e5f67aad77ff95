/** The answers the REST controllers build with `ResponseEntity`. */
module Http {

  /** A `ResponseEntity`: a bare status, 200 with a body, or 201 with a `Location` and a body. */
  datatype Reply<T> = Status(code: int) | Ok(body: T) | Created(location: string, body: T)
}
