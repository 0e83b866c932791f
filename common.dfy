/** Shared vocabulary of the documents app: identifiers, optional values and the
    error outcomes a request can end in. */
module Common {

  datatype Option<T> = None | Some(value: T) {
    function GetOr(default: T): T {
      if Some? then value else default
    }
  }

  /** Outcomes other than success, by the HTTP status the framework maps them to. */
  datatype Error =
    | NotAuthenticated        // 401/403: a write attempted without a logged-in user
    | NotFound                // 404: the id is not in the caller's queryset
    | Invalid(field: string)  // 400: serializer validation rejected a field
    | IntegrityError          // 500: the database refused a foreign key

  datatype Result<T> = Ok(value: T) | Err(error: Error)

  /** Primary keys. A client-supplied id is any integer (0 and negatives included),
      so the types are not restricted to nat; the database's 64-bit key range is
      not modelled. */
  type UserId = int
  type CategoryId = int
  type DocumentId = int

  /** Python truthiness of an integer: only 0 is falsy. */
  predicate Truthy(n: int) {
    n != 0
  }
}
