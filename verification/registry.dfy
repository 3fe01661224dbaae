/**
  The error registry of errors.go: a map from a symbolic error-type name to
  the HTTP status code and default message of that category. The Go code keeps
  it in a package-level variable; here it is a value passed explicitly, so
  that "registration" is a function from registry to registry.
*/
module ErrorRegistry {

  /** Go's `int` on a 64-bit platform. */
  type GoInt = i: int | -0x8000_0000_0000_0000 <= i <= 0x7FFF_FFFF_FFFF_FFFF

  // The net/http status codes the seed uses.
  const StatusBadRequest: GoInt := 400
  const StatusUnauthorized: GoInt := 401
  const StatusForbidden: GoInt := 403
  const StatusNotFound: GoInt := 404
  const StatusMethodNotAllowed: GoInt := 405
  const StatusRequestTimeout: GoInt := 408
  const StatusConflict: GoInt := 409
  const StatusTeapot: GoInt := 418
  const StatusUnprocessableEntity: GoInt := 422
  const StatusTooManyRequests: GoInt := 429
  const StatusInternalServerError: GoInt := 500

  // The ten built-in error-type names.
  const NotFoundErrorType := "NotFoundError"
  const InternalServerErrorType := "InternalServerError"
  const BadRequestErrorType := "BadRequestError"
  const UnauthorizedErrorType := "UnauthorizedError"
  const ForbiddenErrorType := "ForbiddenError"
  const ConflictErrorType := "ConflictError"
  const MethodNotAllowedErrorType := "MethodNotAllowedError"
  const RequestTimeoutErrorType := "RequestTimeoutError"
  const UnprocessableEntityErrorType := "UnprocessableEntityError"
  const TooManyRequestsErrorType := "TooManyRequestsError"

  /** One registry entry: the status code and the default message of a category. */
  datatype ErrorType = ErrorType(code: GoInt, message: string)

  type Registry = map<string, ErrorType>

  /** The registry as the package initialises it. */
  const Seed: Registry := map[
    NotFoundErrorType := ErrorType(StatusNotFound, "Resource not found"),
    InternalServerErrorType := ErrorType(StatusInternalServerError, "Internal server error"),
    BadRequestErrorType := ErrorType(StatusBadRequest, "Bad request"),
    UnauthorizedErrorType := ErrorType(StatusUnauthorized, "Unauthorized access"),
    ForbiddenErrorType := ErrorType(StatusForbidden, "Forbidden"),
    ConflictErrorType := ErrorType(StatusConflict, "Conflict occurred"),
    MethodNotAllowedErrorType := ErrorType(StatusMethodNotAllowed, "Method not allowed"),
    RequestTimeoutErrorType := ErrorType(StatusRequestTimeout, "Request timed out"),
    UnprocessableEntityErrorType := ErrorType(StatusUnprocessableEntity, "Unprocessable entity"),
    TooManyRequestsErrorType := ErrorType(StatusTooManyRequests, "Too many requests")
  ]

  /** The ten seeded names. */
  const SeedNames: set<string> := {
    NotFoundErrorType, InternalServerErrorType, BadRequestErrorType,
    UnauthorizedErrorType, ForbiddenErrorType, ConflictErrorType,
    MethodNotAllowedErrorType, RequestTimeoutErrorType,
    UnprocessableEntityErrorType, TooManyRequestsErrorType
  }

  /**
    Registering `name` inserts the entry, or overwrites the one already there;
    it never fails, validates nothing, and leaves every other name alone.
  */
  function RegisterErrorType(reg: Registry, name: string, code: GoInt, message: string): (r: Registry)
    ensures name in r && r[name] == ErrorType(code, message)
    ensures r.Keys == reg.Keys + {name}
    ensures forall k :: k in reg && k != name ==> r[k] == reg[k]
  {
    reg[name := ErrorType(code, message)]
  }

  /** The seed holds exactly the ten built-in categories, each with its 4xx/5xx code. */
  lemma SeedContents()
    ensures Seed.Keys == SeedNames
    ensures Seed[NotFoundErrorType].code == 404
    ensures Seed[InternalServerErrorType].code == 500
    ensures Seed[BadRequestErrorType].code == 400
    ensures Seed[UnauthorizedErrorType].code == 401
    ensures Seed[ForbiddenErrorType].code == 403
    ensures Seed[ConflictErrorType].code == 409
    ensures Seed[MethodNotAllowedErrorType].code == 405
    ensures Seed[RequestTimeoutErrorType].code == 408
    ensures Seed[UnprocessableEntityErrorType].code == 422
    ensures Seed[TooManyRequestsErrorType].code == 429
    ensures forall k :: k in Seed ==> 400 <= Seed[k].code < 600
  {
  }

  /** Registering the same entry a second time changes nothing. */
  lemma RegisterIdempotent(reg: Registry, name: string, code: GoInt, message: string)
    ensures RegisterErrorType(RegisterErrorType(reg, name, code, message), name, code, message)
         == RegisterErrorType(reg, name, code, message)
  {
  }

  /** Registering an entry that is already present leaves the registry as it was. */
  lemma RegisterPresentIsIdentity(reg: Registry, name: string, code: GoInt, message: string)
    requires name in reg && reg[name] == ErrorType(code, message)
    ensures RegisterErrorType(reg, name, code, message) == reg
  {
  }

  /** Last write wins: a later registration of the same name replaces the earlier one entirely. */
  lemma RegisterOverwrites(reg: Registry, name: string, c1: GoInt, m1: string, c2: GoInt, m2: string)
    ensures RegisterErrorType(RegisterErrorType(reg, name, c1, m1), name, c2, m2)
         == RegisterErrorType(reg, name, c2, m2)
    ensures RegisterErrorType(RegisterErrorType(reg, name, c1, m1), name, c2, m2)[name] == ErrorType(c2, m2)
  {
  }

  /** Registrations of two different names do not interfere, whatever their order. */
  lemma RegisterCommutes(reg: Registry, n1: string, c1: GoInt, m1: string, n2: string, c2: GoInt, m2: string)
    requires n1 != n2
    ensures RegisterErrorType(RegisterErrorType(reg, n1, c1, m1), n2, c2, m2)
         == RegisterErrorType(RegisterErrorType(reg, n2, c2, m2), n1, c1, m1)
  {
  }
}
