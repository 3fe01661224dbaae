/**
  The concrete scenarios of errors_test.go, stated against the model.

  Four tests in that file use names errors.go does not have, so the file
  does not compile against errors.go as written. TestWithInnerError and
  TestUnmarshalJSONWithInnerError read a field `InnerError`, which errors.go
  calls `InternalError`; they are modelled below with that reading.
  TestApiError_Error expects `Error()` to render "Error 404: User not found",
  where errors.go returns the bare message, and TestApiError_HttPError calls
  an `HTTPError()` method errors.go does not define; neither is modelled.
*/
module Scenarios {
  import opened Wrappers
  import opened ErrorRegistry
  import opened ApiErrors
  import opened Json
  import opened Codec

  /** Constructing a `NotFoundError` gives its name, the caller's message and code 404. */
  lemma NewNotFoundError()
    ensures NewApiError(Seed, NotFoundErrorType, "User not found", [])
         == ApiError("NotFoundError", "User not found", 404, None)
  {
  }

  /** `WithInternalError` attaches the cause's text. */
  lemma NewWithInternalError()
    ensures NewApiError(Seed, NotFoundErrorType, "User not found",
                        [WithInternalError(Some("database connection failed"))]).cause
         == Some("database connection failed")
  {
  }

  /** The encoding of an error without a cause has no `internal_error` member. */
  lemma MarshalWithoutCause()
    ensures Encode(NewApiError(Seed, NotFoundErrorType, "User not found", []))
         == [("error_type", JString("NotFoundError")), ("message", JString("User not found")),
             ("error_code", JInt(404))]
  {
  }

  /** With a cause, `internal_error` comes first. */
  lemma MarshalWithCause()
    ensures Encode(NewApiError(Seed, NotFoundErrorType, "User not found",
                               [WithInternalError(Some("test internal error"))]))
         == [("internal_error", JString("test internal error")),
             ("error_type", JString("NotFoundError")), ("message", JString("User not found")),
             ("error_code", JInt(404))]
  {
  }

  /** Decoding into a zero receiver populates the three fields and leaves the cause nil. */
  lemma UnmarshalWithoutCause()
    ensures Decode(Document(JObject([("error_type", JString("NotFoundError")),
                                     ("message", JString("User not found")),
                                     ("error_code", JInt(404))])), Zero)
         == Success(ApiError("NotFoundError", "User not found", 404, None))
  {
    RoundTrip(ApiError("NotFoundError", "User not found", 404, None), Zero);
  }

  /** Decoding `internal_error` rebuilds the cause with that text. */
  lemma UnmarshalWithCause()
    ensures Decode(Document(JObject([("internal_error", JString("test internal error")),
                                     ("error_type", JString("NotFoundError")),
                                     ("message", JString("User not found")),
                                     ("error_code", JInt(404))])), Zero)
         == Success(ApiError("NotFoundError", "User not found", 404, Some("test internal error")))
  {
    var v := ApiError("NotFoundError", "User not found", 404, Some("test internal error"));
    assert WireCause(v) == "test internal error";
    assert Encode(v) == [("internal_error", JString("test internal error")),
                         ("error_type", JString("NotFoundError")), ("message", JString("User not found")),
                         ("error_code", JInt(404))];
    RoundTrip(v, Zero);
  }

  /** A truncated document is not JSON, and decoding it fails. */
  lemma UnmarshalTruncated()
    ensures Decode(Malformed, Zero) == Failure(SyntaxError)
  {
  }

  /** A non-numeric `error_code` is a type error. */
  lemma UnmarshalStringErrorCode()
    ensures Decode(Document(JObject([("error_code", JString("404"))])), Zero)
         == Failure(TypeMismatch("error_code"))
  {
  }

  /** Registering `UserError` makes it available with code 418 and its message. */
  lemma RegisterUserError()
    ensures "UserError" in RegisterErrorType(Seed, "UserError", StatusTeapot, "I'm a teapot")
    ensures RegisterErrorType(Seed, "UserError", StatusTeapot, "I'm a teapot")["UserError"]
         == ErrorType(418, "I'm a teapot")
  {
  }
}
