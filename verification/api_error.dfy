/**
  The structured API error of errors.go and its construction: `NewApiError`
  looks the type name up in the registry, falls back to a generic category
  when the name is unknown, and then applies the caller's options in order.
*/
module ApiErrors {
  import opened Wrappers
  import opened ErrorRegistry

  /**
    An `ApiError`. The wrapped cause is kept as its rendered text
    (`err.Error()`), the only part of it the program ever serialises:
    `None` is a nil `error`, `Some(t)` a non-nil one whose text is `t`.
  */
  datatype ApiError = ApiError(errorType: string, message: string, code: GoInt, cause: Option<string>)

  /** The category given to an error whose type name is not registered. */
  const GenericErrorType := "GenericError"

  /** Go's zero `ApiError`, the receiver of a `var e ApiError; json.Unmarshal(…, &e)`. */
  const Zero := ApiError("", "", 0, None)

  /**
    A construction option. errors.go's `ErrorOption` is an open function type;
    the model has only the option errors.go itself defines,
    `WithInternalError(err)`, with a nil `err` as `None`.
  */
  datatype ErrorOption = WithInternalError(err: Option<string>)

  /** Running an option on the error under construction: it sets the cause and nothing else. */
  function ApplyOption(e: ApiError, o: ErrorOption): (r: ApiError)
    ensures r.errorType == e.errorType && r.message == e.message && r.code == e.code
    ensures r.cause == o.err
  {
    match o
    case WithInternalError(err) => e.(cause := err)
  }

  /**
    Runs the options left to right. Only the cause can change, and the
    last option decides it.
  */
  function ApplyOptions(e: ApiError, options: seq<ErrorOption>): (r: ApiError)
    ensures r.errorType == e.errorType && r.message == e.message && r.code == e.code
    ensures r.cause == if |options| == 0 then e.cause else options[|options| - 1].err
    decreases |options|
  {
    if |options| == 0 then e
    else ApplyOptions(ApplyOption(e, options[0]), options[1..])
  }

  /**
    `NewApiError`: a registered name gives that name and the registry's code;
    any other name gives the generic category with code 500. The message is
    always the caller's, never the registry's default. With the one option
    errors.go defines, `WithInternalError`, construction cannot fail, and the
    registry is only read.
  */
  function NewApiError(reg: Registry, errorType: string, userMessage: string, options: seq<ErrorOption>): (r: ApiError)
    ensures r.message == userMessage
    ensures errorType in reg ==> r.errorType == errorType && r.code == reg[errorType].code
    ensures errorType !in reg ==> r.errorType == GenericErrorType && r.code == StatusInternalServerError
    ensures r.cause == if |options| == 0 then None else options[|options| - 1].err
  {
    var fallback := ApiError(GenericErrorType, userMessage, StatusInternalServerError, None);
    var initial :=
      if errorType in reg then ApiError(errorType, userMessage, reg[errorType].code, None)
      else fallback;
    ApplyOptions(initial, options)
  }

  /** The `error` interface: the text of an `ApiError` is its bare message. */
  function Error(e: ApiError): string
  {
    e.message
  }

  /** Running two batches of options one after the other is running their concatenation. */
  lemma ApplyOptionsAppend(e: ApiError, a: seq<ErrorOption>, b: seq<ErrorOption>)
    ensures ApplyOptions(e, a + b) == ApplyOptions(ApplyOptions(e, a), b)
  {
  }

  /** One more `WithInternalError` at the end of the options replaces the cause and keeps the rest. */
  lemma WithInternalErrorLastWins(reg: Registry, errorType: string, userMessage: string,
                                  options: seq<ErrorOption>, err: Option<string>)
    ensures NewApiError(reg, errorType, userMessage, options + [WithInternalError(err)])
         == NewApiError(reg, errorType, userMessage, options).(cause := err)
  {
  }

  /** The error's text is always the message the caller passed in. */
  lemma ErrorIsUserMessage(reg: Registry, errorType: string, userMessage: string, options: seq<ErrorOption>)
    ensures Error(NewApiError(reg, errorType, userMessage, options)) == userMessage
  {
  }

  /**
    The registry's default messages play no part in construction: two
    registries with the same names and codes build the same error.
  */
  lemma NewApiErrorIgnoresDefaultMessages(reg1: Registry, reg2: Registry, errorType: string,
                                          userMessage: string, options: seq<ErrorOption>)
    requires reg1.Keys == reg2.Keys
    requires forall k :: k in reg1 ==> reg1[k].code == reg2[k].code
    ensures NewApiError(reg1, errorType, userMessage, options) == NewApiError(reg2, errorType, userMessage, options)
  {
  }

  /** After registering a name, constructing with it yields that name and the registered code. */
  lemma ConstructAfterRegister(reg: Registry, name: string, code: GoInt, message: string, userMessage: string)
    ensures NewApiError(RegisterErrorType(reg, name, code, message), name, userMessage, [])
         == ApiError(name, userMessage, code, None)
  {
  }

  /** Registering one name does not change what construction does with any other name. */
  lemma RegisterLeavesOtherConstructions(reg: Registry, name: string, code: GoInt, message: string,
                                         errorType: string, userMessage: string, options: seq<ErrorOption>)
    requires errorType != name
    ensures NewApiError(RegisterErrorType(reg, name, code, message), errorType, userMessage, options)
         == NewApiError(reg, errorType, userMessage, options)
  {
  }
}
