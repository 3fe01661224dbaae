# diabuddy-errors: the structured API error, in Dafny

This project models the structured API error of `errors.go`. It has four parts:

- the **error registry**, which maps a symbolic error-type name such as `NotFoundError` to an HTTP status code and a default message;
- the **constructor** `NewApiError` and its one option, `WithInternalError`;
- the **wire encoding** `MarshalJSON`, which flattens the wrapped cause into a sibling `internal_error` member;
- the **wire decoding** `UnmarshalJSON`, which writes into an existing receiver and rebuilds the cause as plain text.

The model is functional:

- The registry is a `map<string, ErrorType>` passed as a value, so registration returns a new registry.
- An `ApiError` keeps its cause as `Option<string>`, the rendered text of the Go `error`. `None` is a nil error.
- Options are a datatype applied by a left fold.
- A JSON document is an abstract value. An object is an ordered sequence of members, duplicates included.
- Input that is not JSON is the `Malformed` wire value.
- Decoding returns a `Result`.
- Go's `int` is a 64-bit subset type, `GoInt`.

Files:

| file | module | contents |
|---|---|---|
| `wrappers.dfy` | `Wrappers` | `Option`, `Result` |
| `registry.dfy` | `ErrorRegistry` | status codes, type names, the seed, `RegisterErrorType` |
| `api_error.dfy` | `ApiErrors` | `ApiError`, options, `NewApiError`, `Error` |
| `json.dfy` | `Json` | abstract JSON values and member lookup |
| `codec.dfy` | `Codec` | `Encode`, `Decode`, the decoder as written, round trips |
| `scenarios.dfy` | `Scenarios` | the concrete cases of `errors_test.go` |

`errors_test.go` uses three names that `errors.go` does not have:

- a field `InnerError` (lines 42 and 135), where `errors.go` calls it `InternalError`;
- a method `HTTPError()` (line 187), which `errors.go` does not define;
- the `Error()` text `"Error 404: User not found"` (line 180), where `errors.go` returns the bare message.

So `errors_test.go` does not compile against `errors.go` as written: `InnerError` and `HTTPError` are undefined there. The model follows `errors.go`. `scenarios.dfy` records the mismatch, and it models the two `InnerError` tests by reading `InternalError` for `InnerError`.

## Model

| member | source | states |
|---|---|---|
| ErrorRegistry.SeedContents | errors.go:80-93 | The initial registry holds exactly the ten built-in names, each with its net/http code (404, 500, 400, 401, 403, 409, 405, 408, 422, 429), all within 400-599. |
| ErrorRegistry.RegisterErrorType | errors.go:115-118 | After registration the name maps to the given code and message, the key set gains only that name, and every other key keeps its entry. It never fails. |
| ErrorRegistry.RegisterIdempotent | errors.go:116-118 | Registering the same entry twice gives the same registry as registering it once. |
| ErrorRegistry.RegisterPresentIsIdentity | errors.go:116-118 | Registering an entry that is already present leaves the registry unchanged. |
| ErrorRegistry.RegisterOverwrites | errors.go:116-118 | Last write wins: a later registration of the same name replaces the earlier one completely. |
| ErrorRegistry.RegisterCommutes | errors.go:116-118 | Registrations of two different names commute. |
| ApiErrors.ApplyOption | errors.go:120-125 | `WithInternalError(err)` sets the cause to `err`, including nil, and leaves type, message and code unchanged. |
| ApiErrors.ApplyOptions | errors.go:109-111 | Applying options in order changes only the cause. The last option decides the cause, and with no options the cause is kept. |
| ApiErrors.ApplyOptionsAppend | errors.go:109-111 | Applying `a + b` equals applying `a` and then `b`: the options form a left fold. |
| ApiErrors.NewApiError | errors.go:95-113 | The message is always the caller's. A registered name gives that name and the registry's code. Any other name gives `GenericError` with code 500. Without options the cause is nil, otherwise it is the last option's cause. With `WithInternalError` options, the only kind errors.go defines, construction cannot fail. |
| ApiErrors.WithInternalErrorLastWins | errors.go:109-111 | A trailing `WithInternalError(err)` yields the same error as without it, except that the cause is `err`. |
| ApiErrors.Error | errors.go:33-35 | `Error()` is the bare message. `ApiErrors.ErrorIsUserMessage` states what that means for a constructed error. |
| ApiErrors.ErrorIsUserMessage | errors.go:32-35 | `Error()` of a constructed error is exactly the caller's message. |
| ApiErrors.NewApiErrorIgnoresDefaultMessages | errors.go:96-108 | Two registries with the same names and codes but different default messages build identical errors, so the default message is never used. |
| ApiErrors.ConstructAfterRegister | errors.go:102-107 | After `RegisterErrorType(n, c, m)`, constructing with `n` gives type `n`, code `c`, the caller's message and no cause. |
| ApiErrors.RegisterLeavesOtherConstructions | errors.go:116-118 | Registering a name does not change how any other name is constructed. |
| Codec.Encode | errors.go:38-52 | The encoding has four members when the cause's text is non-empty and three otherwise. `internal_error` comes first when present, followed by `error_type`, `message` and `error_code`, holding the error's fields. |
| Codec.EncodeKeys | errors.go:45-51 | The keys of the encoding are exactly `[internal_error?, error_type, message, error_code]`, in that order. |
| Codec.EncodeLookup | errors.go:40-51 | Looking a key up in the encoding returns the field it mirrors. `internal_error` is absent exactly when the cause is nil or renders as "" (omitempty). |
| Codec.Fits | errors.go:57-64 | The JSON types `encoding/json` accepts for each member. The text fields and `internal_error` take a string or null. `error_code` takes null or an integer literal within Go's 64-bit `int`. A non-null value fits a data field exactly when the encoder could have written it for some error. Members with any other name are accepted and skipped. |
| Codec.Store | errors.go:57-64 | Storing one member follows `encoding/json`'s rules. A mistyped value records a type error only if none was recorded before, and writes nothing. A fitting `internal_error` sets the `*string` to its text, or to nil for null. A null text or number field and an unknown key change nothing. A fitting non-null data member sets exactly its own field. The receiver's cause is never touched. |
| Codec.StoreAll | errors.go:64 | Storing members never touches the receiver's cause. A type error, once recorded, stays recorded. No error is recorded exactly when every member's value fits its field. A recorded error names a mistyped member. |
| Codec.DecodeObject | errors.go:55-72 | Decoding an object succeeds if and only if every member's value has its field's JSON type. A failure names a mistyped member. |
| Codec.Decode | errors.go:55-72 | Input that is not JSON fails with a syntax error. `null` leaves the receiver unchanged, which corrects the behaviour of errors.go. Only an object or `null` can decode successfully. |
| Codec.DecodeAsWritten | errors.go:55-72 | The decoder as written in errors.go dereferences nil exactly on the document `null`. |
| Codec.NullPanicsAsWritten | errors.go:64-68 | On `null`, `json.Unmarshal` sets `aux` to nil without error, and the next line dereferences it. |
| Codec.DecodeAgreesExceptOnNull | errors.go:55-72 | The corrected decoder returns the same result as errors.go on every input except `null`, where it returns the receiver unchanged. |
| Codec.StoreAllReportsFirstMistyped | errors.go:64-66 | When members are stored in document order, the error kept is the one of the first mistyped member, whatever follows it. |
| Codec.StoreAllKeepsAbsentField | errors.go:61-64 | A field that no non-null member names keeps the receiver's value. |
| Codec.StoreAllLastWriteWins | errors.go:61-64 | A field ends up with the value of the last non-null member that names it. |
| Codec.StoreAllKeepsInternal | errors.go:58-64 | Without an `internal_error` member, the `*string` pointer keeps its value. |
| Codec.StoreAllLastInternalWins | errors.go:58-64 | The last `internal_error` member decides the pointer: its string, or nil for `null`. |
| Codec.DecodeFailsOnFirstMistyped | errors.go:64-66 | A mistyped member, such as a non-numeric `error_code`, makes decoding fail. The reported error names the first mistyped member. |
| Codec.DecodeKeepsAbsentField | errors.go:56-64 | A field the document does not set keeps the receiver's prior value. |
| Codec.DecodeTakesLastWrite | errors.go:56-64 | A field the document sets holds the last non-null value given for it. |
| Codec.DecodeKeepsCauseWithoutInternalError | errors.go:68-70 | A missing `internal_error` does not clear the receiver's existing cause. |
| Codec.DecodeTakesLastInternalError | errors.go:68-70 | After decoding, the cause is the last `internal_error` string, taken verbatim; see `Codec.DecodeObject` under Left out. If that member is `null`, the receiver's cause is kept. |
| Codec.DecodeAcceptsAnyTypeName | errors.go:55-72 | Decoding the one-member document `{"error_type": name}` gives exactly that name, registered or not, with no fallback to `GenericError`. Decoding has no registry input at all. |
| Codec.RoundTrip | errors.go:38-72 | Decoding an encoding into any receiver restores type, message and code. A non-empty cause text comes back verbatim as the cause; see `Codec.DecodeObject` under Left out for texts containing '%'. Otherwise the receiver keeps its own cause. |
| Codec.CauseRoundTrip | errors.go:41-69 | A non-empty cause whose text has no '%' survives encode-then-decode unchanged. |
| Codec.EncodeDecodeEncode | errors.go:38-72 | Re-encoding a decoded encoding reproduces it exactly, with the cause taken verbatim; see `Codec.DecodeObject` under Left out. The exception is an omitted `internal_error` combined with a receiver that has a cause of its own. |
| Scenarios.NewNotFoundError | errors_test.go:12-32 | `NotFoundError` with "User not found" gives that type, that message and code 404. |
| Scenarios.NewWithInternalError | errors_test.go:35-49 | `WithInternalError` attaches the cause's text. |
| Scenarios.MarshalWithoutCause | errors_test.go:52-67 | Without a cause, the encoding is `error_type`, `message`, `error_code` with no `internal_error`. |
| Scenarios.MarshalWithCause | errors_test.go:68-83 | With a cause, `internal_error` comes first. |
| Scenarios.UnmarshalWithoutCause | errors_test.go:86-109 | Decoding the three-member object into a zero receiver gives the expected error with a nil cause. |
| Scenarios.UnmarshalWithCause | errors_test.go:111-138 | Decoding with `internal_error` rebuilds the cause text. |
| Scenarios.UnmarshalTruncated | errors_test.go:140-150 | A truncated document fails to decode. |
| Scenarios.UnmarshalStringErrorCode | errors.go:64-66 | A string `error_code` is a type error naming `error_code`. |
| Scenarios.RegisterUserError | errors_test.go:152-176 | Registering `UserError` with 418 and "I'm a teapot" makes it available with exactly that entry. |

## Left out

- Byte-level JSON is not modelled. Parsing, escaping, whitespace and UTF-8 handling belong to `encoding/json`. A document is an abstract value, and bytes that are not JSON are the single `Malformed` case.
- Member names are matched exactly. Go's `encoding/json` also accepts a case-insensitive match, such as `Error_Type`; the model does not.
- Arbitrary Go `error` values are reduced to their rendered text. That text is all the encoder ever reads.
- The registry as a process-global mutable map is not modelled. It is passed as a value, so its data races are outside the model.
- The `"Error <code>: <message>"` rendering and the `HTTPError()` projection are left out. `errors_test.go` expects them, but `errors.go` defines neither.
- Go's `int` is taken to be 64 bits wide. On a 32-bit platform, `error_code` values beyond 32 bits would also be type errors.
- Encoding without `MarshalJSON` is left out. `MarshalJSON` has a pointer receiver, so an `ApiError` value that is not addressable is encoded without `internal_error`; examples are a value passed directly to `json.Marshal` or one held in a map. Addressable values, such as slice elements, go through `MarshalJSON`. The model encodes through `MarshalJSON` only.
- Codec.Decode: on a type error, Go has already written the well-typed members into the receiver before the error is returned. The model returns only the failure.
- Codec.DecodeObject: errors.go rebuilds the cause with `fmt.Errorf(text)` (line 69), which reads '%' as a formatting verb, so a cause "100%" comes back as "100%!(NOVERB)". The model rebuilds the cause verbatim. `Codec.RoundTrip`, `Codec.DecodeTakesLastInternalError` and `Codec.EncodeDecodeEncode` therefore state verbatim text for every cause, which matches errors.go only for text without '%'. `Codec.CauseRoundTrip` states the cause round trip for exactly those texts, where the model and errors.go agree.
- ApiErrors.ApplyOptions: only `WithInternalError` options are modelled. errors.go's `ErrorOption` is an open `func(*ApiError)` type. A nil option makes `NewApiError` panic, and a caller-defined option can change the type, message or code. The claims that options change only the cause and that construction cannot fail hold only for `WithInternalError`.

## Findings

| source | as written | input that shows it | evidently intended | confidence | as-written member | corrected member |
|---|---|---|---|---|---|---|
| errors.go:64-68 | `json.Unmarshal(data, &aux)` receives a pointer to the `aux` pointer. For the document `null` it sets `aux` to nil and returns no error. `aux.InternalError` then dereferences nil and panics. | `UnmarshalJSON([]byte("null"))`, or `json.Unmarshal([]byte("null"), &apiError)` | Treat `null` as a no-op, as Go's `Unmarshaler` convention asks, and leave the receiver unchanged. | medium; not executed | Codec.DecodeAsWritten | Codec.Decode |
