/**
  The wire form of an `ApiError` (errors.go `MarshalJSON` / `UnmarshalJSON`).

  Encoding flattens the cause into a sibling `internal_error` member placed
  before the three data members and left out when its text is empty.
  Decoding writes into an existing receiver: it stores the members of the
  object one after the other, so absent members leave the receiver's fields
  as they were, and it rebuilds the cause from `internal_error` as plain text.
  The registry plays no part in either direction.
*/
module Codec {
  import opened Wrappers
  import opened ErrorRegistry
  import opened ApiErrors
  import opened Json

  const InternalErrorKey := "internal_error"
  const ErrorTypeKey := "error_type"
  const MessageKey := "message"
  const ErrorCodeKey := "error_code"

  /** The four member names are pairwise different. */
  lemma KeysDistinct()
    ensures InternalErrorKey != ErrorTypeKey && InternalErrorKey != MessageKey && InternalErrorKey != ErrorCodeKey
    ensures ErrorTypeKey != MessageKey && ErrorTypeKey != ErrorCodeKey && MessageKey != ErrorCodeKey
  {
  }

  /** Why decoding failed: the bytes were not JSON, or a value had the wrong JSON type for its field. */
  datatype DecodeError = SyntaxError | TypeMismatch(field: string)

  /** The text the encoder writes for the cause: the cause's rendering, or "" when there is none. */
  function WireCause(e: ApiError): string
  {
    e.cause.GetOr("")
  }

  /** The three members that mirror a field of `ApiError`. */
  predicate IsDataKey(key: string)
  {
    key == ErrorTypeKey || key == MessageKey || key == ErrorCodeKey
  }

  /** The JSON value the encoder writes for a data member. */
  function Field(e: ApiError, key: string): JsonValue
    requires IsDataKey(key)
  {
    if key == ErrorTypeKey then JString(e.errorType)
    else if key == MessageKey then JString(e.message)
    else JInt(e.code)
  }

  /**
    The encoded object. Member order follows the Go struct: the outer
    `internal_error` first, present only when the cause's text is non-empty
    (`omitempty`), then the embedded alias's three fields.
  */
  function Encode(e: ApiError): (r: seq<Member>)
    ensures |r| == if WireCause(e) != "" then 4 else 3
    ensures WireCause(e) != "" ==> r[0] == (InternalErrorKey, JString(WireCause(e)))
    ensures r[|r| - 3] == (ErrorTypeKey, JString(e.errorType))
    ensures r[|r| - 2] == (MessageKey, JString(e.message))
    ensures r[|r| - 1] == (ErrorCodeKey, JInt(e.code))
  {
    var data := [(ErrorTypeKey, JString(e.errorType)), (MessageKey, JString(e.message)), (ErrorCodeKey, JInt(e.code))];
    if WireCause(e) != "" then [(InternalErrorKey, JString(WireCause(e)))] + data else data
  }

  /** The encoding's keys are `[internal_error?, error_type, message, error_code]`, in that order. */
  lemma EncodeKeys(e: ApiError)
    ensures Keys(Encode(e)) == (if WireCause(e) != "" then [InternalErrorKey] else [])
                               + [ErrorTypeKey, MessageKey, ErrorCodeKey]
  {
  }

  /**
    Looked up by key, the encoding gives each field's value, and
    `internal_error` is absent exactly when the cause's text is empty.
  */
  lemma EncodeLookup(e: ApiError)
    ensures Get(Encode(e), InternalErrorKey) == if WireCause(e) != "" then Some(JString(WireCause(e))) else None
    ensures Get(Encode(e), ErrorTypeKey) == Some(JString(e.errorType))
    ensures Get(Encode(e), MessageKey) == Some(JString(e.message))
    ensures Get(Encode(e), ErrorCodeKey) == Some(JInt(e.code))
  {
    // Hints only: pinning each key to its first position keeps this proof small.
    var r := Encode(e);
    var n := |r|;
    GetFirst(r, ErrorTypeKey, n - 3);
    GetFirst(r, MessageKey, n - 2);
    GetFirst(r, ErrorCodeKey, n - 1);
    if WireCause(e) != "" {
      GetFirst(r, InternalErrorKey, 0);
    }
  }

  /**
    Whether `value` can be stored in the member named `key`, as
    `encoding/json` decides it for the target field's Go type: a string (or
    null) for the text fields and the `*string`, an integer literal within
    Go's `int` (or null) for `error_code`. Members with other names are
    skipped, whatever they hold.
  */
  function Fits(key: string, value: JsonValue): (r: bool)
    ensures !IsDataKey(key) && key != InternalErrorKey ==> r
    ensures key == InternalErrorKey ==> (r <==> value.JNull? || exists t: string :: value == JString(t))
    ensures IsDataKey(key) ==> (r <==> value.JNull? || exists e: ApiError :: Field(e, key) == value)
  {
    if key == InternalErrorKey || key == ErrorTypeKey || key == MessageKey then
      assert value.JString? ==> value == JString(value.s);
      assert key == ErrorTypeKey && value.JString? ==> Field(Zero.(errorType := value.s), key) == value;
      assert key == MessageKey && value.JString? ==> Field(Zero.(message := value.s), key) == value;
      value.JNull? || value.JString?
    else if key == ErrorCodeKey then
      var fits := value.JNull? || (value.JInt? && -0x8000_0000_0000_0000 <= value.i <= 0x7FFF_FFFF_FFFF_FFFF);
      assert fits && value.JInt? ==> Field(Zero.(code := value.i), key) == value;
      fits
    else
      true
  }

  /**
    The decoder's working state: the receiver being written, the
    `*string` that collects `internal_error`, and the first type error met.
  */
  datatype Scratch = Scratch(target: ApiError, internal: Option<string>, firstError: Option<DecodeError>)

  /**
    Stores one member. A value of the wrong type is recorded (only the first
    such error is kept) and decoding carries on. `null` leaves a text or
    number field untouched but resets the `internal_error` pointer to nil.
  */
  function Store(s: Scratch, m: Member): (r: Scratch)
    ensures r.target.cause == s.target.cause
    ensures !Fits(m.0, m.1) ==>
              r == s.(firstError := if s.firstError.Some? then s.firstError else Some(TypeMismatch(m.0)))
    ensures Fits(m.0, m.1) ==> r.firstError == s.firstError
    ensures Fits(m.0, m.1) && m.0 == InternalErrorKey ==>
              r.target == s.target && r.internal == (if m.1.JString? then Some(m.1.s) else None)
    ensures m.0 != InternalErrorKey && (m.1.JNull? || !IsDataKey(m.0)) ==> r.target == s.target && r.internal == s.internal
    ensures Fits(m.0, m.1) && IsDataKey(m.0) && !m.1.JNull? ==>
              && r.internal == s.internal
              && Field(r.target, m.0) == m.1
              && forall k :: IsDataKey(k) && k != m.0 ==> Field(r.target, k) == Field(s.target, k)
  {
    var (key, value) := m;
    if !Fits(key, value) then
      s.(firstError := if s.firstError.Some? then s.firstError else Some(TypeMismatch(key)))
    else if key == InternalErrorKey then
      s.(internal := if value.JString? then Some(value.s) else None)
    else if value.JNull? then s
    else if key == ErrorTypeKey then s.(target := s.target.(errorType := value.s))
    else if key == MessageKey then s.(target := s.target.(message := value.s))
    else if key == ErrorCodeKey then s.(target := s.target.(code := value.i))
    else s
  }

  /** The state after storing every member of `ms`, in document order. */
  function StoreAll(s: Scratch, ms: seq<Member>): (r: Scratch)
    ensures r.target.cause == s.target.cause
    ensures s.firstError.Some? ==> r.firstError == s.firstError
    ensures r.firstError.None? <==> s.firstError.None? && forall j :: 0 <= j < |ms| ==> Fits(ms[j].0, ms[j].1)
    ensures s.firstError.None? && r.firstError.Some? ==>
              exists j :: 0 <= j < |ms| && !Fits(ms[j].0, ms[j].1) && r.firstError.value == TypeMismatch(ms[j].0)
    decreases |ms|
  {
    if |ms| == 0 then s
    else Store(StoreAll(s, ms[..|ms| - 1]), ms[|ms| - 1])
  }

  /**
    Decodes the members of an object into `prior`. On success the cause is
    rebuilt from `internal_error` when that pointer ended up non-nil, and is
    otherwise the receiver's own cause.
  */
  function DecodeObject(ms: seq<Member>, prior: ApiError): (r: Result<ApiError, DecodeError>)
    ensures r.Success? <==> forall j :: 0 <= j < |ms| ==> Fits(ms[j].0, ms[j].1)
    ensures r.Failure? ==> exists j :: 0 <= j < |ms| && !Fits(ms[j].0, ms[j].1) && r.error == TypeMismatch(ms[j].0)
  {
    var s := StoreAll(Scratch(prior, None, None), ms);
    if s.firstError.Some? then Failure(s.firstError.value)
    // fmt.Errorf(text): a text error whose rendering is `text` when it holds no '%'.
    else if s.internal.Some? then Success(s.target.(cause := Some(s.internal.value)))
    else Success(s.target)
  }

  /**
    `UnmarshalJSON` with `null` treated as a no-op, as Go's `Unmarshaler`
    convention asks. Any top-level value other than an object or null is a
    type error.
  */
  function Decode(w: Wire, prior: ApiError): (r: Result<ApiError, DecodeError>)
    ensures w.Malformed? ==> r == Failure(SyntaxError)
    ensures w == Document(JNull) ==> r == Success(prior)
    ensures r.Success? ==> w.Document? && (w.value.JNull? || w.value.JObject?)
  {
    match w
    case Malformed => Failure(SyntaxError)
    case Document(JNull) => Success(prior)
    case Document(JObject(ms)) => DecodeObject(ms, prior)
    case Document(_) => Failure(TypeMismatch(""))
  }

  /** What a call of errors.go's `UnmarshalJSON` can do: return a result, or panic. */
  datatype Outcome = Returned(result: Result<ApiError, DecodeError>) | NilDereference

  /**
    `UnmarshalJSON` as written. `json.Unmarshal(data, &aux)` with the
    document `null` sets `aux` itself to nil and reports no error, and the
    following `aux.InternalError` dereferences that nil pointer.
  */
  function DecodeAsWritten(w: Wire, prior: ApiError): (r: Outcome)
    ensures r.NilDereference? <==> w == Document(JNull)
  {
    match w
    case Malformed => Returned(Failure(SyntaxError))
    case Document(JNull) => NilDereference
    case Document(JObject(ms)) => Returned(DecodeObject(ms, prior))
    case Document(_) => Returned(Failure(TypeMismatch("")))
  }

  /** errors.go panics on the document `null`. */
  lemma NullPanicsAsWritten(prior: ApiError)
    ensures DecodeAsWritten(Document(JNull), prior) == NilDereference
  {
  }

  /** The corrected decoder differs from errors.go's on `null` only, and never faults. */
  lemma DecodeAgreesExceptOnNull(w: Wire, prior: ApiError)
    ensures w != Document(JNull) ==> DecodeAsWritten(w, prior) == Returned(Decode(w, prior))
    ensures Decode(Document(JNull), prior) == Success(prior)
  {
  }

  // ---------------------------------------------------------------------
  // Properties of the member-by-member decoding

  /** The first mistyped member is the one reported, whatever follows it. */
  lemma {:induction false} StoreAllReportsFirstMistyped(s: Scratch, ms: seq<Member>, i: int)
    requires s.firstError.None?
    requires 0 <= i < |ms| && !Fits(ms[i].0, ms[i].1)
    requires forall j :: 0 <= j < i ==> Fits(ms[j].0, ms[j].1)
    ensures StoreAll(s, ms).firstError == Some(TypeMismatch(ms[i].0))
    decreases |ms|
  {
    var prefix := ms[..|ms| - 1];
    if i < |ms| - 1 {
      StoreAllReportsFirstMistyped(s, prefix, i);
    } else {
      assert forall j :: 0 <= j < |prefix| ==> Fits(prefix[j].0, prefix[j].1);
    }
  }

  /** A data field no non-null member names keeps the value it had. */
  lemma {:induction false} StoreAllKeepsAbsentField(s: Scratch, ms: seq<Member>, key: string)
    requires IsDataKey(key)
    requires forall j :: 0 <= j < |ms| ==> !(ms[j].0 == key && !ms[j].1.JNull?)
    ensures Field(StoreAll(s, ms).target, key) == Field(s.target, key)
    decreases |ms|
  {
    if |ms| > 0 {
      StoreAllKeepsAbsentField(s, ms[..|ms| - 1], key);
    }
  }

  /** A data field ends up holding the value of the last non-null member that names it. */
  lemma {:induction false} StoreAllLastWriteWins(s: Scratch, ms: seq<Member>, key: string, i: int)
    requires IsDataKey(key)
    requires 0 <= i < |ms| && ms[i].0 == key && !ms[i].1.JNull? && Fits(ms[i].0, ms[i].1)
    requires forall j :: i < j < |ms| ==> !(ms[j].0 == key && !ms[j].1.JNull?)
    ensures Field(StoreAll(s, ms).target, key) == ms[i].1
    decreases |ms|
  {
    if i < |ms| - 1 {
      StoreAllLastWriteWins(s, ms[..|ms| - 1], key, i);
    }
  }

  /** Without an `internal_error` member the pointer keeps its value. */
  lemma {:induction false} StoreAllKeepsInternal(s: Scratch, ms: seq<Member>)
    requires forall j :: 0 <= j < |ms| ==> ms[j].0 != InternalErrorKey
    ensures StoreAll(s, ms).internal == s.internal
    decreases |ms|
  {
    if |ms| > 0 {
      StoreAllKeepsInternal(s, ms[..|ms| - 1]);
    }
  }

  /** The pointer is decided by the last `internal_error` member: its text, or nil for `null`. */
  lemma {:induction false} StoreAllLastInternalWins(s: Scratch, ms: seq<Member>, i: int)
    requires 0 <= i < |ms| && ms[i].0 == InternalErrorKey && Fits(ms[i].0, ms[i].1)
    requires forall j :: i < j < |ms| ==> ms[j].0 != InternalErrorKey
    ensures StoreAll(s, ms).internal == if ms[i].1.JString? then Some(ms[i].1.s) else None
    decreases |ms|
  {
    if i < |ms| - 1 {
      StoreAllLastInternalWins(s, ms[..|ms| - 1], i);
    }
  }

  // ---------------------------------------------------------------------
  // Decoding, stated on whole documents

  /** A mistyped member (a non-numeric `error_code`, say) makes decoding fail, naming the first one. */
  lemma DecodeFailsOnFirstMistyped(ms: seq<Member>, prior: ApiError, i: int)
    requires 0 <= i < |ms| && !Fits(ms[i].0, ms[i].1)
    requires forall j :: 0 <= j < i ==> Fits(ms[j].0, ms[j].1)
    ensures Decode(Document(JObject(ms)), prior) == Failure(TypeMismatch(ms[i].0))
  {
    StoreAllReportsFirstMistyped(Scratch(prior, None, None), ms, i);
  }

  /** A data field the document does not set keeps the receiver's value. */
  lemma DecodeKeepsAbsentField(ms: seq<Member>, prior: ApiError, key: string)
    requires IsDataKey(key)
    requires Decode(Document(JObject(ms)), prior).Success?
    requires forall j :: 0 <= j < |ms| ==> !(ms[j].0 == key && !ms[j].1.JNull?)
    ensures Field(Decode(Document(JObject(ms)), prior).value, key) == Field(prior, key)
  {
    StoreAllKeepsAbsentField(Scratch(prior, None, None), ms, key);
  }

  /** A data field the document sets holds the last non-null value given for it. */
  lemma DecodeTakesLastWrite(ms: seq<Member>, prior: ApiError, key: string, i: int)
    requires IsDataKey(key)
    requires Decode(Document(JObject(ms)), prior).Success?
    requires 0 <= i < |ms| && ms[i].0 == key && !ms[i].1.JNull?
    requires forall j :: i < j < |ms| ==> !(ms[j].0 == key && !ms[j].1.JNull?)
    ensures Field(Decode(Document(JObject(ms)), prior).value, key) == ms[i].1
  {
    StoreAllLastWriteWins(Scratch(prior, None, None), ms, key, i);
  }

  /** A missing `internal_error` does not clear the receiver's cause. */
  lemma DecodeKeepsCauseWithoutInternalError(ms: seq<Member>, prior: ApiError)
    requires Decode(Document(JObject(ms)), prior).Success?
    requires forall j :: 0 <= j < |ms| ==> ms[j].0 != InternalErrorKey
    ensures Decode(Document(JObject(ms)), prior).value.cause == prior.cause
  {
    StoreAllKeepsInternal(Scratch(prior, None, None), ms);
  }

  /**
    The cause after decoding follows the last `internal_error` member: a
    string becomes the cause's text, `null` leaves the receiver's cause.
  */
  lemma DecodeTakesLastInternalError(ms: seq<Member>, prior: ApiError, i: int)
    requires Decode(Document(JObject(ms)), prior).Success?
    requires 0 <= i < |ms| && ms[i].0 == InternalErrorKey
    requires forall j :: i < j < |ms| ==> ms[j].0 != InternalErrorKey
    ensures Decode(Document(JObject(ms)), prior).value.cause
         == if ms[i].1.JString? then Some(ms[i].1.s) else prior.cause
  {
    StoreAllLastInternalWins(Scratch(prior, None, None), ms, i);
  }

  /**
    Decoding never consults the registry: any type name, registered or not,
    is taken as it stands, with no fallback to the generic category.
  */
  lemma DecodeAcceptsAnyTypeName(name: string, prior: ApiError)
    ensures Decode(Document(JObject([(ErrorTypeKey, JString(name))])), prior)
         == Success(prior.(errorType := name))
  {
    KeysDistinct();
    var ms := [(ErrorTypeKey, JString(name))];
    assert Fits(ms[0].0, ms[0].1);
    DecodeTakesLastWrite(ms, prior, ErrorTypeKey, 0);
    DecodeKeepsAbsentField(ms, prior, MessageKey);
    DecodeKeepsAbsentField(ms, prior, ErrorCodeKey);
    DecodeKeepsCauseWithoutInternalError(ms, prior);
  }

  // ---------------------------------------------------------------------
  // Encoding followed by decoding

  /**
    Decoding an encoded error restores its type, message and code. The cause
    comes back when its text is non-empty; otherwise `internal_error` was
    omitted and the receiver keeps its own cause.
  */
  lemma RoundTrip(v: ApiError, prior: ApiError)
    ensures Decode(Document(JObject(Encode(v))), prior)
         == Success(v.(cause := if WireCause(v) != "" then Some(WireCause(v)) else prior.cause))
  {
    var ms := Encode(v);
    var n := |ms|;
    assert ms[n - 3] == (ErrorTypeKey, JString(v.errorType));
    assert ms[n - 2] == (MessageKey, JString(v.message));
    assert ms[n - 1] == (ErrorCodeKey, JInt(v.code));
    assert forall j :: 0 <= j < n ==> Fits(ms[j].0, ms[j].1);
    var r := Decode(Document(JObject(ms)), prior).value;
    DecodeTakesLastWrite(ms, prior, ErrorTypeKey, n - 3);
    DecodeTakesLastWrite(ms, prior, MessageKey, n - 2);
    DecodeTakesLastWrite(ms, prior, ErrorCodeKey, n - 1);
    if WireCause(v) != "" {
      DecodeTakesLastInternalError(ms, prior, 0);
    } else {
      DecodeKeepsCauseWithoutInternalError(ms, prior);
    }
  }

  /** The text contains no '%', so `fmt.Errorf` renders it unchanged. */
  predicate FormatSafe(text: string)
  {
    forall i :: 0 <= i < |text| ==> text[i] != '%'
  }

  /**
    A cause with a non-empty, format-safe text survives the round trip,
    whatever cause the receiver held before. The model rebuilds every cause
    verbatim; the hypothesis marks the texts for which errors.go's
    `fmt.Errorf(text)` does the same, so on these inputs model and Go agree.
  */
  lemma CauseRoundTrip(v: ApiError, prior: ApiError)
    requires v.cause.Some? && v.cause.value != "" && FormatSafe(v.cause.value)
    ensures Decode(Document(JObject(Encode(v))), prior).Success?
    ensures Decode(Document(JObject(Encode(v))), prior).value.cause == v.cause
  {
    RoundTrip(v, prior);
  }

  /**
    Encoding what was decoded gives back the same object, unless the
    encoding omitted `internal_error` and the receiver brought a cause of its own.
  */
  lemma EncodeDecodeEncode(v: ApiError, prior: ApiError)
    requires WireCause(v) != "" || WireCause(prior) == ""
    ensures Decode(Document(JObject(Encode(v))), prior).Success?
    ensures Encode(Decode(Document(JObject(Encode(v))), prior).value) == Encode(v)
  {
    RoundTrip(v, prior);
  }
}
