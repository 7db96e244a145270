/** The global-ID codec of the GraphQL application: building an opaque node ID
    from a local key, checking that a local key is an integer or a UUID, and
    resolving a node ID back to its type name and local key or to the
    `GraphQLError` the API reports. */
module GraphqlApp {
  import opened Wrappers
  import PyInt
  import PyUuid
  import Relay

  /** The type name that marks an external application's ID; such an ID keeps
      the whole token as its local key. */
  const AppIdPrefix: string := "app"

  /** The type name every encoded ID carries, whatever the entity. */
  const PlaceholderType: string := "ABCD"

  const IntOrUuidMessage: string := "Must receive an int or UUID."

  /** `to_global_id_or_none(instance_id)` as written: the type name is the
      fixed placeholder, so the token decodes to `"ABCD:" + str(instance_id)`.
      `None` stands for the `ValueError` that `str(instance_id)` raises on an
      integer of too many digits; the function never returns Python's `None`,
      since the test for it is commented out. */
  function ToGlobalIdOrNone(instanceId: int): (token: Option<string>)
    ensures token.Some? <==> PyInt.Str(instanceId).Some?
    ensures token.Some? ==>
              Relay.FromGlobalId(token.value) == Ok((PlaceholderType, PyInt.Str(instanceId).value))
  {
    match PyInt.Str(instanceId)
    case None => None
    case Some(key) =>
      Relay.FromToGlobalId(PlaceholderType, key);
      Some(Relay.ToGlobalId(PlaceholderType, key))
  }

  /** The type name the entity's class would give, instead of the placeholder:
      the evidently intended form of `to_global_id_or_none`. */
  function ToGlobalIdOfType(typeName: string, instanceId: int): (token: Option<string>)
    requires Relay.Separator !in typeName
    ensures token.Some? <==> PyInt.Str(instanceId).Some?
    ensures token.Some? ==>
              Relay.FromGlobalId(token.value) == Ok((typeName, PyInt.Str(instanceId).value))
  {
    match PyInt.Str(instanceId)
    case None => None
    case Some(key) =>
      Relay.FromToGlobalId(typeName, key);
      Some(Relay.ToGlobalId(typeName, key))
  }

  /** Outcome of `validate_if_int_or_uuid`: it returns, or raises
      `ValidationError`. */
  datatype Validation = Valid | ValidationError(message: string)

  /** `validate_if_int_or_uuid(id)`: `int(id)` is tried first, then `UUID(id)`. */
  function ValidateIntOrUuid(id: string): (r: Validation)
    ensures r.Valid? <==> PyInt.ParseInt(id, 10).Some? || PyUuid.ParseUuid(id).Some?
    ensures r.ValidationError? ==> r.message == IntOrUuidMessage
  {
    if PyInt.ParseInt(id, 10).Some? then Valid
    else if PyUuid.ParseUuid(id).Some? then Valid
    else ValidationError(IntOrUuidMessage)
  }

  /** Every exception the `try` block of `from_global_id_or_error` catches. */
  datatype Failure = Undecodable(cause: Relay.DecodeError) | Rejected(message: string)

  /** The `try` block of `from_global_id_or_error`: decode, then keep the
      whole token as the key of an `app` ID or validate any other key. */
  function ResolveGlobalId(globalId: string): (r: Result<(string, string), Failure>)
    ensures r.Ok? && r.value.0 == AppIdPrefix ==> r.value.1 == globalId
    ensures r.Ok? && r.value.0 != AppIdPrefix ==>
              Relay.FromGlobalId(globalId) == Ok(r.value) && ValidateIntOrUuid(r.value.1).Valid?
    ensures r.Ok? ==> Relay.FromGlobalId(globalId).Ok? && Relay.FromGlobalId(globalId).value.0 == r.value.0
  {
    match Relay.FromGlobalId(globalId)
    case Err(cause) => Err(Undecodable(cause))
    case Ok((type_, id_)) =>
      if type_ == AppIdPrefix then Ok((type_, globalId))
      else
        match ValidateIntOrUuid(id_)
        case Valid => Ok((type_, id_))
        case ValidationError(message) => Err(Rejected(message))
  }

  /** What `from_global_id_or_error` returns or raises. */
  datatype Resolved =
    | Node(typeName: string, id: string)  // (type_, id_)
    | OtherType(typeName: string)         // (type_, None)
    | GraphQLError(message: string)

  /** Python truthiness of `only_type`: `None` and the empty string are false.
      A type object is given by its `str()`, its name. */
  function IsGiven(onlyType: Option<string>): bool {
    onlyType.Some? && onlyType.value != ""
  }

  /** `from_global_id_or_error(global_id, only_type, raise_error)`. */
  function FromGlobalIdOrError(globalId: string, onlyType: Option<string>, raiseError: bool): (r: Resolved)
    ensures r.OtherType? ==> IsGiven(onlyType) && !raiseError && r.typeName != onlyType.value
    ensures r.Node? ==> ResolveGlobalId(globalId) == Ok((r.typeName, r.id))
    ensures r.Node? && IsGiven(onlyType) ==> r.typeName == onlyType.value
  {
    match ResolveGlobalId(globalId)
    case Err(_) =>
      if IsGiven(onlyType) then
        GraphQLError("Invalid ID: " + globalId + ". Expected: " + onlyType.value + ".")
      else
        GraphQLError("Invalid ID: " + globalId + ".")
    case Ok((type_, id_)) =>
      if IsGiven(onlyType) && type_ != onlyType.value then
        if !raiseError then OtherType(type_)
        else GraphQLError("Invalid ID: " + globalId + ". Expected: " + onlyType.value + ", received: " + type_ + ".")
      else
        Node(type_, id_)
  }

  /** A falsy `only_type` is not looked at: the call behaves exactly as if no
      type were expected. In particular the empty string counts as none. */
  lemma FalsyOnlyTypeIgnored(globalId: string, onlyType: Option<string>, raiseError: bool)
    ensures FromGlobalIdOrError(globalId, onlyType, raiseError)
            == FromGlobalIdOrError(globalId, if IsGiven(onlyType) then onlyType else None, raiseError)
    ensures FromGlobalIdOrError(globalId, Some(""), raiseError) == FromGlobalIdOrError(globalId, None, raiseError)
  {
  }

  /** Every key `str(n)` of an integer passes the validation. */
  lemma IntKeyValid(n: int)
    requires PyInt.Str(n).Some?
    ensures ValidateIntOrUuid(PyInt.Str(n).value) == Valid
  {
  }

  /** A decimal key of more digits than `int()` reads is neither an integer
      nor a UUID: `validate_if_int_or_uuid("1" * 4301)` raises. */
  lemma OversizedIntKeyInvalid(key: string)
    requires PyInt.IsDigitRun(key, 10) && PyInt.DigitCount(key) > PyInt.MaxStrDigits
    ensures ValidateIntOrUuid(key) == ValidationError(IntOrUuidMessage)
  {
    assert PyInt.DigitsAfterPrefix(PyInt.Unsigned(key), 10) == key;
    forall i | 0 <= i < |key|
      ensures key[i] != 'u' && !PyUuid.IsBrace(key[i]) && key[i] != '-'
    {
      assert PyInt.IsDigit(key[i], 10) || key[i] == '_';
    }
    PyUuid.HexPartPlain(key);
  }

  /** Every key `str(u)` of a UUID passes the validation. */
  lemma UuidKeyValid(v: nat)
    requires v < PyUuid.UuidBound
    ensures ValidateIntOrUuid(PyUuid.UuidString(v)) == Valid
  {
    PyUuid.UuidStringRoundTrip(v);
  }

  /** Round trip: for a type name without a separator other than `app` and a
      valid key, the ID `to_global_id` builds resolves to that type and key,
      when no type is expected or the expected type matches. */
  lemma ResolveOwnToken(typeName: string, key: string, onlyType: Option<string>, raiseError: bool)
    requires Relay.Separator !in typeName && typeName != AppIdPrefix
    requires ValidateIntOrUuid(key).Valid?
    requires !IsGiven(onlyType) || onlyType.value == typeName
    ensures FromGlobalIdOrError(Relay.ToGlobalId(typeName, key), onlyType, raiseError) == Node(typeName, key)
  {
    Relay.FromToGlobalId(typeName, key);
  }

  /** Round trip of the codec as written: the token of any integer that
      `str()` writes resolves to the placeholder type and the decimal string of
      the integer, never to an error. */
  lemma PlaceholderRoundTrip(instanceId: int, onlyType: Option<string>, raiseError: bool)
    requires PyInt.Str(instanceId).Some?
    requires !IsGiven(onlyType) || onlyType.value == PlaceholderType
    ensures ToGlobalIdOrNone(instanceId).Some?
    ensures FromGlobalIdOrError(ToGlobalIdOrNone(instanceId).value, onlyType, raiseError)
            == Node(PlaceholderType, PyInt.Str(instanceId).value)
  {
    IntKeyValid(instanceId);
    ResolveOwnToken(PlaceholderType, PyInt.Str(instanceId).value, onlyType, raiseError);
  }

  /** Round trip for UUID keys under any type name but `app`. */
  lemma UuidRoundTrip(typeName: string, v: nat, raiseError: bool)
    requires Relay.Separator !in typeName && typeName != AppIdPrefix
    requires v < PyUuid.UuidBound
    ensures FromGlobalIdOrError(Relay.ToGlobalId(typeName, PyUuid.UuidString(v)), None, raiseError)
            == Node(typeName, PyUuid.UuidString(v))
  {
    UuidKeyValid(v);
    ResolveOwnToken(typeName, PyUuid.UuidString(v), None, raiseError);
  }

  /** An `app` ID keeps the whole token as its key and its key is never
      validated; it resolves to that when no other type is expected. */
  lemma AppIdKeepsToken(globalId: string, id: string, onlyType: Option<string>, raiseError: bool)
    requires Relay.FromGlobalId(globalId) == Ok((AppIdPrefix, id))
    requires !IsGiven(onlyType) || onlyType.value == AppIdPrefix
    ensures ResolveGlobalId(globalId) == Ok((AppIdPrefix, globalId))
    ensures FromGlobalIdOrError(globalId, onlyType, raiseError) == Node(AppIdPrefix, globalId)
  {
  }

  /** The `try` block fails exactly when decoding fails, or when a key of a
      type other than `app` is neither an integer nor a UUID. */
  lemma ResolveFailsIff(globalId: string)
    ensures ResolveGlobalId(globalId).Err? <==>
              (Relay.FromGlobalId(globalId).Err?
               || (Relay.FromGlobalId(globalId).value.0 != AppIdPrefix
                   && PyInt.ParseInt(Relay.FromGlobalId(globalId).value.1, 10).None?
                   && PyUuid.ParseUuid(Relay.FromGlobalId(globalId).value.1).None?))
  {
  }

  /** Any failure in the `try` block becomes one `GraphQLError` naming the
      token, with the expected type appended only when one is given; the type
      check is then never reached. */
  lemma InvalidIdError(globalId: string, onlyType: Option<string>, raiseError: bool)
    requires ResolveGlobalId(globalId).Err?
    ensures FromGlobalIdOrError(globalId, onlyType, raiseError)
            == GraphQLError("Invalid ID: " + globalId + "."
                            + (if IsGiven(onlyType) then " Expected: " + onlyType.value + "." else ""))
  {
    if IsGiven(onlyType) {
      assert "Invalid ID: " + globalId + ". Expected: " + onlyType.value + "."
          == "Invalid ID: " + globalId + "." + (" Expected: " + onlyType.value + ".");
    } else {
      assert "Invalid ID: " + globalId + "." + "" == "Invalid ID: " + globalId + ".";
    }
  }

  /** A well-formed token of another type than the expected one gives
      `(type, None)`, or with `raise_error` an error naming both types. */
  lemma TypeMismatch(globalId: string, onlyType: Option<string>, raiseError: bool)
    requires ResolveGlobalId(globalId).Ok?
    requires IsGiven(onlyType) && ResolveGlobalId(globalId).value.0 != onlyType.value
    ensures var type_ := ResolveGlobalId(globalId).value.0;
            FromGlobalIdOrError(globalId, onlyType, raiseError)
            == if raiseError then
                 GraphQLError("Invalid ID: " + globalId + ". Expected: " + onlyType.value + ", received: " + type_ + ".")
               else OtherType(type_)
  {
  }

  /** Without an expected type, or with a matching one, a well-formed token
      gives exactly the type and the string key of the `try` block. */
  lemma ResolvedAsIs(globalId: string, onlyType: Option<string>, raiseError: bool)
    requires ResolveGlobalId(globalId).Ok?
    requires !IsGiven(onlyType) || ResolveGlobalId(globalId).value.0 == onlyType.value
    ensures FromGlobalIdOrError(globalId, onlyType, raiseError)
            == Node(ResolveGlobalId(globalId).value.0, ResolveGlobalId(globalId).value.1)
  {
  }

  /** The placeholder type makes every typed lookup fail: the token of an
      entity, checked against the type it was meant for (`Author`, `Book`),
      is refused when mismatches raise. */
  lemma PlaceholderFailsTypedLookup(instanceId: int, entityType: string)
    requires PyInt.Str(instanceId).Some?
    requires entityType != "" && entityType != PlaceholderType
    ensures ToGlobalIdOrNone(instanceId).Some?
    ensures var token := ToGlobalIdOrNone(instanceId).value;
            FromGlobalIdOrError(token, Some(entityType), true)
            == GraphQLError("Invalid ID: " + token + ". Expected: " + entityType + ", received: " + PlaceholderType + ".")
  {
    var token := ToGlobalIdOrNone(instanceId).value;
    IntKeyValid(instanceId);
    assert ResolveGlobalId(token) == Ok((PlaceholderType, PyInt.Str(instanceId).value));
  }

  /** With the entity's own type name, a typed lookup of the token succeeds
      with that type and key, even when mismatches raise. */
  lemma TypedRoundTrip(typeName: string, instanceId: int)
    requires Relay.Separator !in typeName && typeName != AppIdPrefix
    requires PyInt.Str(instanceId).Some?
    ensures ToGlobalIdOfType(typeName, instanceId).Some?
    ensures FromGlobalIdOrError(ToGlobalIdOfType(typeName, instanceId).value, Some(typeName), true)
            == Node(typeName, PyInt.Str(instanceId).value)
  {
    IntKeyValid(instanceId);
    ResolveOwnToken(typeName, PyInt.Str(instanceId).value, Some(typeName), true);
  }

  /** With the entity's own type name, entities of different types never
      share a token, whatever their keys. */
  lemma TypedTokensDistinct(type1: string, type2: string, id1: int, id2: int)
    requires Relay.Separator !in type1 && Relay.Separator !in type2 && type1 != type2
    requires PyInt.Str(id1).Some? && PyInt.Str(id2).Some?
    ensures ToGlobalIdOfType(type1, id1).value != ToGlobalIdOfType(type2, id2).value
  {
  }
}
