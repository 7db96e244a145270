/** The Relay global-ID convention of the `graphql_relay` library that
    `graphene.Node.to_global_id` and `from_global_id` implement: a global ID is
    the base64 encoding of the UTF-8 bytes of `"<type>:<id>"`. The library is
    not part of this model; its behaviour is assumed to be exactly this. */
module Relay {
  import opened Wrappers
  import Base64
  import Utf8

  /** The character between the type name and the local ID. */
  const Separator: char := ':'

  /** `s.split(":", 1)` unpacked into two parts: the text before the first
      separator and everything after it; `None` when there is no separator,
      where the unpacking raises `ValueError`. */
  function SplitAtFirst(s: string): (r: Option<(string, string)>)
    ensures r.None? <==> Separator !in s
    ensures r.Some? ==> s == r.value.0 + [Separator] + r.value.1 && Separator !in r.value.0
  {
    if |s| == 0 then None
    else if s[0] == Separator then Some(([], s[1..]))
    else
      match SplitAtFirst(s[1..])
      case None => None
      case Some((before, after)) => Some(([s[0]] + before, after))
  }

  /** Joining a type name free of separators to any ID and splitting again
      gives back both parts. */
  lemma {:induction false} SplitAtFirstJoin(typeName: string, id: string)
    requires Separator !in typeName
    ensures SplitAtFirst(typeName + [Separator] + id) == Some((typeName, id))
  {
    var s := typeName + [Separator] + id;
    if |typeName| == 0 {
      assert s[0] == Separator && s[1..] == id;
    } else {
      SplitAtFirstJoin(typeName[1..], id);
      assert s[0] == typeName[0];
      assert s[1..] == typeName[1..] + [Separator] + id;
      assert [typeName[0]] + typeName[1..] == typeName;
    }
  }

  /** `to_global_id(type, id)`: a token of base64 characters that decodes to
      the UTF-8 octets of `type:id`. */
  function ToGlobalId(typeName: string, id: string): (token: string)
    ensures forall i :: 0 <= i < |token| ==> Base64.IsAlphabetChar(token[i]) || token[i] == '='
    ensures Base64.Decode(token) == Some(Utf8.Encode(typeName + [Separator] + id))
  {
    Base64.DecodeEncode(Utf8.Encode(typeName + [Separator] + id));
    Base64.Encode(Utf8.Encode(typeName + [Separator] + id))
  }

  /** The exceptions `from_global_id` lets through: `binascii.Error` from the
      base64 decoder, `UnicodeDecodeError`, and `ValueError` when the decoded
      text holds no separator. */
  datatype DecodeError = Base64Error | UnicodeError | MissingSeparator

  /** `from_global_id(global_id)`: the type name and the local ID the token
      carries. */
  function FromGlobalId(globalId: string): (r: Result<(string, string), DecodeError>)
    ensures r.Ok? ==> Separator !in r.value.0
    ensures r.Ok? ==> Base64.Decode(globalId) == Some(Utf8.Encode(r.value.0 + [Separator] + r.value.1))
    ensures r == Err(Base64Error) <==> Base64.Decode(globalId).None?
    ensures r == Err(UnicodeError) <==>
              Base64.Decode(globalId).Some? && Utf8.Decode(Base64.Decode(globalId).value).None?
    ensures r.Ok? <==> && Base64.Decode(globalId).Some?
                       && Utf8.Decode(Base64.Decode(globalId).value).Some?
                       && Separator in Utf8.Decode(Base64.Decode(globalId).value).value
  {
    match Base64.Decode(globalId)
    case None => Err(Base64Error)
    case Some(octets) =>
      match Utf8.Decode(octets)
      case None => Err(UnicodeError)
      case Some(text) =>
        match SplitAtFirst(text)
        case None => Err(MissingSeparator)
        case Some(parts) => Ok(parts)
  }

  /** Round trip: a type name without a separator and any local ID come back
      unchanged from their global ID. */
  lemma FromToGlobalId(typeName: string, id: string)
    requires Separator !in typeName
    ensures FromGlobalId(ToGlobalId(typeName, id)) == Ok((typeName, id))
  {
    var text := typeName + [Separator] + id;
    Base64.DecodeEncode(Utf8.Encode(text));
    Utf8.DecodeEncode(text);
    SplitAtFirstJoin(typeName, id);
  }
}
