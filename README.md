# Global-ID codec of the FastAPI + GraphQL demo, in Dafny

The demo service exposes Authors and Books through a GraphQL API. Its only logic is the global-ID codec in `app/graphql_app.py`:

- `to_global_id_or_none` turns a database key into an opaque node ID. It follows the Relay convention: base64 of `"<type>:<id>"`.
- `validate_if_int_or_uuid` accepts a local key when Python's `int()` or, failing that, `uuid.UUID()` parses it.
- `from_global_id_or_error` resolves a node ID to `(type, id)`, to `(type, None)`, or to a `GraphQLError`.

The model states these as pure functions. It also models, from below, the library behaviour they rest on:

| file | module | models |
|---|---|---|
| `wrappers.dfy` | `Wrappers` | `Option`, `Result`, and the `byte` type |
| `base64.dfy` | `Base64` | `b64encode` / `b64decode` per section 4 of RFC 4648 |
| `utf8.dfy` | `Utf8` | `str.encode("utf-8")` and strict `bytes.decode("utf-8")` per RFC 3629 |
| `pyint.dfy` | `PyInt` | `int(s)`, `int(s, 16)` and `str(n)` |
| `pyuuid.dfy` | `PyUuid` | `uuid.UUID(s)` and `str(UUID)` |
| `relay.dfy` | `Relay` | `to_global_id` / `from_global_id` of the Relay library |
| `graphql_app.dfy` | `GraphqlApp` | the three codec functions and `APP_ID_PREFIX` |

Raised exceptions become values:

- `Base64.Decode` and `Utf8.Decode` return `None` where Python raises `binascii.Error` or `UnicodeDecodeError`. A token with a non-ASCII character makes `b64decode` raise `ValueError` instead; the same `except` clause catches it, so the `GraphQLError` is the same.
- `PyInt.ParseInt`, `PyInt.Str` and `PyUuid.ParseUuid` return `None` where `int()`, `str()` or `UUID()` raise `ValueError`.
- `Relay.FromGlobalId` returns a `Relay.DecodeError`.
- `GraphqlApp.ValidateIntOrUuid` returns `ValidationError(message)`.
- `GraphqlApp.FromGlobalIdOrError` returns `Node(type, id)`, `OtherType(type)` (the `(type, None)` tuple) or `GraphQLError(message)`.

`only_type` is an `Option<string>` holding `str(only_type)`. Python's truthiness is kept: an empty string counts as not given.

Assumptions about libraries that are not part of this model:

- `graphql_relay.from_global_id` is taken in the shape that raises: base64-decode, UTF-8-decode, then `split(":", 1)` unpacked into two names. Text without `:` therefore raises `ValueError`, which `from_global_id_or_error` catches (line 62). Newer releases of the library swallow these errors instead. On text without `:` they return `("", text)`, which can change the outcome. On a base64 or UTF-8 failure they return `("", "")`, whose empty key then fails the int/UUID check, so the `GraphQLError` is the same.
- `graphene.Node.to_global_id(type, id)` is taken to be base64 of the UTF-8 bytes of `type + ":" + str(id)`.

## Model

| member | source | states |
|---|---|---|
| `Base64.Encode` | app/graphql_app.py:25 | the token has 4 characters per started 3-octet group, all from the base64 alphabet or `=` |
| `Base64.Decode` | app/graphql_app.py:57 | a token decodes exactly when its length is a multiple of 4, every character before the last quantum is in the alphabet and the last quantum is accepted by `DecodeFinal`, so `=` stands only at the end; the decoded length matches the token length |
| `Base64.DecodeFinal` | app/graphql_app.py:57 | the last quantum decodes exactly when it is four alphabet characters, three and `=`, or two and `==`; it gives 3, 2 or 1 octets accordingly |
| `Base64.EncodeCanonical` | app/graphql_app.py:25 | `b64encode` writes the canonical encoding of section 3.5 of RFC 4648: the pad bits of a final partial quantum are zero, so the token is unique, not only decodable |
| `Base64.DecodeEncode` | app/graphql_app.py:25 | `b64decode(b64encode(b)) == b` for every octet string |
| `Base64.GroupRoundTrip` | app/graphql_app.py:25 | a full 24-bit group encodes to four alphabet characters that decode back to it |
| `Utf8.Encode` | app/graphql_app.py:25 | `str.encode("utf-8")` writes one to four octets per character; `Utf8.DecodeEncode` proves the strict decoder inverts it |
| `Utf8.EncodeScalar` | app/graphql_app.py:25 | one to four octets per character, one exactly below U+0080 |
| `Utf8.DecodeScalar` | app/graphql_app.py:57 | a well-formed leading sequence decodes to the character whose encoding is exactly those octets |
| `Utf8.Decode` | app/graphql_app.py:57 | a decoded string re-encodes to exactly the input octets, so decoding is injective |
| `Utf8.DecodeScalarEncode` | app/graphql_app.py:57 | the decoder reads back the encoding of any character, whatever follows it |
| `Utf8.DecodeEncode` | app/graphql_app.py:57 | UTF-8 decoding inverts UTF-8 encoding for every string |
| `PyInt.DigitCount` | app/graphql_app.py:30 | the digit count of a run is its length less its number of underscores |
| `PyInt.ParseInt` | app/graphql_app.py:30 | `int(s, base)` succeeds exactly when the text after the sign (and, in base 16, an `0x` prefix) is a run of digits with single underscores between digits and, in base 10, of at most 4300 digits; the sign decides the sign of the value |
| `PyInt.DecimalDigits` | app/graphql_app.py:25 | `str(n)` of a natural number is a non-empty run of decimal digits with no leading zero |
| `PyInt.IntToString` | app/graphql_app.py:25 | `str(n)` starts with `-` exactly for negative `n`; every other character is a decimal digit, with no leading zero unless the number is 0 |
| `PyInt.DecimalDigitsValue` | app/graphql_app.py:30 | the decimal digits of `n` form a digit run whose value is `n` |
| `PyInt.IntToStringRoundTrip` | app/graphql_app.py:30 | `int(str(n)) == n` for every integer of at most 4300 digits |
| `PyInt.Str` | app/graphql_app.py:25 | `str(n)` fails exactly on an integer of more than 4300 digits; any string it writes reads back as `n` under `int()` |
| `PyUuid.RemoveAll` | app/graphql_app.py:33 | `s.replace(pat, "")` never lengthens the string, and leaves no occurrence of a one-character pattern |
| `PyUuid.RemoveAllAbsent` | app/graphql_app.py:33 | `replace` leaves a string in which the pattern does not occur unchanged |
| `PyUuid.RemoveAllLeftmost` | app/graphql_app.py:33 | `replace` keeps the text before the leftmost occurrence, drops that occurrence and continues after it; with `RemoveAllAbsent` this fixes the result for every string and pattern |
| `PyUuid.StripBraces` | app/graphql_app.py:33 | after `strip("{}")` the result is no longer than the input and neither of its ends is a brace |
| `PyUuid.StripBracesSlice` | app/graphql_app.py:33 | `strip("{}")` returns exactly the middle of any split into leading braces, a part that neither starts nor ends with a brace, and trailing braces |
| `PyUuid.HexPart` | app/graphql_app.py:33 | the text `UUID()` reads once `urn:` and `uuid:` are removed, braces stripped and hyphens removed is no longer than the input and holds no hyphen |
| `PyUuid.HexPartPlain` | app/graphql_app.py:33 | a string with no `u`, brace or hyphen is its own hex part |
| `PyUuid.ParseUuid` | app/graphql_app.py:33 | `UUID(s)` succeeds exactly when the hex part is 32 characters, `int(hex, 16)` accepts it and the value is in 0 to 2^128 - 1; its value is that number |
| `PyUuid.HexDigits` | app/graphql_app.py:33 | fixed-width formatting yields exactly `k` lower-case hex digits |
| `PyUuid.HexDigitsValue` | app/graphql_app.py:33 | `k` hex digits of a number below 16^k read back as that number |
| `PyUuid.RemoveHyphenAfter` | app/graphql_app.py:33 | removing hyphens skips a hyphen-free group and the hyphen after it |
| `PyUuid.HyphenatedHexPart` | app/graphql_app.py:33 | the hex part of a hyphenated 32-digit string is those digits |
| `PyUuid.UuidString` | app/graphql_app.py:33 | `str(UUID)` is 36 characters: hyphens at places 8, 13, 18 and 23, lower-case hex digits everywhere else |
| `PyUuid.UuidStringRoundTrip` | app/graphql_app.py:33 | `UUID(str(u)) == u` for every 128-bit value |
| `Relay.SplitAtFirst` | app/graphql_app.py:57 | the split fails exactly when there is no `:`; otherwise the text is `type + ":" + id` with no `:` in `type` |
| `Relay.SplitAtFirstJoin` | app/graphql_app.py:57 | joining a colon-free type name with any id and splitting again gives back both parts |
| `Relay.ToGlobalId` | app/graphql_app.py:25 | the token holds only base64 characters and decodes to the UTF-8 octets of `type:id` |
| `Relay.FromGlobalId` | app/graphql_app.py:57 | succeeds exactly when the token base64-decodes to well-formed UTF-8 text containing `:`; the type is then colon-free and the token decodes to the UTF-8 of `type:id`; each error arises exactly at its own stage |
| `Relay.FromToGlobalId` | app/graphql_app.py:57 | `from_global_id(to_global_id(t, id)) == (t, id)` for colon-free `t` |
| `GraphqlApp.ToGlobalIdOrNone` | app/graphql_app.py:19-25 | fails exactly when `str(instance_id)` does; otherwise the token decodes to type `"ABCD"` and key `str(instance_id)`, whatever the entity |
| `GraphqlApp.ToGlobalIdOfType` | app/graphql_app.py:20 | the corrected encoder's token decodes to the given type name and `str(instance_id)` |
| `GraphqlApp.ValidateIntOrUuid` | app/graphql_app.py:28-35 | a key is accepted if and only if `int()` or `UUID()` parses it; otherwise the error is "Must receive an int or UUID." |
| `GraphqlApp.IntKeyValid` | app/graphql_app.py:28-35 | every key `str(n)` writes passes the validation |
| `GraphqlApp.OversizedIntKeyInvalid` | app/graphql_app.py:28-35 | a decimal key of more than 4300 digits is refused with "Must receive an int or UUID." |
| `GraphqlApp.UuidKeyValid` | app/graphql_app.py:28-35 | every `str(UUID)` passes the validation |
| `GraphqlApp.ResolveGlobalId` | app/graphql_app.py:56-61 | on success, an `app` type keeps the whole token as its key; any other type keeps its decoded key, which passed the validation |
| `GraphqlApp.ResolveFailsIff` | app/graphql_app.py:56-62 | the `try` block fails exactly on a decoding failure or on a non-`app` key that is neither int nor UUID |
| `GraphqlApp.FalsyOnlyTypeIgnored` | app/graphql_app.py:63-68 | a falsy `only_type` (`None` or the empty string, by Python's truthiness test `IsGiven`) is never looked at: the result is the same as with no `only_type` |
| `GraphqlApp.FromGlobalIdOrError` | app/graphql_app.py:38-74 | `(type, None)` only when `only_type` is given, differs and `raise_error` is false; a `(type, id)` result comes from the `try` block and matches any given `only_type` |
| `GraphqlApp.InvalidIdError` | app/graphql_app.py:62-67 | every failure becomes "Invalid ID: <token>.", with " Expected: <only_type>." appended only when `only_type` is given |
| `GraphqlApp.TypeMismatch` | app/graphql_app.py:68-73 | a valid token of another type gives `(type, None)`, or with `raise_error` an error naming the expected and received types |
| `GraphqlApp.ResolvedAsIs` | app/graphql_app.py:68-74 | with no `only_type` or a matching one, a valid token gives exactly the type and string key |
| `GraphqlApp.AppIdKeepsToken` | app/graphql_app.py:58-59 | an `app` token resolves to the whole original token as its key, with no int/UUID check |
| `GraphqlApp.ResolveOwnToken` | app/graphql_app.py:57-74 | for any colon-free type other than `app` and any valid key, the built token resolves to that type and key |
| `GraphqlApp.PlaceholderRoundTrip` | app/graphql_app.py:19-74 | the token of any integer of at most 4300 digits resolves to `("ABCD", str(n))` without error |
| `GraphqlApp.UuidRoundTrip` | app/graphql_app.py:57-74 | the token of any type other than `app` with a canonical UUID key resolves to that type and key |
| `GraphqlApp.PlaceholderFailsTypedLookup` | app/graphql_app.py:19-25 | as written, a token checked against its entity's real type (with `raise_error`) is refused as type `ABCD` |
| `GraphqlApp.TypedRoundTrip` | app/graphql_app.py:20-25 | with the entity's own type name, a typed lookup that raises on mismatch returns the type and `str(id)` |
| `GraphqlApp.TypedTokensDistinct` | app/graphql_app.py:20-25 | with the entity's own type name, entities of different types never share a token, whatever their keys |

## Findings

| source | as written | input that shows it | evidently intended | confidence | as-written member | corrected member |
|---|---|---|---|---|---|---|
| app/graphql_app.py:21 | the type name is the constant `"ABCD"` for every entity | the key of an Author, resolved with `only_type="Author"` and `raise_error=True`, gives "Invalid ID: …. Expected: Author, received: ABCD." | the entity's class name, as on the commented-out line 20 | medium; not executed | `GraphqlApp.PlaceholderFailsTypedLookup` | `GraphqlApp.TypedRoundTrip` |

`GraphqlApp.ToGlobalIdOrNone` models the code as written. `GraphqlApp.ToGlobalIdOfType` is the corrected encoder. In the corrected form, typed lookups succeed (`TypedRoundTrip`) and an Author and a Book never share a token, whatever their keys (`TypedTokensDistinct`). The only in-repository caller of the decoder, `Query.author`, passes no `only_type`, so the defect is not visible there.

## Left out

- The Strawberry types, the `Query` and `Mutation` resolvers and the nested `Author.books` / `Book.author` fields (lines 77-190): asynchronous database I/O with no logic beyond forwarding rows. The corrected encoder is therefore not wired into any resolver.
- `logging.error("pass1")` (line 55): a logging side effect.
- `app/main.py` (HTTP set-up and constant health endpoints) and `app/schemas.py` (field declarations) are not part of this model.
- Exception chaining (`from e`) and exception classes beyond their messages.
- `PyInt.ParseInt`: does not model the surrounding whitespace that `int()` strips, or non-ASCII Unicode digits. So it refuses some strings Python accepts, such as `" 12 "`.
- `PyInt.Str`: the 4300-digit limit of `int()` and `str()` is modelled at its default value, as in Python 3.10.7 and later. `sys.set_int_max_str_digits` and `PYTHONINTMAXSTRDIGITS` can change it, and Python 3.10.0 to 3.10.6 have no limit. The database keys are far shorter.
- `Base64.Decode`: decodes strictly, so it refuses some tokens that CPython's default `b64decode` accepts. CPython discards characters outside the alphabet. It skips a `=` that starts a quantum (`QUJD=` gives `ABC`). It stops at the first complete padding and ignores what follows (`QQ==QUJD` gives `A`).
- `Relay.FromGlobalId`: the newer library releases that return `("", text)` or `("", "")` instead of raising are not modelled.
- `GraphqlApp.ToGlobalIdOrNone`: takes an integer key only. That is what every caller passes. The string keys that `to_global_id` also serializes are not covered.
- Lone surrogates: Python strings can hold them, but a Dafny `char` cannot. Such a token always fails base64 decoding in Python, which gives the same `GraphQLError` as any other undecodable token.
