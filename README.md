# httputil in Dafny

A model of the two helpers of the Go package `httputil`:

- **Bearer token extraction** (`bearer.go`). The value of the `Authorization`
  header goes in. Out comes a token, or one of two errors.
  - `ErrNoAuthHeader` when the value is empty. An absent header also arrives
    as `""`.
  - `ErrBearerFormatError` when the value does not start with exactly
    `"Bearer "`.
  - Otherwise the token is the rest of the value, with surrounding whitespace
    trimmed.
  - The binary variant also decodes the token as standard base64. Any
    decoding failure becomes `ErrBearerFormatError`.
- **The JSON responder** (`json_responder.go`). It is an object holding one
  replaceable error formatter. Its methods write JSON responses to a response
  sink: the `Content-Type: application/json` header, then the status, then the
  body. Error bodies are built by the formatter the responder holds. Decoding
  a request body either succeeds, or answers 400 and reports failure.

Files:

- `strings.dfy` (module `Strings`): Go's `strings.TrimSpace` and the
  whitespace set of `unicode.IsSpace`.
- `base64.dfy` (module `Base64`): the RFC 4648 section 4 encoder, and the
  decoder of Go's `base64.StdEncoding.DecodeString`.
- `bearer.dfy` (module `Bearer`): `ExtractBearerToken` and
  `ExtractBearerTokenBase64`.
- `json_responder.dfy` (module `JsonResponder`): the formatter, the response
  sink, the responder class and its methods.

Modelling choices:

- Strings are sequences of Unicode code points. Whitespace is Go's
  `unicode.IsSpace`: `\t \n \v \f \r`, space, U+0085, U+00A0, and the
  White_Space code points U+1680, U+2000–U+200A, U+2028, U+2029, U+202F,
  U+205F and U+3000.
- The base64 decoder follows Go's default, non-strict mode:
  - `\r` and `\n` are skipped wherever they occur;
  - padding is required, and nothing may follow it;
  - unused low bits in the last character are ignored, so `"QR=="` decodes
    like `"QQ=="`.
- The response sink is a class that appends one event per step to a `log`
  sequence (`HeaderSet`, `StatusWritten`, `BodyWritten`).
- A body is either an abstract JSON `Value` handed to the encoder (`Send`), or
  raw text (`SendString`).
- The JSON decoder is a function parameter. It maps the request body and the
  strict flag to `Decoded(value)` or `Malformed(message)`.
- An error cause is `Nil` or `Error(text)`. The default formatter renders
  `Nil` the way Go's `%s` renders a nil error: `%!s(<nil>)`.
- Following the Go code:
  - The error kind is a plain `int`, so the formatter's "unknown kind"
    branch is reachable.
  - `FormatError` is an exported, assignable field, so a caller may replace
    it after construction.

## Model

| member | source | states |
|---|---|---|
| `Bearer.HasPrefix` | bearer.go:19 | `strings.HasPrefix`: true exactly when the value is at least as long as the prefix and agrees with it at every position, so the test is case-sensitive |
| `Bearer.ExtractBearerToken` | bearer.go:15-23 | empty value ⇔ `NoAuthHeader`; non-empty without the exact case-sensitive prefix ⇔ `BearerFormatError`; success ⇔ the prefix is present, and then the token is the remainder after the prefix with only whitespace removed around it and none left at its ends |
| `Bearer.ExtractBearerTokenBase64` | bearer.go:25-35 | an extraction error is returned unchanged; after a successful extraction the result succeeds exactly when the token is accepted by the standard padded base64 decoder, and every failure is `BearerFormatError` |
| `Bearer.ExtractPaddedToken` | bearer.go:19-22 | `"Bearer " + w1 + token + w2`, with whitespace `w1`, `w2` and a token without whitespace at its ends, yields exactly that token, inner characters unchanged |
| `Bearer.PaddedHasNoSurroundingSpace` | bearer.go:22 | correctly padded base64 text without line breaks (such as every output of the encoder) neither starts nor ends with whitespace, so trimming leaves it whole |
| `Bearer.Base64TokenRoundTrip` | bearer.go:30-34 | the base64 encoding of any bytes, placed after the prefix with any surrounding whitespace, gives back exactly those bytes |
| `Bearer.ExampleSpacesTrimmed` | bearer_test.go:11-16 | `"Bearer   asd123  "` yields `"asd123"` |
| `Bearer.ExampleEmptyToken` | bearer.go:19-22 | the prefix followed by whitespace only succeeds with the empty token, and the binary variant with no bytes |
| `Bearer.ExampleRejected` | bearer.go:16-20 | `"bearer x"`, `"Basic x"` and `"Bearer"` are format errors; `""` is a missing header in both variants |
| `Bearer.UndecodableToken` | bearer.go:30-33 | a token the decoder refuses, with any whitespace around it after the prefix, makes the binary variant fail with `BearerFormatError` |
| `Bearer.ExampleUndecodable` | bearer.go:30-33 | a token outside the base64 alphabet is `BearerFormatError` in the binary variant |
| `Strings.IsSpace` | bearer.go:22 | the whitespace set of `unicode.IsSpace` used by `strings.TrimSpace`: below U+0080 exactly tab, line feed, vertical tab, form feed, carriage return and space; no whitespace lies above U+3000 |
| `Strings.TrimLeft` | bearer.go:22 | the result is a suffix of the input, what was dropped is all whitespace, and the result does not start with whitespace |
| `Strings.TrimRight` | bearer.go:22 | the result is a prefix of the input, what was dropped is all whitespace, and the result does not end with whitespace |
| `Strings.TrimSpace` | bearer.go:22 | the result is a contiguous part of the input, with only whitespace before and after it and no whitespace at its own ends |
| `Strings.TrimLeftOfPadded` | bearer.go:22 | leading whitespace in front of a part that does not start with whitespace is exactly what is removed |
| `Strings.TrimRightOfPadded` | bearer.go:22 | trailing whitespace after a part that does not end with whitespace is exactly what is removed |
| `Strings.TrimSpaceOfPadded` | bearer.go:22 | whitespace on both sides of a part with no whitespace at its ends is exactly what is removed; all-whitespace input gives `""` |
| `Strings.TrimmedIsUnique` | bearer.go:22 | any part that is "the input with surrounding whitespace removed" equals the result of the trim, so that description determines the token |
| `Base64.SextetChar` | bearer.go:30 | every 6-bit value maps to a character of the standard alphabet |
| `Base64.CharSextet` | bearer.go:30 | every alphabet character maps to a 6-bit value that maps back to it |
| `Base64.SextetRoundTrip` | bearer.go:30 | value → character → value is the identity |
| `Base64.EncodeQuantum` | bearer.go:30 | three bytes become four alphabet characters |
| `Base64.EncodeFinal` | bearer.go:30 | one or two final bytes become a valid last group of four, with two `=` for one byte and one `=` for two |
| `Base64.Encode` | bearer.go:30 | the encoding has length 4·⌈n/3⌉ and is accepted by the decoder |
| `Base64.PrependQuantum` | bearer.go:30 | four alphabet characters in front of an accepted string give an accepted string |
| `Base64.DecodeQuantum` | bearer.go:30 | a full group decodes to three bytes |
| `Base64.DecodePadded` | bearer.go:30 | a group ending in `==` decodes to one byte and one ending in `=` to two |
| `Base64.PaddedIgnoresLowBitsOfSecond` | bearer.go:30 | in a last group `xx==`, second characters that agree on their top two bits decode to the same byte: the unused low bits are ignored |
| `Base64.PaddedIgnoresLowBitsOfThird` | bearer.go:30 | in a last group `xxx=`, third characters that agree on their top four bits decode to the same bytes |
| `Base64.DecodeQuanta` | bearer.go:30 | decoding succeeds exactly when the input is whole groups of four, with alphabet characters only except for correct padding of the last group |
| `Base64.PaddedAfterQuantum` | bearer.go:30 | text opening with four alphabet characters is accepted exactly when the text after them is |
| `Base64.PaddedTail` | bearer.go:30 | the text after the first group of accepted text is accepted |
| `Base64.NotPaddedOtherwise` | bearer.go:30 | text that neither opens with four alphabet characters nor is a single valid last group is refused |
| `Base64.PaddedSymbols` | bearer.go:30 | accepted text holds only alphabet and padding characters |
| `Base64.StripNewlines` | bearer.go:30 | the result is no longer than the input and contains no `\r` or `\n` |
| `Base64.StripNewlinesAppend` | bearer.go:30 | removing line breaks from a concatenation is removing them from each piece and concatenating, so characters keep their order |
| `Base64.StripNewlinesOne` | bearer.go:30 | a single character is dropped exactly when it is `\r` or `\n`, and otherwise kept |
| `Base64.Decode` | bearer.go:30 | decoding succeeds exactly when the input, with line breaks removed, is correctly padded standard base64 |
| `Base64.StripNewlinesNoop` | bearer.go:30 | a string without line breaks is unchanged by their removal |
| `Base64.QuantumDecodeEncode` | bearer.go:30 | four alphabet characters, decoded to three bytes and encoded again, give back the same four characters |
| `Base64.QuantumRoundTrip` | bearer.go:30 | a full group of three bytes survives encoding and decoding |
| `Base64.FinalRoundTrip` | bearer.go:30 | one or two final bytes survive encoding and decoding |
| `Base64.DecodeQuantaPrepend` | bearer.go:30 | a full group decodes on its own in front of any decodable rest |
| `Base64.DecodeQuantaEncodeStep` | bearer.go:30 | when the encoding of all but the first three bytes decodes back to them, the encoding of all the bytes decodes back to all of them |
| `Base64.DecodeQuantaEncode` | bearer.go:30 | decoding the encoding of any bytes gives those bytes, before line breaks are considered |
| `Base64.EncodeDecodeRoundTrip` | bearer.go:30-34 | decoding the standard encoding of any byte string gives it back |
| `Base64.ExampleLenientDecoding` | bearer.go:30 | `"QQ=="` and `"QR=="` both decode to the byte 65 |
| `Base64.ExampleNewlinesSkipped` | bearer.go:30 | `"Q\r\nQ=\n="` decodes to the byte 65: line breaks are skipped even inside the padding |
| `Base64.RejectsIncompleteGroup` | bearer.go:30-33 | text without line breaks whose length is not a multiple of four is refused, so padding is mandatory |
| `Base64.RejectsDataAfterPadding` | bearer.go:30-33 | text without line breaks with a `=` anywhere before its last group is refused |
| `Base64.RejectsEarlyPadding` | bearer.go:30-33 | text without line breaks with a `=` in the first or second place of its last group is refused |
| `Base64.RejectsForeignChar` | bearer.go:30-33 | text holding a character that is not in the alphabet, not `=` and not a line break is refused |
| `JsonResponder.CauseText` | json_responder.go:22-26 | `%s` of an error is its message text unchanged; of a nil error it is `%!s(<nil>)` |
| `JsonResponder.DefaultErrorFormatter` | json_responder.go:18-31 | the body is an object with the single key `"error"`; its message is `description + " (" + cause + ")"` for kinds Error (0) and Internal (2), `description` for MessageOnly (1), and `"an unknown error occurred"` for any other kind |
| `JsonResponder.DefaultFormatterIgnoresStatus` | json_responder.go:18-30 | the default body does not depend on the status argument |
| `JsonResponder.DefaultFormatterIgnoresCause` | json_responder.go:20-27 | for MessageOnly and unknown kinds, the default body does not depend on the cause |
| `JsonResponder.ResponseSink.SetHeader` | json_responder.go:64 | exactly one header event is appended to the sink's log |
| `JsonResponder.ResponseSink.WriteHeader` | json_responder.go:65 | exactly one status event is appended to the sink's log |
| `JsonResponder.ResponseSink.Write` | json_responder.go:73 | exactly one body event is appended to the sink's log |
| `JsonResponder.JSONResponder.constructor` | json_responder.go:37-41 | a new responder holds the default formatter |
| `JsonResponder.JSONResponder.DecodeJSONWithMode` | json_responder.go:51-61 | returns true exactly when the decoder succeeds; on success the sink is untouched; on failure it receives one 400 response whose body is the responder's formatter applied to (Error, 400, "failed to parse request JSON", parse error) |
| `JsonResponder.JSONResponder.DecodeJSON` | json_responder.go:43-45 | the same with unknown fields allowed |
| `JsonResponder.JSONResponder.DecodeJSONStrict` | json_responder.go:47-49 | the same with unknown fields refused |
| `JsonResponder.JSONResponder.Send` | json_responder.go:63-68 | the sink receives exactly three steps in order: Content-Type `application/json`, the given status, the value as the body |
| `JsonResponder.JSONResponder.SendString` | json_responder.go:70-74 | the same three steps, with the given text as the body |
| `JsonResponder.JSONResponder.SendEmptyObject` | json_responder.go:76-78 | the same three steps, with the literal body `{}` at the given status |
| `JsonResponder.JSONResponder.SendNotFound` | json_responder.go:80-82 | one response at 404 whose body is the formatter applied to (MessageOnly, 404, "not found", nil) |
| `JsonResponder.JSONResponder.SendUnauthorized` | json_responder.go:84-86 | one response at 401 whose body is the formatter applied to (MessageOnly, 401, "unauthorized", nil) |
| `JsonResponder.JSONResponder.SendForbidden` | json_responder.go:88-90 | one response at 403 whose body is the formatter applied to (MessageOnly, 403, "forbidden", nil) |
| `JsonResponder.JSONResponder.SendBadRequestMessage` | json_responder.go:92-94 | one response at 400 whose body is the formatter applied to (MessageOnly, 400, message, nil) |
| `JsonResponder.JSONResponder.SendError` | json_responder.go:96-98 | one response at the caller's status whose body is the formatter applied to (Error, that same status, description, cause) |
| `JsonResponder.JSONResponder.SendInternalError` | json_responder.go:100-102 | one response at 500 whose body is the formatter applied to (Internal, 500, description, cause) |
| `JsonResponder.JSONResponder.SendErrorMessage` | json_responder.go:104-106 | one response at the given status whose body is the formatter applied to (MessageOnly, status, message, nil) |
| `JsonResponder.FormatterIsPerInstance` | json_responder.go:33-41 | a formatter installed on one responder makes that responder's error body the custom formatter's result, while a second new responder still answers `{"error": "bad thing (<cause>)"}` at the same status |
| `JsonResponder.DefaultConveniences` | json_responder.go:80-90 | with the default formatter, not found, unauthorized and forbidden answer 404, 401 and 403, each with `{"error": <fixed message>}` |
| `JsonResponder.DefaultParseFailure` | json_responder.go:51-61 | with the default formatter, a refused body is answered with 400 and `{"error": "failed to parse request JSON (<parse error>)"}`; an accepted one leaves the sink empty |

## Left out

- Reading the header from an `http.Request` is not modelled: no header-name canonicalisation, no multiple values. The header value is a parameter.
- Strings are code points, not UTF-8 bytes. Invalid UTF-8, which Go's trimming leaves in place, is not modelled.
- JSON serialisation is not modelled. That covers the text the encoder writes and the newline `json.Encoder` adds after it. Bodies stay abstract values.
- JSON decoding is not modelled. The decoder is a function parameter. Reading the `io.Reader`, filling the target value, and the unknown-field check behind the strict flag are the decoder's business.
- `JsonResponder.JSONResponder.Send`: does not return the encoder's error, because the encoder is abstract and cannot fail here.
- `JsonResponder.Value`: numbers are integers only, because floating point is out of scope.
- The byte count and error that `ResponseWriter.Write` returns are not modelled. `SendString` ignores them; `Send` would pass the write error on through the encoder's error, which is left out above.
- What a real `ResponseWriter` does when written twice is not modelled.
- Go's `fmt` rendering of an error is taken to be its message text.
- A nil `FormatError` is not modelled. In Go, a zero-value `JSONResponder{}` or an assignment of nil makes every error sender and the decode failure path panic when they call it. Here the formatter is a total function and is always present.
- Concurrent use of one responder, and changing its formatter while it is in use, are not modelled.
