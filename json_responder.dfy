/** A JSON responder: decodes request bodies through a JSON decoder, and
    answers through a response sink with a Content-Type header, a status and
    a JSON body, building every error body with a replaceable formatter.
    The JSON text itself is not modelled: bodies are JSON values, and the
    decoder is a function supplied by the caller. */
module JsonResponder {

  // The error kinds handed to a formatter.
  const ErrorTypeError: int := 0
  const ErrorTypeMessageOnly: int := 1
  const ErrorTypeInternal: int := 2

  // The HTTP statuses the conveniences use.
  const StatusBadRequest: int := 400
  const StatusUnauthorized: int := 401
  const StatusForbidden: int := 403
  const StatusNotFound: int := 404
  const StatusInternalServerError: int := 500

  const ContentTypeHeader: string := "Content-Type"
  const JsonMediaType: string := "application/json"
  const UnknownErrorMessage: string := "an unknown error occurred"
  const ParseFailureDescription: string := "failed to parse request JSON"
  const EmptyObjectText: string := "{}"

  /** A JSON value, the model of a body handed to the encoder. */
  datatype Value =
    | Null
    | Bool(b: bool)
    | Number(n: int)
    | Str(s: string)
    | Array(items: seq<Value>)
    | Object(fields: map<string, Value>)

  /** The underlying error given to a formatter: none (Go's nil) or an error
      with its message text. */
  datatype Cause = Nil | Error(text: string)

  /** What fmt's "%s" writes for a nil error value. */
  const NilErrorText: string := "%!s(<nil>)"

  /** How "%s" renders a cause: an error as its message text, unchanged, and
      nil as fmt's marker for a missing operand. */
  function CauseText(c: Cause): (text: string)
    ensures c.Error? ==> text == c.text
    ensures c.Nil? ==> text == NilErrorText
  {
    match c
    case Nil => NilErrorText
    case Error(text) => text
  }

  /** The shape of a formatter: (kind, status, description, cause) -> body. */
  type ErrorFormatter = (int, int, string, Cause) -> Value

  /** {"error": message}: the one-entry object the default formatter builds. */
  function MessageBody(message: string): Value {
    Object(map["error" := Str(message)])
  }

  /** The formatter a new responder starts with: a one-entry object whose
      "error" member is the description followed by the cause in parentheses
      for the kinds Error and Internal, the description alone for
      MessageOnly, and a fixed text for any other kind. The status plays no
      part. */
  function DefaultErrorFormatter(kind: int, status: int, description: string, cause: Cause): (v: Value)
    ensures v.Object? && v.fields.Keys == {"error"}
    ensures kind == ErrorTypeError || kind == ErrorTypeInternal ==>
      v == MessageBody(description + " (" + CauseText(cause) + ")")
    ensures kind == ErrorTypeMessageOnly ==> v == MessageBody(description)
    ensures !(ErrorTypeError <= kind <= ErrorTypeInternal) ==> v == MessageBody(UnknownErrorMessage)
  {
    var message :=
      if kind == ErrorTypeError then description + " (" + CauseText(cause) + ")"
      else if kind == ErrorTypeMessageOnly then description
      else if kind == ErrorTypeInternal then description + " (" + CauseText(cause) + ")"
      else UnknownErrorMessage;
    MessageBody(message)
  }

  /** The default formatter's body does not depend on the status. */
  lemma DefaultFormatterIgnoresStatus(kind: int, s1: int, s2: int, description: string, cause: Cause)
    ensures DefaultErrorFormatter(kind, s1, description, cause) == DefaultErrorFormatter(kind, s2, description, cause)
  {
  }

  /** MessageOnly and the unknown kinds never show the cause. */
  lemma DefaultFormatterIgnoresCause(kind: int, status: int, description: string, c1: Cause, c2: Cause)
    requires kind != ErrorTypeError && kind != ErrorTypeInternal
    ensures DefaultErrorFormatter(kind, status, description, c1) == DefaultErrorFormatter(kind, status, description, c2)
  {
  }

  // ---------------------------------------------------------------- the sink

  /** What a response body is made of: a value the JSON encoder writes, or
      text written as it is. */
  datatype Body = Encoded(value: Value) | Raw(text: string)

  /** The steps a response sink sees. */
  datatype Event =
    | HeaderSet(name: string, value: string)
    | StatusWritten(status: int)
    | BodyWritten(body: Body)

  /** A response sink that records, in order, every step done to it. */
  class ResponseSink {
    var log: seq<Event>

    constructor ()
      ensures log == []
    {
      log := [];
    }

    /** Header().Set(name, value). */
    method SetHeader(name: string, value: string)
      modifies this
      ensures log == old(log) + [HeaderSet(name, value)]
    {
      log := log + [HeaderSet(name, value)];
    }

    /** WriteHeader(status). */
    method WriteHeader(status: int)
      modifies this
      ensures log == old(log) + [StatusWritten(status)]
    {
      log := log + [StatusWritten(status)];
    }

    /** Write(body). */
    method Write(body: Body)
      modifies this
      ensures log == old(log) + [BodyWritten(body)]
    {
      log := log + [BodyWritten(body)];
    }
  }

  /** The steps of one JSON response, in the order they are done: the
      content type, then the status, then the body. */
  function Response(status: int, body: Body): seq<Event> {
    [HeaderSet(ContentTypeHeader, JsonMediaType), StatusWritten(status), BodyWritten(body)]
  }

  /** The errors sent on behalf of the caller, as one response each. */
  function ErrorResponse(format: ErrorFormatter, kind: int, status: int, description: string, cause: Cause): seq<Event> {
    Response(status, Encoded(format(kind, status, description, cause)))
  }

  // ---------------------------------------------------------------- decoding

  /** What the JSON decoder makes of a request body. */
  datatype DecodeResult = Decoded(value: Value) | Malformed(message: string)

  /** A JSON decoder: the request body and whether unknown fields are
      refused, to a decoded value or an error. */
  type Decoder = (string, bool) -> DecodeResult

  // ---------------------------------------------------------------- the responder

  /** A responder holds its error formatter; every error it sends is built by
      the formatter it holds at the time. Its methods never change it. */
  class JSONResponder {
    var FormatError: ErrorFormatter

    /** NewJSONResponder: a responder with the default formatter. */
    constructor ()
      ensures FormatError == DefaultErrorFormatter
    {
      FormatError := DefaultErrorFormatter;
    }

    /** decodeJSON: on failure a 400 whose body the formatter builds from the
        parse error is sent and false returned; on success true is returned
        and the sink is untouched. */
    method DecodeJSONWithMode(w: ResponseSink, body: string, decoder: Decoder, strict: bool) returns (ok: bool)
      modifies w
      ensures ok <==> decoder(body, strict).Decoded?
      ensures ok ==> w.log == old(w.log)
      ensures !ok ==> w.log == old(w.log) + ErrorResponse(FormatError, ErrorTypeError, StatusBadRequest,
                                                         ParseFailureDescription, Error(decoder(body, strict).message))
    {
      var result := decoder(body, strict);
      if result.Malformed? {
        SendError(w, StatusBadRequest, ParseFailureDescription, Error(result.message));
        return false;
      }
      return true;
    }

    /** DecodeJSON: unknown fields are allowed. */
    method DecodeJSON(w: ResponseSink, body: string, decoder: Decoder) returns (ok: bool)
      modifies w
      ensures ok <==> decoder(body, false).Decoded?
      ensures ok ==> w.log == old(w.log)
      ensures !ok ==> w.log == old(w.log) + ErrorResponse(FormatError, ErrorTypeError, StatusBadRequest,
                                                         ParseFailureDescription, Error(decoder(body, false).message))
    {
      ok := DecodeJSONWithMode(w, body, decoder, false);
    }

    /** DecodeJSONStrict: unknown fields are refused. */
    method DecodeJSONStrict(w: ResponseSink, body: string, decoder: Decoder) returns (ok: bool)
      modifies w
      ensures ok <==> decoder(body, true).Decoded?
      ensures ok ==> w.log == old(w.log)
      ensures !ok ==> w.log == old(w.log) + ErrorResponse(FormatError, ErrorTypeError, StatusBadRequest,
                                                         ParseFailureDescription, Error(decoder(body, true).message))
    {
      ok := DecodeJSONWithMode(w, body, decoder, true);
    }

    // -------------------------------------------------------------- sending

    /** Send: content type, status, then the value as the JSON body. */
    method Send(w: ResponseSink, status: int, obj: Value)
      modifies w
      ensures w.log == old(w.log) + Response(status, Encoded(obj))
    {
      w.SetHeader(ContentTypeHeader, JsonMediaType);
      w.WriteHeader(status);
      w.Write(Encoded(obj));
    }

    /** SendString: content type, status, then the text as it is. */
    method SendString(w: ResponseSink, status: int, json: string)
      modifies w
      ensures w.log == old(w.log) + Response(status, Raw(json))
    {
      w.SetHeader(ContentTypeHeader, JsonMediaType);
      w.WriteHeader(status);
      w.Write(Raw(json));
    }

    /** SendEmptyObject: the literal text "{}" at the given status. */
    method SendEmptyObject(w: ResponseSink, status: int)
      modifies w
      ensures w.log == old(w.log) + Response(status, Raw(EmptyObjectText))
    {
      SendString(w, status, EmptyObjectText);
    }

    /** SendNotFound: 404, message "not found". */
    method SendNotFound(w: ResponseSink)
      modifies w
      ensures w.log == old(w.log) + ErrorResponse(FormatError, ErrorTypeMessageOnly, StatusNotFound, "not found", Nil)
    {
      SendErrorMessage(w, StatusNotFound, "not found");
    }

    /** SendUnauthorized: 401, message "unauthorized". */
    method SendUnauthorized(w: ResponseSink)
      modifies w
      ensures w.log == old(w.log) + ErrorResponse(FormatError, ErrorTypeMessageOnly, StatusUnauthorized, "unauthorized", Nil)
    {
      SendErrorMessage(w, StatusUnauthorized, "unauthorized");
    }

    /** SendForbidden: 403, message "forbidden". */
    method SendForbidden(w: ResponseSink)
      modifies w
      ensures w.log == old(w.log) + ErrorResponse(FormatError, ErrorTypeMessageOnly, StatusForbidden, "forbidden", Nil)
    {
      SendErrorMessage(w, StatusForbidden, "forbidden");
    }

    /** SendBadRequestMessage: 400 with the caller's message. */
    method SendBadRequestMessage(w: ResponseSink, message: string)
      modifies w
      ensures w.log == old(w.log) + ErrorResponse(FormatError, ErrorTypeMessageOnly, StatusBadRequest, message, Nil)
    {
      SendErrorMessage(w, StatusBadRequest, message);
    }

    /** SendError: kind Error; the caller's status is both the response
        status and the formatter's argument. */
    method SendError(w: ResponseSink, status: int, description: string, cause: Cause)
      modifies w
      ensures w.log == old(w.log) + ErrorResponse(FormatError, ErrorTypeError, status, description, cause)
    {
      Send(w, status, FormatError(ErrorTypeError, status, description, cause));
    }

    /** SendInternalError: kind Internal, always 500. */
    method SendInternalError(w: ResponseSink, description: string, cause: Cause)
      modifies w
      ensures w.log == old(w.log) + ErrorResponse(FormatError, ErrorTypeInternal, StatusInternalServerError, description, cause)
    {
      Send(w, StatusInternalServerError, FormatError(ErrorTypeInternal, StatusInternalServerError, description, cause));
    }

    /** SendErrorMessage: kind MessageOnly with no cause. */
    method SendErrorMessage(w: ResponseSink, status: int, message: string)
      modifies w
      ensures w.log == old(w.log) + ErrorResponse(FormatError, ErrorTypeMessageOnly, status, message, Nil)
    {
      Send(w, status, FormatError(ErrorTypeMessageOnly, status, message, Nil));
    }
  }

  // ---------------------------------------------------------------- clients

  /** A formatter installed on one responder shapes that responder's error
      bodies and no other's: next to it, a new responder still answers with
      the default body, "description (cause)" at the caller's status. */
  method FormatterIsPerInstance(custom: ErrorFormatter, cause: Cause) returns (replaced: seq<Event>, untouched: seq<Event>)
    ensures replaced == Response(422, Encoded(custom(ErrorTypeError, 422, "bad thing", cause)))
    ensures untouched == Response(422, Encoded(MessageBody("bad thing (" + CauseText(cause) + ")")))
  {
    var r1 := new JSONResponder();
    var r2 := new JSONResponder();
    r1.FormatError := custom;
    var w1 := new ResponseSink();
    var w2 := new ResponseSink();
    r1.SendError(w1, 422, "bad thing", cause);
    r2.SendError(w2, 422, "bad thing", cause);
    replaced, untouched := w1.log, w2.log;
    assert r2.FormatError(ErrorTypeError, 422, "bad thing", cause) == DefaultErrorFormatter(ErrorTypeError, 422, "bad thing", cause);
    assert "bad thing" + " (" == "bad thing (";
  }

  /** With the default formatter the fixed conveniences answer with their
      documented status and an {"error": message} body. */
  method DefaultConveniences() returns (notFound: seq<Event>, unauthorized: seq<Event>, forbidden: seq<Event>)
    ensures notFound == Response(404, Encoded(MessageBody("not found")))
    ensures unauthorized == Response(401, Encoded(MessageBody("unauthorized")))
    ensures forbidden == Response(403, Encoded(MessageBody("forbidden")))
  {
    var r := new JSONResponder();
    var w1 := new ResponseSink();
    r.SendNotFound(w1);
    assert r.FormatError(ErrorTypeMessageOnly, 404, "not found", Nil) == MessageBody("not found");
    var w2 := new ResponseSink();
    r.SendUnauthorized(w2);
    assert r.FormatError(ErrorTypeMessageOnly, 401, "unauthorized", Nil) == MessageBody("unauthorized");
    var w3 := new ResponseSink();
    r.SendForbidden(w3);
    assert r.FormatError(ErrorTypeMessageOnly, 403, "forbidden", Nil) == MessageBody("forbidden");
    notFound, unauthorized, forbidden := w1.log, w2.log, w3.log;
  }

  /** With the default formatter a body the decoder refuses is answered with
      400 and "failed to parse request JSON (<parse error>)". */
  method DefaultParseFailure(body: string, decoder: Decoder) returns (ok: bool, answer: seq<Event>)
    ensures ok <==> decoder(body, false).Decoded?
    ensures ok ==> answer == []
    ensures !ok ==> answer == Response(400, Encoded(MessageBody(
      ParseFailureDescription + " (" + decoder(body, false).message + ")")))
  {
    var r := new JSONResponder();
    var w := new ResponseSink();
    ok := r.DecodeJSON(w, body, decoder);
    if !ok {
      var cause := Error(decoder(body, false).message);
      assert r.FormatError(ErrorTypeError, 400, ParseFailureDescription, cause)
          == DefaultErrorFormatter(ErrorTypeError, 400, ParseFailureDescription, cause);
    }
    answer := w.log;
  }
}
