/** Extraction of a bearer credential from the value of an HTTP Authorization
    header. The header value arrives as a string; an absent header arrives
    as the empty string, as net/http's Header.Get returns it. */
module Bearer {
  import opened Strings
  import Base64

  /** The two errors of the extractor: ErrNoAuthHeader ("no auth header")
      and ErrBearerFormatError ("bearer format error"). */
  datatype AuthError = NoAuthHeader | BearerFormatError

  datatype Result<T> = Ok(value: T) | Err(error: AuthError)

  /** The scheme prefix: "Bearer" and exactly one ASCII space, case-sensitive. */
  const BearerPrefix: string := "Bearer "

  /** strings.HasPrefix: `s` is at least as long as `prefix` and agrees
      with it character by character. */
  function HasPrefix(s: string, prefix: string): (b: bool)
    ensures b <==> |prefix| <= |s| && forall i :: 0 <= i < |prefix| ==> s[i] == prefix[i]
  {
    |prefix| <= |s| && s[..|prefix|] == prefix
  }

  /** ExtractBearerToken. An empty value is a missing header; a value without
      the exact prefix is malformed; otherwise the token is what follows the
      prefix, with the whitespace around it removed. */
  function ExtractBearerToken(auth: string): (r: Result<string>)
    ensures r == Err(NoAuthHeader) <==> auth == []
    ensures r == Err(BearerFormatError) <==> auth != [] && !HasPrefix(auth, BearerPrefix)
    ensures r.Ok? <==> HasPrefix(auth, BearerPrefix)
    ensures r.Ok? ==> IsTrimmedFrom(auth[|BearerPrefix|..], r.value)
  {
    if |auth| == 0 then Err(NoAuthHeader)
    else if !HasPrefix(auth, BearerPrefix) then Err(BearerFormatError)
    else Ok(TrimSpace(auth[|BearerPrefix|..]))
  }

  /** ExtractBearerTokenBase64: the token, decoded as standard base64. An
      extraction error is passed on as it is; a token that does not decode
      is a BearerFormatError, never the decoder's own error. */
  function ExtractBearerTokenBase64(auth: string): (r: Result<seq<Base64.byte>>)
    ensures ExtractBearerToken(auth).Err? ==> r == Err(ExtractBearerToken(auth).error)
    ensures ExtractBearerToken(auth).Ok? ==>
      var token := ExtractBearerToken(auth).value;
      && (r.Ok? <==> Base64.IsPaddedBase64(Base64.StripNewlines(token)))
      && (r.Err? ==> r.error == BearerFormatError)
  {
    match ExtractBearerToken(auth)
    case Err(e) => Err(e)
    case Ok(token) =>
      match Base64.Decode(token)
      case None => Err(BearerFormatError)
      case Some(bytes) => Ok(bytes)
  }

  /** The token is exactly the part between the prefix and the surrounding
      whitespace, whatever that whitespace is; inner characters are kept. */
  lemma ExtractPaddedToken(w1: string, token: string, w2: string)
    requires AllSpace(w1) && AllSpace(w2)
    requires NoSurroundingSpace(token)
    ensures ExtractBearerToken(BearerPrefix + w1 + token + w2) == Ok(token)
  {
    var auth := BearerPrefix + w1 + token + w2;
    assert auth[..|BearerPrefix|] == BearerPrefix;
    assert auth[|BearerPrefix|..] == w1 + token + w2;
    TrimSpaceOfPadded(w1, token, w2);
  }

  /** Base64 text has no whitespace at its ends. */
  lemma PaddedHasNoSurroundingSpace(s: string)
    requires Base64.IsPaddedBase64(s)
    ensures NoSurroundingSpace(s)
  {
    if s != [] {
      Base64.PaddedSymbols(s);
      var first, last := s[0], s[|s| - 1];
      assert Base64.IsAlphabetChar(first) || first == Base64.Pad;
      assert Base64.IsAlphabetChar(last) || last == Base64.Pad;
    }
  }

  /** Round trip through the binary variant: a token that is the standard
      base64 encoding of some bytes, with any whitespace around it, gives
      back exactly those bytes. */
  lemma Base64TokenRoundTrip(bytes: seq<Base64.byte>, w1: string, w2: string)
    requires AllSpace(w1) && AllSpace(w2)
    ensures ExtractBearerTokenBase64(BearerPrefix + w1 + Base64.Encode(bytes) + w2) == Ok(bytes)
  {
    var enc := Base64.Encode(bytes);
    PaddedHasNoSurroundingSpace(enc);
    ExtractPaddedToken(w1, enc, w2);
    Base64.EncodeDecodeRoundTrip(bytes);
  }

  /** The case of bearer_test.go: surrounding spaces are dropped. */
  lemma ExampleSpacesTrimmed()
    ensures ExtractBearerToken("Bearer   asd123  ") == Ok("asd123")
  {
    var w, token := "  ", "asd123";
    assert AllSpace(w) by { assert w[0] == w[1] == ' '; }
    assert NoSurroundingSpace(token) by { assert token[0] == 'a' && token[5] == '3'; }
    assert BearerPrefix + w + token + w == "Bearer   asd123  ";
    ExtractPaddedToken(w, token, w);
  }

  /** The prefix followed by whitespace only is a success with the empty
      token, not an error; the binary variant then gives no bytes. */
  lemma ExampleEmptyToken()
    ensures ExtractBearerToken("Bearer    ") == Ok("")
    ensures ExtractBearerTokenBase64("Bearer    ") == Ok([])
  {
    ExtractPaddedToken("   ", "", "");
    assert BearerPrefix + "   " + "" + "" == "Bearer    ";
  }

  /** Other schemes, the wrong case and a missing space are all malformed. */
  lemma ExampleRejected()
    ensures ExtractBearerToken("bearer x") == Err(BearerFormatError)
    ensures ExtractBearerToken("Basic x") == Err(BearerFormatError)
    ensures ExtractBearerToken("Bearer") == Err(BearerFormatError)
    ensures ExtractBearerToken("") == Err(NoAuthHeader)
    ensures ExtractBearerTokenBase64("") == Err(NoAuthHeader)
  {
    assert "bearer x"[0] != BearerPrefix[0];
    assert "Basic x"[1] != BearerPrefix[1];
  }

  /** Whatever whitespace surrounds it, a token the standard decoder refuses
      makes the binary variant fail with BearerFormatError. */
  lemma UndecodableToken(w1: string, token: string, w2: string)
    requires AllSpace(w1) && AllSpace(w2)
    requires NoSurroundingSpace(token)
    requires Base64.Decode(token).None?
    ensures ExtractBearerTokenBase64(BearerPrefix + w1 + token + w2) == Err(BearerFormatError)
  {
    ExtractPaddedToken(w1, token, w2);
  }

  /** A token outside the alphabet is a format error in the binary variant. */
  lemma ExampleUndecodable()
    ensures ExtractBearerTokenBase64("Bearer x!==") == Err(BearerFormatError)
  {
    var token := "x!==";
    assert BearerPrefix + "" + token + "" == BearerPrefix + token == "Bearer x!==";
    assert NoSurroundingSpace(token) by { assert token[0] == 'x' && token[3] == '='; }
    Base64.RejectsForeignChar(token, 1);
    UndecodableToken("", token, "");
  }
}
