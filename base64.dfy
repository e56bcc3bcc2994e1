/** Standard base64 (RFC 4648 section 4: the alphabet A-Z a-z 0-9 + /, padded
    with '=') as Go's base64.StdEncoding implements it: an encoder, and the
    decoder of DecodeString in its default, non-strict mode. */
module Base64 {

  newtype byte = b: int | 0 <= b < 256

  datatype Option<T> = None | Some(value: T)

  const Pad: char := '='

  /** The 64 characters of the standard alphabet (RFC 4648, Table 1). */
  predicate IsAlphabetChar(c: char) {
    || 'A' <= c <= 'Z' || 'a' <= c <= 'z' || '0' <= c <= '9' || c == '+' || c == '/'
  }

  /** The alphabet character for a 6-bit value. */
  function SextetChar(v: int): (c: char)
    requires 0 <= v < 64
    ensures IsAlphabetChar(c)
  {
    if v < 26 then ('A' as int + v) as char
    else if v < 52 then ('a' as int + (v - 26)) as char
    else if v < 62 then ('0' as int + (v - 52)) as char
    else if v == 62 then '+'
    else '/'
  }

  /** The 6-bit value of an alphabet character; the inverse of SextetChar. */
  function CharSextet(c: char): (v: int)
    requires IsAlphabetChar(c)
    ensures 0 <= v < 64 && SextetChar(v) == c
  {
    if 'A' <= c <= 'Z' then c as int - 'A' as int
    else if 'a' <= c <= 'z' then c as int - 'a' as int + 26
    else if '0' <= c <= '9' then c as int - '0' as int + 52
    else if c == '+' then 62
    else 63
  }

  lemma SextetRoundTrip(v: int)
    requires 0 <= v < 64
    ensures CharSextet(SextetChar(v)) == v
  {
  }

  // ---------------------------------------------------------------- encoding

  /** Three bytes as four alphabet characters, six bits each, most
      significant first. */
  function EncodeQuantum(b0: byte, b1: byte, b2: byte): (q: string)
    ensures |q| == 4 && IsAlphabetChar(q[0]) && IsAlphabetChar(q[1]) && IsAlphabetChar(q[2]) && IsAlphabetChar(q[3])
  {
    [ SextetChar(b0 as int / 4),
      SextetChar((b0 as int % 4) * 16 + b1 as int / 16),
      SextetChar((b1 as int % 16) * 4 + b2 as int / 64),
      SextetChar(b2 as int % 64) ]
  }

  /** The last one or two bytes, zero-filled to whole characters and padded
      with '=' to four characters: a valid last group. */
  function EncodeFinal(b: seq<byte>): (q: string)
    requires 1 <= |b| <= 2
    ensures |q| == 4 && IsFinalQuantum(q)
    ensures PadCount(q) == 3 - |b|
  {
    if |b| == 1 then
      [SextetChar(b[0] as int / 4), SextetChar((b[0] as int % 4) * 16), Pad, Pad]
    else
      [ SextetChar(b[0] as int / 4),
        SextetChar((b[0] as int % 4) * 16 + b[1] as int / 16),
        SextetChar((b[1] as int % 16) * 4),
        Pad ]
  }

  /** StdEncoding.EncodeToString. Its output is always accepted by the
      decoder, and it is four characters for every three bytes or part of
      three bytes. */
  function Encode(b: seq<byte>): (s: string)
    ensures |s| == 4 * ((|b| + 2) / 3)
    ensures IsPaddedBase64(s)
    decreases |b|
  {
    if |b| == 0 then []
    else if |b| <= 2 then
      var q := EncodeFinal(b);
      assert q[|q| - 4..] == q;
      q
    else
      var q := EncodeQuantum(b[0], b[1], b[2]);
      var rest := Encode(b[3..]);
      PrependQuantum(q, rest);
      EncodedLengthStep(|b|);
      q + rest
  }

  /** Three more bytes make four more characters. */
  lemma EncodedLengthStep(n: int)
    requires n >= 3
    ensures 4 * ((n + 2) / 3) == 4 + 4 * ((n - 3 + 2) / 3)
  {
  }

  /** Four alphabet characters in front of an accepted string give an
      accepted string. */
  lemma PrependQuantum(q: string, rest: string)
    requires |q| == 4 && IsAlphabetChar(q[0]) && IsAlphabetChar(q[1]) && IsAlphabetChar(q[2]) && IsAlphabetChar(q[3])
    requires IsPaddedBase64(rest)
    ensures IsPaddedBase64(q + rest)
  {
    var s := q + rest;
    if rest == [] {
      assert s == q;
      assert s[|s| - 4..] == q;
    } else {
      assert s[|s| - 4..] == rest[|rest| - 4..];
      forall i | 0 <= i < |s| - 4 ensures IsAlphabetChar(s[i]) {
        if i >= 4 { assert s[i] == rest[i - 4]; }
      }
    }
  }

  // ---------------------------------------------------------------- decoding

  /** A last group of four: two alphabet characters and "==", three and "=",
      or four alphabet characters. */
  predicate IsFinalQuantum(q: string)
    requires |q| == 4
  {
    && IsAlphabetChar(q[0]) && IsAlphabetChar(q[1])
    && ((IsAlphabetChar(q[2]) && (IsAlphabetChar(q[3]) || q[3] == Pad)) || (q[2] == Pad && q[3] == Pad))
  }

  /** The strings the padded decoder accepts once line breaks are removed:
      whole groups of four, alphabet characters only except for the padding
      of the last group. */
  predicate IsPaddedBase64(s: string) {
    && |s| % 4 == 0
    && (forall i :: 0 <= i < |s| - 4 ==> IsAlphabetChar(s[i]))
    && (|s| > 0 ==> IsFinalQuantum(s[|s| - 4..]))
  }

  /** How many '=' end the string (at most two count). */
  function PadCount(s: string): (n: nat)
    ensures n <= 2 && n <= |s|
  {
    if |s| >= 2 && s[|s| - 1] == Pad && s[|s| - 2] == Pad then 2
    else if |s| >= 1 && s[|s| - 1] == Pad then 1
    else 0
  }

  /** Four alphabet characters as three bytes. */
  function DecodeQuantum(q: string): (b: seq<byte>)
    requires |q| == 4 && IsAlphabetChar(q[0]) && IsAlphabetChar(q[1]) && IsAlphabetChar(q[2]) && IsAlphabetChar(q[3])
    ensures |b| == 3
  {
    var a, b, c, d := CharSextet(q[0]), CharSextet(q[1]), CharSextet(q[2]), CharSextet(q[3]);
    [(a * 4 + b / 16) as byte, ((b % 16) * 16 + c / 4) as byte, ((c % 4) * 64 + d) as byte]
  }

  /** A padded last group as one ("xx==") or two ("xxx=") bytes. The bits
      of the last character that fall beyond the last byte are ignored, as
      Go's decoder does when it is not in strict mode. */
  function DecodePadded(q: string): (b: seq<byte>)
    requires |q| == 4 && IsAlphabetChar(q[0]) && IsAlphabetChar(q[1])
    requires (IsAlphabetChar(q[2]) && q[3] == Pad) || (q[2] == Pad && q[3] == Pad)
    ensures |b| == 3 - PadCount(q)
  {
    var a, b := CharSextet(q[0]), CharSextet(q[1]);
    if q[2] == Pad then [(a * 4 + b / 16) as byte]
    else
      var c := CharSextet(q[2]);
      [(a * 4 + b / 16) as byte, ((b % 16) * 16 + c / 4) as byte]
  }

  /** Decodes groups of four from the left. Fails on an incomplete group (the
      encoding is padded), on a character outside the alphabet, on wrong
      padding and on anything after the padding. */
  function DecodeQuanta(s: string): (r: Option<seq<byte>>)
    ensures r.Some? <==> IsPaddedBase64(s)
    decreases |s|
  {
    if |s| == 0 then Some([])
    else if |s| < 4 then None
    else if IsAlphabetChar(s[0]) && IsAlphabetChar(s[1]) && IsAlphabetChar(s[2]) && IsAlphabetChar(s[3]) then
      PaddedAfterQuantum(s);
      var rest := DecodeQuanta(s[4..]);
      if rest.None? then None else Some(DecodeQuantum(s[..4]) + rest.value)
    else if |s| == 4 && IsFinalQuantum(s) then
      assert s[|s| - 4..] == s;
      Some(DecodePadded(s))
    else
      NotPaddedOtherwise(s);
      None
  }

  /** A string opening with four alphabet characters is accepted exactly
      when what follows them is. */
  lemma PaddedAfterQuantum(s: string)
    requires |s| >= 4 && IsAlphabetChar(s[0]) && IsAlphabetChar(s[1]) && IsAlphabetChar(s[2]) && IsAlphabetChar(s[3])
    ensures IsPaddedBase64(s) <==> IsPaddedBase64(s[4..])
  {
    if IsPaddedBase64(s[4..]) {
      PrependQuantum(s[..4], s[4..]);
      assert s[..4] + s[4..] == s;
    }
    if IsPaddedBase64(s) {
      PaddedTail(s);
    }
  }

  /** What follows the first group of accepted text is accepted. */
  lemma PaddedTail(s: string)
    requires |s| >= 4 && IsPaddedBase64(s)
    ensures IsPaddedBase64(s[4..])
  {
    var t := s[4..];
    if |t| > 0 {
      assert t[|t| - 4..] == s[|s| - 4..];
      forall i | 0 <= i < |t| - 4 ensures IsAlphabetChar(t[i]) {
        assert t[i] == s[i + 4];
      }
    }
  }

  /** A string that neither opens with four alphabet characters nor is a
      lone last group is refused. */
  lemma NotPaddedOtherwise(s: string)
    requires |s| >= 4
    requires !(IsAlphabetChar(s[0]) && IsAlphabetChar(s[1]) && IsAlphabetChar(s[2]) && IsAlphabetChar(s[3]))
    requires !(|s| == 4 && IsFinalQuantum(s))
    ensures !IsPaddedBase64(s)
  {
    if |s| == 4 {
      assert s[|s| - 4..] == s;
    }
  }

  /** Accepted text holds alphabet and padding characters only. */
  lemma PaddedSymbols(s: string)
    requires IsPaddedBase64(s)
    ensures forall i :: 0 <= i < |s| ==> IsAlphabetChar(s[i]) || s[i] == Pad
  {
    forall i | 0 <= i && |s| - 4 <= i < |s| ensures IsAlphabetChar(s[i]) || s[i] == Pad {
      assert s[i] == s[|s| - 4..][i - (|s| - 4)];
    }
  }

  /** Whether a character is one of the line breaks the decoder skips. */
  predicate IsNewline(c: char) {
    c == '\r' || c == '\n'
  }

  /** The string with every '\r' and '\n' removed: StdEncoding's decoder
      ignores them wherever they occur. */
  function StripNewlines(s: string): (r: string)
    ensures |r| <= |s|
    ensures forall i :: 0 <= i < |r| ==> !IsNewline(r[i])
  {
    if s == [] then []
    else if IsNewline(s[0]) then StripNewlines(s[1..])
    else [s[0]] + StripNewlines(s[1..])
  }

  /** StdEncoding.DecodeString, with its error collapsed to None. */
  function Decode(s: string): (r: Option<seq<byte>>)
    ensures r.Some? <==> IsPaddedBase64(StripNewlines(s))
  {
    DecodeQuanta(StripNewlines(s))
  }

  // ---------------------------------------------------------------- round trip

  /** A string without line breaks is left alone by StripNewlines. */
  lemma {:induction false} StripNewlinesNoop(s: string)
    requires forall i :: 0 <= i < |s| ==> !IsNewline(s[i])
    ensures StripNewlines(s) == s
  {
    if s != [] {
      StripNewlinesNoop(s[1..]);
      assert [s[0]] + s[1..] == s;
    }
  }

  /** Removing line breaks from two pieces one after the other is removing
      them from the whole: with StripNewlinesOne, every other character is
      kept, in order. */
  lemma {:induction false} StripNewlinesAppend(a: string, b: string)
    ensures StripNewlines(a + b) == StripNewlines(a) + StripNewlines(b)
  {
    if a == [] {
      assert a + b == b;
    } else {
      assert (a + b)[1..] == a[1..] + b;
      StripNewlinesAppend(a[1..], b);
    }
  }

  /** A single character is dropped exactly when it is a line break. */
  lemma StripNewlinesOne(c: char)
    ensures StripNewlines([c]) == if IsNewline(c) then [] else [c]
  {
    assert [c][1..] == [];
  }

  lemma QuantumRoundTrip(b0: byte, b1: byte, b2: byte)
    ensures DecodeQuantum(EncodeQuantum(b0, b1, b2)) == [b0, b1, b2]
  {
    var x, y, z := b0 as int, b1 as int, b2 as int;
    var a, b, c, d := x / 4, (x % 4) * 16 + y / 16, (y % 16) * 4 + z / 64, z % 64;
    var q := EncodeQuantum(b0, b1, b2);
    assert q == [SextetChar(a), SextetChar(b), SextetChar(c), SextetChar(d)];
    SextetRoundTrip(a);
    SextetRoundTrip(b);
    SextetRoundTrip(c);
    SextetRoundTrip(d);
    BytesOfSextets(x, y, z);
    var r := DecodeQuantum(q);
    assert r[0] as int == a * 4 + b / 16 == x;
    assert r[1] as int == (b % 16) * 16 + c / 4 == y;
    assert r[2] as int == (c % 4) * 64 + d == z;
  }

  /** Splitting three bytes into sextets and joining them again. */
  lemma BytesOfSextets(x: int, y: int, z: int)
    requires 0 <= x < 256 && 0 <= y < 256 && 0 <= z < 256
    ensures var a, b, c, d := x / 4, (x % 4) * 16 + y / 16, (y % 16) * 4 + z / 64, z % 64;
      && a * 4 + b / 16 == x
      && (b % 16) * 16 + c / 4 == y
      && (c % 4) * 64 + d == z
  {
  }

  lemma FinalRoundTrip(b: seq<byte>)
    requires 1 <= |b| <= 2
    ensures DecodeQuanta(EncodeFinal(b)) == Some(b)
  {
    var q := EncodeFinal(b);
    var x := b[0] as int;
    SextetRoundTrip(x / 4);
    if |b| == 1 {
      var p := (x % 4) * 16;
      SextetRoundTrip(p);
      assert CharSextet(q[0]) == x / 4 && CharSextet(q[1]) == p;
      assert p / 16 == x % 4;
      assert DecodePadded(q) == [(x / 4 * 4 + p / 16) as byte];
      assert DecodePadded(q) == b;
    } else {
      var y := b[1] as int;
      var p := (x % 4) * 16 + y / 16;
      var r := (y % 16) * 4;
      SextetRoundTrip(p);
      SextetRoundTrip(r);
      assert CharSextet(q[0]) == x / 4 && CharSextet(q[1]) == p && CharSextet(q[2]) == r;
      assert p / 16 == x % 4 && p % 16 == y / 16;
      assert r / 4 == y % 16;
      assert DecodePadded(q) == [(x / 4 * 4 + p / 16) as byte, ((p % 16) * 16 + r / 4) as byte];
      assert DecodePadded(q) == b;
    }
    assert !IsAlphabetChar(q[3]) && IsFinalQuantum(q);
  }

  /** The other direction for full groups: four alphabet characters,
      decoded and encoded again, are the same four characters. */
  lemma QuantumDecodeEncode(q: string)
    requires |q| == 4 && IsAlphabetChar(q[0]) && IsAlphabetChar(q[1]) && IsAlphabetChar(q[2]) && IsAlphabetChar(q[3])
    ensures EncodeQuantum(DecodeQuantum(q)[0], DecodeQuantum(q)[1], DecodeQuantum(q)[2]) == q
  {
    CharsOfSextets(q);
    SextetsDecodeEncode(CharSextet(q[0]), CharSextet(q[1]), CharSextet(q[2]), CharSextet(q[3]));
  }

  /** The characters of four sextets, decoded and encoded again. */
  lemma SextetsDecodeEncode(a: int, b: int, c: int, d: int)
    requires 0 <= a < 64 && 0 <= b < 64 && 0 <= c < 64 && 0 <= d < 64
    ensures var q := [SextetChar(a), SextetChar(b), SextetChar(c), SextetChar(d)];
      EncodeQuantum(DecodeQuantum(q)[0], DecodeQuantum(q)[1], DecodeQuantum(q)[2]) == q
  {
    DecodeSextetChars(a, b, c, d);
    EncodeJoinedSextets(a, b, c, d);
  }

  /** The characters of four sextets decode to the sextets joined into
      three bytes. */
  lemma DecodeSextetChars(a: int, b: int, c: int, d: int)
    requires 0 <= a < 64 && 0 <= b < 64 && 0 <= c < 64 && 0 <= d < 64
    ensures DecodeQuantum([SextetChar(a), SextetChar(b), SextetChar(c), SextetChar(d)])
         == [(a * 4 + b / 16) as byte, ((b % 16) * 16 + c / 4) as byte, ((c % 4) * 64 + d) as byte]
  {
    SextetRoundTrip(a);
    SextetRoundTrip(b);
    SextetRoundTrip(c);
    SextetRoundTrip(d);
  }

  /** Four alphabet characters are the characters of their sextets. */
  lemma CharsOfSextets(q: string)
    requires |q| == 4 && IsAlphabetChar(q[0]) && IsAlphabetChar(q[1]) && IsAlphabetChar(q[2]) && IsAlphabetChar(q[3])
    ensures q == [SextetChar(CharSextet(q[0])), SextetChar(CharSextet(q[1])), SextetChar(CharSextet(q[2])), SextetChar(CharSextet(q[3]))]
  {
  }

  /** Four sextets joined into three bytes encode back to their four
      characters. */
  lemma EncodeJoinedSextets(a: int, b: int, c: int, d: int)
    requires 0 <= a < 64 && 0 <= b < 64 && 0 <= c < 64 && 0 <= d < 64
    ensures var bytes := [(a * 4 + b / 16) as byte, ((b % 16) * 16 + c / 4) as byte, ((c % 4) * 64 + d) as byte];
      EncodeQuantum(bytes[0], bytes[1], bytes[2]) == [SextetChar(a), SextetChar(b), SextetChar(c), SextetChar(d)]
  {
    var x, y, z := a * 4 + b / 16, (b % 16) * 16 + c / 4, (c % 4) * 64 + d;
    SextetsOfBytes(a, b, c, d);
    EncodeSplitsBytes(x, y, z, a, b, c, d);
    IndexedBytes(x as byte, y as byte, z as byte);
  }

  /** Three bytes whose bits split into the given sextets encode to their
      characters. */
  lemma EncodeSplitsBytes(x: int, y: int, z: int, a: int, b: int, c: int, d: int)
    requires 0 <= x < 256 && 0 <= y < 256 && 0 <= z < 256
    requires 0 <= a < 64 && 0 <= b < 64 && 0 <= c < 64 && 0 <= d < 64
    requires x / 4 == a && (x % 4) * 16 + y / 16 == b && (y % 16) * 4 + z / 64 == c && z % 64 == d
    ensures EncodeQuantum(x as byte, y as byte, z as byte) == [SextetChar(a), SextetChar(b), SextetChar(c), SextetChar(d)]
  {
  }

  lemma IndexedBytes(x: byte, y: byte, z: byte)
    ensures var bytes := [x, y, z]; bytes[0] == x && bytes[1] == y && bytes[2] == z
  {
  }

  /** Joining four sextets into three bytes and splitting them again. */
  lemma SextetsOfBytes(a: int, b: int, c: int, d: int)
    requires 0 <= a < 64 && 0 <= b < 64 && 0 <= c < 64 && 0 <= d < 64
    ensures var x, y, z := a * 4 + b / 16, (b % 16) * 16 + c / 4, (c % 4) * 64 + d;
      && 0 <= x < 256 && 0 <= y < 256 && 0 <= z < 256
      && x / 4 == a && (x % 4) * 16 + y / 16 == b
      && (y % 16) * 4 + z / 64 == c && z % 64 == d
  {
  }

  /** Outside strict mode, in a group "xx==" only the top two bits of the
      second character count: two second characters that agree on them
      give the same byte. */
  lemma PaddedIgnoresLowBitsOfSecond(a: char, b: char, b': char)
    requires IsAlphabetChar(a) && IsAlphabetChar(b) && IsAlphabetChar(b')
    requires CharSextet(b) / 16 == CharSextet(b') / 16
    ensures DecodePadded([a, b, Pad, Pad]) == DecodePadded([a, b', Pad, Pad])
  {
  }

  /** Likewise in a group "xxx=" only the top four bits of the third
      character count. */
  lemma PaddedIgnoresLowBitsOfThird(a: char, b: char, c: char, c': char)
    requires IsAlphabetChar(a) && IsAlphabetChar(b) && IsAlphabetChar(c) && IsAlphabetChar(c')
    requires CharSextet(c) / 4 == CharSextet(c') / 4
    ensures DecodePadded([a, b, c, Pad]) == DecodePadded([a, b, c', Pad])
  {
  }

  /** A group of four alphabet characters decodes on its own, in front of
      whatever follows it. */
  lemma DecodeQuantaPrepend(q: string, rest: string)
    requires |q| == 4 && IsAlphabetChar(q[0]) && IsAlphabetChar(q[1]) && IsAlphabetChar(q[2]) && IsAlphabetChar(q[3])
    requires DecodeQuanta(rest).Some?
    ensures DecodeQuanta(q + rest) == Some(DecodeQuantum(q) + DecodeQuanta(rest).value)
  {
    var s := q + rest;
    assert s[..4] == q && s[4..] == rest;
  }

  /** One step of the round trip: when the encoding of all but the first
      three bytes decodes back, so does the encoding of all the bytes. */
  lemma DecodeQuantaEncodeStep(b: seq<byte>)
    requires |b| >= 3
    requires DecodeQuanta(Encode(b[3..])) == Some(b[3..])
    ensures DecodeQuanta(Encode(b)) == Some(b)
  {
    SplitFirstThree(b);
    var q, rest := EncodeQuantum(b[0], b[1], b[2]), Encode(b[3..]);
    assert Encode(b) == q + rest;
    DecodeQuantaPrepend(q, rest);
    QuantumRoundTrip(b[0], b[1], b[2]);
  }

  lemma SplitFirstThree(b: seq<byte>)
    requires |b| >= 3
    ensures b == [b[0], b[1], b[2]] + b[3..]
  {
  }

  /** Decoding what Encode produced gives back the bytes, before line breaks
      are considered. */
  lemma {:induction false} DecodeQuantaEncode(b: seq<byte>)
    ensures DecodeQuanta(Encode(b)) == Some(b)
    decreases |b|
  {
    if |b| == 0 {
    } else if |b| <= 2 {
      FinalRoundTrip(b);
    } else {
      DecodeQuantaEncode(b[3..]);
      DecodeQuantaEncodeStep(b);
    }
  }

  /** The round trip of RFC 4648 section 4: decoding the standard encoding of
      any byte string gives that byte string back. */
  lemma EncodeDecodeRoundTrip(b: seq<byte>)
    ensures Decode(Encode(b)) == Some(b)
  {
    var s := Encode(b);
    PaddedSymbols(s);
    StripNewlinesNoop(s);
    DecodeQuantaEncode(b);
  }

  // ---------------------------------------------------------------- examples

  /** Outside strict mode the unused low bits of the last character are
      ignored, so two strings decode to the same byte. */
  lemma ExampleLenientDecoding()
    ensures Decode("QQ==") == Some([65])
    ensures Decode("QR==") == Some([65])
  {
    assert CharSextet('Q') == 16 && CharSextet('R') == 17;
    assert Decode("QQ==") == Some([65]) by {
      StripNewlinesNoop("QQ==");
      assert DecodeQuanta("QQ==") == Some(DecodePadded("QQ=="));
    }
    assert Decode("QR==") == Some([65]) by {
      StripNewlinesNoop("QR==");
      assert DecodeQuanta("QR==") == Some(DecodePadded("QR=="));
    }
  }

  /** Line breaks are skipped wherever they stand, even inside the padding. */
  lemma ExampleNewlinesSkipped()
    ensures Decode("Q\r\nQ=\n=") == Some([65])
  {
    var s := "Q\r\nQ=\n=";
    assert s[6..] == "=" && s[5..] == "\n=" && s[4..] == "=\n=" && s[3..] == "Q=\n=";
    assert s[2..] == "\nQ=\n=" && s[1..] == "\r\nQ=\n=";
    assert StripNewlines(s[6..]) == "=";
    assert StripNewlines(s[5..]) == "=";
    assert StripNewlines(s[4..]) == "==";
    assert StripNewlines(s[3..]) == "Q==";
    assert StripNewlines(s[2..]) == "Q==";
    assert StripNewlines(s[1..]) == "Q==";
    assert StripNewlines(s) == "QQ==";
    ExampleLenientDecoding();
  }

  /** Padding is mandatory: text without line breaks whose length is not a
      multiple of four, such as "QQ" or "QQ=", is refused. */
  lemma RejectsIncompleteGroup(s: string)
    requires forall i :: 0 <= i < |s| ==> !IsNewline(s[i])
    requires |s| % 4 != 0
    ensures Decode(s).None?
  {
    StripNewlinesNoop(s);
  }

  /** A '=' anywhere before the last group, as in "QQ==QQ==", is refused:
      nothing may follow the padding. */
  lemma RejectsDataAfterPadding(s: string, i: int)
    requires forall k :: 0 <= k < |s| ==> !IsNewline(s[k])
    requires 0 <= i < |s| - 4 && s[i] == Pad
    ensures Decode(s).None?
  {
    StripNewlinesNoop(s);
  }

  /** A '=' in the first two places of the last group, as in "Q===", is
      refused. */
  lemma RejectsEarlyPadding(s: string)
    requires forall k :: 0 <= k < |s| ==> !IsNewline(s[k])
    requires |s| >= 4 && (s[|s| - 4] == Pad || s[|s| - 3] == Pad)
    ensures Decode(s).None?
  {
    StripNewlinesNoop(s);
    assert s[|s| - 4..][0] == s[|s| - 4] && s[|s| - 4..][1] == s[|s| - 3];
  }

  /** A character that is neither in the alphabet, nor the padding, nor a
      line break makes the whole text refused. */
  lemma RejectsForeignChar(s: string, i: int)
    requires forall k :: 0 <= k < |s| ==> !IsNewline(s[k])
    requires 0 <= i < |s| && !IsAlphabetChar(s[i]) && s[i] != Pad
    ensures Decode(s).None?
  {
    StripNewlinesNoop(s);
    if IsPaddedBase64(s) {
      PaddedSymbols(s);
    }
  }
}

