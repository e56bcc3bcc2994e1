/** Whitespace trimming as done by Go's strings.TrimSpace, on strings seen as
    sequences of Unicode code points. */
module Strings {

  /** The ASCII whitespace characters of Go: tab, line feed, vertical tab,
      form feed, carriage return and space. */
  const AsciiSpaces: string := "\t\n\U{000B}\U{000C}\r "

  /** Go's unicode.IsSpace: the Latin-1 spaces '\t', '\n', '\v', '\f', '\r',
      ' ', U+0085 (NEL) and U+00A0 (NBSP), and above Latin-1 the code points
      with the Unicode White_Space property. */
  function IsSpace(c: char): (b: bool)
    ensures c < '\U{0080}' ==> (b <==> c in AsciiSpaces)
    ensures b ==> c <= '\U{3000}'
  {
    || c == '\t' || c == '\n' || c == '\U{000B}' || c == '\U{000C}' || c == '\r' || c == ' '
    || c == '\U{0085}' || c == '\U{00A0}'
    || c == '\U{1680}'
    || ('\U{2000}' <= c <= '\U{200A}')
    || c == '\U{2028}' || c == '\U{2029}' || c == '\U{202F}' || c == '\U{205F}'
    || c == '\U{3000}'
  }

  /** Every character of `s` is whitespace. */
  predicate AllSpace(s: string) {
    forall i :: 0 <= i < |s| ==> IsSpace(s[i])
  }

  /** Every character of `s` at an index from `lo` up to, not including,
      `hi` is whitespace. */
  predicate SpaceBetween(s: string, lo: int, hi: int) {
    forall k :: lo <= k < hi && 0 <= k < |s| ==> IsSpace(s[k])
  }

  /** `t` neither starts nor ends with whitespace. */
  predicate NoSurroundingSpace(t: string) {
    t == [] || (!IsSpace(t[0]) && !IsSpace(t[|t| - 1]))
  }

  /** `t` stands in `s` at index `i`, with only whitespace before and after it. */
  predicate TrimmedAt(s: string, t: string, i: int) {
    && 0 <= i <= |s| - |t|
    && s[i..i + |t|] == t
    && SpaceBetween(s, 0, i)
    && SpaceBetween(s, i + |t|, |s|)
  }

  /** `t` is what remains of `s` once the whitespace around it is removed:
      `s` is `t` with whitespace only on either side, and `t` has none at
      its ends. */
  ghost predicate IsTrimmedFrom(s: string, t: string) {
    NoSurroundingSpace(t) && exists i :: TrimmedAt(s, t, i)
  }

  /** Drops the leading whitespace: the result is a suffix of `s`, what was
      dropped is all whitespace and the result does not start with any. */
  function TrimLeft(s: string): (r: string)
    ensures |r| <= |s| && r == s[|s| - |r|..]
    ensures SpaceBetween(s, 0, |s| - |r|)
    ensures r == [] || !IsSpace(r[0])
  {
    if s != [] && IsSpace(s[0]) then TrimLeft(s[1..]) else s
  }

  /** Drops the trailing whitespace: the result is a prefix of `s`, what was
      dropped is all whitespace and the result does not end with any. */
  function TrimRight(s: string): (r: string)
    ensures |r| <= |s| && r == s[..|r|]
    ensures SpaceBetween(s, |r|, |s|)
    ensures r == [] || !IsSpace(r[|r| - 1])
  {
    if s != [] && IsSpace(s[|s| - 1]) then TrimRight(s[..|s| - 1]) else s
  }

  /** strings.TrimSpace: leading, then trailing whitespace removed. */
  function TrimSpace(s: string): (r: string)
    ensures IsTrimmedFrom(s, r)
  {
    TrimBothIsTrimmed(s);
    TrimRight(TrimLeft(s))
  }

  /** Trimming the left, then the right end leaves a part of `s` with only
      whitespace around it and none at its own ends. */
  lemma TrimBothIsTrimmed(s: string)
    ensures IsTrimmedFrom(s, TrimRight(TrimLeft(s)))
  {
    var l := TrimLeft(s);
    var r := TrimRight(l);
    var i := |s| - |l|;
    assert l == s[i..];
    TrimmedInSuffix(s, i, r);
    assert NoSurroundingSpace(r) by {
      if r != [] { assert r[0] == l[0]; }
    }
    assert TrimmedAt(s, r, i);
  }

  /** A prefix `r` of the suffix of `s` from `i`, with only whitespace after
      it there, stands in `s` at `i` with only whitespace after it. */
  lemma TrimmedInSuffix(s: string, i: int, r: string)
    requires 0 <= i <= |s| && |r| <= |s| - i
    requires r == s[i..][..|r|]
    requires SpaceBetween(s[i..], |r|, |s| - i)
    ensures s[i..i + |r|] == r
    ensures SpaceBetween(s, i + |r|, |s|)
  {
    assert s[i..i + |r|] == s[i..][..|r|];
    forall k | i + |r| <= k < |s| ensures IsSpace(s[k]) {
      assert s[k] == s[i..][k - i];
    }
  }

  /** Leading whitespace before a part that does not start with whitespace is
      exactly what TrimLeft removes. */
  lemma {:induction false} TrimLeftOfPadded(w: string, t: string)
    requires AllSpace(w)
    requires t == [] || !IsSpace(t[0])
    ensures TrimLeft(w + t) == t
  {
    if w != [] {
      assert (w + t)[1..] == w[1..] + t;
      TrimLeftOfPadded(w[1..], t);
    } else {
      assert w + t == t;
    }
  }

  /** Trailing whitespace after a part that does not end with whitespace is
      exactly what TrimRight removes. */
  lemma {:induction false} TrimRightOfPadded(t: string, w: string)
    requires AllSpace(w)
    requires t == [] || !IsSpace(t[|t| - 1])
    ensures TrimRight(t + w) == t
  {
    if w != [] {
      assert (t + w)[..|t + w| - 1] == t + w[..|w| - 1];
      TrimRightOfPadded(t, w[..|w| - 1]);
    } else {
      assert t + w == t;
    }
  }

  /** Whitespace on both sides of a part with no whitespace at its ends is
      exactly what TrimSpace removes. When the part is empty the whole input
      is whitespace and the result is empty. */
  lemma TrimSpaceOfPadded(w1: string, t: string, w2: string)
    requires AllSpace(w1) && AllSpace(w2)
    requires NoSurroundingSpace(t)
    ensures TrimSpace(w1 + t + w2) == t
  {
    if t == [] {
      assert w1 + t + w2 == w1 + w2;
      assert AllSpace(w1 + w2);
      TrimLeftOfPadded(w1 + w2, []);
      assert w1 + w2 + [] == w1 + w2;
      TrimRightOfPadded([], []);
    } else {
      assert w1 + t + w2 == w1 + (t + w2);
      TrimLeftOfPadded(w1, t + w2);
      TrimRightOfPadded(t, w2);
    }
  }

  /** IsTrimmedFrom pins the trimmed part down uniquely: it is TrimSpace's
      result. */
  lemma TrimmedIsUnique(s: string, t: string)
    requires IsTrimmedFrom(s, t)
    ensures t == TrimSpace(s)
  {
    var i :| TrimmedAt(s, t, i);
    var w1, w2 := s[..i], s[i + |t|..];
    assert AllSpace(w1) by {
      forall k | 0 <= k < |w1| ensures IsSpace(w1[k]) { assert w1[k] == s[k]; }
    }
    assert AllSpace(w2) by {
      forall k | 0 <= k < |w2| ensures IsSpace(w2[k]) { assert w2[k] == s[i + |t| + k]; }
    }
    assert s == w1 + t + w2;
    TrimSpaceOfPadded(w1, t, w2);
  }
}
