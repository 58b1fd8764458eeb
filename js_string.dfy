/**
 * The JavaScript string built-ins the server relies on: `indexOf`, `replace`
 * with a string pattern, `substr`, `endsWith`, and `parseInt` with radix 16.
 * Strings are sequences of code points.
 */
module JsString {
  import opened Wrappers

  /** `StrWhiteSpaceChar` of ECMAScript: white space and line terminators, skipped by `parseInt`. */
  predicate IsWhiteSpace(c: char) {
    || c == '\t' || c == '\U{000B}' || c == '\U{000C}' || c == ' ' || c == '\U{00A0}' || c == '\U{FEFF}'
    || c == '\n' || c == '\r' || c == '\U{2028}' || c == '\U{2029}'
    || c == '\U{1680}' || ('\U{2000}' <= c <= '\U{200A}') || c == '\U{202F}' || c == '\U{205F}' || c == '\U{3000}'
  }

  predicate IsHexDigit(c: char) {
    '0' <= c <= '9' || 'a' <= c <= 'f' || 'A' <= c <= 'F'
  }

  predicate AllHexDigits(d: string) {
    forall i :: 0 <= i < |d| ==> IsHexDigit(d[i])
  }

  function HexDigitValue(c: char): (v: nat)
    requires IsHexDigit(c)
    ensures v < 16
    ensures (c == 'f' || c == 'F') <==> v == 15
  {
    if '0' <= c <= '9' then c as int - '0' as int
    else if 'a' <= c <= 'f' then c as int - 'a' as int + 10
    else c as int - 'A' as int + 10
  }

  /** The value of a digit is its position among the digits, in lower or upper case. */
  lemma HexDigitValueIsPosition(c: char)
    requires IsHexDigit(c)
    ensures "0123456789abcdef"[HexDigitValue(c)] == c || "0123456789ABCDEF"[HexDigitValue(c)] == c
  {
  }

  function Pow16(n: nat): (p: nat)
    ensures p >= 1
  {
    if n == 0 then 1 else 16 * Pow16(n - 1)
  }

  lemma {:induction false} Pow16Monotonic(m: nat, n: nat)
    requires m <= n
    ensures Pow16(m) <= Pow16(n)
  {
    if m < n {
      Pow16Monotonic(m, n - 1);
    }
  }

  /** `p` occurs in `s` starting at position `i`. */
  predicate OccursAt(s: string, p: string, i: nat) {
    i + |p| <= |s| && s[i..i + |p|] == p
  }

  /** `s.indexOf(p, from)`: the first position at or after `from` where `p` occurs, `None` for -1. */
  function IndexOfFrom(s: string, p: string, from: nat): (r: Option<nat>)
    requires from <= |s|
    ensures r.Some? ==> from <= r.value && OccursAt(s, p, r.value)
    ensures r.Some? ==> forall j :: from <= j < r.value ==> !OccursAt(s, p, j)
    ensures r.None? ==> forall j :: from <= j ==> !OccursAt(s, p, j)
    decreases |s| - from
  {
    if from + |p| > |s| then None
    else if s[from..from + |p|] == p then Some(from)
    else IndexOfFrom(s, p, from + 1)
  }

  function IndexOf(s: string, p: string): Option<nat> {
    IndexOfFrom(s, p, 0)
  }

  /**
   * `s.replace(p, '')` with a string pattern `p`: only the FIRST occurrence
   * of `p` is removed, wherever it is; without one, `s` is returned unchanged.
   */
  function RemoveFirst(s: string, p: string): (r: string)
    ensures |r| <= |s|
    ensures (forall j :: !OccursAt(s, p, j)) ==> r == s
    ensures forall i: nat :: OccursAt(s, p, i) && (forall j: nat :: j < i ==> !OccursAt(s, p, j)) ==> r == s[..i] + s[i + |p|..]
  {
    match IndexOf(s, p)
    case None => s
    case Some(i) => s[..i] + s[i + |p|..]
  }

  /** `s.substr(start, length)` for non-negative arguments: the slice is clipped at the end of `s`. */
  function Substr(s: string, start: nat, length: nat): (r: string)
    ensures |r| <= length
    ensures start + length <= |s| ==> r == s[start..start + length]
    ensures start < |s| <= start + length ==> r == s[start..]
    ensures start >= |s| ==> r == ""
  {
    var from := if start < |s| then start else |s|;
    var to := if start + length < |s| then start + length else |s|;
    s[from..to]
  }

  /** `s.endsWith(suffix)`. */
  function EndsWith(s: string, suffix: string): (b: bool)
    ensures b <==> |suffix| <= |s| && s[..|s| - |suffix|] + suffix == s
  {
    |suffix| <= |s| && s[|s| - |suffix|..] == suffix
  }

  /** Drops the leading white space of `s`, as the first step of `parseInt` does. */
  function TrimStart(s: string): (r: string)
    ensures |r| <= |s|
  {
    if s != "" && IsWhiteSpace(s[0]) then TrimStart(s[1..]) else s
  }

  /**
   * `TrimStart` drops exactly the leading white-space run: it keeps a
   * suffix, everything it dropped is white space, and what it keeps does not
   * start with white space.
   */
  lemma {:induction false} TrimStartDropsWhiteSpace(s: string)
    ensures var r := TrimStart(s);
      r == s[|s| - |r|..]
      && (forall i :: 0 <= i < |s| - |r| ==> IsWhiteSpace(s[i]))
      && (r != "" ==> !IsWhiteSpace(r[0]))
  {
    if s != "" && IsWhiteSpace(s[0]) {
      TrimStartDropsWhiteSpace(s[1..]);
      var r := TrimStart(s);
      forall i | 0 <= i < |s| - |r|
        ensures IsWhiteSpace(s[i])
      {
        if i > 0 {
          assert s[i] == s[1..][i - 1];
        }
      }
    }
  }

  /** The longest prefix of `s` made of hexadecimal digits. */
  function HexPrefix(s: string): (r: string)
    ensures |r| <= |s|
  {
    if s != "" && IsHexDigit(s[0]) then [s[0]] + HexPrefix(s[1..]) else ""
  }

  /**
   * `HexPrefix` reads the longest run of hexadecimal digits: a prefix, all
   * of it digits, followed by a character that is not one, or by the end.
   */
  lemma {:induction false} HexPrefixIsLongestDigitRun(s: string)
    ensures var r := HexPrefix(s);
      r == s[..|r|]
      && AllHexDigits(r)
      && (|r| < |s| ==> !IsHexDigit(s[|r|]))
  {
    if s != "" && IsHexDigit(s[0]) {
      HexPrefixIsLongestDigitRun(s[1..]);
      var r := HexPrefix(s);
      assert r == [s[0]] + HexPrefix(s[1..]);
      forall i | 0 <= i < |r|
        ensures IsHexDigit(r[i])
      {
        if i > 0 {
          assert r[i] == HexPrefix(s[1..])[i - 1];
        }
      }
      if |r| < |s| {
        assert s[|r|] == s[1..][|r| - 1];
      }
    }
  }

  /** The number that the hexadecimal digits `z` denote, most significant first. */
  function HexValue(z: string): (v: nat)
    requires AllHexDigits(z)
    ensures v < Pow16(|z|)
  {
    if z == "" then 0 else 16 * HexValue(z[..|z| - 1]) + HexDigitValue(z[|z| - 1])
  }

  /** `t` without one leading sign character. */
  function Unsigned(t: string): string {
    if t != "" && (t[0] == '-' || t[0] == '+') then t[1..] else t
  }

  /** `u` without a leading `0x` or `0X`. */
  function WithoutHexPrefix(u: string): string {
    if |u| >= 2 && u[0] == '0' && (u[1] == 'x' || u[1] == 'X') then u[2..] else u
  }

  /**
   * `parseInt` after the leading white space is gone: one sign is accepted,
   * then an optional `0x`/`0X` prefix, then the longest run of hexadecimal
   * digits is read; no digit at all gives NaN (`None`).
   */
  function ParseTrimmed(t: string): (r: Option<int>)
    ensures r.Some? ==> t != ""
    ensures r.Some? && t[0] == '-' ==> -(Pow16(|t| - 1) as int) < r.value <= 0
    ensures r.Some? && t[0] != '-' ==> 0 <= r.value < Pow16(|t|)
  {
    var u := Unsigned(t);
    var z := HexPrefix(WithoutHexPrefix(u));
    if z == "" then None
    else
      HexPrefixIsLongestDigitRun(WithoutHexPrefix(u));
      Pow16Monotonic(|z|, |u|);
      Pow16Monotonic(|u|, |t|);
      Some(if t[0] == '-' then -(HexValue(z) as int) else HexValue(z))
  }

  /**
   * `parseInt(s, 16)`; `None` is NaN. Leading white space is skipped first.
   * A number read from n characters is below 16^n, and above -16^(n-1)
   * since a minus sign takes one of the characters.
   */
  function ParseInt16(s: string): (r: Option<int>)
    ensures r.Some? ==> |s| > 0 && -(Pow16(|s| - 1) as int) < r.value < Pow16(|s|)
  {
    var t := TrimStart(s);
    if t == "" then ParseTrimmed(t)
    else
      Pow16Monotonic(|t|, |s|);
      Pow16Monotonic(|t| - 1, |s| - 1);
      ParseTrimmed(t)
  }

  /** Leading white space of any length is skipped up to the first other character. */
  lemma {:induction false} WhiteSpaceRunIsSkipped(w: string, x: string)
    requires forall i :: 0 <= i < |w| ==> IsWhiteSpace(w[i])
    requires x == "" || !IsWhiteSpace(x[0])
    ensures TrimStart(w + x) == x
  {
    if w == "" {
      assert w + x == x;
    } else {
      WhiteSpaceRunIsSkipped(w[1..], x);
      assert (w + x)[0] == w[0];
      assert (w + x)[1..] == w[1..] + x;
    }
  }

  /** A run of hexadecimal digits followed by anything else is read exactly up to its end. */
  lemma {:induction false} DigitRunIsRead(d: string, rest: string)
    requires AllHexDigits(d)
    requires rest == "" || !IsHexDigit(rest[0])
    ensures HexPrefix(d + rest) == d
  {
    if d == "" {
      assert d + rest == rest;
    } else {
      DigitRunIsRead(d[1..], rest);
      assert (d + rest)[0] == d[0];
      assert (d + rest)[1..] == d[1..] + rest;
    }
  }

  /** An optional sign: nothing, `-` or `+`. */
  predicate IsSign(sign: string) {
    |sign| <= 1 && (sign != "" ==> sign[0] == '-' || sign[0] == '+')
  }

  predicate IsMinus(sign: string) {
    sign != "" && sign[0] == '-'
  }

  /** Whenever a digit run `z` is found after the sign and prefix, `parseInt` reads its value, negated after `-`. */
  lemma ParseTrimmedReads(t: string, z: string)
    requires z == HexPrefix(WithoutHexPrefix(Unsigned(t)))
    requires z != "" && AllHexDigits(z)
    ensures t != "" && ParseTrimmed(t) == Some(if t[0] == '-' then -(HexValue(z) as int) else HexValue(z))
  {
    HexPrefixIsLongestDigitRun(WithoutHexPrefix(Unsigned(t)));
  }

  /** One sign character is dropped, and the number is negative exactly after `-`. */
  lemma SignIsDropped(sign: string, u: string)
    requires IsSign(sign)
    requires u != "" && u[0] != '-' && u[0] != '+'
    ensures Unsigned(sign + u) == u
    ensures (sign + u)[0] == '-' <==> IsMinus(sign)
  {
    if sign != "" {
      assert (sign + u)[1..] == u;
    } else {
      assert sign + u == u;
    }
  }

  /** A lone `0` followed by `x` or `X` is the `0x` prefix, not a digit run. */
  predicate LoneZeroBeforeX(d: string, rest: string) {
    d == "0" && rest != "" && (rest[0] == 'x' || rest[0] == 'X')
  }

  /** A digit run other than a lone `0` before `x`/`X` does not begin with the `0x` prefix. */
  lemma DigitRunHasNoPrefix(d: string, rest: string)
    requires d != "" && AllHexDigits(d)
    requires !LoneZeroBeforeX(d, rest)
    ensures WithoutHexPrefix(d + rest) == d + rest
  {
    var u := d + rest;
    if |u| >= 2 {
      assert u[1] == (if |d| >= 2 then d[1] else rest[0]);
    }
  }

  /** After the white space: an optional sign, then a run of digits, read as the run's value. */
  lemma SignedDigitRunIsRead(sign: string, d: string, rest: string)
    requires IsSign(sign)
    requires d != "" && AllHexDigits(d)
    requires rest == "" || !IsHexDigit(rest[0])
    requires !LoneZeroBeforeX(d, rest)
    ensures ParseTrimmed(sign + (d + rest)) == Some(if IsMinus(sign) then -(HexValue(d) as int) else HexValue(d))
  {
    assert IsHexDigit((d + rest)[0]);
    SignIsDropped(sign, d + rest);
    DigitRunHasNoPrefix(d, rest);
    DigitRunIsRead(d, rest);
    ParseTrimmedReads(sign + (d + rest), d);
  }

  /**
   * `parseInt` on its success path without a prefix: white space `w`, an optional sign,
   * then hexadecimal digits `d` ended by a non-digit or the end (and not a
   * lone `0` followed by `x`, which is a prefix) read as the value of `d`,
   * negated after a minus sign.
   */
  lemma ParseDigitRun(w: string, sign: string, d: string, rest: string)
    requires forall i :: 0 <= i < |w| ==> IsWhiteSpace(w[i])
    requires IsSign(sign)
    requires d != "" && AllHexDigits(d)
    requires rest == "" || !IsHexDigit(rest[0])
    requires !LoneZeroBeforeX(d, rest)
    ensures ParseInt16(w + (sign + (d + rest))) == Some(if IsMinus(sign) then -(HexValue(d) as int) else HexValue(d))
  {
    var t := sign + (d + rest);
    SignedRunStartsReading(sign, d, rest);
    WhiteSpaceRunIsSkipped(w, t);
    TrimmedIsParsed(w + t, t);
    SignedDigitRunIsRead(sign, d, rest);
  }

  /** `0x` or `0X`: the prefix `parseInt` skips before hexadecimal digits. */
  predicate IsHexPrefix(x: string) {
    x == "0x" || x == "0X"
  }

  /** A `0x`/`0X` prefix in front of anything is dropped. */
  lemma PrefixIsDropped(x: string, u: string)
    requires IsHexPrefix(x)
    ensures WithoutHexPrefix(x + u) == u
  {
    assert (x + u)[0] == x[0] && (x + u)[1] == x[1];
    assert (x + u)[2..] == u;
  }

  /** After the white space: an optional sign, then `0x`, then a run of digits, read as the run's value. */
  lemma SignedPrefixedRunIsRead(sign: string, x: string, d: string, rest: string)
    requires IsSign(sign) && IsHexPrefix(x)
    requires d != "" && AllHexDigits(d)
    requires rest == "" || !IsHexDigit(rest[0])
    ensures ParseTrimmed(sign + (x + (d + rest))) == Some(if IsMinus(sign) then -(HexValue(d) as int) else HexValue(d))
  {
    assert (x + (d + rest))[0] == '0';
    SignIsDropped(sign, x + (d + rest));
    PrefixIsDropped(x, d + rest);
    DigitRunIsRead(d, rest);
    ParseTrimmedReads(sign + (x + (d + rest)), d);
  }

  /**
   * `parseInt` on its success path with a prefix: white space `w`, an
   * optional sign, `0x` or `0X`, then hexadecimal digits `d` ended by a
   * non-digit or the end read as the value of `d`, negated after a minus sign.
   */
  lemma ParsePrefixedDigitRun(w: string, sign: string, x: string, d: string, rest: string)
    requires forall i :: 0 <= i < |w| ==> IsWhiteSpace(w[i])
    requires IsSign(sign) && IsHexPrefix(x)
    requires d != "" && AllHexDigits(d)
    requires rest == "" || !IsHexDigit(rest[0])
    ensures ParseInt16(w + (sign + (x + (d + rest)))) == Some(if IsMinus(sign) then -(HexValue(d) as int) else HexValue(d))
  {
    var t := sign + (x + (d + rest));
    assert IsHexDigit(x[0]);
    SignedRunStartsReading(sign, x, d + rest);
    WhiteSpaceRunIsSkipped(w, t);
    TrimmedIsParsed(w + t, t);
    SignedPrefixedRunIsRead(sign, x, d, rest);
  }

  /**
   * `s` splits into white space `w`, an optional sign, an optional `0x`
   * prefix `x`, a non-empty run of hexadecimal digits `d`, and a `rest`
   * that does not start with a digit; without a prefix, `d` is not a lone
   * `0` before `x`, which would be read as the prefix.
   */
  predicate SplitsAsNumber(s: string, w: string, sign: string, x: string, d: string, rest: string) {
    s == w + (sign + (x + (d + rest)))
    && (forall i :: 0 <= i < |w| ==> IsWhiteSpace(w[i]))
    && IsSign(sign) && (x == "" || IsHexPrefix(x))
    && d != "" && AllHexDigits(d)
    && (rest == "" || !IsHexDigit(rest[0]))
    && (x == "" ==> !LoneZeroBeforeX(d, rest))
  }

  /** Every such split reads as the digit run's value, negated after `-`. */
  lemma SplitReadsAsNumber(s: string, w: string, sign: string, x: string, d: string, rest: string)
    requires SplitsAsNumber(s, w, sign, x, d, rest)
    ensures ReadsAsNumber(s, w, sign, x, d, rest)
  {
    if x == "" {
      assert x + (d + rest) == d + rest;
      ParseDigitRun(w, sign, d, rest);
    } else {
      ParsePrefixedDigitRun(w, sign, x, d, rest);
    }
  }

  /** Where no `0x` prefix was dropped, the digit run is not a lone `0` before `x`. */
  lemma UnprefixedRunIsNotLoneZero(d: string, rest: string)
    requires WithoutHexPrefix(d + rest) == d + rest
    ensures !LoneZeroBeforeX(d, rest)
  {
    if d == "0" && rest != "" {
      var u := d + rest;
      assert u[0] == '0' && u[1] == rest[0];
    }
  }

  /** `Unsigned` drops a sign, which is `-` exactly when the number is negated. */
  lemma UnsignedSplit(t: string) returns (sign: string, u: string)
    requires t != ""
    ensures u == Unsigned(t) && t == sign + u && IsSign(sign) && (t[0] == '-' <==> IsMinus(sign))
  {
    u := Unsigned(t);
    if u == t {
      sign := "";
    } else {
      sign := t[..1];
      SplitAt(t, 1);
    }
  }

  /** What `WithoutHexPrefix` drops is nothing, `0x` or `0X`. */
  lemma PrefixSplit(u: string) returns (x: string, v: string)
    ensures v == WithoutHexPrefix(u) && u == x + v && (x == "" || IsHexPrefix(x))
  {
    v := WithoutHexPrefix(u);
    if v == u {
      x := "";
    } else {
      x := u[..2];
      SplitAt(u, 2);
      assert x == [u[0], u[1]];
    }
  }

  /** What `HexPrefix` reads is a run of digits, followed by the end or a non-digit. */
  lemma DigitSplit(v: string) returns (d: string, rest: string)
    ensures d == HexPrefix(v) && v == d + rest
    ensures AllHexDigits(d) && (rest == "" || !IsHexDigit(rest[0]))
  {
    d := HexPrefix(v);
    HexPrefixIsLongestDigitRun(v);
    rest := v[|d|..];
    SplitAt(v, |d|);
  }

  /**
   * Conversely, every number `parseInt` reads comes from such a split: its
   * value is the digit run's, negated after `-`. With `SplitReadsAsNumber`
   * this describes the success path completely.
   */
  lemma ParsedNumberSplits(s: string) returns (w: string, sign: string, x: string, d: string, rest: string)
    requires ParseInt16(s).Some?
    ensures ReadsAsNumber(s, w, sign, x, d, rest)
  {
    var t;
    w, t := ParsedWhiteSpaceSplits(s);
    sign, x, d, rest := TrimmedNumberSplits(t);
  }

  /** A split as above whose digit run gives the number `parseInt` reads. */
  predicate ReadsAsNumber(s: string, w: string, sign: string, x: string, d: string, rest: string) {
    SplitsAsNumber(s, w, sign, x, d, rest)
    && ParseInt16(s) == Some(if IsMinus(sign) then -(HexValue(d) as int) else HexValue(d))
  }

  /** A number read from `s` is read from what follows its leading white space `w`. */
  lemma ParsedWhiteSpaceSplits(s: string) returns (w: string, t: string)
    requires ParseInt16(s).Some?
    ensures s == w + t && (forall i :: 0 <= i < |w| ==> IsWhiteSpace(w[i]))
    ensures ParseTrimmed(t).Some? && ParseInt16(s) == ParseTrimmed(t)
  {
    t := TrimStart(s);
    TrimStartDropsWhiteSpace(s);
    TrimmedIsParsed(s, t);
    w := s[..|s| - |t|];
    SplitAt(s, |s| - |t|);
    assert forall i :: 0 <= i < |w| ==> w[i] == s[i];
  }

  lemma SplitAt(v: string, k: nat)
    requires k <= |v|
    ensures v == v[..k] + v[k..]
  {
  }

  /** A number read from `t` splits into sign, prefix, digit run and rest, and is the run's value. */
  lemma TrimmedNumberSplits(t: string) returns (sign: string, x: string, d: string, rest: string)
    requires ParseTrimmed(t).Some?
    ensures t == sign + (x + (d + rest)) && IsSign(sign) && (x == "" || IsHexPrefix(x))
    ensures d != "" && AllHexDigits(d) && (rest == "" || !IsHexDigit(rest[0]))
    ensures x == "" ==> !LoneZeroBeforeX(d, rest)
    ensures ParseTrimmed(t) == Some(if IsMinus(sign) then -(HexValue(d) as int) else HexValue(d))
  {
    var u, v;
    sign, u := UnsignedSplit(t);
    x, v := PrefixSplit(u);
    d, rest := DigitSplit(v);
    ParseTrimmedReads(t, d);
    if x == "" {
      assert x + v == v;
      UnprefixedRunIsNotLoneZero(d, rest);
    }
  }


  /** A sign or a hexadecimal digit is not white space, so skipping stops there. */
  lemma SignedRunStartsReading(sign: string, d: string, rest: string)
    requires IsSign(sign)
    requires d != "" && IsHexDigit(d[0])
    ensures var t := sign + (d + rest); t != "" && !IsWhiteSpace(t[0])
  {
    var t := sign + (d + rest);
    assert t[0] == (if sign == "" then d[0] else sign[0]);
  }

  /** `parseInt` reads whatever is left once the leading white space is gone. */
  lemma TrimmedIsParsed(s: string, t: string)
    requires TrimStart(s) == t
    ensures ParseInt16(s) == ParseTrimmed(t)
  {
  }

  /** A hexadecimal digit is not white space, so `parseInt` starts reading at it. */
  lemma DigitIsNotTrimmed(c: char, rest: string)
    requires IsHexDigit(c)
    ensures TrimStart([c] + rest) == [c] + rest
  {
  }

  /** A lone hexadecimal digit is read whole. */
  lemma OneDigitPrefix(c: char)
    requires IsHexDigit(c)
    ensures HexPrefix([c]) == [c]
  {
    assert HexPrefix([c][1..]) == "";
  }

  /** The value of a lone hexadecimal digit. */
  lemma OneDigitValue(c: char)
    requires IsHexDigit(c)
    ensures HexValue([c]) == HexDigitValue(c)
  {
    assert [c][..0] == "";
  }

  /** A lone hexadecimal digit, once white space is gone, reads as its value. */
  lemma OneDigitReads(c: char)
    requires IsHexDigit(c)
    ensures ParseTrimmed([c]) == Some(HexDigitValue(c))
  {
    assert Unsigned([c]) == [c];
    assert WithoutHexPrefix([c]) == [c];
    OneDigitPrefix(c);
    OneDigitValue(c);
  }

  /** Two hexadecimal digits parse to the byte they spell. */
  lemma ParseTwoHexDigits(hi: char, lo: char)
    requires IsHexDigit(hi) && IsHexDigit(lo)
    ensures ParseInt16([hi, lo]) == Some(16 * HexDigitValue(hi) + HexDigitValue(lo))
  {
    var s := [hi, lo];
    assert TrimStart(s) == s by {
      DigitIsNotTrimmed(hi, [lo]);
    }
    assert ParseTrimmed(s) == Some(16 * HexDigitValue(hi) + HexDigitValue(lo)) by {
      assert Unsigned(s) == s;
      assert WithoutHexPrefix(s) == s;
      assert HexPrefix(s) == s by {
        assert s[1..] == [lo];
        OneDigitPrefix(lo);
      }
      assert HexValue(s) == 16 * HexDigitValue(hi) + HexDigitValue(lo) by {
        assert s[..1] == [hi];
        OneDigitValue(hi);
      }
    }
  }

  /** A single hexadecimal digit parses to its value. */
  lemma ParseOneHexDigit(c: char)
    requires IsHexDigit(c)
    ensures ParseInt16([c]) == Some(HexDigitValue(c))
  {
    DigitIsNotTrimmed(c, "");
    assert [c] + "" == [c];
    OneDigitReads(c);
  }

  /** No digit where `parseInt` starts reading means NaN. */
  lemma NoLeadingDigitIsNaN(s: string)
    requires s == "" || (!IsWhiteSpace(s[0]) && s[0] != '+' && s[0] != '-' && !IsHexDigit(s[0]))
    ensures ParseInt16(s) == None
  {
    assert TrimStart(s) == s;
  }

  /** A bare `0x` prefix leaves no digit: NaN. */
  lemma HexPrefixAloneIsNaN(x: char)
    requires x == 'x' || x == 'X'
    ensures ParseInt16(['0', x]) == None
  {
    var s := ['0', x];
    assert TrimStart(s) == s by {
      DigitIsNotTrimmed('0', [x]);
    }
    assert ParseTrimmed(s) == None by {
      assert Unsigned(s) == s;
      assert WithoutHexPrefix(s) == "";
    }
  }

  /** One sign is accepted: `parseInt("-f", 16)` is -15. */
  lemma SignIsAccepted(c: char)
    requires IsHexDigit(c)
    ensures ParseInt16(['-', c]) == Some(-(HexDigitValue(c) as int))
  {
    var s := ['-', c];
    assert TrimStart(s) == s;
    assert ParseTrimmed(s) == Some(-(HexDigitValue(c) as int)) by {
      assert Unsigned(s) == [c] by {
        assert s[1..] == [c];
      }
      assert WithoutHexPrefix([c]) == [c];
      OneDigitPrefix(c);
      OneDigitValue(c);
    }
  }

  /** Leading white space is skipped: `parseInt(" f", 16)` is 15. */
  lemma WhiteSpaceIsSkipped(w: char, c: char)
    requires IsWhiteSpace(w) && IsHexDigit(c)
    ensures ParseInt16([w, c]) == Some(HexDigitValue(c))
  {
    var s := [w, c];
    assert TrimStart(s) == [c] by {
      assert s[1..] == [c] + "";
      DigitIsNotTrimmed(c, "");
    }
    OneDigitReads(c);
  }

  /**
   * Reading stops at the first character that is not a hexadecimal digit:
   * `parseInt("fg", 16)` is 15 (but `0x` is a prefix, not a digit and a stop).
   */
  lemma TrailingCharactersAreIgnored(c: char, d: char)
    requires IsHexDigit(c) && !IsHexDigit(d) && !(c == '0' && (d == 'x' || d == 'X'))
    ensures ParseInt16([c, d]) == Some(HexDigitValue(c))
  {
    var s := [c, d];
    assert TrimStart(s) == s by {
      DigitIsNotTrimmed(c, [d]);
    }
    assert ParseTrimmed(s) == Some(HexDigitValue(c)) by {
      assert Unsigned(s) == s;
      assert WithoutHexPrefix(s) == s;
      assert HexPrefix(s) == [c] by {
        assert s[1..] == [d];
        assert HexPrefix([d]) == "";
      }
      OneDigitValue(c);
    }
  }
}
