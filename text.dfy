/** Python string behaviour the scripts rely on: `str.isspace`, `str.strip`, slicing with `[:n]`,
    `str(int)` and `sep.join(list)`. */
module Text {

  /** Python's `str.isspace`, which is also what the regular-expression class `\s` matches in a
      `str` pattern: the ASCII controls 9-13 and 28-31, space, NEL, no-break space and the
      Unicode space separators. */
  predicate IsSpace(c: char) {
    || c == ' '
    || ('\t' <= c <= '\r')
    || ('\U{1C}' <= c <= '\U{1F}')
    || c == '\U{85}'
    || c == '\U{A0}'
    || c == '\U{1680}'
    || ('\U{2000}' <= c <= '\U{200A}')
    || c == '\U{2028}'
    || c == '\U{2029}'
    || c == '\U{202F}'
    || c == '\U{205F}'
    || c == '\U{3000}'
  }

  predicate IsAsciiUpper(c: char) { 'A' <= c <= 'Z' }
  predicate IsAsciiLower(c: char) { 'a' <= c <= 'z' }
  predicate IsDigit(c: char) { '0' <= c <= '9' }
  predicate IsAsciiAlnum(c: char) { IsAsciiUpper(c) || IsAsciiLower(c) || IsDigit(c) }

  function Min(a: int, b: int): int { if a <= b then a else b }

  /** Removes the leading whitespace (`str.lstrip()`). */
  function StripStart(s: string): (r: string)
    ensures |r| <= |s|
    ensures forall k :: 0 <= k < |s| - |r| ==> IsSpace(s[k])
    ensures r == [] || !IsSpace(r[0])
  {
    if s != [] && IsSpace(s[0]) then StripStart(s[1..]) else s
  }

  /** What `lstrip` keeps is a suffix of its input. */
  lemma {:induction false} StripStartSuffix(s: string)
    ensures StripStart(s) == s[|s| - |StripStart(s)|..]
  {
    if s != [] && IsSpace(s[0]) {
      StripStartSuffix(s[1..]);
      assert s[1..][|s[1..]| - |StripStart(s[1..])|..] == s[|s| - |StripStart(s)|..];
    }
  }

  /** Removes the trailing whitespace (`str.rstrip()`). */
  function StripEnd(s: string): (r: string)
    ensures |r| <= |s|
    ensures forall k :: |r| <= k < |s| ==> IsSpace(s[k])
    ensures r == [] || !IsSpace(r[|r| - 1])
  {
    if s != [] && IsSpace(s[|s| - 1]) then StripEnd(s[..|s| - 1]) else s
  }

  /** What `rstrip` keeps is a prefix of its input. */
  lemma {:induction false} StripEndPrefix(s: string)
    ensures StripEnd(s) == s[..|StripEnd(s)|]
  {
    if s != [] && IsSpace(s[|s| - 1]) {
      StripEndPrefix(s[..|s| - 1]);
      assert s[..|s| - 1][..|StripEnd(s)|] == s[..|StripEnd(s)|];
    }
  }

  /** The number of leading whitespace characters of `s`. */
  function LeadingSpaces(s: string): nat { |s| - |StripStart(s)| }

  /** `str.strip()` with no argument: only whitespace is removed, at both ends. The result is
      the slice of `s` that starts after its leading whitespace, and everything outside that
      slice is whitespace. */
  function Strip(s: string): (r: string)
    ensures r == [] || (!IsSpace(r[0]) && !IsSpace(r[|r| - 1]))
    ensures LeadingSpaces(s) + |r| <= |s|
    ensures r == s[LeadingSpaces(s)..LeadingSpaces(s) + |r|]
    ensures forall k :: 0 <= k < LeadingSpaces(s) ==> IsSpace(s[k])
    ensures forall k :: LeadingSpaces(s) + |r| <= k < |s| ==> IsSpace(s[k])
  {
    StripBothEnds(s);
    StripEnd(StripStart(s))
  }

  /** `rstrip` after `lstrip` keeps a slice of the input with whitespace on both sides of it. */
  lemma StripBothEnds(s: string)
    ensures var r := StripEnd(StripStart(s));
      && (r == [] || (!IsSpace(r[0]) && !IsSpace(r[|r| - 1])))
      && LeadingSpaces(s) + |r| <= |s|
      && r == s[LeadingSpaces(s)..LeadingSpaces(s) + |r|]
      && (forall k :: 0 <= k < LeadingSpaces(s) ==> IsSpace(s[k]))
      && (forall k :: LeadingSpaces(s) + |r| <= k < |s| ==> IsSpace(s[k]))
  {
    StripSlice(s);
    StripTrailing(s);
    StripFirst(s);
  }

  /** What `strip()` keeps is the slice of `s` after its leading whitespace. */
  lemma StripSlice(s: string)
    ensures var r := StripEnd(StripStart(s));
      LeadingSpaces(s) + |r| <= |s| && r == s[LeadingSpaces(s)..LeadingSpaces(s) + |r|]
  {
    var t := StripStart(s);
    var r := StripEnd(t);
    StripStartSuffix(s);
    StripEndPrefix(t);
    SliceOfSuffix(s, |s| - |t|, |r|);
  }

  lemma SliceOfSuffix<T>(s: seq<T>, a: nat, n: nat)
    requires a + n <= |s|
    ensures s[a..][..n] == s[a..a + n]
  {
  }

  /** A sequence is its prefix, its slice `[i..j]` and its suffix, one after another. */
  lemma ThreeSlices<T>(s: seq<T>, i: nat, j: nat)
    requires i <= j <= |s|
    ensures s == s[..i] + s[i..j] + s[j..]
  {
  }

  /** Everything after what `strip()` keeps is whitespace. */
  lemma StripTrailing(s: string)
    ensures var r := StripEnd(StripStart(s));
      forall k :: LeadingSpaces(s) + |r| <= k < |s| ==> IsSpace(s[k])
  {
    var t := StripStart(s);
    var r := StripEnd(t);
    StripStartSuffix(s);
    forall k | |s| - |t| + |r| <= k < |s|
      ensures IsSpace(s[k])
    {
      assert s[k] == t[k - (|s| - |t|)];
    }
  }

  /** What `strip()` keeps does not start with whitespace. */
  lemma StripFirst(s: string)
    ensures var r := StripEnd(StripStart(s));
      r == [] || !IsSpace(r[0])
  {
    var t := StripStart(s);
    StripEndPrefix(t);
  }

  /** A string with no whitespace at either end is its own `strip()`. */
  lemma StripKeeps(s: string)
    requires s == [] || (!IsSpace(s[0]) && !IsSpace(s[|s| - 1]))
    ensures Strip(s) == s
  {
    assert StripStart(s) == s;
    assert StripEnd(s) == s;
  }

  /** Python's slice `s[:n]`: the first `n` characters, or all of `s` when it is shorter. */
  function PrefixUpTo(s: string, n: nat): (r: string)
    ensures |r| == Min(n, |s|)
    ensures r == s[..|r|]
  {
    if |s| <= n then s else s[..n]
  }

  function DigitChar(d: nat): (c: char)
    requires d < 10
    ensures IsDigit(c)
  {
    ['0', '1', '2', '3', '4', '5', '6', '7', '8', '9'][d]
  }

  function DigitValue(c: char): nat
    requires IsDigit(c)
  {
    (c as int - '0' as int) as nat
  }

  /** Decimal rendering of a natural number, as `str(n)` prints it. */
  function NatToString(n: nat): (r: string)
    ensures r != []
    ensures forall i :: 0 <= i < |r| ==> IsDigit(r[i])
    ensures r[0] == '0' ==> n == 0
  {
    if n < 10 then [DigitChar(n)] else NatToString(n / 10) + [DigitChar(n % 10)]
  }

  /** Reads a string of decimal digits back as a number. */
  function ParseDigits(s: string): nat
    requires forall i :: 0 <= i < |s| ==> IsDigit(s[i])
  {
    if s == [] then 0 else 10 * ParseDigits(s[..|s| - 1]) + DigitValue(s[|s| - 1])
  }

  lemma {:induction false} NatToStringRoundTrip(n: nat)
    ensures ParseDigits(NatToString(n)) == n
  {
    var d := DigitChar(n % 10);
    assert DigitValue(d) == n % 10 by {
      assert d == ['0', '1', '2', '3', '4', '5', '6', '7', '8', '9'][n % 10];
    }
    if n >= 10 {
      var s := NatToString(n);
      assert s[..|s| - 1] == NatToString(n / 10);
      NatToStringRoundTrip(n / 10);
    }
  }

  /** `str(i)` for a Python `int`: a minus sign before the digits of a negative number. The
      text starts with `-` exactly for a negative number, and everything else is decimal
      digits. */
  function IntToString(i: int): (r: string)
    ensures r != []
    ensures r[0] == '-' <==> i < 0
    ensures i >= 0 ==> forall k :: 0 <= k < |r| ==> IsDigit(r[k])
    ensures i < 0 ==> |r| >= 2 && forall k :: 1 <= k < |r| ==> IsDigit(r[k])
    ensures i >= 0 ==> r == NatToString(i)
    ensures i < 0 ==> r == "-" + NatToString(-i)
  {
    if i < 0 then "-" + NatToString(-i) else NatToString(i)
  }

  /** The text of an integer reads back as that integer: the sign, then the digits. */
  lemma IntToStringRoundTrip(i: int)
    ensures var r := IntToString(i);
      && (i >= 0 ==> ParseDigits(r) == i)
      && (i < 0 ==> ParseDigits(r[1..]) == -i)
  {
    if i < 0 {
      NatToStringRoundTrip(-i);
      assert IntToString(i)[1..] == NatToString(-i);
    } else {
      NatToStringRoundTrip(i);
    }
  }

  /** `sep.join(parts)`: the text starts with the first part and ends with the last; a single
      part is joined to itself without a separator. */
  function Join(parts: seq<string>, sep: string): (r: string)
    ensures parts == [] ==> r == ""
    ensures |parts| == 1 ==> r == parts[0]
    ensures parts != [] ==> |parts[0]| <= |r| && r[..|parts[0]|] == parts[0]
    ensures parts != [] ==> |parts[|parts| - 1]| <= |r| && r[|r| - |parts[|parts| - 1]|..] == parts[|parts| - 1]
  {
    if parts == [] then ""
    else if |parts| == 1 then parts[0]
    else
      var rest := Join(parts[1..], sep);
      PrefixOfConcat(parts[0], sep + rest);
      assert parts[0] + sep + rest == parts[0] + (sep + rest);
      SuffixOfConcat(parts[0] + sep, rest, |parts[|parts| - 1]|);
      parts[0] + sep + rest
  }

  lemma PrefixOfConcat<T>(x: seq<T>, y: seq<T>)
    ensures (x + y)[..|x|] == x
  {
  }

  /** `x`, then `y`, then `z`: `x` is a prefix and `z` a suffix. */
  lemma Framed<T>(x: seq<T>, y: seq<T>, z: seq<T>)
    ensures |x| + |z| <= |x + y + z|
    ensures (x + y + z)[..|x|] == x
    ensures (x + y + z)[|x + y + z| - |z|..] == z
  {
    assert x + y + z == x + (y + z);
    PrefixOfConcat(x, y + z);
    SuffixOfConcat(x + y, z, |z|);
  }

  /** `x`, `t`, `m`, `t` again, then `e`: the first copy of `t` follows `x`. */
  lemma TwiceFramed<T>(x: seq<T>, t: seq<T>, m: seq<T>, e: seq<T>)
    ensures |x + t + m + t + e| == |x| + |m| + |e| + 2 * |t|
    ensures (x + t + m + t + e)[|x|..|x| + |t|] == t
  {
    var s := x + t + m + t + e;
    assert s == (x + t) + (m + t + e);
    PrefixOfConcat(x + t, m + t + e);
    assert s[..|x| + |t|] == x + t;
    assert s[|x|..|x| + |t|] == (x + t)[|x|..];
  }

  lemma SuffixOfConcat<T>(x: seq<T>, y: seq<T>, n: nat)
    requires n <= |y|
    ensures (x + y)[|x + y| - n..] == y[|y| - n..]
  {
  }

  /** The first and last characters of a join of non-empty parts are those of the first and
      the last part. */
  lemma JoinEnds(parts: seq<string>, sep: string)
    requires parts != [] && parts[0] != [] && parts[|parts| - 1] != []
    ensures var r := Join(parts, sep); var last := parts[|parts| - 1];
      r != [] && r[0] == parts[0][0] && r[|r| - 1] == last[|last| - 1]
  {
    var r := Join(parts, sep);
    var last := parts[|parts| - 1];
    assert r[0] == r[..|parts[0]|][0];
    assert r[|r| - 1] == r[|r| - |last|..][|last| - 1];
  }

  /** Joining one more part appends the separator and that part. */
  lemma {:induction false} JoinSnoc(parts: seq<string>, part: string, sep: string)
    requires parts != []
    ensures Join(parts + [part], sep) == Join(parts, sep) + sep + part
  {
    var all := parts + [part];
    assert all[0] == parts[0];
    if |parts| == 1 {
      assert all[1..] == [part];
      assert Join(all, sep) == parts[0] + sep + part;
    } else {
      assert all[1..] == parts[1..] + [part];
      JoinSnoc(parts[1..], part, sep);
      var rest := Join(parts[1..], sep);
      assert Join(all, sep) == parts[0] + sep + (rest + sep + part);
      ConcatAssociative(parts[0] + sep, rest, sep + part);
    }
  }

  /** Regrouping a concatenation; stated once so that proofs about long literal templates need
      not look inside them. */
  lemma ConcatAssociative(a: string, b: string, c: string)
    ensures a + (b + c) == (a + b) + c
  {
  }
}
