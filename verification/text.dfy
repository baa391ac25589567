/** The string handling the backends apply to paths: the `::` suffix split
    (strstr), extension tests (strcmp on the tail) and C's `atoi`. */
module Text {
  import opened Wrappers

  /** printf-style formatting of a frame number through a name pattern, as
      `sprintf(buf, pattern, i)` does; the C library supplies it. */
  type Formatter = (string, int) -> string

  /** The two-character separator `::` starts at index `i` of `s`. */
  predicate SeparatorAt(s: string, i: int) {
    0 <= i && i + 1 < |s| && s[i] == ':' && s[i + 1] == ':'
  }

  predicate HasSeparator(s: string) {
    exists i :: 0 <= i < |s| && SeparatorAt(s, i)
  }

  /** The first separator at or after index `k`. */
  function FindSeparatorFrom(s: string, k: nat): (r: Option<nat>)
    decreases |s| - k
    ensures r.Some? ==> k <= r.value && SeparatorAt(s, r.value)
    ensures forall i :: k <= i && (r.None? || i < r.value) ==> !SeparatorAt(s, i)
  {
    if k + 1 >= |s| then None
    else if s[k] == ':' && s[k + 1] == ':' then Some(k)
    else FindSeparatorFrom(s, k + 1)
  }

  /** `strstr(s, "::")`: the index of the first separator, if any. */
  function FindSeparator(s: string): (r: Option<nat>)
    ensures r.Some? <==> HasSeparator(s)
    ensures r.Some? ==> SeparatorAt(s, r.value)
    ensures r.Some? ==> forall i :: 0 <= i < r.value ==> !SeparatorAt(s, i)
  {
    FindSeparatorFrom(s, 0)
  }

  /** A path cut at its first `::`: the text before it and the text after it. */
  datatype Split = Split(head: string, tail: string)

  /** Cuts `s` at its first `::`. The head never contains a separator, and it
      is strictly shorter than `s`. */
  function SplitAtSeparator(s: string): (r: Option<Split>)
    ensures r.Some? <==> HasSeparator(s)
    ensures r.Some? ==> s == r.value.head + "::" + r.value.tail
    ensures r.Some? ==> !HasSeparator(r.value.head)
    ensures r.Some? ==> |r.value.head| < |s|
  {
    match FindSeparator(s)
    case None => None
    case Some(i) =>
      var head := s[..i];
      assert forall j :: SeparatorAt(head, j) ==> SeparatorAt(s, j);
      assert s == head + "::" + s[i + 2..] by {
        assert s[i..i + 2] == "::";
        assert s == s[..i] + s[i..i + 2] + s[i + 2..];
      }
      Some(Split(head, s[i + 2..]))
  }

  /** Joining a head and a tail with `::` and cutting again gives them back,
      provided the head holds no separator and does not end in `:` (else the
      first `::` would start one character early). */
  lemma SplitOfJoin(head: string, tail: string)
    requires !HasSeparator(head)
    requires |head| == 0 || head[|head| - 1] != ':'
    ensures SplitAtSeparator(head + "::" + tail) == Some(Split(head, tail))
  {
    var s := head + "::" + tail;
    assert SeparatorAt(s, |head|);
    forall i | 0 <= i < |head|
      ensures !SeparatorAt(s, i)
    {
      if i + 1 < |head| {
        assert !SeparatorAt(head, i);
      }
    }
    var r := FindSeparator(s);
    assert r == Some(|head|);
    assert s[..|head|] == head;
    assert s[|head| + 2..] == tail;
  }

  /** `strcmp(s + len - |suffix|, suffix) == 0`, guarded by the length check
      the callers make (or should make) first. */
  predicate EndsWith(s: string, suffix: string) {
    |suffix| <= |s| && s[|s| - |suffix|..] == suffix
  }

  predicate IsDigit(c: char) {
    '0' <= c <= '9'
  }

  predicate AllDigits(s: string) {
    forall i :: 0 <= i < |s| ==> IsDigit(s[i])
  }

  /** `isspace` in the C locale. */
  predicate IsSpace(c: char) {
    c == ' ' || c == '\t' || c == '\n' || c == '\U{000B}' || c == '\U{000C}' || c == '\r'
  }

  /** Drops the leading white space. */
  function SkipSpaces(s: string): (r: string)
    ensures |r| <= |s| && r == s[|s| - |r|..]
    ensures |r| > 0 ==> !IsSpace(r[0])
  {
    if |s| > 0 && IsSpace(s[0]) then SkipSpaces(s[1..]) else s
  }

  /** The longest prefix of decimal digits. */
  function DigitPrefix(s: string): (r: string)
    ensures |r| <= |s| && r == s[..|r|]
    ensures AllDigits(r)
    ensures |r| < |s| ==> !IsDigit(s[|r|])
  {
    if |s| > 0 && IsDigit(s[0]) then [s[0]] + DigitPrefix(s[1..]) else []
  }

  function DigitValue(c: char): (d: nat)
    requires IsDigit(c)
    ensures d < 10
  {
    assert '0' as int <= c as int;
    (c as int) - ('0' as int)
  }

  /** The value of a run of decimal digits, most significant first. */
  function DigitsValue(ds: string): nat
    requires AllDigits(ds)
  {
    if |ds| == 0 then 0
    else 10 * DigitsValue(ds[..|ds| - 1]) + DigitValue(ds[|ds| - 1])
  }

  /** C's `atoi`: leading white space, an optional sign, then the longest
      run of decimal digits; 0 when there is no digit. Overflow, undefined
      in C, is not modelled: the value is unbounded. */
  function Atoi(s: string): int
  {
    var t := SkipSpaces(s);
    if |t| > 0 && (t[0] == '-' || t[0] == '+') then
      var v: int := DigitsValue(DigitPrefix(t[1..]));
      if t[0] == '-' then -v else v
    else
      DigitsValue(DigitPrefix(t))
  }

  function DigitChar(d: nat): (c: char)
    requires d < 10
    ensures IsDigit(c) && DigitValue(c) == d
  {
    ('0' as int + d) as char
  }

  /** The decimal spelling of a natural number, without leading zeros. */
  function Natural(n: nat): (s: string)
    ensures |s| > 0 && AllDigits(s)
  {
    if n < 10 then [DigitChar(n)] else Natural(n / 10) + [DigitChar(n % 10)]
  }

  /** The decimal spelling of an integer, as `%d` prints it. */
  function Decimal(n: int): (s: string)
    ensures |s| > 0 && (s[0] == '-' || IsDigit(s[0]))
  {
    if n < 0 then "-" + Natural(-n) else Natural(n)
  }

  lemma {:induction false} NaturalValue(n: nat)
    ensures DigitsValue(Natural(n)) == n
  {
    if n >= 10 {
      var s := Natural(n);
      assert s[..|s| - 1] == Natural(n / 10);
      NaturalValue(n / 10);
    }
  }

  lemma {:induction false} DigitPrefixOfDigits(s: string, rest: string)
    requires AllDigits(s)
    requires |rest| == 0 || !IsDigit(rest[0])
    ensures DigitPrefix(s + rest) == s
  {
    if |s| > 0 {
      assert (s + rest)[1..] == s[1..] + rest;
      DigitPrefixOfDigits(s[1..], rest);
    } else {
      assert s + rest == rest;
    }
  }

  lemma AtoiUnsigned(ds: string, rest: string)
    requires |ds| > 0 && AllDigits(ds)
    requires |rest| == 0 || !IsDigit(rest[0])
    ensures Atoi(ds + rest) == DigitsValue(ds)
  {
    var s := ds + rest;
    assert s[0] == ds[0];
    assert SkipSpaces(s) == s;
    DigitPrefixOfDigits(ds, rest);
  }

  lemma AtoiMinus(t: string)
    ensures Atoi("-" + t) == -(DigitsValue(DigitPrefix(t)) as int)
  {
    var s := "-" + t;
    assert s[0] == '-' && s[1..] == t;
    assert SkipSpaces(s) == s;
  }

  lemma AtoiNegative(ds: string, rest: string)
    requires |ds| > 0 && AllDigits(ds)
    requires |rest| == 0 || !IsDigit(rest[0])
    ensures Atoi("-" + ds + rest) == -(DigitsValue(ds) as int)
  {
    calc {
      Atoi("-" + ds + rest);
      { assert "-" + ds + rest == "-" + (ds + rest); }
      Atoi("-" + (ds + rest));
      { AtoiMinus(ds + rest); }
      -(DigitsValue(DigitPrefix(ds + rest)) as int);
      { DigitPrefixOfDigits(ds, rest); }
      -(DigitsValue(ds) as int);
    }
  }

  /** `atoi` reads back the decimal spelling of any integer, also when the
      spelling is followed by text that does not start with a digit. */
  lemma AtoiDecimal(n: int, rest: string)
    requires |rest| == 0 || !IsDigit(rest[0])
    ensures Atoi(Decimal(n) + rest) == n
  {
    if n < 0 {
      AtoiNegative(Natural(-n), rest);
      NaturalValue(-n);
    } else {
      AtoiUnsigned(Natural(n), rest);
      NaturalValue(n);
    }
  }

  /** `atoi` is 0 on text that starts with neither white space, a sign nor a
      digit: a name pattern such as `img_%03d.png` reads as offset 0. */
  lemma AtoiOfWord(s: string)
    requires |s| > 0 && !IsSpace(s[0]) && !IsDigit(s[0]) && s[0] != '-' && s[0] != '+'
    ensures Atoi(s) == 0
  {
  }
}
