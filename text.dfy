/**
  The pieces of Python's `str` semantics that the import script relies on:
  `str.isspace`, `str.split(sep)`, `str.strip(chars)`, the `<` order on
  strings and `int(text)` for decimal text.
 */
module Text {
  import opened Wrappers

  /** `c.isspace()`: the code points Python treats as whitespace (also `\s` in `re`). */
  predicate IsSpace(c: char) {
    var n := c as int;
    (9 <= n <= 13) || (28 <= n <= 32) || n == 0x85 || n == 0xA0 || n == 0x1680
    || (0x2000 <= n <= 0x200A) || n == 0x2028 || n == 0x2029 || n == 0x202F
    || n == 0x205F || n == 0x3000
  }

  /** A word character of `re`'s `\w`, restricted to ASCII; also the characters of a table name. */
  predicate IsWord(c: char) {
    'a' <= c <= 'z' || 'A' <= c <= 'Z' || '0' <= c <= '9' || c == '_'
  }

  predicate AllSpace(s: string) {
    forall i :: 0 <= i < |s| ==> IsSpace(s[i])
  }

  // ---------------------------------------------------------------------
  // str.split(sep) with a one-character separator, and its inverse sep.join
  // ---------------------------------------------------------------------

  /** `s.split(sep)`: the pieces between separators; never empty, `"".split(sep) == [""]`. */
  function Split(s: string, sep: char): (parts: seq<string>)
    ensures |parts| >= 1
    decreases |s|
  {
    if s == [] then [""]
    else
      var rest := Split(s[1..], sep);
      if s[0] == sep then [""] + rest
      else [[s[0]] + rest[0]] + rest[1..]
  }

  /** No piece of a split holds the separator. */
  lemma {:induction false} SplitPieces(s: string, sep: char)
    ensures forall i :: 0 <= i < |Split(s, sep)| ==> sep !in Split(s, sep)[i]
    decreases |s|
  {
    if s != [] {
      SplitPieces(s[1..], sep);
      var rest := Split(s[1..], sep);
      if s[0] != sep {
        assert forall i :: 1 <= i < |rest| ==> rest[i] == rest[1..][i - 1];
      }
    }
  }

  function Join(parts: seq<string>, sep: char): string
    requires |parts| >= 1
    decreases |parts|
  {
    if |parts| == 1 then parts[0] else parts[0] + [sep] + Join(parts[1..], sep)
  }

  /** Splitting a text and joining the pieces back gives the text again. */
  lemma {:induction false} JoinSplit(s: string, sep: char)
    ensures Join(Split(s, sep), sep) == s
    decreases |s|
  {
    if s != [] {
      JoinSplit(s[1..], sep);
      var rest := Split(s[1..], sep);
      if s[0] == sep {
        assert ([""] + rest)[1..] == rest;
      } else {
        if |rest| == 1 {
          assert [s[0]] + rest[0] == s;
        } else {
          assert ([[s[0]] + rest[0]] + rest[1..])[1..] == rest[1..];
          assert Join(rest, sep) == rest[0] + [sep] + Join(rest[1..], sep);
          assert s == [s[0]] + s[1..];
        }
      }
    }
  }

  /** A separator-free prefix glues onto the first piece of what follows it. */
  lemma {:induction false} SplitGlue(a: string, t: string, sep: char)
    requires sep !in a
    ensures Split(a + t, sep) == [a + Split(t, sep)[0]] + Split(t, sep)[1..]
    decreases |a|
  {
    if a == [] {
      var parts := Split(t, sep);
      assert a + t == t;
      assert a + parts[0] == parts[0];
      assert parts == [parts[0]] + parts[1..];
    } else {
      assert (a + t)[0] == a[0];
      assert (a + t)[1..] == a[1..] + t;
      SplitGlue(a[1..], t, sep);
      assert [a[0]] + (a[1..] + Split(t, sep)[0]) == a + Split(t, sep)[0];
    }
  }

  /** Joining separator-free pieces and splitting again gives the pieces back. */
  lemma {:induction false} SplitJoin(parts: seq<string>, sep: char)
    requires |parts| >= 1
    requires forall i :: 0 <= i < |parts| ==> sep !in parts[i]
    ensures Split(Join(parts, sep), sep) == parts
    decreases |parts|
  {
    if |parts| == 1 {
      SplitGlue(parts[0], "", sep);
      assert parts[0] + "" == parts[0];
    } else {
      var tail := Join(parts[1..], sep);
      SplitJoin(parts[1..], sep);
      assert Join(parts, sep) == parts[0] + ([sep] + tail);
      SplitGlue(parts[0], [sep] + tail, sep);
      assert ([sep] + tail)[1..] == tail;
      assert Split([sep] + tail, sep) == [""] + parts[1..];
      assert parts[0] + "" == parts[0];
      assert parts == [parts[0]] + parts[1..];
    }
  }

  // ---------------------------------------------------------------------
  // str.strip(chars)
  // ---------------------------------------------------------------------

  /** `s.lstrip(...)` with the characters to remove given as a predicate. */
  function TrimLeft(s: string, drop: char -> bool): (r: string)
    ensures |r| <= |s|
    decreases |s|
  {
    if s != [] && drop(s[0]) then TrimLeft(s[1..], drop) else s
  }

  /** `lstrip` removes a prefix made only of dropped characters, and no more. */
  lemma {:induction false} TrimLeftRemovesPrefix(s: string, drop: char -> bool)
    ensures TrimLeft(s, drop) == s[|s| - |TrimLeft(s, drop)|..]
    ensures forall i :: 0 <= i < |s| - |TrimLeft(s, drop)| ==> drop(s[i])
    ensures TrimLeft(s, drop) != [] ==> !drop(TrimLeft(s, drop)[0])
    decreases |s|
  {
    if s != [] && drop(s[0]) {
      TrimLeftRemovesPrefix(s[1..], drop);
    }
  }

  /** `s.rstrip(...)` with the characters to remove given as a predicate. */
  function TrimRight(s: string, drop: char -> bool): (r: string)
    ensures |r| <= |s|
    decreases |s|
  {
    if s != [] && drop(s[|s| - 1]) then TrimRight(s[..|s| - 1], drop) else s
  }

  /** `rstrip` removes a suffix made only of dropped characters, and no more. */
  lemma {:induction false} TrimRightRemovesSuffix(s: string, drop: char -> bool)
    ensures TrimRight(s, drop) == s[..|TrimRight(s, drop)|]
    ensures forall i :: |TrimRight(s, drop)| <= i < |s| ==> drop(s[i])
    ensures TrimRight(s, drop) != [] ==> !drop(TrimRight(s, drop)[|TrimRight(s, drop)| - 1])
    decreases |s|
  {
    if s != [] && drop(s[|s| - 1]) {
      TrimRightRemovesSuffix(s[..|s| - 1], drop);
    }
  }

  /** `s.strip(...)`. */
  function Strip(s: string, drop: char -> bool): string {
    TrimRight(TrimLeft(s, drop), drop)
  }

  // ---------------------------------------------------------------------
  // a < b on str
  // ---------------------------------------------------------------------

  /** Python's `a < b` on `str`: code-point lexicographic order, a proper prefix first. */
  predicate StrLess(a: string, b: string)
    decreases |a|
  {
    if a == [] then b != []
    else if b == [] then false
    else if a[0] != b[0] then a[0] < b[0]
    else StrLess(a[1..], b[1..])
  }

  lemma {:induction false} StrLessIrreflexive(a: string)
    ensures !StrLess(a, a)
    decreases |a|
  {
    if a != [] {
      StrLessIrreflexive(a[1..]);
    }
  }

  lemma {:induction false} StrLessAsymmetric(a: string, b: string)
    requires StrLess(a, b)
    ensures !StrLess(b, a)
    decreases |a|
  {
    if a != [] && b != [] && a[0] == b[0] {
      StrLessAsymmetric(a[1..], b[1..]);
    }
  }

  lemma {:induction false} StrLessTransitive(a: string, b: string, c: string)
    requires StrLess(a, b) && StrLess(b, c)
    ensures StrLess(a, c)
    decreases |a|
  {
    if a != [] && b != [] && c != [] && a[0] == b[0] && b[0] == c[0] {
      StrLessTransitive(a[1..], b[1..], c[1..]);
    }
  }

  lemma {:induction false} StrLessTotal(a: string, b: string)
    ensures a == b || StrLess(a, b) || StrLess(b, a)
    decreases |a|
  {
    if a != [] && b != [] && a[0] == b[0] {
      StrLessTotal(a[1..], b[1..]);
      if a[1..] == b[1..] {
        assert a == [a[0]] + a[1..] && b == [b[0]] + b[1..];
      }
    }
  }

  // ---------------------------------------------------------------------
  // int(text) for base-10 text
  // ---------------------------------------------------------------------

  predicate IsDigit(c: char) {
    '0' <= c <= '9'
  }

  function DigitValue(c: char): nat {
    if IsDigit(c) then c as int - '0' as int else 0
  }

  /** Digits with single underscores between them, as `int()` accepts them. */
  predicate IsDigitString(s: string) {
    && |s| > 0
    && IsDigit(s[0])
    && IsDigit(s[|s| - 1])
    && (forall i :: 0 <= i < |s| ==> IsDigit(s[i]) || s[i] == '_')
    && (forall i :: 0 <= i < |s| - 1 ==> s[i] == '_' ==> s[i + 1] != '_')
  }

  /** The number a digit string denotes, underscores ignored. */
  function DigitsValue(s: string): nat
    decreases |s|
  {
    if s == [] then 0
    else if s[|s| - 1] == '_' then DigitsValue(s[..|s| - 1])
    else DigitsValue(s[..|s| - 1]) * 10 + DigitValue(s[|s| - 1])
  }

  /**
    The characters `int()` strips from either end of its text: the ASCII
    whitespace `\t\n\v\f\r` and space, and the non-ASCII whitespace (which
    CPython turns into spaces first). The ASCII separators U+001C to U+001F,
    whitespace to `str.isspace`, are not stripped.
   */
  predicate IsIntSpace(c: char) {
    IsSpace(c) && !(28 <= c as int <= 31)
  }

  /** The default limit on the number of digits `int()` converts (`sys.int_info.default_max_str_digits`). */
  const MaxStrDigits := 4300

  /** The number of digits in a text, underscores not counted. */
  function DigitCount(s: string): (n: nat)
    ensures n <= |s|
    decreases |s|
  {
    if s == [] then 0
    else DigitCount(s[..|s| - 1]) + (if IsDigit(s[|s| - 1]) then 1 else 0)
  }

  /** A digit string `int()` converts: well formed and within the digit limit. */
  predicate IsConvertible(s: string) {
    IsDigitString(s) && DigitCount(s) <= MaxStrDigits
  }

  /** `int(text)` on decimal text: None where Python raises ValueError. */
  function ParseInt(text: string): Option<int> {
    var t := Strip(text, IsIntSpace);
    if |t| > 0 && (t[0] == '+' || t[0] == '-') then
      if IsConvertible(t[1..]) then
        var magnitude: int := DigitsValue(t[1..]);
        Some(if t[0] == '-' then -magnitude else magnitude)
      else None
    else if IsConvertible(t) then Some(DigitsValue(t))
    else None
  }

  function DigitChar(d: nat): char
    requires d < 10
  {
    ('0' as int + d) as char
  }

  /** `str(n)` for a natural number. */
  function ShowNat(n: nat): string
    decreases n
  {
    if n < 10 then [DigitChar(n)] else ShowNat(n / 10) + [DigitChar(n % 10)]
  }

  /** `str(n)`. */
  function ShowInt(n: int): string {
    if n < 0 then "-" + ShowNat(-n) else ShowNat(n)
  }

  lemma {:induction false} ShowNatDigits(n: nat)
    ensures |ShowNat(n)| > 0
    ensures forall i :: 0 <= i < |ShowNat(n)| ==> IsDigit(ShowNat(n)[i])
    ensures DigitsValue(ShowNat(n)) == n
    ensures DigitCount(ShowNat(n)) == |ShowNat(n)|
    decreases n
  {
    if n >= 10 {
      ShowNatDigits(n / 10);
      var s := ShowNat(n);
      assert s[..|s| - 1] == ShowNat(n / 10);
    }
  }

  /** Text whose first and last characters are kept is its own strip. */
  lemma StripKeeps(s: string, drop: char -> bool)
    requires s != [] && !drop(s[0]) && !drop(s[|s| - 1])
    ensures Strip(s, drop) == s
  {
    assert TrimLeft(s, drop) == s;
  }

  lemma ParseUnsigned(d: string)
    requires IsDigitString(d)
    ensures ParseInt(d) == (if DigitCount(d) <= MaxStrDigits then Some(DigitsValue(d)) else None)
  {
    StripKeeps(d, IsIntSpace);
  }

  lemma ParseNegative(d: string)
    requires IsDigitString(d)
    ensures ParseInt("-" + d) == (if DigitCount(d) <= MaxStrDigits then Some(0 - DigitsValue(d) as int) else None)
  {
    var s := "-" + d;
    assert s[1..] == d;
    assert s[|s| - 1] == d[|d| - 1];
    StripKeeps(s, IsIntSpace);
  }

  /** Whitespace that `int()` strips may surround the number. */
  lemma ParsePadded(left: string, d: string, right: string)
    requires IsConvertible(d)
    requires forall i :: 0 <= i < |left| ==> IsIntSpace(left[i])
    requires forall i :: 0 <= i < |right| ==> IsIntSpace(right[i])
    ensures ParseInt(left + d + right) == Some(DigitsValue(d))
  {
    var s := left + d + right;
    assert s == left + (d + right);
    assert (d + right)[0] == d[0];
    TrimLeftPast(left, d + right, IsIntSpace);
    TrimRightPast(d, right, IsIntSpace);
    assert Strip(s, IsIntSpace) == d;
    assert d[0] != '+' && d[0] != '-';
  }

  /** An ASCII separator U+001C to U+001F in front of the digits makes `int()` fail. */
  lemma ParseRejectsSeparator(c: char, d: string)
    requires 28 <= c as int <= 31
    requires IsDigitString(d)
    ensures ParseInt([c] + d) == None
  {
    var t := [c] + d;
    assert t[|t| - 1] == d[|d| - 1];
    StripKeeps(t, IsIntSpace);
  }

  /** `lstrip` passes over a stripped prefix and stops at a kept character. */
  lemma {:induction false} TrimLeftPast(w: string, s: string, drop: char -> bool)
    requires forall i :: 0 <= i < |w| ==> drop(w[i])
    requires s != [] && !drop(s[0])
    ensures TrimLeft(w + s, drop) == s
    decreases |w|
  {
    if w == [] {
      assert w + s == s;
    } else {
      assert (w + s)[1..] == w[1..] + s;
      TrimLeftPast(w[1..], s, drop);
    }
  }

  /** `rstrip` passes over a stripped suffix and stops at a kept character. */
  lemma {:induction false} TrimRightPast(s: string, w: string, drop: char -> bool)
    requires forall i :: 0 <= i < |w| ==> drop(w[i])
    requires s != [] && !drop(s[|s| - 1])
    ensures TrimRight(s + w, drop) == s
    decreases |w|
  {
    if w == [] {
      assert s + w == s;
    } else {
      assert (s + w)[..|s + w| - 1] == s + w[..|w| - 1];
      TrimRightPast(s, w[..|w| - 1], drop);
    }
  }

  /** `int(str(n)) == n` for every number `str` writes within the digit limit. */
  lemma ParseShowInt(n: int)
    requires |ShowNat(if n < 0 then -n else n)| <= MaxStrDigits
    ensures ParseInt(ShowInt(n)) == Some(n)
  {
    if n < 0 {
      ShowNatDigits(-n);
      ParseNegative(ShowNat(-n));
    } else {
      ShowNatDigits(n);
      ParseUnsigned(ShowNat(n));
    }
  }
}
