/**
 * Character and string helpers used by the compliance rules: ASCII case mapping
 * (`str.lower`, `str.title`), substring search (`in` on strings) and the
 * whitespace class of a Python `str` regular expression (`\s`).
 */
module Text {

  predicate IsDigit(c: char) {
    '0' <= c <= '9'
  }

  predicate AllDigits(s: string) {
    forall k :: 0 <= k < |s| ==> IsDigit(s[k])
  }

  /** The value of a decimal digit (zero for any other character). */
  function DigitValue(c: char): nat {
    if IsDigit(c) then (c as int - '0' as int) else 0
  }

  function Digit(d: nat): (c: char)
    requires d < 10
    ensures IsDigit(c) && DigitValue(c) == d
  {
    ('0' as int + d) as char
  }

  function Pow10(k: nat): (r: nat)
    ensures r > 0
  {
    if k == 0 then 1 else Pow10(k - 1) * 10
  }

  /** The value of a string of decimal digits, most significant first (`int(s)`). */
  function DigitsValue(s: string): nat {
    if s == [] then 0 else DigitsValue(s[..|s| - 1]) * 10 + DigitValue(s[|s| - 1])
  }

  /** The `width` low-order decimal digits of `n`, zero-padded on the left. */
  function PadDigits(n: nat, width: nat): (r: string)
    ensures |r| == width
  {
    if width == 0 then [] else PadDigits(n / 10, width - 1) + [Digit(n % 10)]
  }

  predicate IsUpper(c: char) {
    'A' <= c <= 'Z'
  }

  predicate IsLower(c: char) {
    'a' <= c <= 'z'
  }

  /** A "cased" character in the sense of `str.title`, restricted to ASCII. */
  predicate IsLetter(c: char) {
    IsUpper(c) || IsLower(c)
  }

  function LowerChar(c: char): (r: char)
    ensures IsLetter(c) <==> IsLetter(r)
    ensures !IsUpper(r)
    ensures !IsLetter(c) ==> r == c
  {
    if IsUpper(c) then (c as int + 32) as char else c
  }

  function UpperChar(c: char): (r: char)
    ensures IsLetter(c) <==> IsLetter(r)
    ensures !IsLower(r)
    ensures LowerChar(r) == LowerChar(c)
    ensures !IsLetter(c) ==> r == c
  {
    if IsLower(c) then (c as int - 32) as char else c
  }

  /** `str.lower` over ASCII: every upper-case letter is mapped to its lower-case twin. */
  function Lower(s: string): (r: string)
    ensures |r| == |s|
    ensures forall i :: 0 <= i < |s| ==> r[i] == LowerChar(s[i])
  {
    seq(|s|, i requires 0 <= i < |s| => LowerChar(s[i]))
  }

  /**
   * `str.title` over ASCII: a letter that follows a non-letter (or starts the
   * string) is upper-cased, every other letter is lower-cased, and every other
   * character is kept. Digits and punctuation therefore start new words.
   */
  function Title(s: string): (r: string)
    ensures |r| == |s|
    ensures forall i :: 0 <= i < |s| ==> r[i] == TitleCharAt(s, i)
  {
    seq(|s|, i requires 0 <= i < |s| => TitleCharAt(s, i))
  }

  /** The character `str.title` puts at position `i` of `s`. */
  function TitleCharAt(s: string, i: nat): (r: char)
    requires i < |s|
    ensures IsLetter(r) <==> IsLetter(s[i])
    ensures LowerChar(r) == LowerChar(s[i])
  {
    if i == 0 || !IsLetter(s[i - 1]) then UpperChar(s[i]) else LowerChar(s[i])
  }

  /** Python's `needle in hay` on strings: `needle` is a contiguous piece of `hay`. */
  predicate Occurs(needle: string, hay: string) {
    exists i :: 0 <= i <= |hay| - |needle| && OccursAt(needle, hay, i)
  }

  predicate OccursAt(needle: string, hay: string, i: nat)
    requires i + |needle| <= |hay|
  {
    hay[i..i + |needle|] == needle
  }

  /**
   * The characters `\s` matches in a Python `str` pattern, i.e. those for which
   * `str.isspace()` holds.
   */
  predicate IsSpace(c: char) {
    || '\U{0009}' <= c <= '\U{000D}'
    || '\U{001C}' <= c <= '\U{0020}'
    || c == '\U{0085}' || c == '\U{00A0}' || c == '\U{1680}'
    || '\U{2000}' <= c <= '\U{200A}'
    || c == '\U{2028}' || c == '\U{2029}' || c == '\U{202F}' || c == '\U{205F}'
    || c == '\U{3000}'
  }

  /** Title-casing changes only case: lower-casing undoes it. */
  lemma LowerOfTitle(s: string)
    ensures Lower(Title(s)) == Lower(s)
  {
    assert forall i :: 0 <= i < |s| ==> Lower(Title(s))[i] == Lower(s)[i];
  }

  /** Title-casing looks only at the lower-cased text, which is why the source may
      title-case a vendor name it has already lower-cased. */
  lemma TitleOfLower(s: string)
    ensures Title(Lower(s)) == Title(s)
  {
    forall i | 0 <= i < |s|
      ensures Title(Lower(s))[i] == Title(s)[i]
    {
      assert i > 0 ==> (IsLetter(Lower(s)[i - 1]) <==> IsLetter(s[i - 1]));
    }
  }

  /** Lower-casing twice is lower-casing once. */
  lemma LowerIdempotent(s: string)
    ensures Lower(Lower(s)) == Lower(s)
  {
  }

  /** Two lower-cased names with the same title-cased form are the same name. */
  lemma TitleInjectiveOnLower(a: string, b: string)
    requires Lower(a) == a && Lower(b) == b
    requires Title(a) == Title(b)
    ensures a == b
  {
    LowerOfTitle(a);
    LowerOfTitle(b);
  }

  lemma {:induction false} DigitsValueAppend(a: string, b: string)
    ensures DigitsValue(a + b) == DigitsValue(a) * Pow10(|b|) + DigitsValue(b)
    decreases |b|
  {
    if b == [] {
      assert a + b == a;
    } else {
      var b' := b[..|b| - 1];
      assert (a + b)[..|a + b| - 1] == a + b';
      DigitsValueAppend(a, b');
      var x, q, y, d := DigitsValue(a), Pow10(|b'|), DigitsValue(b'), DigitValue(b[|b| - 1]);
      assert DigitsValue(a + b) == DigitsValue(a + b') * 10 + d;
      assert DigitsValue(b) == y * 10 + d;
      ShiftDigit(x, q, y, d);
    }
  }

  lemma ShiftDigit(x: int, q: int, y: int, d: int)
    ensures (x * q + y) * 10 + d == x * (q * 10) + (y * 10 + d)
  {
  }

  /** Padding a number that fits in `width` digits loses nothing: reading it back gives the number. */
  lemma {:induction false} PadDigitsValue(n: nat, width: nat)
    requires n < Pow10(width)
    ensures AllDigits(PadDigits(n, width))
    ensures DigitsValue(PadDigits(n, width)) == n
  {
    if width > 0 {
      PadDigitsValue(n / 10, width - 1);
      var r := PadDigits(n, width);
      assert r[..width - 1] == PadDigits(n / 10, width - 1);
    }
  }

  /** Reading a digit string and padding its value to the same width gives the string back. */
  lemma {:induction false} PadDigitsOfValue(s: string)
    requires AllDigits(s)
    ensures PadDigits(DigitsValue(s), |s|) == s
  {
    if s != [] {
      var init := s[..|s| - 1];
      PadDigitsOfValue(init);
      var v := DigitsValue(s);
      assert v / 10 == DigitsValue(init) && v % 10 == DigitValue(s[|s| - 1]);
      assert s == init + [s[|s| - 1]];
    }
  }
}
