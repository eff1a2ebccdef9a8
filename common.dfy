/**
  Shared vocabulary: an Option type, the string operations of Rust's standard
  library that the core relies on (prefix tests, `split`, `trim`, `replace`,
  byte length), and the decimal formatting and parsing of integers.
  Strings are sequences of Unicode scalar values; byte lengths are UTF-8 lengths.
 */
module Common {

  datatype Option<+T> = None | Some(value: T)

  // ---------------------------------------------------------------------------
  // Prefixes, suffixes, substrings

  predicate StartsWith(s: string, prefix: string) {
    |prefix| <= |s| && s[..|prefix|] == prefix
  }

  predicate EndsWith(s: string, suffix: string) {
    |suffix| <= |s| && s[|s| - |suffix|..] == suffix
  }

  /** `str::contains(&str)`: `needle` occurs somewhere in `s`. */
  predicate Contains(s: string, needle: string) {
    exists i :: 0 <= i <= |s| && StartsWith(s[i..], needle)
  }

  lemma StartsWithConcat(prefix: string, rest: string)
    ensures StartsWith(prefix + rest, prefix)
    ensures (prefix + rest)[|prefix|..] == rest
  {
    assert (prefix + rest)[..|prefix|] == prefix;
  }

  lemma EndsWithConcat(init: string, suffix: string)
    ensures EndsWith(init + suffix, suffix)
  {
    assert (init + suffix)[|init|..] == suffix;
  }

  // ---------------------------------------------------------------------------
  // Byte length

  /** Number of bytes the UTF-8 encoding of `c` takes. */
  function Utf8Width(c: char): nat {
    if c as int < 0x80 then 1
    else if c as int < 0x800 then 2
    else if c as int < 0x10000 then 3
    else 4
  }

  /** `str::len()`: the length of the UTF-8 encoding, in bytes. */
  function Utf8Len(s: string): (n: nat)
    ensures |s| <= n <= 4 * |s|
  {
    if s == [] then 0 else Utf8Len(s[..|s| - 1]) + Utf8Width(s[|s| - 1])
  }

  predicate IsAscii(s: string) {
    forall i :: 0 <= i < |s| ==> s[i] as int < 0x80
  }

  lemma {:induction false} AsciiUtf8Len(s: string)
    requires IsAscii(s)
    ensures Utf8Len(s) == |s|
  {
    if s != [] {
      AsciiUtf8Len(s[..|s| - 1]);
    }
  }

  /**
    The prefix of `s` that is exactly `n` bytes long, or None when byte `n`
    falls inside the encoding of a character (where Rust's `&s[..n]` panics).
   */
  function BytePrefix(s: string, n: nat): Option<string>
    decreases |s|
  {
    if n == 0 then Some([])
    else if s == [] then None
    else if Utf8Width(s[0]) > n then None
    else match BytePrefix(s[1..], n - Utf8Width(s[0]))
      case None => None
      case Some(p) => Some([s[0]] + p)
  }

  lemma {:induction false} AsciiBytePrefix(s: string, n: nat)
    requires IsAscii(s) && n <= |s|
    ensures BytePrefix(s, n) == Some(s[..n])
  {
    if n > 0 {
      assert IsAscii(s[1..]);
      AsciiBytePrefix(s[1..], n - 1);
      assert [s[0]] + s[1..][..n - 1] == s[..n];
    }
  }

  // ---------------------------------------------------------------------------
  // Whitespace and trimming (`char::is_whitespace`, the Unicode White_Space set)

  predicate IsWhitespace(c: char) {
    || ('\U{0009}' <= c <= '\U{000D}') || c == ' ' || c == '\U{0085}' || c == '\U{00A0}'
    || c == '\U{1680}' || ('\U{2000}' <= c <= '\U{200A}') || c == '\U{2028}' || c == '\U{2029}'
    || c == '\U{202F}' || c == '\U{205F}' || c == '\U{3000}'
  }

  /** `str::trim()`: drop leading and trailing whitespace. */
  function Trim(s: string): (t: string)
    ensures |t| <= |s|
    ensures t != [] ==> !IsWhitespace(t[0]) && !IsWhitespace(t[|t| - 1])
    decreases |s|
  {
    if s == [] then []
    else if IsWhitespace(s[0]) then Trim(s[1..])
    else if IsWhitespace(s[|s| - 1]) then Trim(s[..|s| - 1])
    else s
  }

  /** Every character is whitespace. */
  predicate Blank(s: string) {
    forall i :: 0 <= i < |s| ==> IsWhitespace(s[i])
  }

  /** `s.trim().is_empty()` holds exactly for strings made of whitespace. */
  lemma {:induction false} TrimEmptyIffBlank(s: string)
    ensures Trim(s) == [] <==> Blank(s)
    decreases |s|
  {
    if s == [] {
    } else if IsWhitespace(s[0]) {
      TrimEmptyIffBlank(s[1..]);
      assert Blank(s) <==> Blank(s[1..]) by {
        if Blank(s[1..]) {
          forall i | 0 <= i < |s| ensures IsWhitespace(s[i]) {
            if i > 0 { assert s[i] == s[1..][i - 1]; }
          }
        }
      }
    } else {
      assert !Blank(s);
      if IsWhitespace(s[|s| - 1]) {
        TrimEmptyIffBlank(s[..|s| - 1]);
        assert !Blank(s[..|s| - 1]) by { assert s[..|s| - 1][0] == s[0]; }
      }
    }
  }

  // ---------------------------------------------------------------------------
  // Splitting on one character (`str::split(char)`)

  function IndexOf(s: string, c: char): (i: nat)
    requires c in s
    ensures i < |s| && s[i] == c && c !in s[..i]
  {
    if s[0] == c then 0
    else
      assert c in s[1..] by { var k :| 0 <= k < |s| && s[k] == c; assert s[1..][k - 1] == c; }
      var j := IndexOf(s[1..], c);
      assert s[..j + 1] == [s[0]] + s[1..][..j];
      j + 1
  }

  /** The pieces between occurrences of `sep`; never empty (`"".split('_')` is `[""]`). */
  function Split(s: string, sep: char): (parts: seq<string>)
    ensures |parts| >= 1
    ensures forall k :: 0 <= k < |parts| ==> sep !in parts[k]
    decreases |s|
  {
    if sep !in s then [s]
    else
      var i := IndexOf(s, sep);
      [s[..i]] + Split(s[i + 1..], sep)
  }

  lemma SplitAt(a: string, sep: char, b: string)
    requires sep !in a
    ensures Split(a + [sep] + b, sep) == [a] + Split(b, sep)
  {
    var s := a + [sep] + b;
    assert s[|a|] == sep;
    var i := IndexOf(s, sep);
    assert s[..i] == a;
    assert s[i + 1..] == b;
  }

  // ---------------------------------------------------------------------------
  // Character-wise rewriting

  /** `str::replace(from, to)` for single characters. */
  function ReplaceChar(s: string, from: char, to: char): (r: string)
    ensures |r| == |s|
    ensures forall i :: 0 <= i < |s| ==> r[i] == if s[i] == from then to else s[i]
  {
    seq(|s|, i requires 0 <= i < |s| => if s[i] == from then to else s[i])
  }

  predicate IsAsciiAlphanumeric(c: char) {
    ('a' <= c <= 'z') || ('A' <= c <= 'Z') || ('0' <= c <= '9')
  }

  function AsciiLowerChar(c: char): char {
    if 'A' <= c <= 'Z' then (c as int - 'A' as int + 'a' as int) as char else c
  }

  function AsciiLower(s: string): (r: string)
    ensures |r| == |s|
    ensures forall i :: 0 <= i < |s| ==> r[i] == AsciiLowerChar(s[i])
  {
    seq(|s|, i requires 0 <= i < |s| => AsciiLowerChar(s[i]))
  }

  // ---------------------------------------------------------------------------
  // Decimal formatting

  predicate IsDigit(c: char) {
    '0' <= c <= '9'
  }

  predicate AllDigits(s: string) {
    forall i :: 0 <= i < |s| ==> IsDigit(s[i])
  }

  function DigitChar(d: nat): char
    requires d < 10
  {
    ('0' as int + d) as char
  }

  /** `format!("{}", n)` for a non-negative integer. */
  function NatStr(n: nat): (s: string)
    ensures |s| >= 1 && AllDigits(s)
  {
    if n < 10 then [DigitChar(n)] else NatStr(n / 10) + [DigitChar(n % 10)]
  }

  /** `format!("{}", i)` for a signed integer. */
  function IntStr(i: int): (s: string)
    ensures |s| >= 1 && '_' !in s
  {
    if i < 0 then "-" + NatStr(-i) else NatStr(i)
  }

  function Zeros(k: nat): (s: string)
    ensures |s| == k && AllDigits(s)
    ensures forall i :: 0 <= i < k ==> s[i] == '0'
  {
    seq(k, i => '0')
  }

  /** `format!("{:0w$}", n)`: zero-padded to at least `w` digits. */
  function PadTo(n: nat, w: nat): (s: string)
    ensures |s| >= w && AllDigits(s)
  {
    var d := NatStr(n);
    if |d| < w then Zeros(w - |d|) + d else d
  }

  // ---------------------------------------------------------------------------
  // Decimal parsing (`str::parse::<i32>` and `str::parse::<u32>`)

  const I32Min: int := -0x8000_0000
  const I32Max: int := 0x7FFF_FFFF
  const U32Max: int := 0xFFFF_FFFF

  function DigitsValue(s: string): nat
    requires AllDigits(s)
  {
    if s == [] then 0 else DigitsValue(s[..|s| - 1]) * 10 + (s[|s| - 1] as int - '0' as int)
  }

  /** A non-empty run of ASCII digits, read as an unbounded natural number. */
  function ParseDigits(s: string): Option<nat> {
    if |s| > 0 && AllDigits(s) then Some(DigitsValue(s)) else None
  }

  /** `str::parse::<i32>`: optional '+' or '-', then digits, within the i32 range. */
  function ParseI32(s: string): (r: Option<int>)
    ensures r.Some? ==> I32Min <= r.value <= I32Max
  {
    if |s| == 0 then None
    else if (s[0] == '+' || s[0] == '-') && |s| == 1 then None
    else
      var negative := s[0] == '-';
      var digits := if s[0] == '+' || s[0] == '-' then s[1..] else s;
      match ParseDigits(digits)
      case None => None
      case Some(v) =>
        var x := if negative then -(v as int) else v as int;
        if I32Min <= x <= I32Max then Some(x) else None
  }

  /** `str::parse::<u32>`: optional '+', then digits, within the u32 range ('-' is rejected). */
  function ParseU32(s: string): (r: Option<nat>)
    ensures r.Some? ==> r.value <= U32Max
  {
    if |s| == 0 then None
    else if s[0] == '+' && |s| == 1 then None
    else
      var digits := if s[0] == '+' then s[1..] else s;
      match ParseDigits(digits)
      case None => None
      case Some(v) => if v <= U32Max then Some(v) else None
  }

  lemma {:induction false} DigitsValueOfNatStr(n: nat)
    ensures DigitsValue(NatStr(n)) == n
  {
    if n >= 10 {
      DigitsValueOfNatStr(n / 10);
      var s := NatStr(n);
      assert s[..|s| - 1] == NatStr(n / 10);
    }
  }

  lemma {:induction false} DigitsValueLeadingZeros(k: nat, s: string)
    requires AllDigits(s)
    ensures DigitsValue(Zeros(k) + s) == DigitsValue(s)
    decreases |s|, k
  {
    if s == [] {
      assert Zeros(k) + s == Zeros(k);
      if k > 0 {
        assert Zeros(k)[..k - 1] == Zeros(k - 1);
        DigitsValueLeadingZeros(k - 1, []);
        assert Zeros(k - 1) + [] == Zeros(k - 1);
      }
    } else {
      var t := Zeros(k) + s;
      assert t[..|t| - 1] == Zeros(k) + s[..|s| - 1];
      DigitsValueLeadingZeros(k, s[..|s| - 1]);
    }
  }

  lemma PadToValue(n: nat, w: nat)
    ensures DigitsValue(PadTo(n, w)) == n
  {
    DigitsValueOfNatStr(n);
    if |NatStr(n)| < w {
      DigitsValueLeadingZeros(w - |NatStr(n)|, NatStr(n));
    }
  }

  /** Formatting a signed integer and parsing it back as i32 is the identity. */
  lemma ParseI32OfIntStr(i: int)
    requires I32Min <= i <= I32Max
    ensures ParseI32(IntStr(i)) == Some(i)
  {
    var n: nat := if i < 0 then -i else i;
    var digits := NatStr(n);
    DigitsValueOfNatStr(n);
    assert ParseDigits(digits) == Some(n);
    if i < 0 {
      var s := "-" + digits;
      assert s == IntStr(i) && s[0] == '-' && |s| > 1;
      assert s[1..] == digits;
    } else {
      assert digits == IntStr(i);
      assert IsDigit(digits[0]);
    }
  }

  /** Zero-padded formatting parsed back as u32 is the identity. */
  lemma ParseU32OfPadTo(n: nat, w: nat)
    requires n <= U32Max
    ensures ParseU32(PadTo(n, w)) == Some(n)
  {
    PadToValue(n, w);
  }
  // ---------------------------------------------------------------------------
  // Lexicographic order (`Ord for str`)

  /**
    `a <= b` in Rust's string order. Rust compares the UTF-8 bytes, and UTF-8
    preserves the order of scalar values, so comparing characters gives the
    same answer.
   */
  predicate StrLe(a: string, b: string) {
    if a == [] then true
    else if b == [] then false
    else if a[0] != b[0] then a[0] < b[0]
    else StrLe(a[1..], b[1..])
  }

  lemma {:induction false} StrLeTotal(a: string, b: string)
    ensures StrLe(a, b) || StrLe(b, a)
  {
    if a != [] && b != [] && a[0] == b[0] {
      StrLeTotal(a[1..], b[1..]);
    }
  }

  lemma {:induction false} StrLeTrans(a: string, b: string, c: string)
    requires StrLe(a, b) && StrLe(b, c)
    ensures StrLe(a, c)
  {
    if a != [] && b != [] && c != [] && a[0] == b[0] && b[0] == c[0] {
      StrLeTrans(a[1..], b[1..], c[1..]);
    }
  }

  lemma {:induction false} StrLeAntisym(a: string, b: string)
    requires StrLe(a, b) && StrLe(b, a)
    ensures a == b
  {
    if a != [] && b != [] {
      StrLeAntisym(a[1..], b[1..]);
      assert a == [a[0]] + a[1..] && b == [b[0]] + b[1..];
    }
  }
}
