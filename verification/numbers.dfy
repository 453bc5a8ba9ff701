/**
 The integer and byte-length conventions of the server: Rust's `u32`, the
 truncating `as u32` cast, `String::len` (a UTF-8 byte count), `u32::to_string`
 and `str::parse::<u32>`.
 */
module Numbers {
  import opened Wrappers

  const U32_LIMIT: int := 0x1_0000_0000

  /** Rust's `u32`. */
  type u32 = x: int | 0 <= x < U32_LIMIT

  /** Rust's `n as u32` on a `usize`: keeps the low 32 bits. */
  function AsU32(n: nat): (r: u32)
    ensures n < U32_LIMIT ==> r == n
    ensures r <= n
  {
    n % U32_LIMIT
  }

  /** Number of bytes UTF-8 uses to encode `c`. */
  function Utf8Width(c: char): nat {
    var v := c as int;
    if v < 0x80 then 1 else if v < 0x800 then 2 else if v < 0x1_0000 then 3 else 4
  }

  /** Rust's `String::len`: the length of `s` in UTF-8 bytes. */
  function Utf8Len(s: string): nat
    decreases |s|
  {
    if |s| == 0 then 0 else Utf8Len(s[..|s| - 1]) + Utf8Width(s[|s| - 1])
  }

  predicate IsAscii(s: string) {
    forall i :: 0 <= i < |s| ==> s[i] as int < 0x80
  }

  /** Every character takes one to four bytes; an ASCII string takes exactly one byte per character. */
  lemma {:induction false} Utf8LenBounds(s: string)
    ensures |s| <= Utf8Len(s) <= 4 * |s|
    ensures IsAscii(s) ==> Utf8Len(s) == |s|
    ensures Utf8Len(s) == |s| ==> IsAscii(s)
    decreases |s|
  {
    if |s| > 0 {
      var p := s[..|s| - 1];
      Utf8LenBounds(p);
      if IsAscii(s) {
        assert IsAscii(p) by {
          forall i | 0 <= i < |p| ensures p[i] as int < 0x80 {
            assert p[i] == s[i];
          }
        }
      }
      if Utf8Len(s) == |s| {
        assert Utf8Width(s[|s| - 1]) == 1;
        forall i | 0 <= i < |s| ensures s[i] as int < 0x80 {
          if i < |s| - 1 {
            assert s[i] == p[i];
          }
        }
      }
    }
  }

  predicate IsDigit(c: char) {
    '0' <= c <= '9'
  }

  function DigitValue(c: char): nat
    requires IsDigit(c)
  {
    c as int - '0' as int
  }

  function DigitChar(d: nat): (c: char)
    requires d < 10
    ensures IsDigit(c) && DigitValue(c) == d
  {
    ('0' as int + d) as char
  }

  /** The value of a string of decimal digits, most significant first. */
  function DigitsValue(ds: string): nat
    requires AllDigits(ds)
    decreases |ds|
  {
    if |ds| == 0 then 0 else 10 * DigitsValue(ds[..|ds| - 1]) + DigitValue(ds[|ds| - 1])
  }

  /** Rust's `to_string` on an unsigned integer: decimal, no sign, no leading zeros. */
  function DecimalString(n: nat): (r: string)
    ensures |r| > 0
    ensures forall i :: 0 <= i < |r| ==> IsDigit(r[i])
    ensures |r| > 1 ==> r[0] != '0'
    decreases n
  {
    if n < 10 then [DigitChar(n)] else DecimalString(n / 10) + [DigitChar(n % 10)]
  }

  /**
   Rust's `str::parse::<u32>`: an optional leading `+` (a lone sign is
   rejected, and `-` is no digit for an unsigned type) followed by at least one
   ASCII digit, whose value must fit in 32 bits.
   */
  function ParseU32(s: string): (r: Option<u32>)
    ensures |s| == 0 ==> r == None
    ensures |s| > 0 && s[0] == '-' ==> r == None
    ensures r.Some? <==>
      && |UnsignedDigits(s)| > 0
      && AllDigits(UnsignedDigits(s))
      && DigitsValue(UnsignedDigits(s)) < U32_LIMIT
    ensures r.Some? ==> r.value == DigitsValue(UnsignedDigits(s))
  {
    if |s| == 0 then None
    else if (s[0] == '+' || s[0] == '-') && |s| == 1 then None
    else
      var digits := UnsignedDigits(s);
      if AllDigits(digits) then
        var v := DigitsValue(digits);
        if v < U32_LIMIT then Some(v) else None
      else None
  }

  /** The part of `s` that must be digits: `s` without one optional leading `+`. */
  function UnsignedDigits(s: string): string {
    if |s| > 0 && s[0] == '+' then s[1..] else s
  }

  predicate AllDigits(ds: string) {
    forall i :: 0 <= i < |ds| ==> IsDigit(ds[i])
  }

  /** `parse::<u32>` rejects a trailing non-digit and a sign after the `+`. */
  lemma ParseU32RejectsNonDigits()
    ensures ParseU32("1a") == None
    ensures ParseU32("+-1") == None
  {
    assert !IsDigit("1a"[1]);
    assert UnsignedDigits("+-1") == "-1" && !IsDigit("-1"[0]);
  }

  /** `parse::<u32>` accepts the largest `u32` and rejects one more. */
  lemma ParseU32Overflow()
    ensures ParseU32("4294967295") == Some(4294967295)
    ensures ParseU32("4294967296") == None
  {
    assert "4"[..0] == "";
    assert DigitsValue("4") == 4;
    assert "42"[..1] == "4";
    assert DigitsValue("42") == 42;
    assert "429"[..2] == "42";
    assert DigitsValue("429") == 429;
    assert "4294"[..3] == "429";
    assert DigitsValue("4294") == 4294;
    assert "42949"[..4] == "4294";
    assert DigitsValue("42949") == 42949;
    assert "429496"[..5] == "42949";
    assert DigitsValue("429496") == 429496;
    assert "4294967"[..6] == "429496";
    assert DigitsValue("4294967") == 4294967;
    assert "42949672"[..7] == "4294967";
    assert DigitsValue("42949672") == 42949672;
    assert "429496729"[..8] == "42949672";
    assert DigitsValue("429496729") == 429496729;
    assert "4294967295"[..9] == "429496729";
    assert DigitsValue("4294967295") == 4294967295;
    assert "4294967296"[..9] == "429496729";
    assert DigitsValue("4294967296") == 4294967296;
  }

  /** `parse::<u32>` accepts leading zeros. */
  lemma ParseU32LeadingZeros()
    ensures ParseU32("007") == Some(7)
  {
    assert "0"[..0] == "";
    assert DigitsValue("0") == 0;
    assert "00"[..1] == "0";
    assert DigitsValue("00") == 0;
    assert "007"[..2] == "00";
    assert DigitsValue("007") == 7;
  }

  /** Reading back the decimal form of a digit string gives its value. */
  lemma {:induction false} DecimalStringValue(n: nat)
    ensures DigitsValue(DecimalString(n)) == n
    decreases n
  {
    var r := DecimalString(n);
    if n >= 10 {
      DecimalStringValue(n / 10);
      assert r[..|r| - 1] == DecimalString(n / 10);
    }
  }

  /** `to_string` and `parse::<u32>` are inverse on every `u32`. */
  lemma DecimalRoundTrip(n: u32)
    ensures ParseU32(DecimalString(n)) == Some(n)
    ensures ParseU32("+" + DecimalString(n)) == Some(n)
  {
    DecimalStringValue(n);
    var r := DecimalString(n);
    assert ("+" + r)[1..] == r;
  }
}
