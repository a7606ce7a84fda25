/** Text and number helpers shared by the trace loader, the loggers and the
    diagnostic engine: Python's whitespace handling, `int(s)` / `int(s, 16)`
    on a plain digit grammar, `f"{n:X}"`, `f"{n:02X}"`, `str(n)`,
    `bytes.hex().upper()` and `bytes.fromhex`. */
module Common {

  datatype Option<T> = None | Some(value: T)

  /** A byte of a CAN payload or of a diagnostic message. */
  type byte = x: int | 0 <= x < 256

  /** The last element of a sequence, and everything before it. */
  function Last<T>(s: seq<T>): T requires s != [] { s[|s| - 1] }
  function Init<T>(s: seq<T>): seq<T> requires s != [] { s[..|s| - 1] }

  // ---------------------------------------------------------------------
  // Whitespace and case

  /** The characters Python's `str.strip()` and `str.split()` treat as
      whitespace, restricted to the Latin-1 range. */
  predicate IsSpace(c: char) {
    c == ' ' || c == '\t' || c == '\n' || c == '\r' || c == '\U{0B}' || c == '\U{0C}'
    || c == '\U{1C}' || c == '\U{1D}' || c == '\U{1E}' || c == '\U{1F}'
    || c == '\U{85}' || c == '\U{A0}'
  }

  predicate IsBlank(s: string) {
    forall i :: 0 <= i < |s| ==> IsSpace(s[i])
  }

  function TrimStart(s: string): (r: string)
    ensures |r| <= |s| && r == s[|s| - |r|..]
    ensures r == [] || !IsSpace(r[0])
    ensures forall i :: 0 <= i < |s| - |r| ==> IsSpace(s[i])
  {
    if s == [] || !IsSpace(s[0]) then s
    else TrimStart(s[1..])
  }

  function TrimEnd(s: string): (r: string)
    ensures |r| <= |s| && r == s[..|r|]
    ensures r == [] || !IsSpace(r[|r| - 1])
    ensures forall i :: |r| <= i < |s| ==> IsSpace(s[i])
  {
    if s == [] || !IsSpace(s[|s| - 1]) then s
    else TrimEnd(s[..|s| - 1])
  }

  /** Python's `str.strip()`: the text with leading and trailing whitespace
      removed; it is empty exactly when the text is blank. */
  function Strip(s: string): (r: string)
    ensures |r| <= |s|
    ensures r == [] || (!IsSpace(r[0]) && !IsSpace(r[|r| - 1]))
    ensures r == [] <==> IsBlank(s)
  {
    TrimEnd(TrimStart(s))
  }

  /** Text with no blank at either end is its own strip. */
  lemma StripUnchanged(s: string)
    requires s != [] && !IsSpace(s[0]) && !IsSpace(s[|s| - 1])
    ensures Strip(s) == s
  {
    assert TrimStart(s) == s;
    assert TrimEnd(s) == s;
  }

  /** `"".join(s.split())`: every whitespace character removed. */
  function RemoveSpaces(s: string): (r: string)
    ensures forall i :: 0 <= i < |r| ==> !IsSpace(r[i])
    ensures |r| <= |s|
    ensures (forall i :: 0 <= i < |s| ==> !IsSpace(s[i])) ==> r == s
  {
    if s == [] then []
    else if IsSpace(s[|s| - 1]) then RemoveSpaces(s[..|s| - 1])
    else RemoveSpaces(s[..|s| - 1]) + [s[|s| - 1]]
  }

  /** Removing whitespace works piece by piece: every non-blank character
      is kept, in order. */
  lemma {:induction false} RemoveSpacesAppend(a: string, b: string)
    ensures RemoveSpaces(a + b) == RemoveSpaces(a) + RemoveSpaces(b)
    decreases |b|
  {
    if b != [] {
      var b' := b[..|b| - 1];
      assert (a + b)[..|a + b| - 1] == a + b';
      RemoveSpacesAppend(a, b');
    } else {
      assert a + b == a;
    }
  }

  function UpperChar(c: char): char {
    if 'a' <= c <= 'z' then (c as int - 'a' as int + 'A' as int) as char else c
  }

  /** `str.upper()` on ASCII letters. */
  function Upper(s: string): (r: string)
    ensures |r| == |s|
    ensures forall i :: 0 <= i < |s| ==> r[i] == UpperChar(s[i])
  {
    seq(|s|, i requires 0 <= i < |s| => UpperChar(s[i]))
  }

  /** Upper-casing twice changes nothing more. */
  lemma UpperIdempotent(s: string)
    ensures Upper(Upper(s)) == Upper(s)
  {
    assert forall i :: 0 <= i < |s| ==> UpperChar(UpperChar(s[i])) == UpperChar(s[i]);
  }

  // ---------------------------------------------------------------------
  // Digits

  /** The value of a character read as a digit of base 10 or 16 (Python
      accepts either case for hexadecimal digits); 99 when it is none. */
  function DigitValue(c: char): nat {
    if '0' <= c <= '9' then c as int - '0' as int
    else if 'a' <= c <= 'f' then c as int - 'a' as int + 10
    else if 'A' <= c <= 'F' then c as int - 'A' as int + 10
    else 99
  }

  predicate IsDigitIn(c: char, base: nat) {
    DigitValue(c) < base
  }

  predicate AllDigits(s: string, base: nat) {
    forall i :: 0 <= i < |s| ==> IsDigitIn(s[i], base)
  }

  function DigitsValue(s: string, base: nat): nat
    requires AllDigits(s, base)
  {
    if s == [] then 0
    else DigitsValue(s[..|s| - 1], base) * base + DigitValue(s[|s| - 1])
  }

  /** A non-empty run of digits of the given base, read as a number. */
  function ParseDigits(s: string, base: nat): (r: Option<nat>)
    ensures r.Some? <==> |s| > 0 && AllDigits(s, base)
  {
    if |s| > 0 && AllDigits(s, base) then Some(DigitsValue(s, base)) else None
  }

  /** `int(s)` on a string of decimal digits. */
  function ParseDecimal(s: string): (r: Option<nat>)
    ensures r.Some? <==> |s| > 0 && AllDigits(s, 10)
  {
    ParseDigits(s, 10)
  }

  predicate HasHexPrefix(s: string) {
    |s| >= 2 && s[0] == '0' && (s[1] == 'x' || s[1] == 'X')
  }

  /** `int(s, 16)`: hexadecimal digits, optionally after a `0x` / `0X`
      prefix, which Python accepts in base 16. */
  function ParseHex(s: string): (r: Option<nat>)
    ensures HasHexPrefix(s) ==> r == ParseDigits(s[2..], 16)
    ensures !HasHexPrefix(s) ==> r == ParseDigits(s, 16)
  {
    if HasHexPrefix(s) then ParseDigits(s[2..], 16) else ParseDigits(s, 16)
  }

  // ---------------------------------------------------------------------
  // Rendering numbers

  /** The upper-case character of a digit below 16. */
  function DigitChar(d: nat): (c: char)
    requires d < 16
    ensures DigitValue(c) == d
    ensures '0' <= c <= '9' || 'A' <= c <= 'F'
  {
    if d < 10 then ('0' as int + d) as char else ('A' as int + d - 10) as char
  }

  predicate IsUpperHexText(s: string) {
    forall i :: 0 <= i < |s| ==> ('0' <= s[i] <= '9' || 'A' <= s[i] <= 'F')
  }

  /** The digits of `n` in `base` (10 or 16), most significant first, no
      leading zero: `str(n)` for 10, `f"{n:X}"` for 16. */
  function ToDigits(n: nat, base: nat): (r: string)
    requires base == 10 || base == 16
    ensures |r| > 0 && AllDigits(r, base)
    ensures IsUpperHexText(r)
    ensures |r| > 1 ==> r[0] != '0'
    decreases n
  {
    if n < base then [DigitChar(n)]
    else
      var r := ToDigits(n / base, base) + [DigitChar(n % base)];
      assert forall i :: 0 <= i < |r| - 1 ==> r[i] == ToDigits(n / base, base)[i];
      r
  }

  /** `str(n)` for a non-negative integer. */
  function ToDecimal(n: nat): string {
    ToDigits(n, 10)
  }

  /** `f"{n:X}"` for a non-negative integer. */
  function ToHex(n: nat): string {
    ToDigits(n, 16)
  }

  /** Reading back the digits of `n` gives `n`. */
  lemma {:induction false} DigitsRoundTrip(n: nat, base: nat)
    requires base == 10 || base == 16
    ensures ParseDigits(ToDigits(n, base), base) == Some(n)
    decreases n
  {
    var r := ToDigits(n, base);
    if n >= base {
      DigitsRoundTrip(n / base, base);
      assert r[..|r| - 1] == ToDigits(n / base, base);
      assert DigitValue(r[|r| - 1]) == n % base;
      assert DigitsValue(r, base) == (n / base) * base + n % base;
    } else {
      assert r == [DigitChar(n)] && r[..0] == [];
      assert DigitsValue(r[..0], base) == 0;
      assert DigitsValue(r, base) == DigitValue(DigitChar(n));
    }
  }

  lemma HexRoundTrip(n: nat)
    ensures ParseHex(ToHex(n)) == Some(n)
    ensures ParseDigits(ToHex(n), 16) == Some(n)
  {
    DigitsRoundTrip(n, 16);
  }

  lemma DecimalRoundTrip(n: nat)
    ensures ParseDecimal(ToDecimal(n)) == Some(n)
  {
    DigitsRoundTrip(n, 10);
  }

  /** `f"{n:02X}"`: at least two hexadecimal digits, zero-padded; a negative
      number is rendered with a leading minus sign. */
  function Hex2(n: int): (r: string)
    ensures |r| >= 2
    ensures n < 0 ==> r[0] == '-'
    ensures 0 <= n < 256 ==> r == [DigitChar(n / 16), DigitChar(n % 16)]
  {
    if n < 0 then "-" + ToHex(-n)
    else if n < 16 then "0" + ToHex(n)
    else
      assert n < 256 ==> ToHex(n) == ToDigits(n / 16, 16) + [DigitChar(n % 16)];
      ToHex(n)
  }

  // ---------------------------------------------------------------------
  // Byte strings

  /** `data.hex().upper()`: two upper-case digits per byte. */
  function BytesToHex(bs: seq<byte>): (r: string)
    ensures |r| == 2 * |bs|
    ensures IsUpperHexText(r)
  {
    if bs == [] then []
    else [DigitChar(bs[0] / 16), DigitChar(bs[0] % 16)] + BytesToHex(bs[1..])
  }

  /** `bytes.fromhex(s)` on a string without whitespace: hexadecimal digits
      read in pairs; None where Python raises (an odd digit count or a
      character that is not a hexadecimal digit). */
  function FromHex(s: string): (r: Option<seq<byte>>)
    ensures r.Some? ==> |r.value| * 2 == |s|
  {
    if s == [] then Some([])
    else if |s| == 1 || !IsDigitIn(s[0], 16) || !IsDigitIn(s[1], 16) then None
    else
      match FromHex(s[2..])
      case None => None
      case Some(rest) => Some([DigitValue(s[0]) * 16 + DigitValue(s[1]) as byte] + rest)
  }

  /** Python accepts exactly the texts of an even number of hexadecimal
      digits. */
  lemma {:induction false} FromHexAccepts(s: string)
    ensures FromHex(s).Some? <==> |s| % 2 == 0 && AllDigits(s, 16)
  {
    if |s| >= 2 {
      FromHexAccepts(s[2..]);
      assert AllDigits(s, 16) <==> IsDigitIn(s[0], 16) && IsDigitIn(s[1], 16) && AllDigits(s[2..], 16) by {
        if IsDigitIn(s[0], 16) && IsDigitIn(s[1], 16) && AllDigits(s[2..], 16) {
          forall i | 0 <= i < |s| ensures IsDigitIn(s[i], 16) {
            if i >= 2 { assert s[i] == s[2..][i - 2]; }
          }
        }
      }
    }
  }

  /** The two digits written for a byte read back as that byte. */
  lemma PairValue(x: byte)
    ensures DigitValue(DigitChar(x / 16)) * 16 + DigitValue(DigitChar(x % 16)) == x
  {
  }

  /** The canonical text of a byte string parses back to it. */
  lemma {:induction false} BytesHexRoundTrip(bs: seq<byte>)
    ensures FromHex(BytesToHex(bs)) == Some(bs)
  {
    if bs != [] {
      var s := BytesToHex(bs);
      BytesHexRoundTrip(bs[1..]);
      assert s[2..] == BytesToHex(bs[1..]);
      PairValue(bs[0]);
      assert bs == [bs[0]] + bs[1..];
    }
  }

  /** `bytes.fromhex` reads hexadecimal digits in either case, so
      upper-casing the text first does not change what it parses to. */
  lemma {:induction false} UpperFromHex(s: string)
    ensures FromHex(Upper(s)) == FromHex(s)
  {
    var u := Upper(s);
    assert forall c :: DigitValue(UpperChar(c)) == DigitValue(c);
    if |s| >= 2 {
      assert u[2..] == Upper(s[2..]);
      UpperFromHex(s[2..]);
    }
  }

  /** The two digits `f"{n:02X}"` writes for a byte read back as that byte. */
  lemma Hex2ReadsBack(x: byte)
    ensures FromHex(Hex2(x)) == Some([x])
  {
    PairValue(x);
    var t := Hex2(x);
    assert t == [DigitChar(x / 16), DigitChar(x % 16)];
    assert IsDigitIn(t[0], 16) && IsDigitIn(t[1], 16);
    assert FromHex(t[2..]) == Some([]);
    assert FromHex(t) == Some([x] + []);
    assert [x] + [] == [x];
    assert FromHex(t) == Some([x]);
  }

  lemma UpperDigitChar(c: char)
    requires '0' <= c <= '9' || 'A' <= c <= 'F'
    ensures DigitValue(c) < 16 && DigitChar(DigitValue(c)) == c
  {
  }

  lemma SplitPair(hi: nat, lo: nat)
    requires hi < 16 && lo < 16
    ensures (hi * 16 + lo) / 16 == hi && (hi * 16 + lo) % 16 == lo
  {
  }

  /** Upper-case hexadecimal text that parses is the canonical text of its
      bytes, so the parse loses nothing. */
  lemma {:induction false} FromHexCanonical(s: string)
    requires IsUpperHexText(s)
    requires FromHex(s).Some?
    ensures BytesToHex(FromHex(s).value) == s
  {
    if s != [] {
      var hi, lo := s[0], s[1];
      assert IsUpperHexText(s[2..]);
      FromHexCanonical(s[2..]);
      UpperDigitChar(hi);
      UpperDigitChar(lo);
      SplitPair(DigitValue(hi), DigitValue(lo));
      assert s == [hi, lo] + s[2..];
    }
  }
}
