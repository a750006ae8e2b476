/** Lower-case hexadecimal text and the `sha256:` form of a hash. */
module HexText {
  import opened Prelude

  function HexDigit(n: int): (b: byte)
    requires 0 <= n < 16
    ensures 48 <= b <= 57 || 97 <= b <= 102
  {
    if n < 10 then 48 + n else 97 + (n - 10)
  }

  /** Two lower-case hexadecimal digits a byte. */
  function Hex(s: Bytes): (t: Bytes)
    ensures |t| == 2 * |s|
    ensures forall i :: 0 <= i < |t| ==> 48 <= t[i] <= 57 || 97 <= t[i] <= 102
  {
    if s == [] then [] else [HexDigit(s[0] / 16), HexDigit(s[0] % 16)] + Hex(s[1..])
  }

  /** The bytes of a text all of whose characters are ASCII. */
  function Ascii(s: string): (b: Bytes)
    requires IsAscii(s)
    ensures |b| == |s| && forall i :: 0 <= i < |s| ==> b[i] == s[i] as int
  {
    seq(|s|, i requires 0 <= i < |s| => s[i] as int)
  }

  predicate IsAscii(s: string) { forall i :: 0 <= i < |s| ==> s[i] as int < 128 }

  lemma AsciiConcat(s: string, t: string)
    requires IsAscii(s) && IsAscii(t)
    ensures IsAscii(s + t) && Ascii(s + t) == Ascii(s) + Ascii(t)
  {
  }

  const PREFIX: Bytes := Ascii("sha256:")

  const HASH_LENGTH := 71

  /** The text of a hash: bytes of that length. */
  type HashBytes = b: Bytes | |b| == HASH_LENGTH witness seq(HASH_LENGTH, _ => 48)

  /** The hexadecimal digit of `n` that has `k` digits to its right. */
  function DigitOf(n: nat, k: nat): (d: byte)
    ensures 48 <= d <= 57 || 97 <= d <= 102
  {
    if k == 0 then HexDigit(n % 16) else DigitOf(n / 16, k - 1)
  }

  /** The last `k` hexadecimal digits of `n`. */
  function HexDigits(n: nat, k: nat): (t: Bytes)
    ensures |t| == k
  {
    seq(k, i requires 0 <= i < k => DigitOf(n, k - 1 - i))
  }

  /** `sha256:` and the 64 hexadecimal digits of `n`. */
  function HashText(n: nat): HashBytes {
    PREFIX + HexDigits(n, 64)
  }

  /** The digits are those of this text. */
  const HEX_DIGITS := "0123456789abcdef"

  lemma HexDigitExact(n: int)
    requires 0 <= n < 16
    ensures HexDigit(n) == HEX_DIGITS[n] as int
  {
  }

  /** Byte `i` is at places 2i and 2i + 1, its upper half first. */
  lemma {:induction false} HexAt(s: Bytes, i: nat)
    requires i < |s|
    ensures Hex(s)[2 * i] == HEX_DIGITS[s[i] / 16] as int && Hex(s)[2 * i + 1] == HEX_DIGITS[s[i] % 16] as int
  {
    hide HexDigit, HEX_DIGITS;
    HexDigitExact(s[0] / 16);
    HexDigitExact(s[0] % 16);
    var rest := s[1..];
    assert Hex(s) == [HexDigit(s[0] / 16), HexDigit(s[0] % 16)] + Hex(rest);
    if i > 0 {
      HexAt(rest, i - 1);
      assert Hex(s)[2 * i] == Hex(rest)[2 * i - 2] && Hex(s)[2 * i + 1] == Hex(rest)[2 * i - 1];
    }
  }

  /** Hexadecimal text determines the bytes. */
  lemma {:induction false} HexInjective(s: Bytes, t: Bytes)
    requires Hex(s) == Hex(t)
    ensures s == t
  {
    assert |s| == |t|;
    if s != [] {
      var u, v := Hex(s), Hex(t);
      assert u[0] == HexDigit(s[0] / 16) && u[1] == HexDigit(s[0] % 16);
      assert v[0] == HexDigit(t[0] / 16) && v[1] == HexDigit(t[0] % 16);
      assert s[0] / 16 == t[0] / 16 && s[0] % 16 == t[0] % 16;
      assert u[2..] == Hex(s[1..]) && v[2..] == Hex(t[1..]);
      HexInjective(s[1..], t[1..]);
      assert s == [s[0]] + s[1..] && t == [t[0]] + t[1..];
    }
  }
}
