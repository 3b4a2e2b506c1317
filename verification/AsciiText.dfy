/** Joining, ASCII case folding, and numbers as fixed-width hexadecimal text. */
module AsciiText {

  const TWO64: nat := 0x1_0000_0000_0000_0000

  /** `join`: the parts with the separator between them. */
  function Join(parts: seq<string>, separator: string): string {
    if parts == [] then ""
    else if |parts| == 1 then parts[0]
    else parts[0] + separator + Join(parts[1..], separator)
  }

  function LowerAscii(c: char): char {
    if 'A' <= c <= 'Z' then c - 'A' + 'a' else c
  }

  predicate EqualsIgnoreCase(a: string, b: string) {
    |a| == |b| && forall i :: 0 <= i < |a| ==> LowerAscii(a[i]) == LowerAscii(b[i])
  }

  function HexDigit(d: nat): char
    requires d < 16
  {
    if d < 10 then '0' + d as char else 'a' + (d - 10) as char
  }

  /** `{:0width$x}` of a number that fits. */
  function Hex(n: nat, width: nat): (s: string)
    ensures |s| == width
    ensures forall i :: 0 <= i < width ==> '0' <= s[i] <= '9' || 'a' <= s[i] <= 'f'
  {
    if width == 0 then "" else Hex(n / 16, width - 1) + [HexDigit(n % 16)]
  }

  function Power16(k: nat): nat {
    if k == 0 then 1 else 16 * Power16(k - 1)
  }

  lemma {:induction false} HexInjective(m: nat, n: nat, width: nat)
    requires m < Power16(width) && n < Power16(width) && Hex(m, width) == Hex(n, width)
    ensures m == n
  {
    if width > 0 {
      var a, b := Hex(m, width), Hex(n, width);
      assert a[..width - 1] == Hex(m / 16, width - 1) && b[..width - 1] == Hex(n / 16, width - 1);
      assert a[width - 1] == HexDigit(m % 16) && b[width - 1] == HexDigit(n % 16);
      HexInjective(m / 16, n / 16, width - 1);
      assert m == 16 * (m / 16) + m % 16 && n == 16 * (n / 16) + n % 16;
    }
  }

  lemma Power16Of16()
    ensures Power16(16) == TWO64
  {
    assert Power16(4) == 65536;
    assert Power16(8) == 16 * 16 * 16 * 16 * Power16(4);
    assert Power16(12) == 16 * 16 * 16 * 16 * Power16(8);
    assert Power16(16) == 16 * 16 * 16 * 16 * Power16(12);
  }
}
