/** Hexadecimal text of natural numbers: BigInt's toString(16), padStart and parsing. */
module Hex {
  import opened Base
  import opened Arithmetic

  function Digit(d: nat): char
    requires d < 16
  {
    "0123456789abcdef"[d]
  }

  /** The value of a hex digit in either case. */
  function DigitValue(c: char): Option<nat> {
    if '0' <= c <= '9' then Some((c - '0') as nat)
    else if 'a' <= c <= 'f' then Some((c - 'a') as nat + 10)
    else if 'A' <= c <= 'F' then Some((c - 'A') as nat + 10)
    else None
  }

  function ToHex(n: nat): string {
    if n < 16 then [Digit(n)] else ToHex(n / 16) + [Digit(n % 16)]
  }

  /** toString(16) of any BigInt. */
  function SignedHex(n: int): string {
    if n < 0 then "-" + ToHex(-n) else ToHex(n)
  }

  function Zeros(k: nat): string {
    if k == 0 then "" else Zeros(k - 1) + "0"
  }

  function PadStart(s: string, width: nat): string {
    if |s| >= width then s else Zeros(width - |s|) + s
  }

  function Value(s: string): Option<nat> {
    if s == "" then Some(0)
    else
      match (Value(s[..|s| - 1]), DigitValue(s[|s| - 1]))
      case (Some(high), Some(low)) => Some(16 * high + low)
      case _ => None
  }

  /** BigInt("0x" + s); None is the SyntaxError for empty or non-hexadecimal text. */
  function Parse(s: string): Option<nat> {
    if s == "" then None else Value(s)
  }

  lemma DigitRoundTrip(d: nat)
    requires d < 16
    ensures DigitValue(Digit(d)) == Some(d)
  {
  }

  lemma {:induction false} ToHexValue(n: nat)
    ensures ToHex(n) != "" && Value(ToHex(n)) == Some(n)
  {
    var s := ToHex(n);
    if n < 16 {
      DigitRoundTrip(n);
      assert s[..0] == "";
    } else {
      ToHexValue(n / 16);
      DigitRoundTrip(n % 16);
      assert s[..|s| - 1] == ToHex(n / 16);
    }
  }

  lemma {:induction false} ZerosValue(k: nat)
    ensures |Zeros(k)| == k && Value(Zeros(k)) == Some(0)
  {
    if k > 0 {
      ZerosValue(k - 1);
      assert Zeros(k)[..k - 1] == Zeros(k - 1);
    }
  }

  lemma {:induction false} LeadingZeros(k: nat, s: string)
    ensures |Zeros(k)| == k && Value(Zeros(k) + s) == Value(s)
  {
    ZerosValue(k);
    var z := Zeros(k) + s;
    if s == "" {
      assert z == Zeros(k);
    } else {
      LeadingZeros(k, s[..|s| - 1]);
      assert z[..|z| - 1] == Zeros(k) + s[..|s| - 1];
    }
  }

  /** Reading back padded hex gives the number that was written, whatever the width. */
  lemma PaddedRoundTrip(n: nat, width: nat)
    ensures Parse(PadStart(ToHex(n), width)) == Some(n)
  {
    ToHexValue(n);
    if |ToHex(n)| < width {
      LeadingZeros(width - |ToHex(n)|, ToHex(n));
    }
  }

  lemma PaddingKeepsValue(s: string, width: nat)
    requires s != ""
    ensures Parse(PadStart(s, width)) == Parse(s)
    ensures |PadStart(s, width)| == if |s| >= width then |s| else width
  {
    if |s| < width {
      LeadingZeros(width - |s|, s);
    }
  }

  lemma {:induction false} ValueBound(s: string)
    requires Value(s).Some?
    ensures Value(s).value < Pow(16, |s|)
  {
    if s != "" {
      ValueBound(s[..|s| - 1]);
    }
  }

  lemma {:induction false} ToHexShort(n: nat, width: nat)
    requires width > 0 && n < Pow(16, width)
    ensures |ToHex(n)| <= width
  {
    if n >= 16 {
      assert width > 1;
      ToHexShort(n / 16, width - 1);
    }
  }

  /** A number below a modulus is written in exactly the width of the modulus text. */
  lemma ResidueWidth(n: nat, modulusHex: string)
    requires Parse(modulusHex).Some? && n < Parse(modulusHex).value
    ensures |PadStart(ToHex(n), |modulusHex|)| == |modulusHex|
  {
    ValueBound(modulusHex);
    ToHexShort(n, |modulusHex|);
    ToHexValue(n);
    PaddingKeepsValue(ToHex(n), |modulusHex|);
  }
}
