/**
 The number formats the store and the API use: the magnitude of a big integer as
 minimal big-endian bytes, a height as four little-endian bytes, and decimal text.
 */
module Numbers {
  import opened ByteStrings
  import opened Wrappers

  const TWO32 := 0x1_0000_0000

  type uint32 = x: int | 0 <= x < 0x1_0000_0000

  function Abs(n: int): nat {
    if n < 0 then -n else n
  }

  /** big.Int.SetBytes: unsigned, most significant byte first. */
  function SetBytes(bs: Bytes): nat {
    if bs == [] then 0 else 256 * SetBytes(bs[..|bs| - 1]) + bs[|bs| - 1]
  }

  function NatBytes(n: nat): Bytes {
    if n == 0 then [] else NatBytes(n / 256) + [n % 256]
  }

  /** big.Int.Bytes: the magnitude only, so the sign is lost. */
  function BigBytes(n: int): Bytes {
    NatBytes(Abs(n))
  }

  lemma {:induction false} NatBytesDecode(n: nat)
    ensures SetBytes(NatBytes(n)) == n
  {
    if n != 0 {
      NatBytesDecode(n / 256);
      assert NatBytes(n)[..|NatBytes(n)| - 1] == NatBytes(n / 256);
    }
  }

  /** There are no leading zero bytes, and none at all for zero. */
  lemma {:induction false} NatBytesMinimal(n: nat)
    ensures NatBytes(n) == [] <==> n == 0
    ensures n > 0 ==> NatBytes(n)[0] != 0
  {
    if n > 0 {
      NatBytesMinimal(n / 256);
    }
  }

  /** What is read back is the magnitude of what was written: exactly the negative values are damaged. */
  lemma StoredAmount(n: int)
    ensures SetBytes(BigBytes(n)) == Abs(n)
    ensures SetBytes(BigBytes(n)) == n <==> n >= 0
  {
    NatBytesDecode(Abs(n));
  }

  /** Equal stored bytes mean equal magnitudes, so comparing bytes compares amounts. */
  lemma BigBytesInjective(m: int, n: int)
    ensures BigBytes(m) == BigBytes(n) <==> Abs(m) == Abs(n)
  {
    NatBytesDecode(Abs(m));
    NatBytesDecode(Abs(n));
  }

  function Power(a: nat, n: nat): nat {
    if n == 0 then 1 else a * Power(a, n - 1)
  }

  /** A number as exactly n bytes, most significant first. */
  function Fixed(n: nat, v: nat): (r: Bytes)
    ensures |r| == n
  {
    if n == 0 then [] else Fixed(n - 1, v / 256) + [v % 256]
  }

  lemma {:induction false} FixedDecode(n: nat, v: nat)
    requires v < Power(256, n)
    ensures SetBytes(Fixed(n, v)) == v
  {
    if n > 0 {
      FixedDecode(n - 1, v / 256);
      assert Fixed(n, v)[..n - 1] == Fixed(n - 1, v / 256);
    }
  }

  lemma {:induction false} DecodeFixed(bs: Bytes)
    ensures SetBytes(bs) < Power(256, |bs|) && Fixed(|bs|, SetBytes(bs)) == bs
  {
    if bs != [] {
      DecodeFixed(bs[..|bs| - 1]);
      assert bs == bs[..|bs| - 1] + [bs[|bs| - 1]];
      assert SetBytes(bs) / 256 == SetBytes(bs[..|bs| - 1]) && SetBytes(bs) % 256 == bs[|bs| - 1];
    }
  }

  lemma {:induction false} PowersMultiply(m: nat, n: nat)
    ensures Power(256, m + n) == Power(256, m) * Power(256, n)
  {
    if m > 0 {
      PowersMultiply(m - 1, n);
      assert Power(256, m + n) == 256 * (Power(256, m - 1) * Power(256, n));
    }
  }

  /** binary.LittleEndian.PutUint32 */
  function PutUint32(v: uint32): (r: Bytes)
    ensures |r| == 4
  {
    [v % 256, v / 256 % 256, v / 0x1_0000 % 256, v / 0x100_0000]
  }

  /** binary.LittleEndian.Uint32 */
  function Uint32(b: Bytes): uint32
    requires |b| >= 4
  {
    b[0] as int + 256 * b[1] as int + 0x1_0000 * b[2] as int + 0x100_0000 * b[3] as int
  }

  lemma Uint32RoundTrip(v: uint32)
    ensures Uint32(PutUint32(v)) == v
  {
    var q := v / 256;
    assert v == 256 * q + v % 256;
    assert v / 0x1_0000 == q / 256 && v / 0x100_0000 == q / 256 / 256;
  }

  lemma PutUint32Injective(v: uint32, w: uint32)
    requires PutUint32(v) == PutUint32(w)
    ensures v == w
  {
    Uint32RoundTrip(v);
    Uint32RoundTrip(w);
  }

  // Decimal text

  predicate IsDigit(c: char) {
    '0' <= c <= '9'
  }

  function DigitChar(d: nat): (c: char)
    requires d < 10
    ensures IsDigit(c) && c as int - '0' as int == d
  {
    (d + '0' as int) as char
  }

  function NatText(n: nat): string {
    if n < 10 then [DigitChar(n)] else NatText(n / 10) + [DigitChar(n % 10)]
  }

  /** big.Int.String */
  function IntText(n: int): string {
    if n < 0 then "-" + NatText(-n) else NatText(n)
  }

  function ParseNat(s: string): Option<nat> {
    if s == [] || !IsDigit(s[|s| - 1]) then None
    else
      var low := s[|s| - 1] as int - '0' as int;
      if |s| == 1 then Some(low)
      else
        match ParseNat(s[..|s| - 1])
        case None => None
        case Some(high) => Some(10 * high + low)
  }

  /** big.Int.SetString with base 10: an optional sign, then at least one digit and nothing else. */
  function ParseInt(s: string): Option<int> {
    if s == [] then None
    else if s[0] == '-' || s[0] == '+' then
      match ParseNat(s[1..])
      case None => None
      case Some(n) => Some(if s[0] == '-' then -(n as int) else n)
    else
      ParseNat(s)
  }

  lemma {:induction false} ParseNatText(n: nat)
    ensures ParseNat(NatText(n)) == Some(n)
    ensures NatText(n) != [] && IsDigit(NatText(n)[0])
  {
    if n >= 10 {
      ParseNatText(n / 10);
      assert NatText(n)[..|NatText(n)| - 1] == NatText(n / 10);
    }
  }

  lemma ParseIntText(n: int)
    ensures ParseInt(IntText(n)) == Some(n)
  {
    ParseNatText(Abs(n));
    if n < 0 {
      assert IntText(n)[1..] == NatText(-n);
    }
  }

  lemma {:induction false} NatTextForm(n: nat)
    ensures NatText(n) != [] && (forall k :: 0 <= k < |NatText(n)| ==> IsDigit(NatText(n)[k]))
    ensures NatText(n)[0] == '0' <==> n == 0
    ensures n == 0 ==> NatText(n) == "0"
  {
    if n >= 10 {
      NatTextForm(n / 10);
    }
  }

  /** Decimal text has a sign only for negative numbers, and no leading zeros. */
  lemma IntTextForm(n: int)
    ensures var s := if n < 0 then IntText(n)[1..] else IntText(n);
            && (n < 0 ==> IntText(n) == "-" + s)
            && s != [] && (forall k :: 0 <= k < |s| ==> '0' <= s[k] <= '9')
            && (s[0] == '0' ==> n == 0 && s == "0")
  {
    NatTextForm(if n < 0 then -n else n);
    if n < 0 {
      assert IntText(n)[1..] == NatText(-n);
    }
  }
}
