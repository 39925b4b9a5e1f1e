/**
 The height codec (lexinum/lexinum.go). Heights are written so that comparing the
 encodings byte by byte compares the heights. Small heights take three bytes in base
 255; larger ones take a digit count, base-253 digits, and an optional remainder.
 */
module Lexinum {
  import opened ByteStrings
  import opened Numbers
  import opened Wrappers

  const MAX_SMALL := 8258175

  // uint32 arithmetic wraps

  function Add32(x: uint32, y: uint32): uint32 {
    (x + y) % 0x1_0000_0000
  }

  function Mul32(x: uint32, y: uint32): uint32 {
    (x * y) % 0x1_0000_0000
  }

  // Powers

  lemma {:induction false} PowerOfSquare(a: nat, k: nat)
    ensures Power(a, 2 * k) == Power(a * a, k)
  {
    if k > 0 {
      PowerOfSquare(a, k - 1);
      assert Power(a, 2 * k) == a * (a * Power(a, 2 * k - 2));
      Associative(a, a, Power(a, 2 * k - 2));
    }
  }

  lemma Associative(x: int, y: int, z: int)
    ensures (x * y) * z == x * (y * z)
  {
  }

  /** A factor may be reduced before multiplying. */
  lemma ReducedFactor(x: int, y: int)
    ensures (x % 0x1_0000_0000 * y) % 0x1_0000_0000 == (x * y) % 0x1_0000_0000
  {
    var q, r := x / 0x1_0000_0000, x % 0x1_0000_0000;
    assert x == 0x1_0000_0000 * q + r;
    assert x * y == 0x1_0000_0000 * (q * y) + r * y;
  }

  lemma CongruentProduct(x: int, x': int, y: int, y': int)
    requires x % 0x1_0000_0000 == x' % 0x1_0000_0000 && y % 0x1_0000_0000 == y' % 0x1_0000_0000
    ensures (x * y) % 0x1_0000_0000 == (x' * y') % 0x1_0000_0000
  {
    ReducedFactor(x, y);
    ReducedFactor(x', y);
    ReducedFactor(y, x');
    ReducedFactor(y', x');
  }

  lemma {:induction false} ReducedBase(a: nat, k: nat)
    ensures Power(a % 0x1_0000_0000, k) % 0x1_0000_0000 == Power(a, k) % 0x1_0000_0000
  {
    if k > 0 {
      ReducedBase(a, k - 1);
      CongruentProduct(a % 0x1_0000_0000, a, Power(a % 0x1_0000_0000, k - 1), Power(a, k - 1));
    }
  }

  /** What the loop in `Pow` keeps. */
  ghost function Carried(n: nat, a: nat, b: nat): nat {
    (n * Power(a, b)) % 0x1_0000_0000
  }

  lemma SquareStep(n: nat, a: uint32, k: nat)
    ensures Carried(n, Mul32(a, a), k) == Carried(n, a, 2 * k)
  {
    PowerOfSquare(a, k);
    ReducedBase(a * a, k);
    CongruentProduct(n, n, Power(Mul32(a, a), k), Power(a * a, k));
  }

  lemma FactorStep(n: uint32, a: uint32, b: nat)
    requires b > 0
    ensures Carried(Mul32(n, a), a, b - 1) == Carried(n, a, b)
  {
    Associative(n, a, Power(a, b - 1));
    ReducedFactor(n * a, Power(a, b - 1));
  }

  lemma PowDone(n: uint32, a: nat)
    ensures Carried(n, a, 0) == n
  {
  }

  lemma PowStart(a: nat, b: nat)
    ensures Carried(1, a, b) == Power(a, b) % 0x1_0000_0000
  {
  }

  /** Square and multiply; every product wraps, including a last squaring whose result is not used. */
  method Pow(base: uint32, exponent: uint32) returns (n: uint32)
    ensures n == Power(base, exponent) % 0x1_0000_0000
  {
    n := 1;
    var a, b := base, exponent;
    PowStart(a, b);
    while b > 0
      invariant Carried(n, a, b) == Carried(1, base, exponent)
    {
      SquareStep(if b % 2 != 0 then Mul32(n, a) else n, a, b / 2);
      if b % 2 != 0 {
        FactorStep(n, a, b);
        n := Mul32(n, a);
      }
      b := b / 2;
      a := Mul32(a, a);
    }
    PowDone(n, a);
  }

  // What an encoding is

  /** Base-253 digits, most significant first, each shifted by 2 so that the byte 1 stays free. */
  function Digits(lead: nat): Bytes {
    if lead == 0 then [] else Digits(lead / 253) + [lead % 253 + 2]
  }

  /** Zero has no digits but counts as having one. */
  function DigitCount(lead: nat): nat {
    if lead == 0 then 1 else |Digits(lead)|
  }

  function Suffix(rem: nat): Bytes
    requires rem < 255
  {
    if rem == 0 then [] else [1, rem]
  }

  lemma Powers253()
    ensures Power(253, 0) == 1 && Power(253, 1) == 253 && Power(253, 2) == 64009
    ensures Power(253, 3) == 16194277 && Power(253, 4) == 4097152081
  {
    assert Power(253, 1) == 253 * Power(253, 0);
    assert Power(253, 2) == 253 * Power(253, 1);
    assert Power(253, 3) == 253 * Power(253, 2);
    assert Power(253, 4) == 253 * Power(253, 3);
  }

  lemma {:induction false} DigitsBound(lead: nat, n: nat)
    ensures |Digits(lead)| <= n <==> lead < Power(253, n)
  {
    if n > 0 && lead > 0 {
      DigitsBound(lead / 253, n - 1);
      assert Power(253, n) == 253 * Power(253, n - 1);
    } else if n > 0 {
      DigitsBound(0, n - 1);
      assert Power(253, n) == 253 * Power(253, n - 1);
    }
  }

  /** The leading number of any uint32 height has at most four digits, so the count fits its byte. */
  lemma AtMostFourDigits(v: uint32)
    requires MAX_SMALL <= v
    ensures 1 <= DigitCount((v - MAX_SMALL) / 255) <= 4
  {
    Powers253();
    DigitsBound((v - MAX_SMALL) / 255, 4);
  }

  /** The encoding of a height, as a formula. */
  function Encode(v: uint32): Bytes {
    if v < MAX_SMALL then
      [v / 65025 + 128, v / 255 % 255 + 1, v % 255 + 1]
    else
      var lead, rem := (v - MAX_SMALL) / 255, (v - MAX_SMALL) % 255;
      AtMostFourDigits(v);
      [255, DigitCount(lead) + 1] + Digits(lead) + Suffix(rem)
  }

  lemma EncodingLength(v: uint32)
    ensures 2 <= |Encode(v)| <= 8
    ensures Encode(v)[0] == 255 <==> MAX_SMALL <= v
  {
    if MAX_SMALL <= v {
      AtMostFourDigits(v);
    }
  }

  // The encoder

  function Reversed(s: Bytes): Bytes {
    if s == [] then [] else Reversed(s[1..]) + [s[0]]
  }

  lemma {:induction false} ReversedAppend(s: Bytes, b: byte)
    ensures Reversed(s + [b]) == [b] + Reversed(s)
  {
    if s != [] {
      assert (s + [b])[1..] == s[1..] + [b];
      ReversedAppend(s[1..], b);
    }
  }

  method EncodeHeight(height: uint32) returns (enc: Bytes)
    ensures enc == Encode(height)
  {
    if height == 0 {
      return [0x80, 0x01, 0x01];
    }
    if height < MAX_SMALL {
      enc := EncodeSmall(height);
    } else {
      enc := EncodeBig(height);
    }
  }

  method EncodeSmall(height: uint32) returns (enc: Bytes)
    requires height < MAX_SMALL
    ensures enc == Encode(height)
  {
    enc := [0x80, 0x01, 0x01];
    var div, mod := height / 255, height % 255;
    enc := enc[2 := mod + 1];
    if div > 0 {
      div, mod := div / 255, div % 255;
      enc := enc[1 := mod + 1];
      if div > 0 {
        enc := enc[0 := div + 128];
      }
    }
  }

  method EncodeBig(height: uint32) returns (enc: Bytes)
    requires MAX_SMALL <= height
    ensures enc == Encode(height)
  {
    var v := height - MAX_SMALL;
    var lead, rem := v / 255, v % 255;
    var n := CountDigits(lead);
    AtMostFourDigits(height);
    enc := [0xff, n + 1];
    var chars := LeastDigitsFirst(lead);
    enc := AppendReversed(enc, chars);
    if rem > 0 {
      enc := enc + [0x01, rem];
    }
  }

  method AppendReversed(start: Bytes, chars: Bytes) returns (enc: Bytes)
    ensures enc == start + Reversed(chars)
  {
    enc := start;
    var i := |chars|;
    assert chars[..i] == chars;
    while i > 0
      invariant 0 <= i <= |chars|
      invariant enc + Reversed(chars[..i]) == start + Reversed(chars)
    {
      i := i - 1;
      ReversedAppend(chars[..i], chars[i]);
      assert chars[..i] + [chars[i]] == chars[..i + 1];
      enc := enc + [chars[i]];
    }
  }

  /** The loop that looks for the smallest power of 253 above the number. */
  method CountDigits(lead: uint32) returns (n: uint32)
    requires lead < 16843010
    ensures n == DigitCount(lead)
  {
    n := 1;
    Powers253();
    var p := Pow(253, n);
    while lead / p > 0
      invariant 1 <= n <= 4 && p == Power(253, n)
      invariant n == 1 || Power(253, n - 1) <= lead
      decreases 4 - n
    {
      n := n + 1;
      p := Pow(253, n);
    }
    DigitsBound(lead, n);
    DigitsBound(lead, n - 1);
  }

  method LeastDigitsFirst(number: uint32) returns (chars: Bytes)
    ensures Reversed(chars) == Digits(number)
  {
    chars := [];
    var lead := number;
    while lead != 0
      invariant Digits(number) == Digits(lead) + Reversed(chars)
    {
      ReversedAppend(chars, lead % 253 + 2);
      chars := chars + [lead % 253 + 2];
      lead := lead / 253;
    }
  }

  // Order

  lemma {:induction false} DigitsOrdered(x: nat, y: nat)
    requires x < y && |Digits(x)| == |Digits(y)|
    ensures Less(Digits(x), Digits(y)) && !(Digits(x) <= Digits(y))
  {
    var dx, dy := Digits(x / 253), Digits(y / 253);
    if x / 253 == y / 253 {
      assert Less([x % 253 + 2], [y % 253 + 2]);
      LessAfterPrefix(dx, [x % 253 + 2], [y % 253 + 2]);
      assert Digits(x)[|dx|] != Digits(y)[|dx|];
    } else {
      DigitsOrdered(x / 253, y / 253);
      LessExtended(dx, dy, [x % 253 + 2], [y % 253 + 2]);
      assert dx != dy;
      var i :| 0 <= i < |dx| && dx[i] != dy[i];
      assert Digits(x)[i] != Digits(y)[i];
    }
  }

  lemma DigitCountMonotone(x: nat, y: nat)
    requires x <= y
    ensures DigitCount(x) <= DigitCount(y)
  {
    DigitsBound(y, |Digits(y)|);
    DigitsBound(x, |Digits(y)|);
  }

  lemma BigOrdered(v: uint32, w: uint32)
    requires MAX_SMALL <= v < w
    ensures Less(Encode(v), Encode(w))
  {
    AtMostFourDigits(v);
    AtMostFourDigits(w);
    var x, r := (v - MAX_SMALL) / 255, (v - MAX_SMALL) % 255;
    var y, s := (w - MAX_SMALL) / 255, (w - MAX_SMALL) % 255;
    QuotientsOrdered(v - MAX_SMALL, w - MAX_SMALL);
    PartsOrdered(x, r, y, s);
  }

  lemma QuotientsOrdered(v: nat, w: nat)
    requires v < w
    ensures v / 255 < w / 255 || (v / 255 == w / 255 && v % 255 < w % 255)
  {
  }

  lemma PartsOrdered(x: nat, r: nat, y: nat, s: nat)
    requires x < y || (x == y && r < s)
    requires r < 255 && s < 255 && DigitCount(x) <= 4 && DigitCount(y) <= 4
    ensures Less([255, DigitCount(x) + 1] + Digits(x) + Suffix(r), [255, DigitCount(y) + 1] + Digits(y) + Suffix(s))
  {
    var a, b := Digits(x) + Suffix(r), Digits(y) + Suffix(s);
    Regroup([255, DigitCount(x) + 1], Digits(x), Suffix(r));
    Regroup([255, DigitCount(y) + 1], Digits(y), Suffix(s));
    DigitCountMonotone(x, y);
    if DigitCount(x) == DigitCount(y) {
      TailOrdered(x, r, y, s);
    }
    CountThenTail(DigitCount(x) + 1, a, DigitCount(y) + 1, b);
  }

  lemma Regroup(a: Bytes, b: Bytes, c: Bytes)
    ensures a + b + c == a + (b + c)
  {
  }

  lemma CountThenTail(m: byte, a: Bytes, n: byte, b: Bytes)
    requires m < n || (m == n && Less(a, b))
    ensures Less([255, m] + a, [255, n] + b)
  {
    assert ([255, m] + a)[1..] == [m] + a && ([255, n] + b)[1..] == [n] + b;
    assert ([m] + a)[1..] == a && ([n] + b)[1..] == b;
  }

  /** With the same count byte, the number and then the remainder decide. */
  lemma TailOrdered(x: nat, r: nat, y: nat, s: nat)
    requires x < y || (x == y && r < s)
    requires r < 255 && s < 255
    requires DigitCount(x) == DigitCount(y)
    ensures Less(Digits(x) + Suffix(r), Digits(y) + Suffix(s))
  {
    if x == y {
      assert Less(Suffix(r), Suffix(s)) by {
        assert Suffix(s)[1..] == [s];
      }
      LessAfterPrefix(Digits(x), Suffix(r), Suffix(s));
    } else if x == 0 {
      // No digits against one digit: the digit is at least 3, the mark before a remainder is 1.
      assert y < 253 by { DigitsBound(y, 1); Powers253(); }
      assert Digits(y) == [y + 2] by { assert Digits(y / 253) == []; }
      assert Digits(x) + Suffix(r) == Suffix(r);
    } else {
      DigitsOrdered(x, y);
      LessExtended(Digits(x), Digits(y), Suffix(r), Suffix(s));
    }
  }

  lemma SmallOrdered(v: uint32, w: uint32)
    requires v < w < MAX_SMALL
    ensures Less(Encode(v), Encode(w))
  {
    var a, b := Encode(v), Encode(w);
    assert v / 65025 == v / 255 / 255 && w / 65025 == w / 255 / 255;
    if v / 65025 == w / 65025 {
      assert a[1..][1..] == [a[2]] && b[1..][1..] == [b[2]];
      if v / 255 % 255 == w / 255 % 255 {
        assert v / 255 == w / 255;
        assert Less(a[1..][1..], b[1..][1..]);
      }
      assert Less(a[1..], b[1..]);
    }
  }

  lemma EncodeIncreasing(v: uint32, w: uint32)
    requires v < w
    ensures Less(Encode(v), Encode(w))
  {
    if w < MAX_SMALL {
      SmallOrdered(v, w);
    } else if v < MAX_SMALL {
      EncodingLength(v);
      EncodingLength(w);
    } else {
      BigOrdered(v, w);
    }
  }

  /** Comparing encodings compares heights, over the whole of uint32. */
  lemma EncodeOrder(v: uint32, w: uint32)
    ensures Less(Encode(v), Encode(w)) <==> v < w
    ensures Encode(v) == Encode(w) <==> v == w
  {
    if v < w {
      EncodeIncreasing(v, w);
      NotAtMost(Encode(w), Encode(v));
    } else if w < v {
      EncodeIncreasing(w, v);
      NotAtMost(Encode(v), Encode(w));
    } else {
      LessIrreflexive(Encode(v));
    }
  }

  // The decoder

  datatype DecodeError = InvalidEncoding | InvalidFirstByte(b: byte)

  /** byte(c - 2), wrapping below zero. */
  function DigitValue(c: byte): nat {
    if c >= 2 then c - 2 else c + 254
  }

  /** The number the digit bytes stand for, without any wrap-around. */
  function Horner(ds: Bytes): nat {
    if ds == [] then 0 else Horner(ds[..|ds| - 1]) * 253 + DigitValue(ds[|ds| - 1])
  }

  /** Where the first remainder mark stands, or the length if there is none. */
  function FirstMark(body: Bytes): (i: nat)
    ensures i <= |body|
    ensures forall j :: 0 <= j < i ==> body[j] != 1
    ensures i < |body| ==> body[i] == 1
  {
    if body == [] || body[0] == 1 then 0 else 1 + FirstMark(body[1..])
  }

  function Wrap(n: nat): uint32 {
    n % 0x1_0000_0000
  }

  /** uint32(c - 1) on a byte, wrapping below zero. */
  function Before(c: byte): uint32 {
    if c >= 1 then c - 1 else 255
  }

  /** The remainder behind the digits: 0 without a mark, and none at all if the mark is in the wrong place. */
  function Remainder(body: Bytes): Option<byte> {
    var i := FirstMark(body);
    if i == |body| then Some(0) else if i == |body| - 2 then Some(body[i + 1]) else None
  }

  /** The final sum of the decoder, modulo 2^32. */
  function Total(lead: nat, rem: byte): uint32 {
    Wrap(lead * 255 + rem + MAX_SMALL)
  }

  /** What any byte string decodes to. */
  function Decode(d: Bytes): Result<uint32, DecodeError> {
    if |d| < 2 then Err(InvalidEncoding)
    else if d[0] < 0x80 then Err(InvalidFirstByte(d[0]))
    else if d[0] == 0xff then
      match Remainder(d[2..])
      case None => Err(InvalidEncoding)
      case Some(rem) => Ok(Total(Horner(d[2..][..FirstMark(d[2..])]), rem))
    else if |d| < 3 then Err(InvalidEncoding)
    else
      Ok(((d[0] as int - 128) * 255 + Before(d[1])) * 255 + Before(d[2]))
  }

  lemma HornerStep(ds: Bytes, i: nat, v: uint32)
    requires i < |ds| && v == Wrap(Horner(ds[..i]))
    ensures Add32(v, Add32(Mul32(v, 252), DigitValue(ds[i]))) == Wrap(Horner(ds[..i + 1]))
  {
    assert ds[..i + 1][..i] == ds[..i];
    var h, c := Horner(ds[..i]), DigitValue(ds[i]);
    ReducedFactor(h, 252);
    WrapAdd(h * 252, c);
    WrapSum(h, h * 252 + c);
    assert Horner(ds[..i + 1]) == h * 253 + c;
  }

  method DecodeHeight(d: Bytes) returns (r: Result<uint32, DecodeError>)
    ensures r == Decode(d)
  {
    if |d| < 2 {
      return Err(InvalidEncoding);
    }
    if d[0] < 0x80 {
      return Err(InvalidFirstByte(d[0]));
    }
    if d[0] == 0xff {
      r := DecodeBig(d);
      return;
    }
    if |d| < 3 {
      return Err(InvalidEncoding);
    }
    SmallSum(d[0] - 128, Before(d[1]), Before(d[2]));
    r := Ok(Add32(Mul32(Add32(Mul32(d[0] - 128, 255), Before(d[1])), 255), Before(d[2])));
  }

  /** Three base-255 digits never wrap. */
  lemma SmallSum(x: nat, y: nat, z: nat)
    requires x < 128 && y < 256 && z < 256
    ensures Add32(Mul32(Add32(Mul32(x, 255), y), 255), z) == (x * 255 + y) * 255 + z
  {
    assert Add32(Mul32(x, 255), y) == x * 255 + y;
  }

  method DecodeBig(d: Bytes) returns (r: Result<uint32, DecodeError>)
    requires |d| >= 2 && d[0] == 0xff
    ensures r == Decode(d)
  {
    var rem: byte, v: uint32 := 0, 0;
    var ridx := |d| - 4;
    var body := d[2..];
    var i := 0;
    while i < |body|
      invariant 0 <= i <= FirstMark(body)
      invariant v == Wrap(Horner(body[..i])) && rem == 0
      decreases |body| - i
    {
      var c := body[i];
      if c == 0x01 {
        if i != ridx {
          return Err(InvalidEncoding);
        }
        rem := d[i + 3];
        break;
      }
      HornerStep(body, i, v);
      v := Add32(v, Add32(Mul32(v, 252), DigitValue(c)));
      i := i + 1;
    }
    WrappedSum(Horner(body[..i]), rem);
    r := Ok(Add32(Add32(Mul32(v, 255), rem), MAX_SMALL));
  }

  lemma WrappedSum(h: nat, rem: byte)
    ensures Add32(Add32(Mul32(Wrap(h), 255), rem), MAX_SMALL) == Total(h, rem)
  {
    ReducedFactor(h, 255);
    WrapAdd(h * 255, rem);
    WrapAdd(h * 255 + rem, MAX_SMALL);
  }

  lemma WrapAdd(x: nat, y: uint32)
    ensures Add32(Wrap(x), y) == Wrap(x + y)
  {
  }

  lemma WrapSum(x: nat, y: nat)
    ensures Add32(Wrap(x), Wrap(y)) == Wrap(x + y)
  {
  }

  lemma {:induction false} HornerOfDigits(lead: nat)
    ensures Horner(Digits(lead)) == lead
    ensures forall j :: 0 <= j < |Digits(lead)| ==> Digits(lead)[j] >= 2
  {
    if lead != 0 {
      HornerOfDigits(lead / 253);
      assert Digits(lead)[..|Digits(lead)| - 1] == Digits(lead / 253);
    }
  }

  /** Partial results only grow, so none of them exceeds the final one. */
  lemma {:induction false} HornerPrefix(ds: Bytes, i: nat)
    requires i <= |ds|
    ensures Horner(ds[..i]) <= Horner(ds)
  {
    if i == |ds| {
      assert ds[..i] == ds;
    } else {
      HornerPrefix(ds[..|ds| - 1], i);
      assert ds[..|ds| - 1][..i] == ds[..i];
    }
  }

  /** On encoder output no step of the accumulation, nor the final sum, reaches 2^32. */
  lemma NoWrapAround(v: uint32, i: nat)
    requires MAX_SMALL <= v && i <= |Digits((v - MAX_SMALL) / 255)|
    ensures Horner(Digits((v - MAX_SMALL) / 255)[..i]) * 255 + (v - MAX_SMALL) % 255 + MAX_SMALL <= v
  {
    var lead := (v - MAX_SMALL) / 255;
    HornerOfDigits(lead);
    HornerPrefix(Digits(lead), i);
  }

  lemma MarkAfterDigits(ds: Bytes, rem: nat)
    requires rem < 255 && forall j :: 0 <= j < |ds| ==> ds[j] >= 2
    ensures FirstMark(ds + Suffix(rem)) == |ds|
  {
    var body := ds + Suffix(rem);
    var i := FirstMark(body);
    assert forall j :: 0 <= j < |ds| ==> body[j] == ds[j];
    if i >= |ds| && rem > 0 {
      assert body[|ds|] == 1;
    }
  }

  /** The parser finds the digits and the remainder again. */
  lemma PartsFound(ds: Bytes, rem: nat)
    requires rem < 255 && forall j :: 0 <= j < |ds| ==> ds[j] >= 2
    ensures var body := ds + Suffix(rem);
            Remainder(body) == Some(rem) && body[..FirstMark(body)] == ds
  {
    MarkAfterDigits(ds, rem);
    assert (ds + Suffix(rem))[..|ds|] == ds;
  }

  lemma SmallParts(v: uint32)
    requires v < MAX_SMALL
    ensures v / 65025 < 127 && (v / 65025 * 255 + v / 255 % 255) * 255 + v % 255 == v
  {
    assert v / 65025 == v / 255 / 255;
  }

  lemma DecodeSmall(v: uint32)
    requires v < MAX_SMALL
    ensures Decode(Encode(v)) == Ok(v)
  {
    SmallParts(v);
    DecodeThree(v / 65025 + 128, v / 255 % 255 + 1, v % 255 + 1);
  }

  lemma DecodeThree(x: byte, y: byte, z: byte)
    requires 0x80 <= x < 0xff && 1 <= y && 1 <= z
    ensures Decode([x, y, z]) == Ok(((x as int - 128) * 255 + (y - 1)) * 255 + (z - 1))
  {
  }

  lemma DecodeBigEncoded(v: uint32)
    requires MAX_SMALL <= v
    ensures Decode(Encode(v)) == Ok(v)
  {
    AtMostFourDigits(v);
    var lead, rem := (v - MAX_SMALL) / 255, (v - MAX_SMALL) % 255;
    var d := Encode(v);
    assert d[2..] == Digits(lead) + Suffix(rem);
    HornerOfDigits(lead);
    PartsFound(Digits(lead), rem);
    TotalOfParts(v);
  }

  lemma TotalOfParts(v: uint32)
    requires MAX_SMALL <= v
    ensures Total((v - MAX_SMALL) / 255, (v - MAX_SMALL) % 255) == v
  {
  }

  /** Decoding undoes encoding for every uint32. */
  lemma DecodeAfterEncode(v: uint32)
    ensures Decode(Encode(v)) == Ok(v)
  {
    if v < MAX_SMALL {
      DecodeSmall(v);
    } else {
      DecodeBigEncoded(v);
    }
  }

  // Which byte strings the encoder writes

  /** Digit bytes without a leading zero digit, each of them one of the 253. */
  predicate CanonicalDigits(ds: Bytes) {
    && (ds != [] ==> ds[0] != 2)
    && forall j :: 0 <= j < |ds| ==> 2 <= ds[j] <= 254
  }

  /** What the byte before the digits has to say: 2 also for no digits. */
  function CountByte(ds: Bytes): nat {
    if ds == [] then 2 else |ds| + 1
  }

  predicate CanonicalSmall(d: Bytes) {
    |d| == 3 && 0x80 <= d[0] < 0xff && d[1] >= 1 && d[2] >= 1
  }

  /**
   The count byte agrees with the digits before the first mark, a mark is followed by one last byte
   that is a non-zero remainder, and the height is one of uint32.
   */
  predicate CanonicalBig(d: Bytes) {
    if |d| < 2 || d[0] != 0xff then false
    else
      var body := d[2..];
      var n := FirstMark(body);
      var rem := if n + 2 == |body| then body[n + 1] else 0;
      && CanonicalDigits(body[..n]) && d[1] == CountByte(body[..n])
      && (n == |body| || (n + 2 == |body| && 1 <= rem <= 254))
      && Horner(body[..n]) * 255 + rem + MAX_SMALL < 0x1_0000_0000
  }

  /** What can be checked of a byte string before it is decoded. */
  predicate Canonical(d: Bytes) {
    CanonicalSmall(d) || CanonicalBig(d)
  }

  lemma {:induction false} DigitsCanonical(lead: nat)
    ensures CanonicalDigits(Digits(lead)) && (lead > 0 ==> Digits(lead) != [])
  {
    if lead != 0 {
      DigitsCanonical(lead / 253);
    }
  }

  lemma {:induction false} HornerPositive(ds: Bytes)
    requires CanonicalDigits(ds) && ds != []
    ensures Horner(ds) > 0
  {
    if |ds| > 1 {
      HornerPositive(ds[..|ds| - 1]);
    }
  }

  /** The digits of the number that canonical digits stand for are those digits again. */
  lemma {:induction false} DigitsOfHorner(ds: Bytes)
    requires CanonicalDigits(ds)
    ensures Digits(Horner(ds)) == ds
  {
    if ds != [] {
      var init, c := ds[..|ds| - 1], ds[|ds| - 1];
      HornerPositive(ds);
      DigitsOfHorner(init);
      LastDigit(Horner(init), c - 2);
      assert ds == init + [c];
    }
  }

  lemma LastDigit(h: nat, c: nat)
    requires c < 253
    ensures (h * 253 + c) / 253 == h && (h * 253 + c) % 253 == c
  {
  }

  lemma PartsCanonical(ds: Bytes, lead: nat, rem: nat)
    requires CanonicalDigits(ds) && CountByte(ds) < 0x100 && Horner(ds) == lead
    requires rem < 255 && lead * 255 + rem + MAX_SMALL < 0x1_0000_0000
    ensures CanonicalBig([255, CountByte(ds)] + ds + Suffix(rem))
  {
    var d := [255, CountByte(ds)] + ds + Suffix(rem);
    assert d[2..] == ds + Suffix(rem);
    MarkAfterDigits(ds, rem);
    assert (ds + Suffix(rem))[..|ds|] == ds;
  }

  lemma CountOfDigits(lead: nat)
    ensures CountByte(Digits(lead)) == DigitCount(lead) + 1
  {
  }

  /** A big encoding, by the number and the remainder it is made of. */
  lemma EncodeSum(v: uint32, lead: nat, rem: nat)
    requires rem < 255 && v == lead * 255 + rem + MAX_SMALL
    ensures CountByte(Digits(lead)) <= 5
    ensures Encode(v) == [255, CountByte(Digits(lead))] + Digits(lead) + Suffix(rem)
  {
    AtMostFourDigits(v);
    CountOfDigits(lead);
    assert (v - MAX_SMALL) / 255 == lead && (v - MAX_SMALL) % 255 == rem;
  }

  lemma BigEncodingCanonical(v: uint32, lead: nat, rem: nat)
    requires rem < 255 && v == lead * 255 + rem + MAX_SMALL
    ensures CanonicalBig(Encode(v))
  {
    EncodeSum(v, lead, rem);
    DigitsCanonical(lead);
    assert Horner(Digits(lead)) == lead by {
      HornerOfDigits(lead);
    }
    PartsCanonical(Digits(lead), lead, rem);
  }

  lemma EncodingCanonical(v: uint32)
    ensures Canonical(Encode(v))
  {
    if v < MAX_SMALL {
      assert CanonicalSmall(Encode(v));
    } else {
      BigEncodingCanonical(v, (v - MAX_SMALL) / 255, (v - MAX_SMALL) % 255);
    }
  }

  lemma SmallEncodedAgain(d: Bytes)
    requires CanonicalSmall(d)
    ensures Decode(d).Ok? && Encode(Decode(d).value) == d
  {
    ThreeDigits(d[0] - 128, d[1] - 1, d[2] - 1);
  }

  lemma ThreeDigits(x: nat, y: nat, z: nat)
    requires x < 127 && y < 255 && z < 255
    ensures var v := (x * 255 + y) * 255 + z;
            v < MAX_SMALL && v / 65025 == x && v / 255 % 255 == y && v % 255 == z
  {
    var v := (x * 255 + y) * 255 + z;
    assert v / 255 == x * 255 + y;
  }

  /** The number and the remainder that a canonical byte string is made of. */
  lemma CanonicalParts(d: Bytes) returns (ds: Bytes, rem: nat)
    requires CanonicalBig(d)
    ensures CanonicalDigits(ds) && rem < 255 && Horner(ds) * 255 + rem + MAX_SMALL < 0x1_0000_0000
    ensures d[1] == CountByte(ds) && d == [255, d[1]] + ds + Suffix(rem)
  {
    var body := d[2..];
    var n := FirstMark(body);
    ds, rem := body[..n], if n + 2 == |body| then body[n + 1] else 0;
    assert body == ds + Suffix(rem);
    assert d == [d[0], d[1]] + body;
  }

  lemma DecodeParts(ds: Bytes, rem: nat, count: byte)
    requires CanonicalDigits(ds) && rem < 255
    ensures Decode([255, count] + ds + Suffix(rem)) == Ok(Total(Horner(ds), rem))
  {
    assert ([255, count] + ds + Suffix(rem))[2..] == ds + Suffix(rem);
    PartsFound(ds, rem);
  }

  lemma TotalUnwrapped(lead: nat, rem: byte)
    requires lead * 255 + rem + MAX_SMALL < 0x1_0000_0000
    ensures Total(lead, rem) == lead * 255 + rem + MAX_SMALL
  {
  }

  lemma BigEncodedAgain(d: Bytes)
    requires CanonicalBig(d)
    ensures Decode(d).Ok? && Encode(Decode(d).value) == d
  {
    var ds, rem := CanonicalParts(d);
    DecodeParts(ds, rem, d[1]);
    TotalUnwrapped(Horner(ds), rem);
    DigitsOfHorner(ds);
    EncodeSum(Total(Horner(ds), rem), Horner(ds), rem);
  }

  /**
   The decoder also takes bytes the encoder never writes. Encoding undoes decoding exactly on the
   canonical byte strings, which are the encodings.
   */
  lemma EncodeAfterDecode(d: Bytes)
    ensures (Decode(d).Ok? && Encode(Decode(d).value) == d) <==> Canonical(d)
    ensures Canonical(d) <==> exists v: uint32 :: Encode(v) == d
  {
    if CanonicalSmall(d) {
      SmallEncodedAgain(d);
    } else if CanonicalBig(d) {
      BigEncodedAgain(d);
    }
    forall v: uint32 | Encode(v) == d
      ensures Canonical(d)
    {
      EncodingCanonical(v);
    }
  }

  /** Bytes that are not canonical, decode, and are not what the encoder writes for that height. */
  lemma DecoderAcceptsMore()
    ensures Decode([0x80, 1, 0]) == Ok(255) && Encode(255) == [0x80, 2, 1] && !Canonical([0x80, 1, 0])
  {
  }

  lemma KnownDigits()
    ensures Digits(1) == [3] && Digits(16810624) == [3, 11, 161, 41]
  {
    assert Digits(1) == [3] by {
      assert Digits(0) == [];
    }
    assert Digits(262) == Digits(1) + [11];
    assert Digits(66445) == Digits(262) + [161];
    assert Digits(16810624) == Digits(66445) + [41];
  }

  lemma KnownBig(v: uint32, lead: nat, rem: nat, enc: Bytes)
    requires rem < 255 && v == lead * 255 + rem + MAX_SMALL
    requires |Digits(lead)| <= 4
    requires enc == [255, if lead == 0 then 2 else |Digits(lead)| + 1] + Digits(lead) + Suffix(rem)
    ensures Encode(v) == enc
  {
    EncodeSum(v, lead, rem);
  }

  /** The first and the last heights of either form, and the first with a remainder and with a digit. */
  lemma KnownEncodings()
    ensures Encode(0) == [0x80, 1, 1] && Encode(254) == [0x80, 1, 255] && Encode(255) == [0x80, 2, 1]
    ensures Encode(8258174) == [0xfe, 0xff, 0xff] && Encode(8258175) == [0xff, 2]
    ensures Encode(8258176) == [0xff, 2, 1, 1] && Encode(8258430) == [0xff, 2, 3]
    ensures Encode(0xffff_ffff) == [0xff, 5, 3, 11, 161, 41]
  {
    KnownDigits();
    KnownBig(8258175, 0, 0, [255, 2]);
    KnownBig(8258176, 0, 1, [255, 2, 1, 1]);
    KnownBig(8258430, 1, 0, [255, 2, 3]);
    KnownBig(0xffff_ffff, 16810624, 0, [255, 5, 3, 11, 161, 41]);
  }
}
