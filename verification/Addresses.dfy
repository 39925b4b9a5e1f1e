/** Addresses, and the compressed form the store writes them in (services/store.go). */
module Addresses {
  import opened ByteStrings
  import opened Numbers
  import opened Wrappers

  /** A 20-byte address, as the number its bytes spell; hex text shows the bytes in reverse. */
  type Address = a: int | 0 <= a < 0x1_0000000000_0000000000_0000000000_0000000000

  const NULL: Address := 0
  const ONT: Address := 1
  const ONG: Address := 2
  const GOV: Address := 7

  /** addr[:] */
  function AddressBytes(a: Address): (r: Bytes)
    ensures |r| == 20
  {
    Fixed(20, a)
  }

  lemma AddressLimit()
    ensures Power(256, 20) == 0x1_0000000000_0000000000_0000000000_0000000000
  {
    assert Power(256, 2) == 0x1_0000 by { assert Power(256, 1) == 256; }
    assert Power(256, 3) == 0x100_0000;
    assert Power(256, 5) == 0x1_00000_00000 by { PowersMultiply(2, 3); }
    assert Power(256, 10) == 0x1_0000000000_0000000000 by { PowersMultiply(5, 5); }
    PowersMultiply(10, 10);
  }

  /** common.AddressParseFromBytes: exactly 20 bytes, or an error. */
  function ParseAddress(bs: Bytes): Option<Address> {
    if |bs| != 20 then None
    else
      DecodeFixed(bs);
      AddressLimit();
      Some(SetBytes(bs))
  }

  lemma ParseAddressBytes(a: Address)
    ensures ParseAddress(AddressBytes(a)) == Some(a)
  {
    AddressLimit();
    FixedDecode(20, a);
  }

  lemma AddressBytesInjective(a: Address, b: Address)
    ensures AddressBytes(a) == AddressBytes(b) <==> a == b
  {
    ParseAddressBytes(a);
    ParseAddressBytes(b);
  }

  /** The native assets, which need no sub-account. */
  predicate IsNative(contract: Address) {
    contract == ONG || contract == ONT
  }

  /** addr2slice: a marker byte, then either one tag byte or the whole address. */
  function AddrToSlice(addr: Address): Bytes {
    if addr == ONG then [1, 2]
    else if addr == ONT then [1, 1]
    else if addr == GOV then [1, 7]
    else if addr == NULL then [1, 0]
    else [0] + AddressBytes(addr)
  }

  /** The addresses that are written as one tag byte. */
  predicate Compressed(addr: Address) {
    addr == ONG || addr == ONT || addr == GOV || addr == NULL
  }

  datatype SliceError = UnexpectedValue | EmptyValue | WrongLength

  /** slice2addr: used on stored transfers, reports malformed input. */
  function SliceToAddr(xs: Bytes): Result<Address, SliceError> {
    if |xs| == 2 then
      if xs[0] != 1 then Err(UnexpectedValue)
      else if xs[1] == 2 then Ok(ONG)
      else if xs[1] == 1 then Ok(ONT)
      else if xs[1] == 7 then Ok(GOV)
      else if xs[1] == 0 then Ok(NULL)
      else Err(UnexpectedValue)
    else if |xs| == 0 then Err(EmptyValue)
    else
      match ParseAddress(xs[1..])
      case None => Err(WrongLength)
      case Some(addr) => Ok(addr)
  }

  /** decompressAddr: used on keys; None stands for its panic. */
  function Decompress(xs: Bytes): Option<Address> {
    if |xs| == 2 then
      if xs[1] == 2 then Some(ONG)
      else if xs[1] == 1 then Some(ONT)
      else if xs[1] == 7 then Some(GOV)
      else if xs[1] == 0 then Some(NULL)
      else None
    else if xs == [] then None
    else ParseAddress(xs[1..])
  }

  /** The length of a slice, read off its first byte: what makes the code prefix-free. */
  function SliceLength(marker: byte): Option<nat> {
    if marker == 1 then Some(2) else if marker == 0 then Some(21) else None
  }

  lemma SliceRoundTrip(addr: Address)
    ensures SliceToAddr(AddrToSlice(addr)) == Ok(addr)
    ensures Decompress(AddrToSlice(addr)) == Some(addr)
    ensures AddrToSlice(addr) != [] && SliceLength(AddrToSlice(addr)[0]) == Some(|AddrToSlice(addr)|)
    ensures AddrToSlice(addr)[0] == 1 <==> Compressed(addr)
  {
    if !Compressed(addr) {
      ParseAddressBytes(addr);
      assert AddrToSlice(addr)[1..] == AddressBytes(addr);
    }
  }

  /** If one slice starts the text that starts with another, they are the same address's slice. */
  lemma SlicePrefixFree(a: Address, x: Bytes, b: Address, y: Bytes)
    requires AddrToSlice(a) + x == AddrToSlice(b) + y
    ensures a == b && x == y
  {
    var s, t := AddrToSlice(a), AddrToSlice(b);
    SliceRoundTrip(a);
    SliceRoundTrip(b);
    assert s[0] == (s + x)[0] == (t + y)[0] == t[0];
    assert s == (s + x)[..|s|] == (t + y)[..|t|] == t;
    assert x == (s + x)[|s|..] == (t + y)[|t|..] == y;
  }
}
