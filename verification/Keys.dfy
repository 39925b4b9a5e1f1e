/** The keys of the database (services/store.go): one leading letter for each kind of entry. */
module Keys {
  import opened Addresses
  import opened ByteStrings
  import opened Lexinum
  import opened Numbers
  import opened Wrappers

  /** An account and a token contract: what a balance belongs to. */
  datatype Pair = Pair(acct: Address, contract: Address)

  /** A 32-byte hash, as the number its bytes spell. */
  type Hash = h: int |
      0 <= h < 0x1_0000000000_0000000000_0000000000_0000000000_0000000000_0000000000_0000

  const ZERO_HASH: Hash := 0

  function HashBytes(h: Hash): (r: Bytes)
    ensures |r| == 32
  {
    Fixed(32, h)
  }

  lemma HashLimit()
    ensures Power(256, 32) == 0x1_0000000000_0000000000_0000000000_0000000000_0000000000_0000000000_0000
  {
    AddressLimit();
    assert Power(256, 2) == 0x1_0000 by { assert Power(256, 1) == 256; }
    assert Power(256, 4) == 0x1_00000000 by { PowersMultiply(2, 2); }
    assert Power(256, 8) == 0x1_00000000_00000000 by { PowersMultiply(4, 4); }
    assert Power(256, 12) == 0x1_00000000_00000000_00000000 by { PowersMultiply(8, 4); }
    PowersMultiply(20, 12);
  }

  /** copy(hash[:], val): a stored hash read back. */
  function ReadHash(bs: Bytes): Hash
    requires |bs| == 32
  {
    DecodeFixed(bs);
    HashLimit();
    SetBytes(bs)
  }

  lemma ReadHashBytes(h: Hash)
    ensures ReadHash(HashBytes(h)) == h
  {
    HashLimit();
    FixedDecode(32, h);
  }

  lemma HashBytesInjective(g: Hash, h: Hash)
    ensures HashBytes(g) == HashBytes(h) <==> g == h
  {
    ReadHashBytes(g);
    ReadHashBytes(h);
  }

  /** What the database has entries for. */
  datatype Key =
    | Account(pair: Pair, height: uint32)
    | BlockAt(height: uint32)
    | HeightOf(hash: Hash)
    | HashAt(height: uint32)
    | Unsigned(hash: Hash)
    | Marker

  /** a<acct><contract> */
  function AccountPrefix(p: Pair): Bytes {
    [97] + AddrToSlice(p.acct) + AddrToSlice(p.contract)
  }

  /** a<acct><contract><height-lexinum> */
  function AccountKey(p: Pair, h: uint32): Bytes {
    AccountPrefix(p) + Encode(h)
  }

  /** The key as the database has it; the marker's is the text "height". */
  function Encoded(k: Key): Bytes {
    match k
    case Account(p, h) => AccountKey(p, h)
    case BlockAt(h) => [98] + PutUint32(h)
    case HeightOf(hash) => [99] + HashBytes(hash)
    case HashAt(h) => [100] + PutUint32(h)
    case Unsigned(hash) => [101] + HashBytes(hash)
    case Marker => [104, 101, 105, 103, 104, 116]
  }

  /** The letter that says what kind of entry a key is for. */
  function Letter(k: Key): byte {
    match k
    case Account(_, _) => 97
    case BlockAt(_) => 98
    case HeightOf(_) => 99
    case HashAt(_) => 100
    case Unsigned(_) => 101
    case Marker => 104
  }

  lemma StartsWithLetter(k: Key)
    ensures |Encoded(k)| >= 5 && Encoded(k)[0] == Letter(k)
  {
  }

  lemma AfterLetter(a: Bytes, c: Bytes, x: Bytes)
    ensures (([97] + a + c) + x)[1..] == a + (c + x)
  {
  }

  /** Whatever starts with one pair's prefix starts with no other pair's. */
  lemma PairPrefixFree(p: Pair, x: Bytes, q: Pair, y: Bytes)
    requires AccountPrefix(p) + x == AccountPrefix(q) + y
    ensures p == q && x == y
  {
    AfterLetter(AddrToSlice(p.acct), AddrToSlice(p.contract), x);
    AfterLetter(AddrToSlice(q.acct), AddrToSlice(q.contract), y);
    SlicePrefixFree(p.acct, AddrToSlice(p.contract) + x, q.acct, AddrToSlice(q.contract) + y);
    SlicePrefixFree(p.contract, x, q.contract, y);
  }

  /** An account key determines its pair and its height. */
  lemma AccountKeyInjective(p: Pair, h: uint32, q: Pair, g: uint32)
    ensures AccountKey(p, h) == AccountKey(q, g) <==> p == q && h == g
  {
    if AccountKey(p, h) == AccountKey(q, g) {
      PairPrefixFree(p, Encode(h), q, Encode(g));
      EncodeOrder(h, g);
    }
  }

  /** No two entries have the same key. */
  lemma EncodedInjective(k: Key, l: Key)
    ensures Encoded(k) == Encoded(l) <==> k == l
  {
    var a, b := Encoded(k), Encoded(l);
    StartsWithLetter(k);
    StartsWithLetter(l);
    if a == b {
      if k.Account? {
        AccountKeyInjective(k.pair, k.height, l.pair, l.height);
      } else if !k.Marker? {
        assert a[1..] == b[1..];
        if k.BlockAt? || k.HashAt? {
          PutUint32Injective(k.height, l.height);
        } else {
          HashBytesInjective(k.hash, l.hash);
        }
      }
    }
  }

  /** Within one pair, key order is height order. */
  lemma AccountKeyOrder(p: Pair, h: uint32, g: uint32)
    ensures AtMost(AccountKey(p, h), AccountKey(p, g)) <==> h <= g
    ensures Less(AccountKey(p, h), AccountKey(p, g)) <==> h < g
  {
    LessAfterPrefix(AccountPrefix(p), Encode(h), Encode(g));
    EncodeOrder(h, g);
    AccountKeyInjective(p, h, p, g);
  }

  lemma AccountLetter(k: Key)
    requires Encoded(k)[..1] == [97]
    ensures k.Account?
  {
    StartsWithLetter(k);
  }

  /** A key that starts with a pair's prefix belongs to that pair. */
  lemma PrefixNamesPair(p: Pair, k: Key)
    requires AccountPrefix(p) <= Encoded(k)
    ensures k.Account? && k.pair == p
  {
    var rest := Encoded(k)[|AccountPrefix(p)|..];
    assert Encoded(k) == AccountPrefix(p) + rest;
    AccountLetter(k);
    PairPrefixFree(p, rest, k.pair, Encode(k.height));
  }

  /** The forms of all keys, byte by byte; heights outside account keys have their lowest byte first. */
  lemma KeyForms(p: Pair, h: uint32, hash: Hash)
    ensures Encoded(Account(p, h)) == ['a' as int] + AddrToSlice(p.acct) + AddrToSlice(p.contract) + Encode(h)
    ensures Encoded(BlockAt(h)) == ['b' as int, h % 256, h / 0x100 % 256, h / 0x1_0000 % 256, h / 0x100_0000]
    ensures Encoded(HeightOf(hash)) == ['c' as int] + Fixed(32, hash)
    ensures Encoded(HashAt(h)) == ['d' as int, h % 256, h / 0x100 % 256, h / 0x1_0000 % 256, h / 0x100_0000]
    ensures Encoded(Unsigned(hash)) == ['e' as int] + Fixed(32, hash)
    ensures Encoded(Marker)
         == ['h' as int, 'e' as int, 'i' as int, 'g' as int, 'h' as int, 't' as int]
    ensures AddrToSlice(NULL) == [1, 0] && AddrToSlice(ONT) == [1, 1] && AddrToSlice(ONG) == [1, 2]
    ensures AddrToSlice(GOV) == [1, 7]
    ensures p.acct !in {NULL, ONT, ONG, GOV} ==> AddrToSlice(p.acct) == [0] + Fixed(20, p.acct)
  {
  }

  // The positional parser of the validation scan

  datatype ParsedKey = ParsedKey(acct: Bytes, contract: Bytes, ident: Bytes)

  /** Splits a key by its marker bytes; None stands for the scan's error, and for an index out of range. */
  function ParseAccountKey(key: Bytes): Option<ParsedKey> {
    if |key| < 2 || SliceLength(key[1]).None? then None
    else
      var start := 1 + SliceLength(key[1]).value;
      if |key| <= start || SliceLength(key[start]).None? then None
      else
        var end := start + SliceLength(key[start]).value;
        if |key| < end then None
        else Some(ParsedKey(key[1..start], key[start..end], key[..end]))
  }

  /** Where the parts of a written key lie. */
  lemma WrittenParts(p: Pair, h: uint32)
    ensures var a, c, k := AddrToSlice(p.acct), AddrToSlice(p.contract), AccountKey(p, h);
            && |a| > 0 && |c| > 0 && |k| > 1 + |a| + |c|
            && k[1] == a[0] && k[1..1 + |a|] == a
            && k[1 + |a|] == c[0] && k[1 + |a|..1 + |a| + |c|] == c
            && k[..1 + |a| + |c|] == AccountPrefix(p)
  {
    var a, c, k := AddrToSlice(p.acct), AddrToSlice(p.contract), AccountKey(p, h);
    EncodingLength(h);
    assert k == [97] + a + c + Encode(h);
    assert k[1..1 + |a|] == a && k[1 + |a|..1 + |a| + |c|] == c;
    assert k[1] == a[0] && k[1 + |a|] == c[0];
  }

  lemma ParsedParts(p: Pair, h: uint32)
    ensures ParseAccountKey(AccountKey(p, h))
         == Some(ParsedKey(AddrToSlice(p.acct), AddrToSlice(p.contract), AccountPrefix(p)))
  {
    SliceRoundTrip(p.acct);
    SliceRoundTrip(p.contract);
    WrittenParts(p, h);
  }

  /** The parser, and then decompression, recover the pair the writer encoded. */
  lemma ParseWritten(p: Pair, h: uint32)
    ensures ParseAccountKey(AccountKey(p, h)).Some?
    ensures var parsed := ParseAccountKey(AccountKey(p, h)).value;
            && Decompress(parsed.acct) == Some(p.acct)
            && Decompress(parsed.contract) == Some(p.contract)
            && parsed.ident == AccountPrefix(p)
            && parsed.contract != [] && (parsed.contract[0] == 1 <==> Compressed(p.contract))
  {
    ParsedParts(p, h);
    SliceRoundTrip(p.acct);
    SliceRoundTrip(p.contract);
  }
}
