/**
 The database as bytes: entries under their encoded keys, and how reverse iteration over the
 byte order finds a pair's latest entry.
 */
module Layout {
  import opened ByteStrings
  import opened Index
  import opened Keys
  import opened Lexinum
  import opened Numbers
  import opened SortedKeys
  import opened Wrappers

  type Database = map<Bytes, Value>

  /** Every key is the encoding of an entry's key. */
  ghost predicate WellKeyed(db: Database) {
    forall b :: b in db ==> exists k: Key :: b == Encoded(k)
  }

  /** The entries a database holds. */
  ghost function LedgerOf(db: Database): Ledger {
    imap k: Key | Encoded(k) in db :: db[Encoded(k)]
  }

  /** Setting a value under an encoded key sets that entry and no other. */
  lemma SetEntry(db: Database, k: Key, v: Value)
    requires WellKeyed(db)
    ensures WellKeyed(db[Encoded(k) := v])
    ensures LedgerOf(db[Encoded(k) := v]) == LedgerOf(db)[k := v]
  {
    var a, b := LedgerOf(db[Encoded(k) := v]), LedgerOf(db)[k := v];
    forall l
      ensures Lookup(a, l) == Lookup(b, l)
    {
      EncodedInjective(k, l);
    }
    SameLookups(a, b);
  }

  /** The bytes are determined by the entries they stand for. */
  lemma LedgerDetermines(a: Database, b: Database)
    requires WellKeyed(a) && WellKeyed(b) && LedgerOf(a) == LedgerOf(b)
    ensures a == b
  {
    EntriesCarried(a, b);
    EntriesCarried(b, a);
  }

  lemma EntriesCarried(a: Database, b: Database)
    requires WellKeyed(a) && LedgerOf(a) == LedgerOf(b)
    ensures forall t :: t in a ==> t in b && a[t] == b[t]
  {
    forall t | t in a
      ensures t in b && a[t] == b[t]
    {
      var k: Key :| t == Encoded(k);
      assert k in LedgerOf(a) && LedgerOf(a)[k] == a[t];
      assert k in LedgerOf(b) && LedgerOf(b)[k] == b[t];
    }
  }

  /** The height up to which a seek (or a step, if strict) from the pair's key at h reaches. */
  function Limit(h: uint32, strict: bool): int {
    if strict then h - 1 else h
  }

  /**
   A reverse seek from a pair's key at height h, or a step down from it, finds a key with the
   pair's prefix exactly when the pair has an entry in reach, and then the latest such entry:
   entries of other pairs never come between.
   */
  lemma CursorFindsLatest(db: Database, p: Pair, h: uint32, strict: bool, cursor: Option<Bytes>)
    requires WellKeyed(db) && Stands(db.Keys, AccountKey(p, h), strict, cursor)
    ensures ValidForPrefix(cursor, AccountPrefix(p)) <==> Latest(LedgerOf(db), p, Limit(h, strict)).Some?
    ensures var g := Latest(LedgerOf(db), p, Limit(h, strict));
            g.Some? ==> cursor == Some(AccountKey(p, g.value))
  {
    var g := Latest(LedgerOf(db), p, Limit(h, strict));
    if g.Some? {
      LatestReached(db, p, g.value, h, strict, cursor);
    }
    if ValidForPrefix(cursor, AccountPrefix(p)) {
      var j := OwnEntry(db, p, h, strict, cursor.value);
      LatestIsLatest(LedgerOf(db), p, Limit(h, strict), j);
      LatestReached(db, p, g.value, h, strict, cursor);
      AccountKeyOrder(p, g.value, j);
    }
  }

  /** An entry in reach keeps the cursor from going below it, so the cursor has the pair's prefix. */
  lemma LatestReached(db: Database, p: Pair, g: uint32, h: uint32, strict: bool, cursor: Option<Bytes>)
    requires Stands(db.Keys, AccountKey(p, h), strict, cursor)
    requires Account(p, g) in LedgerOf(db) && g <= Limit(h, strict)
    ensures ValidForPrefix(cursor, AccountPrefix(p)) && AtMost(AccountKey(p, g), cursor.value)
  {
    AccountKeyOrder(p, g, h);
    assert Encoded(Account(p, g)) in db.Keys;
    PrefixBetween(AccountPrefix(p), Encode(g), cursor.value, Encode(h));
  }

  /** A key with the pair's prefix is one of the pair's entries. */
  lemma OwnEntry(db: Database, p: Pair, h: uint32, strict: bool, c: Bytes) returns (j: uint32)
    requires WellKeyed(db) && c in db && AccountPrefix(p) <= c && Reached(c, AccountKey(p, h), strict)
    ensures c == AccountKey(p, j) && j <= Limit(h, strict) && Account(p, j) in LedgerOf(db)
  {
    var k: Key :| c == Encoded(k);
    PrefixNamesPair(p, k);
    j := k.height;
    AccountKeyOrder(p, j, h);
  }

  /** The balance query: seek to the pair's key at the height, and take what is there if it is the pair's. */
  method ReadBalance(db: Database, key: Bytes, prefix: Bytes, ghost p: Pair, ghost h: uint32) returns (balance: nat)
    requires WellKeyed(db) && key == AccountKey(p, h) && prefix == AccountPrefix(p)
    ensures balance == BalanceAt(LedgerOf(db), p, h)
  {
    balance := 0;
    var it := Seek(db.Keys, key);
    CursorFindsLatest(db, p, h, false, it);
    if ValidForPrefix(it, prefix) {
      assert Encoded(Account(p, Latest(LedgerOf(db), p, h).value)) == it.value;
      balance := Amount(db[it.value]);
    }
  }

  /** The lookup of setBlock: as above, but a key that is already there is stepped over. */
  method ReadPrevious(db: Database, key: Bytes, prefix: Bytes, ghost p: Pair, ghost h: uint32) returns (prev: nat)
    requires WellKeyed(db) && key == AccountKey(p, h) && prefix == AccountPrefix(p)
    ensures prev == BalanceAt(LedgerOf(db), p, h - 1)
  {
    prev := 0;
    var it := Seek(db.Keys, key);
    CursorFindsLatest(db, p, h, false, it);
    if ValidForPrefix(it, prefix) {
      var item := it.value;
      var found := true;
      if item == key {
        it := Step(db.Keys, item);
        CursorFindsLatest(db, p, h, true, it);
        if ValidForPrefix(it, prefix) {
          item := it.value;
        } else {
          found := false;
        }
      } else {
        assert Account(p, h) !in LedgerOf(db) by {
          AccountKeyInjective(p, h, p, Latest(LedgerOf(db), p, h).value);
        }
      }
      if found {
        assert Encoded(Account(p, Latest(LedgerOf(db), p, h - 1).value)) == item;
        prev := Amount(db[item]);
      }
    }
  }
}
