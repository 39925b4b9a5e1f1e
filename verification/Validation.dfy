/** The scan of Validate (services/store.go) that lists every account and contract with its latest entry. */
module Validation {
  import opened Addresses
  import opened ByteStrings
  import opened Keys
  import opened Layout
  import opened Lexinum
  import opened Numbers
  import opened SortedKeys
  import opened Wrappers

  /** accountInfo */
  datatype AccountRecord = AccountRecord(acct: Address, contract: Address, key: Bytes, native: bool)

  function PairOf(r: AccountRecord): Pair {
    Pair(r.acct, r.contract)
  }

  /** The record has the key of its pair's latest entry, and tells whether the contract is a compressed address. */
  ghost predicate Newest(db: Database, r: AccountRecord) {
    && r.key in db && IsKeyOf(r.key, PairOf(r)) && (r.native <==> Compressed(r.contract))
    && forall b :: b in db && IsKeyOf(b, PairOf(r)) ==> AtMost(b, r.key)
  }

  ghost predicate IsKeyOf(b: Bytes, p: Pair) {
    exists h: uint32 :: b == AccountKey(p, h)
  }

  ghost predicate Has(records: seq<AccountRecord>, p: Pair) {
    exists i :: 0 <= i < |records| && PairOf(records[i]) == p
  }

  /** Each record is its pair's newest, and no pair has two. */
  ghost predicate Good(db: Database, records: seq<AccountRecord>) {
    && (forall i :: 0 <= i < |records| ==> Newest(db, records[i]))
    && (forall i, j :: 0 <= i < j < |records| ==> PairOf(records[i]) != PairOf(records[j]))
  }

  /** All keys the scan has passed are covered, and every record was passed. */
  ghost predicate Covered(records: seq<AccountRecord>, seen: set<Bytes>) {
    && (forall b, p :: b in seen && IsKeyOf(b, p) ==> Has(records, p))
    && (forall i :: 0 <= i < |records| ==> records[i].key in seen)
  }

  /** The prefix compared with: that of the last key passed, none before the first. */
  ghost predicate LastIdent(seen: set<Bytes>, last: Bytes, ident: Bytes) {
    if seen == {} then ident == []
    else
      && last in seen && (forall b :: b in seen ==> AtMost(last, b))
      && exists p :: IsKeyOf(last, p) && ident == AccountPrefix(p)
  }

  /** opts.Prefix: only account keys count. */
  predicate InAccounts(b: Bytes) {
    [97] <= b
  }

  /** The account keys above the cursor. */
  function Above(db: Database, cursor: Option<Bytes>): set<Bytes> {
    set b | b in db && InAccounts(b) && (cursor.None? || Less(cursor.value, b))
  }

  lemma LowerStart(c: Bytes)
    requires |c| > 1 && AtMost(c, [98])
    ensures c[0] < 98
  {
    var b: Bytes := [98];
    assert |b| == 1 && b[1..] == [];
    assert !Less(c[1..], b[1..]);
  }

  /** Nothing but account keys lies at or below "b". */
  lemma BelowIsAccount(db: Database, c: Bytes)
    requires WellKeyed(db) && c in db && AtMost(c, [98])
    ensures InAccounts(c) && exists p :: IsKeyOf(c, p)
  {
    var k: Key :| c == Encoded(k);
    StartsWithLetter(k);
    LowerStart(c);
    assert IsKeyOf(c, k.pair);
  }

  lemma StartsAtNone(db: Database, cursor: Option<Bytes>)
    requires WellKeyed(db) && SeeksTo(db.Keys, [98], cursor)
    ensures Above(db, cursor) == {}
  {
    forall b | b in db && InAccounts(b)
      ensures cursor.Some? && AtMost(b, cursor.value)
    {
      assert Less(b, [98]);
    }
    forall b | b in db && InAccounts(b)
      ensures !Less(cursor.value, b)
    {
      NotAtMost(b, cursor.value);
    }
  }

  /** A step passes exactly the key it leaves. */
  lemma StepsOne(db: Database, key: Bytes, next: Option<Bytes>)
    requires key in db && InAccounts(key) && Within(db, Some(key)) && StepsTo(db.Keys, key, next)
    ensures Above(db, next) == Above(db, Some(key)) + {key} && Within(db, next)
  {
    if next.Some? {
      LessOver(next.value, key, [98]);
    }
    forall b | b in db && InAccounts(b)
      ensures b in Above(db, next) <==> b == key || Less(key, b)
    {
      StepsOver(db.Keys, key, next, b);
    }
  }

  lemma StepShrinks(db: Database, key: Bytes, seen: set<Bytes>)
    requires key in db && key !in seen && seen <= db.Keys
    ensures |seen + {key}| == |seen| + 1 && |db.Keys - (seen + {key})| < |db.Keys - seen|
  {
  }

  /** A key lies above where the cursor goes exactly if it is not below where it was. */
  lemma StepsOver(keys: set<Bytes>, key: Bytes, next: Option<Bytes>, b: Bytes)
    requires StepsTo(keys, key, next) && b in keys
    ensures (next.None? || Less(next.value, b)) <==> b == key || Less(key, b)
  {
    NotAtMost(b, key);
    if b == key || Less(key, b) {
      LessIrreflexive(key);
      if next.Some? {
        LessOver(next.value, key, b);
      }
    } else if next.Some? {
      NotAtMost(b, next.value);
    }
  }

  lemma LessOver(a: Bytes, b: Bytes, c: Bytes)
    requires Less(a, b) && AtMost(b, c)
    ensures Less(a, c)
  {
    if b != c {
      LessTransitive(a, b, c);
    }
  }

  lemma KeyNamesPair(b: Bytes, p: Pair, q: Pair)
    requires IsKeyOf(b, p) && IsKeyOf(b, q)
    ensures p == q
  {
    var h: uint32 :| b == AccountKey(p, h);
    var g: uint32 :| b == AccountKey(q, g);
    AccountKeyInjective(p, h, q, g);
  }

  lemma PrefixNames(p: Pair, q: Pair)
    ensures AccountPrefix(p) == AccountPrefix(q) <==> p == q
  {
    if AccountPrefix(p) == AccountPrefix(q) {
      PairPrefixFree(p, [], q, []);
    }
  }

  /** Between two keys of a pair lie only keys of that pair: a pair's keys are passed in one stretch. */
  lemma OneStretch(p: Pair, key: Bytes, last: Bytes, other: Bytes, q: Pair)
    requires IsKeyOf(key, p) && IsKeyOf(other, p) && IsKeyOf(last, q)
    requires Less(key, last) && AtMost(last, other)
    ensures q == p
  {
    var h: uint32 :| key == AccountKey(p, h);
    var g: uint32 :| other == AccountKey(p, g);
    var l: uint32 :| last == AccountKey(q, l);
    PrefixBetween(AccountPrefix(p), Encode(h), last, Encode(g));
    PrefixNamesPair(p, Account(q, l));
  }

  /** What the scan keeps, once it has passed the keys `seen`. */
  ghost predicate Scanned(db: Database, records: seq<AccountRecord>, seen: set<Bytes>, last: Bytes, ident: Bytes) {
    Good(db, records) && Covered(records, seen) && LastIdent(seen, last, ident)
  }

  /** A key of the same pair as the one before adds nothing. */
  lemma SamePair(
    db: Database, records: seq<AccountRecord>, seen: set<Bytes>, last: Bytes, ident: Bytes, key: Bytes, p: Pair
  )
    requires Scanned(db, records, seen, last, ident) && seen == Above(db, Some(key))
    requires IsKeyOf(key, p) && ident == AccountPrefix(p)
    ensures Scanned(db, records, seen + {key}, key, ident)
  {
    assert seen != {};
    var q :| IsKeyOf(last, q) && ident == AccountPrefix(q);
    PrefixNames(p, q);
    assert Has(records, p);
    CoveredSame(records, seen, key, p);
    LastIsKey(db, seen, key, p);
  }

  lemma CoveredSame(records: seq<AccountRecord>, seen: set<Bytes>, key: Bytes, p: Pair)
    requires Covered(records, seen) && IsKeyOf(key, p) && Has(records, p)
    ensures Covered(records, seen + {key})
  {
    forall b, r | b in seen + {key} && IsKeyOf(b, r)
      ensures Has(records, r)
    {
      if b == key {
        KeyNamesPair(key, p, r);
      }
    }
  }

  /** A key of another pair than the one before is of a pair not met yet, and its newest. */
  lemma NewPair(
    db: Database, records: seq<AccountRecord>, seen: set<Bytes>, last: Bytes, ident: Bytes, key: Bytes, r: AccountRecord
  )
    requires Scanned(db, records, seen, last, ident) && seen == Above(db, Some(key))
    requires key in db && InAccounts(key) && IsKeyOf(key, PairOf(r)) && r.key == key
    requires ident != AccountPrefix(PairOf(r))
    requires r.native <==> Compressed(r.contract)
    ensures Scanned(db, records + [r], seen + {key}, key, AccountPrefix(PairOf(r)))
  {
    NotMet(db, records, seen, last, ident, key, PairOf(r));
    IsNewest(db, records, seen, key, r);
    GoodMore(db, records, r);
    CoveredMore(records, seen, r);
    LastIsKey(db, seen, key, PairOf(r));
  }

  lemma LastIsKey(db: Database, seen: set<Bytes>, key: Bytes, p: Pair)
    requires seen == Above(db, Some(key)) && IsKeyOf(key, p)
    ensures LastIdent(seen + {key}, key, AccountPrefix(p))
  {
  }

  lemma NotMet(
    db: Database, records: seq<AccountRecord>, seen: set<Bytes>, last: Bytes, ident: Bytes, key: Bytes, p: Pair
  )
    requires Good(db, records) && Covered(records, seen) && LastIdent(seen, last, ident)
    requires seen == Above(db, Some(key)) && IsKeyOf(key, p) && ident != AccountPrefix(p)
    ensures !Has(records, p)
  {
    if Has(records, p) {
      var i :| 0 <= i < |records| && PairOf(records[i]) == p;
      assert Newest(db, records[i]) && records[i].key in seen;
      var q :| IsKeyOf(last, q) && ident == AccountPrefix(q);
      OneStretch(p, key, last, records[i].key, q);
    }
  }

  lemma IsNewest(db: Database, records: seq<AccountRecord>, seen: set<Bytes>, key: Bytes, r: AccountRecord)
    requires Covered(records, seen) && !Has(records, PairOf(r))
    requires key in db && InAccounts(key) && seen == Above(db, Some(key)) && IsKeyOf(key, PairOf(r)) && r.key == key
    requires r.native <==> Compressed(r.contract)
    ensures Newest(db, r)
  {
    forall b | b in db && IsKeyOf(b, PairOf(r))
      ensures AtMost(b, key)
    {
      NotAtMost(b, key);
      assert b[0] == 97;
      assert b !in seen;
    }
  }

  lemma GoodMore(db: Database, records: seq<AccountRecord>, r: AccountRecord)
    requires Good(db, records) && Newest(db, r) && !Has(records, PairOf(r))
    ensures Good(db, records + [r])
  {
  }

  lemma CoveredMore(records: seq<AccountRecord>, seen: set<Bytes>, r: AccountRecord)
    requires Covered(records, seen) && IsKeyOf(r.key, PairOf(r))
    ensures Covered(records + [r], seen + {r.key})
  {
    forall b, p | b in seen + {r.key} && IsKeyOf(b, p)
      ensures Has(records + [r], p)
    {
      if b in seen {
        var i :| 0 <= i < |records| && PairOf(records[i]) == p;
        assert PairOf((records + [r])[i]) == p;
      } else {
        KeyNamesPair(b, p, PairOf(r));
        assert PairOf((records + [r])[|records|]) == p;
      }
    }
  }

  /** What the scan reads off a key. */
  datatype KeyParts = KeyParts(acct: Address, contract: Address, ident: Bytes, native: bool)

  /** Splitting a key and decompressing its addresses; None stands for the scan's error and for a panic. */
  function ParseKey(key: Bytes): Option<KeyParts> {
    match ParseAccountKey(key)
    case None => None
    case Some(parsed) =>
      var acct, contract := Decompress(parsed.acct), Decompress(parsed.contract);
      if acct.None? || contract.None? || parsed.contract == [] then None
      else Some(KeyParts(acct.value, contract.value, parsed.ident, parsed.contract[0] == 1))
  }

  lemma ParseKeyWritten(key: Bytes, p: Pair)
    requires IsKeyOf(key, p)
    ensures ParseKey(key).Some?
    ensures var parts := ParseKey(key).value;
            && parts.acct == p.acct && parts.contract == p.contract && parts.ident == AccountPrefix(p)
            && (parts.native <==> Compressed(p.contract))
  {
    var h: uint32 :| key == AccountKey(p, h);
    ParseWritten(p, h);
  }

  /**
   The first transaction of Validate. It never meets a key it cannot parse, and returns exactly one
   record for each account and contract that have an entry, with the key of the latest one.
   */
  method Scan(db: Database) returns (records: Option<seq<AccountRecord>>, total: nat)
    requires WellKeyed(db)
    ensures records.Some? && Good(db, records.value)
    ensures forall p :: Has(records.value, p) <==> exists h: uint32 :: Account(p, h) in LedgerOf(db)
    ensures total == |set b | b in db && InAccounts(b)|
  {
    var accts: seq<AccountRecord> := [];
    total := 0;
    var ident: Bytes := [];
    ghost var last: Bytes := [];
    var it := Seek(db.Keys, [98]);
    StartsAtNone(db, it);
    while ValidForPrefix(it, [97])
      invariant Within(db, it)
      invariant Scanned(db, accts, Above(db, it), last, ident)
      invariant total == |Above(db, it)|
      decreases |db.Keys - Above(db, it)|
    {
      total := total + 1;
      var key := it.value;
      ghost var p := Advance(db, key);
      ghost var seen := Above(db, it);
      var parts := ParseKey(key);
      if parts.None? {
        return None, total;
      }
      it := Step(db.Keys, key);
      StepsOne(db, key, it);
      StepShrinks(db, key, seen);
      if parts.value.ident == ident {
        SamePair(db, accts, seen, last, ident, key, p);
        last := key;
        continue;
      }
      var r := AccountRecord(parts.value.acct, parts.value.contract, key, parts.value.native);
      NewPair(db, accts, seen, last, ident, key, r);
      ident, last := parts.value.ident, key;
      accts := accts + [r];
    }
    ScanDone(db, it, accts);
    records := Some(accts);
  }

  /** The cursor stands on a key, at or below where the scan began. */
  ghost predicate Within(db: Database, cursor: Option<Bytes>) {
    cursor.Some? ==> cursor.value in db && AtMost(cursor.value, [98])
  }

  /** The key under the cursor belongs to some pair, which the parser finds, and is not counted yet. */
  lemma Advance(db: Database, key: Bytes) returns (p: Pair)
    requires WellKeyed(db) && Within(db, Some(key)) && key in db
    ensures InAccounts(key) && IsKeyOf(key, p) && key !in Above(db, Some(key)) && Above(db, Some(key)) <= db.Keys
    ensures ParseKey(key).Some?
    ensures var parts := ParseKey(key).value;
            && parts.acct == p.acct && parts.contract == p.contract && parts.ident == AccountPrefix(p)
            && (parts.native <==> Compressed(p.contract))
  {
    BelowIsAccount(db, key);
    p :| IsKeyOf(key, p);
    ParseKeyWritten(key, p);
    LessIrreflexive(key);
  }

  lemma ScanDone(db: Database, cursor: Option<Bytes>, records: seq<AccountRecord>)
    requires WellKeyed(db) && !ValidForPrefix(cursor, [97]) && Within(db, cursor)
    requires Good(db, records) && Covered(records, Above(db, cursor))
    ensures Above(db, cursor) == set b | b in db && InAccounts(b)
    ensures forall p :: Has(records, p) <==> exists h: uint32 :: Account(p, h) in LedgerOf(db)
  {
    if cursor.Some? {
      BelowIsAccount(db, cursor.value);
      assert false;
    }
    forall p
      ensures Has(records, p) <==> exists h: uint32 :: Account(p, h) in LedgerOf(db)
    {
      if h: uint32 :| Account(p, h) in LedgerOf(db) {
        var b := Encoded(Account(p, h));
        assert b[0] == 97 && IsKeyOf(b, p) && b in Above(db, cursor);
      }
      if Has(records, p) {
        var i :| 0 <= i < |records| && PairOf(records[i]) == p;
        assert Newest(db, records[i]);
        var h: uint32 :| records[i].key == AccountKey(p, h);
        assert Encoded(Account(p, h)) in db;
      }
    }
  }
}
