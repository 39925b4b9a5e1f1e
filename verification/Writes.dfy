/** The writes of setBlock one by one, in whatever order the changes come, and what they add up to. */
module Writes {
  import opened Blocks
  import opened Index
  import opened Keys
  import opened Numbers
  import opened Transfers
  import opened Wrappers

  /** Only the account entries of a block. */
  ghost function WithEntries(db: Ledger, diffs: Diffs, h: uint32): Ledger {
    imap k: Key | (k.Account? && k.height == h && k.pair in diffs) || k in db ::
      if k.Account? && k.height == h && k.pair in diffs
      then Raw(BigBytes(BalanceAt(db, k.pair, h - 1) + diffs[k.pair]))
      else db[k]
  }

  /** One account entry written on top of what is there. */
  ghost function Bumped(db: Ledger, p: Pair, h: uint32, diff: int): Ledger {
    db[Account(p, h) := Raw(BigBytes(BalanceAt(db, p, h - 1) + diff))]
  }

  /** The differences written one after the other, each on top of what the earlier ones left. */
  ghost function WriteAll(db: Ledger, pairs: seq<Pair>, diffs: Diffs, h: uint32): Ledger
    requires forall p :: p in pairs ==> p in diffs
    decreases |pairs|
  {
    if pairs == [] then db
    else
      var p := pairs[|pairs| - 1];
      Bumped(WriteAll(db, pairs[..|pairs| - 1], diffs, h), p, h, diffs[p])
  }

  function Part(diffs: Diffs, pairs: seq<Pair>): Diffs {
    map p | p in diffs && p in pairs :: diffs[p]
  }

  /** Writes at height h do not show in what is read below h, so the order of the writes does not matter. */
  lemma {:induction false} WriteAllEntries(db: Ledger, pairs: seq<Pair>, diffs: Diffs, h: uint32)
    requires forall p :: p in pairs ==> p in diffs
    ensures WriteAll(db, pairs, diffs, h) == WithEntries(db, Part(diffs, pairs), h)
    decreases |pairs|
  {
    if pairs != [] {
      var init, p := pairs[..|pairs| - 1], pairs[|pairs| - 1];
      assert pairs == init + [p];
      WriteAllEntries(db, init, diffs, h);
      OneMoreEntry(db, init, p, diffs, h);
    }
  }

  lemma OneMoreEntry(db: Ledger, init: seq<Pair>, p: Pair, diffs: Diffs, h: uint32)
    requires p in diffs
    ensures Bumped(WithEntries(db, Part(diffs, init), h), p, h, diffs[p]) == WithEntries(db, Part(diffs, init + [p]), h)
  {
    var before, after := WithEntries(db, Part(diffs, init), h), WithEntries(db, Part(diffs, init + [p]), h);
    forall k
      ensures Lookup(Bumped(before, p, h, diffs[p]), k) == Lookup(after, k)
    {
      if k != Account(p, h) {
        OtherEntry(db, init, p, diffs, h, k);
      } else {
        OwnEntryBumped(db, init, p, diffs, h);
      }
    }
    SameLookups(Bumped(before, p, h, diffs[p]), after);
  }

  /** Entries at a height are not read by what looks below it. */
  lemma BalanceBelow(db: Ledger, diffs: Diffs, p: Pair, h: uint32)
    ensures BalanceAt(WithEntries(db, diffs, h), p, h - 1) == BalanceAt(db, p, h - 1)
  {
    BalanceFrame(db, WithEntries(db, diffs, h), p, h - 1);
  }

  lemma OwnEntryBumped(db: Ledger, init: seq<Pair>, p: Pair, diffs: Diffs, h: uint32)
    requires p in diffs
    ensures Lookup(Bumped(WithEntries(db, Part(diffs, init), h), p, h, diffs[p]), Account(p, h))
         == Lookup(WithEntries(db, Part(diffs, init + [p]), h), Account(p, h))
  {
    BalanceBelow(db, Part(diffs, init), p, h);
    EntryWith(db, Part(diffs, init + [p]), p, h);
    BumpedEntry(WithEntries(db, Part(diffs, init), h), p, h, diffs[p]);
  }

  lemma EntryWith(db: Ledger, diffs: Diffs, p: Pair, h: uint32)
    requires p in diffs
    ensures Lookup(WithEntries(db, diffs, h), Account(p, h)) == Some(Raw(BigBytes(BalanceAt(db, p, h - 1) + diffs[p])))
  {
  }

  lemma BumpedEntry(db: Ledger, p: Pair, h: uint32, diff: int)
    ensures Lookup(Bumped(db, p, h, diff), Account(p, h)) == Some(Raw(BigBytes(BalanceAt(db, p, h - 1) + diff)))
  {
  }

  lemma OtherEntry(db: Ledger, init: seq<Pair>, p: Pair, diffs: Diffs, h: uint32, k: Key)
    requires k != Account(p, h)
    ensures Lookup(WithEntries(db, Part(diffs, init), h), k) == Lookup(WithEntries(db, Part(diffs, init + [p]), h), k)
  {
  }

  lemma WriteAllStep(db: Ledger, pairs: seq<Pair>, diffs: Diffs, h: uint32, i: nat)
    requires i < |pairs| && forall p :: p in pairs ==> p in diffs
    ensures WriteAll(db, pairs[..i + 1], diffs, h)
         == Bumped(WriteAll(db, pairs[..i], diffs, h), pairs[i], h, diffs[pairs[i]])
  {
    assert pairs[..i + 1][..i] == pairs[..i];
  }

  /** Two listings of the same table write the same ledger: the order of a Go map walk cannot matter. */
  lemma WriteOrderIrrelevant(db: Ledger, ps: seq<Pair>, qs: seq<Pair>, diffs: Diffs, h: uint32)
    requires forall p :: p in ps <==> p in diffs
    requires forall p :: p in qs <==> p in diffs
    ensures WriteAll(db, ps, diffs, h) == WriteAll(db, qs, diffs, h)
  {
    WriteAllEntries(db, ps, diffs, h);
    WriteAllEntries(db, qs, diffs, h);
    assert Part(diffs, ps) == diffs == Part(diffs, qs);
  }

  /** After the account entries, setBlock sets the block's other entries one by one. */
  ghost function MarkAll(db: Ledger, hashes: seq<Hash>): Ledger
    decreases |hashes|
  {
    if hashes == [] then db else MarkAll(db, hashes[..|hashes| - 1])[Unsigned(hashes[|hashes| - 1]) := Raw([])]
  }

  lemma {:induction false} MarkAllLookup(db: Ledger, hashes: seq<Hash>, k: Key)
    ensures Lookup(MarkAll(db, hashes), k)
         == if k.Unsigned? && k.hash in hashes then Some(Raw([])) else Lookup(db, k)
    decreases |hashes|
  {
    if hashes != [] {
      var init, last := hashes[..|hashes| - 1], hashes[|hashes| - 1];
      assert hashes == init + [last];
      MarkAllLookup(db, init, k);
    }
  }

  ghost function WithHeaders(db: Ledger, h: uint32, bs: BlockState): Ledger {
    db[BlockAt(h) := Record(bs.block)][HeightOf(bs.hash) := Raw(PutUint32(h))][HashAt(h) := Raw(HashBytes(bs.hash))]
  }

  lemma HeaderEntry(db: Ledger, h: uint32, bs: BlockState, k: Key)
    ensures Lookup(WithHeaders(db, h, bs), k) ==
            if k == BlockAt(h) then Some(Record(bs.block))
            else if k == HeightOf(bs.hash) then Some(Raw(PutUint32(h)))
            else if k == HashAt(h) then Some(Raw(HashBytes(bs.hash)))
            else Lookup(db, k)
  {
  }

  lemma AccountEntry(db: Ledger, h: uint32, bs: BlockState, k: Key)
    ensures Lookup(WithEntries(db, bs.diffs, h), k) ==
            if k.Account? && Writes(bs, h, k) then Some(Written(db, bs, h, k)) else Lookup(db, k)
  {
  }

  lemma IndexedEntry(db: Ledger, h: uint32, bs: BlockState, k: Key)
    ensures Lookup(Indexed(db, h, bs), k) == if Writes(bs, h, k) then Some(Written(db, bs, h, k)) else Lookup(db, k)
  {
  }

  /** One entry after all writes of setBlock. */
  lemma WrittenEntry(db: Ledger, h: uint32, bs: BlockState, k: Key)
    ensures var headers := WithHeaders(WithEntries(db, bs.diffs, h), h, bs);
            Lookup(MarkAll(headers, bs.hashes)[Marker := Raw(PutUint32(h))], k) == Lookup(Indexed(db, h, bs), k)
  {
    var entries := WithEntries(db, bs.diffs, h);
    MarkAllLookup(WithHeaders(entries, h, bs), bs.hashes, k);
    HeaderEntry(entries, h, bs, k);
    AccountEntry(db, h, bs, k);
    IndexedEntry(db, h, bs, k);
  }

  /** The writes of setBlock together. */
  lemma SetBlockWrites(db: Ledger, pairs: seq<Pair>, h: uint32, bs: BlockState)
    requires forall p :: p in pairs <==> p in bs.diffs
    ensures MarkAll(WithHeaders(WriteAll(db, pairs, bs.diffs, h), h, bs), bs.hashes)[Marker := Raw(PutUint32(h))]
         == Indexed(db, h, bs)
  {
    WriteAllEntries(db, pairs, bs.diffs, h);
    assert Part(bs.diffs, pairs) == bs.diffs;
    var all := MarkAll(WithHeaders(WithEntries(db, bs.diffs, h), h, bs), bs.hashes)[Marker := Raw(PutUint32(h))];
    forall k
      ensures Lookup(all, k) == Lookup(Indexed(db, h, bs), k)
    {
      WrittenEntry(db, h, bs, k);
    }
    SameLookups(all, Indexed(db, h, bs));
  }
}
