/** The changes a block makes to the account entries: the table of differences as database keys. */
module Changes {
  import opened Addresses
  import opened ByteStrings
  import opened DiffTables
  import opened Keys
  import opened Lexinum
  import opened Numbers
  import opened Transfers

  /** balanceChange */
  datatype BalanceChange = BalanceChange(diff: int, key: Bytes, prefix: Bytes)

  function ChangeOf(p: Pair, diff: int, h: uint32): BalanceChange {
    BalanceChange(diff, AccountKey(p, h), AccountPrefix(p))
  }

  function ChangesOf(pairs: seq<Pair>, diffs: Diffs, h: uint32): seq<BalanceChange>
    requires forall p :: p in pairs ==> p in diffs
  {
    seq(|pairs|, i requires 0 <= i < |pairs| => ChangeOf(pairs[i], diffs[pairs[i]], h))
  }

  ghost predicate Distinct(pairs: seq<Pair>) {
    forall i, j :: 0 <= i < j < |pairs| ==> pairs[i] != pairs[j]
  }

  lemma DistinctJoin(ps: seq<Pair>, qs: seq<Pair>)
    requires Distinct(ps) && Distinct(qs)
    requires forall p :: p in ps ==> p !in qs
    ensures Distinct(ps + qs)
  {
    forall i, j | 0 <= i < j < |ps + qs|
      ensures (ps + qs)[i] != (ps + qs)[j]
    {
      if i < |ps| <= j {
        assert ps[i] in ps && qs[j - |ps|] in qs;
      }
    }
  }

  lemma ChangesJoin(ps: seq<Pair>, qs: seq<Pair>, diffs: Diffs, h: uint32)
    requires forall p :: p in ps || p in qs ==> p in diffs
    ensures ChangesOf(ps + qs, diffs, h) == ChangesOf(ps, diffs, h) + ChangesOf(qs, diffs, h)
  {
    var joined, both := ChangesOf(ps + qs, diffs, h), ChangesOf(ps, diffs, h) + ChangesOf(qs, diffs, h);
    forall i | 0 <= i < |ps| + |qs|
      ensures joined[i] == both[i]
    {
      assert (ps + qs)[i] == if i < |ps| then ps[i] else qs[i - |ps|];
    }
  }

  /** The pairs of the table, each listed once: one order in which its changes may come. */
  ghost predicate Lists(pairs: seq<Pair>, diffs: Diffs) {
    Distinct(pairs) && forall p :: p in pairs <==> p in diffs
  }

  /** The inner loop: one account's contracts, in any order. */
  method AccountChanges(diffs: DiffTable, acct: Address, ghost h: uint32, henc: Bytes)
    returns (changes: seq<BalanceChange>, ghost pairs: seq<Pair>)
    requires diffs.Valid() && acct in diffs.cells && henc == Encode(h)
    ensures Distinct(pairs)
    ensures forall p :: p in pairs <==> p in diffs.contents && p.acct == acct
    ensures changes == ChangesOf(pairs, diffs.contents, h)
  {
    changes, pairs := [], [];
    var base := [97] + AddrToSlice(acct);
    var accts: map<Address, BigInt> := diffs.cells[acct];
    var rest := accts.Keys;
    while rest != {}
      invariant rest <= accts.Keys
      invariant forall p :: p in pairs <==> p in diffs.contents && p.acct == acct && p.contract !in rest
      invariant Distinct(pairs) && changes == ChangesOf(pairs, diffs.contents, h)
      decreases rest
    {
      var contract :| contract in rest;
      ghost var p := Pair(acct, contract);
      assert p in diffs.table;
      var prefix := base + AddrToSlice(contract);
      changes := changes + [BalanceChange(accts[contract].value, prefix + henc, prefix)];
      DistinctJoin(pairs, [p]);
      pairs := pairs + [p];
      rest := rest - {contract};
    }
  }

  /** The changes of a whole table, in some order. */
  ghost predicate ChangesForTable(changes: seq<BalanceChange>, diffs: Diffs, h: uint32) {
    exists pairs :: Lists(pairs, diffs) && changes == ChangesOf(pairs, diffs, h)
  }

  /** The loops that turn the table into changes; a Go map is walked in any order. */
  method BuildChanges(diffs: DiffTable, h: uint32) returns (changes: seq<BalanceChange>, ghost pairs: seq<Pair>)
    requires diffs.Valid()
    ensures ChangesForTable(changes, diffs.contents, h)
    ensures Lists(pairs, diffs.contents) && changes == ChangesOf(pairs, diffs.contents, h)
  {
    changes, pairs := [], [];
    var henc := EncodeHeight(h);
    var rest := diffs.cells.Keys;
    while rest != {}
      invariant rest <= diffs.cells.Keys
      invariant forall p :: p in pairs <==> p in diffs.contents && p.acct !in rest
      invariant Distinct(pairs) && changes == ChangesOf(pairs, diffs.contents, h)
      decreases rest
    {
      var acct :| acct in rest;
      var more;
      ghost var morePairs;
      more, morePairs := AccountChanges(diffs, acct, h, henc);
      DistinctJoin(pairs, morePairs);
      ChangesJoin(pairs, morePairs, diffs.contents, h);
      changes, pairs := changes + more, pairs + morePairs;
      rest := rest - {acct};
    }
  }
}
