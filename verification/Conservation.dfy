/** Conservation: per contract, the balances of all accounts add up to what was minted minus what was burned. */
module Conservation {
  import opened Addresses
  import opened Blocks
  import opened Index
  import opened Indexer
  import opened Keys
  import opened Numbers
  import opened Runs
  import opened Steps
  import opened Transfers

  /** All transfers kept from the first n blocks. */
  ghost function ChainMoves(tokens: set<Address>, blocks: seq<SourceBlock>, n: nat): seq<Move>
    requires SourceChain(blocks) && n <= |blocks|
    decreases n
  {
    if n == 0 then []
    else
      ChainMoves(tokens, blocks, n - 1) + MovesOf(tokens, blocks[n - 1])
  }

  lemma DiffIsEffect(tokens: set<Address>, src: SourceBlock, p: Pair)
    requires WellFormed(src)
    ensures DiffOf(Digest(tokens, src), p) == TotalEffect(MovesOf(tokens, src), p)
  {
    TableMeaning(MovesOf(tokens, src), p);
  }

  lemma EffectOfOneMore(tokens: set<Address>, blocks: seq<SourceBlock>, p: Pair, h: nat)
    requires SourceChain(blocks) && h < |blocks|
    ensures TotalEffect(ChainMoves(tokens, blocks, h + 1), p)
         == TotalEffect(ChainMoves(tokens, blocks, h), p) + TotalEffect(MovesOf(tokens, blocks[h]), p)
  {
    TotalEffectAppend(ChainMoves(tokens, blocks, h), MovesOf(tokens, blocks[h]), p);
  }

  ghost predicate DiffsAreEffects(tokens: set<Address>, blocks: seq<SourceBlock>, chain: Chain, p: Pair)
    requires SourceChain(blocks)
  {
    |chain| == |blocks|
    && forall g :: 0 <= g < |chain| ==> DiffOf(chain[g], p) == TotalEffect(MovesOf(tokens, blocks[g]), p)
  }

  lemma ChainDiffs(tokens: set<Address>, blocks: seq<SourceBlock>, chain: Chain, p: Pair)
    requires SourceChain(blocks) && chain == ChainOf(tokens, blocks)
    ensures DiffsAreEffects(tokens, blocks, chain, p)
  {
    forall g | 0 <= g < |chain|
      ensures DiffOf(chain[g], p) == TotalEffect(MovesOf(tokens, blocks[g]), p)
    {
      DiffIsEffect(tokens, blocks[g], p);
    }
  }

  lemma {:induction false} EffectsAddUp(
    tokens: set<Address>, blocks: seq<SourceBlock>, chain: Chain, p: Pair, h: int
  )
    requires SourceChain(blocks) && DiffsAreEffects(tokens, blocks, chain, p) && -1 <= h < |blocks|
    ensures Running(chain, p, h) == TotalEffect(ChainMoves(tokens, blocks, h + 1), p)
    decreases h + 1
  {
    if h >= 0 {
      EffectOfOneMore(tokens, blocks, p, h);
      EffectsAddUp(tokens, blocks, chain, p, h - 1);
    }
  }

  lemma RunningIsEffect(tokens: set<Address>, blocks: seq<SourceBlock>, chain: Chain, p: Pair, h: int)
    requires SourceChain(blocks) && chain == ChainOf(tokens, blocks) && -1 <= h < |blocks|
    ensures Running(chain, p, h) == TotalEffect(ChainMoves(tokens, blocks, h + 1), p)
  {
    ChainDiffs(tokens, blocks, chain, p);
    EffectsAddUp(tokens, blocks, chain, p, h);
  }

  /** Transferred from the null address. */
  function Minted(ms: seq<Move>, contract: Address): nat {
    if ms == [] then 0
    else
      var m := ms[|ms| - 1];
      Minted(ms[..|ms| - 1], contract) + if m.contract == contract && m.from == NULL then m.amount else 0
  }

  /** Transferred to the null address. */
  function Burned(ms: seq<Move>, contract: Address): nat {
    if ms == [] then 0
    else
      var m := ms[|ms| - 1];
      Burned(ms[..|ms| - 1], contract) + if m.contract == contract && m.to == NULL then m.amount else 0
  }

  ghost function Pick(accts: set<Address>): Address
    requires accts != {}
  {
    var a :| a in accts; a
  }

  /** The effect of transfers on all accounts of a set together. */
  ghost function SumEffects(accts: set<Address>, ms: seq<Move>, contract: Address): int
    decreases accts
  {
    if accts == {} then 0
    else
      var a := Pick(accts);
      TotalEffect(ms, Pair(a, contract)) + SumEffects(accts - {a}, ms, contract)
  }

  lemma {:induction false} SumEffectsAppend(accts: set<Address>, init: seq<Move>, m: Move, contract: Address)
    ensures SumEffects(accts, init + [m], contract)
         == SumEffects(accts, init, contract) + SumEffects(accts, [m], contract)
    decreases accts
  {
    if accts != {} {
      var a := Pick(accts);
      TotalEffectAppend(init, [m], Pair(a, contract));
      SumEffectsAppend(accts - {a}, init, m, contract);
    }
  }

  lemma OneEffect(m: Move, p: Pair)
    ensures TotalEffect([m], p) == Effect(m, p)
  {
  }

  /** One transfer moves its amount between two accounts of the set, or in or out of it. */
  lemma {:induction false} SumOfOne(accts: set<Address>, m: Move, contract: Address)
    ensures SumEffects(accts, [m], contract) ==
            if m.contract != contract then 0
            else (if m.to in accts && m.to != NULL then m.amount else 0)
                 - (if m.from in accts && m.from != NULL then m.amount else 0)
    decreases accts
  {
    if accts != {} {
      var a := Pick(accts);
      OneEffect(m, Pair(a, contract));
      SumOfOne(accts - {a}, m, contract);
    }
  }

  /** The set has every account that the contract's transfers touch. */
  ghost predicate Covers(accts: set<Address>, ms: seq<Move>, contract: Address) {
    forall m :: m in ms && m.contract == contract ==>
                  (m.from == NULL || m.from in accts) && (m.to == NULL || m.to in accts)
  }

  lemma {:induction false} EffectsConserved(accts: set<Address>, ms: seq<Move>, contract: Address)
    requires Covers(accts, ms, contract)
    ensures SumEffects(accts, ms, contract) == Minted(ms, contract) - Burned(ms, contract)
    decreases |ms|
  {
    if ms == [] {
      SumOfNone(accts, contract);
    } else {
      var init, last := ms[..|ms| - 1], ms[|ms| - 1];
      assert ms == init + [last];
      EffectsConserved(accts, init, contract);
      SumEffectsAppend(accts, init, last, contract);
      SumOfOne(accts, last, contract);
    }
  }

  lemma {:induction false} SumOfNone(accts: set<Address>, contract: Address)
    ensures SumEffects(accts, [], contract) == 0
    decreases accts
  {
    if accts != {} {
      SumOfNone(accts - {Pick(accts)}, contract);
    }
  }

  /** The balances of all accounts of a set at a height, added up. */
  ghost function SumBalances(db: Ledger, accts: set<Address>, contract: Address, h: uint32): nat
    decreases accts
  {
    if accts == {} then 0
    else
      var a := Pick(accts);
      BalanceAt(db, Pair(a, contract), h) + SumBalances(db, accts - {a}, contract, h)
  }

  /** A stored balance is what the transfers add up to. */
  ghost predicate Exact(db: Ledger, ms: seq<Move>, a: Address, contract: Address, h: uint32) {
    BalanceAt(db, Pair(a, contract), h) == TotalEffect(ms, Pair(a, contract))
  }

  lemma {:induction false} BalancesAgainstEffects(
    db: Ledger, ms: seq<Move>, accts: set<Address>, contract: Address, h: uint32
  )
    requires forall a :: a in accts ==> BalanceAt(db, Pair(a, contract), h) >= TotalEffect(ms, Pair(a, contract))
    ensures SumBalances(db, accts, contract, h) >= SumEffects(accts, ms, contract)
    ensures SumBalances(db, accts, contract, h) == SumEffects(accts, ms, contract)
       <==> forall a :: a in accts ==> Exact(db, ms, a, contract, h)
    decreases accts
  {
    if accts != {} {
      var a := Pick(accts);
      BalancesAgainstEffects(db, ms, accts - {a}, contract, h);
      assert accts == accts - {a} + {a};
    }
  }

  lemma StoredFromBlocks(tokens: set<Address>, blocks: seq<SourceBlock>, chain: Chain, run: seq<System>, i: nat)
    requires SourceChain(blocks) && chain == ChainOf(tokens, blocks) && IsRun(chain, run) && i < |run|
    ensures Count(run[i].db) <= |blocks|
  {
    RunKeepsInv(chain, run, i);
  }

  lemma BalanceAgainstEffect(
    tokens: set<Address>, blocks: seq<SourceBlock>, chain: Chain, run: seq<System>, i: nat,
    a: Address, contract: Address, h: uint32
  )
    requires SourceChain(blocks)
    requires chain == ChainOf(tokens, blocks) && IsRun(chain, run) && i < |run| && h < Count(run[i].db)
    ensures h < |blocks|
    ensures var ms := ChainMoves(tokens, blocks, h + 1);
            && BalanceAt(run[i].db, Pair(a, contract), h) >= TotalEffect(ms, Pair(a, contract))
            && (Exact(run[i].db, ms, a, contract, h) <==> NeverNegative(chain, Pair(a, contract), h))
  {
    StoredFromBlocks(tokens, blocks, chain, run, i);
    IndexRefinement(chain, run, i, Pair(a, contract), h);
    RunningIsEffect(tokens, blocks, chain, Pair(a, contract), h);
  }

  /**
   In every run, at every stored height: the balances of any accounts that include all that took part never
   add up to less than minted minus burned so far, and to exactly that if and only if none of these accounts
   ever had a negative total.
   */
  lemma Conserved(
    tokens: set<Address>, blocks: seq<SourceBlock>, chain: Chain, run: seq<System>, i: nat,
    accts: set<Address>, contract: Address, h: uint32
  )
    requires SourceChain(blocks)
    requires chain == ChainOf(tokens, blocks) && IsRun(chain, run) && i < |run| && h < Count(run[i].db)
    ensures h < |blocks|
    ensures var ms := ChainMoves(tokens, blocks, h + 1);
            Covers(accts, ms, contract) ==>
              var sum := SumBalances(run[i].db, accts, contract, h);
              var supply := Minted(ms, contract) - Burned(ms, contract);
              && sum >= supply
              && (sum == supply <==> forall a :: a in accts ==> NeverNegative(chain, Pair(a, contract), h))
  {
    StoredFromBlocks(tokens, blocks, chain, run, i);
    var ms := ChainMoves(tokens, blocks, h + 1);
    forall a | a in accts
      ensures BalanceAt(run[i].db, Pair(a, contract), h) >= TotalEffect(ms, Pair(a, contract))
      ensures Exact(run[i].db, ms, a, contract, h) <==> NeverNegative(chain, Pair(a, contract), h)
    {
      BalanceAgainstEffect(tokens, blocks, chain, run, i, a, contract, h);
    }
    BalancesAgainstEffects(run[i].db, ms, accts, contract, h);
    if Covers(accts, ms, contract) {
      EffectsConserved(accts, ms, contract);
    }
  }
}
