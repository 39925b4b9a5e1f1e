/** The polling loop IndexBlocks (services/store.go), with the node's answers and the faults as inputs. */
module Indexer {
  import opened Addresses
  import opened Blocks
  import opened Changes
  import opened Currencies
  import opened Index
  import opened Keys
  import opened Layout
  import opened Numbers
  import opened Steps
  import opened Stores
  import opened Wrappers

  /** Blocks of a node: well-formed, and fewer than there are heights. */
  ghost predicate SourceChain(blocks: seq<SourceBlock>) {
    |blocks| < TWO32 && forall i :: 0 <= i < |blocks| ==> WellFormed(blocks[i])
  }

  /** What the blocks of a node contribute to a store that knows the given tokens. */
  ghost function ChainOf(tokens: set<Address>, blocks: seq<SourceBlock>): Chain
    requires SourceChain(blocks)
  {
    seq(|blocks|, i requires 0 <= i < |blocks| => Digest(tokens, blocks[i]))
  }

  /** The height in memory once n blocks are stored. */
  function LastOf(n: nat): Option<nat> {
    if n == 0 then None else Some(n - 1)
  }

  /** The store holds exactly the first n blocks, and knows it. */
  ghost predicate Tracks(store: Store, chain: Chain, n: nat)
    reads store
  {
    store.Valid() && n <= |chain| && Reflects(LedgerOf(store.db), chain, n) && store.heightIndexed == LastOf(n)
  }

  /** The height to store next; a store that holds only block 0 begins with block 0 again. */
  predicate IsNext(height: nat, n: nat) {
    height == n || (height == 0 && n == 1)
  }

  /** A fault in one pass: the block at a height cannot be fetched, or its transaction fails. */
  datatype Stop = FetchFails(height: uint32) | WriteFails(height: uint32)

  /** One pass of the outer loop: the node's height, and the fault that ends the pass early, if any. */
  datatype Round = Round(latest: uint32, stop: Option<Stop>)

  /** The store as a state of the server. */
  ghost function Current(store: Store, phase: Phase): System
    reads store
  {
    Up(LedgerOf(store.db), store.heightIndexed, phase)
  }

  lemma MarkerTells(ledger: Ledger, chain: Chain, n: nat)
    requires n <= |chain| && Reflects(ledger, chain, n) && Shaped(ledger)
    ensures LastOf(n) == if Marker in ledger then Some(Uint32(ledger[Marker].bytes)) else None
  {
    assert Lookup(ledger, Marker) == Expected(chain, n, Marker);
    if n > 0 {
      Uint32RoundTrip(n - 1);
    }
  }

  /**
   After a crash: whatever was in memory is lost, and opening the same database again recovers the height,
   so that the loop goes on where a store that never went down would.
   */
  method Reopen(disk: Database, tokens: Tokens, synced: uint32, ghost chain: Chain, ghost n: nat) returns (store: Store)
    requires WellKeyed(disk) && ValidTokens(tokens) && n <= |chain| && Reflects(LedgerOf(disk), chain, n)
    ensures fresh(store) && store.db == disk && store.tokens == tokens && Tracks(store, chain, n)
    ensures Restart(Down(LedgerOf(disk)), Current(store, Idle))
  {
    CountOfReflected(LedgerOf(disk), chain, n);
    ReflectsShaped(LedgerOf(disk), chain, n);
    MarkerTells(LedgerOf(disk), chain, n);
    store := new Store(disk, tokens, synced);
  }

  /** The work on one fetched block. */
  method StoreBlock(store: Store, src: SourceBlock, height: uint32, synced: uint32, fault: bool) returns (ok: bool)
    requires store.Valid() && WellFormed(src)
    modifies store
    ensures store.Valid() && ok == !fault
    ensures ok ==> LedgerOf(store.db) == Indexed(old(LedgerOf(store.db)), height, Digest(store.tokens.Keys, src))
    ensures ok ==> store.heightIndexed == Some(height)
    ensures !ok ==> store.db == old(store.db) && store.heightIndexed == old(store.heightIndexed)
  {
    var block, diffs, hashes := DigestBlock(store.tokens.Keys, src);
    var changes;
    ghost var pairs;
    changes, pairs := BuildChanges(diffs, height);
    ok := store.SetBlock(block, changes, hashes, src.hash, height, synced, fault, pairs, diffs.contents);
  }

  /**
   The body of the inner loop from the fetched block on. It takes the two steps of storing the block and
   publishing its height, or on a failed write leaves everything as it was. A block that is stored again leaves
   every byte of the database as it was.
   */
  method IndexOne(
    store: Store, src: SourceBlock, height: uint32, synced: uint32, fault: bool, ghost chain: Chain, ghost n: nat
  ) returns (ok: bool, ghost steps: seq<System>)
    requires Tracks(store, chain, n) && IsNext(height, n) && height <= synced < |chain|
    requires WellFormed(src) && chain[height] == Digest(store.tokens.Keys, src)
    modifies store
    ensures ok == !fault
    ensures Tracks(store, chain, if ok then height + 1 else n)
    ensures Leads(chain, steps, old(Current(store, Ready(height, synced))),
                  Current(store, Ready(if ok then height + 1 else height, synced)))
    ensures |steps| == if ok then 3 else 1
    ensures ok && height < n ==> store.db == old(store.db)
  {
    ghost var disk, before, indexed := store.db, LedgerOf(store.db), store.heightIndexed;
    ok := StoreBlock(store, src, height, synced, fault);
    if ok {
      BlockStored(chain, before, n, height);
      steps := StepsOfBlock(chain, before, indexed, height, synced);
      if height < n {
        LedgerDetermines(store.db, disk);
      }
    } else {
      steps := [Up(before, indexed, Ready(height, synced))];
    }
  }

  /** What a stored block means for the entries. */
  lemma BlockStored(chain: Chain, before: Ledger, n: nat, height: uint32)
    requires n <= |chain| && Reflects(before, chain, n) && IsNext(height, n) && height < |chain|
    ensures var after := Indexed(before, height, chain[height]);
            Reflects(after, chain, height + 1) && (height < n ==> after == before)
  {
    StoredNext(before, chain, n, height);
    if height < n {
      StoredAgainLatest(before, chain, n);
    }
  }

  /** Stores that track the same blocks hold the same bytes. */
  lemma SameBytes(store: Store, other: Store, chain: Chain, n: nat)
    requires Tracks(store, chain, n) && Tracks(other, chain, n)
    ensures store.db == other.db && store.heightIndexed == other.heightIndexed
  {
    ReflectsUnique(LedgerOf(store.db), LedgerOf(other.db), chain, n);
    LedgerDetermines(store.db, other.db);
  }

  /** Before, between and after the two steps of storing a block. */
  ghost function StepsOfBlock(
    chain: Chain, db: Ledger, indexed: Option<uint32>, height: uint32, latest: uint32
  ): (steps: seq<System>)
    requires height <= latest < |chain|
    ensures |steps| == 3
    ensures Leads(chain, steps, Up(db, indexed, Ready(height, latest)),
                  Up(Indexed(db, height, chain[height]), Some(height), Ready(height + 1, latest)))
  {
    var stored := Indexed(db, height, chain[height]);
    [
      Up(db, indexed, Ready(height, latest)),
      Up(stored, indexed, Committed(height, latest)),
      Up(stored, Some(height), Ready(height + 1, latest))
    ]
  }

  /** Storing the block at the next height leaves one more block, or the one that was there. */
  lemma StoredNext(ledger: Ledger, chain: Chain, n: nat, height: uint32)
    requires n <= |chain| && Reflects(ledger, chain, n) && IsNext(height, n) && height < |chain|
    ensures Reflects(Indexed(ledger, height, chain[height]), chain, height + 1)
  {
    if height == n {
      NextBlock(ledger, chain, n);
    } else {
      StoredAgainLatest(ledger, chain, n);
    }
  }

  // How far the loop gets

  function Max(x: nat, y: nat): nat {
    if x < y then y else x
  }

  /** Where a pass begins that finds n blocks. */
  function From(n: nat): nat {
    if n <= 1 then 0 else n
  }

  /** The blocks a pass leaves that finds n: all below the height of its fault, or up to the node's height. */
  function PassReach(n: nat, round: Round): nat {
    if round.stop.Some? && From(n) <= round.stop.value.height <= round.latest then Max(n, round.stop.value.height)
    else Max(n, round.latest + 1)
  }

  /** No pass loses a block, ends before the node's height or its fault, or goes beyond either. */
  lemma PassMeans(n: nat, round: Round)
    ensures var r := PassReach(n, round);
            && n <= r && (round.latest < r || (round.stop.Some? && round.stop.value.height <= r))
            && (r > n ==> r <= round.latest + 1)
            && (r > n && round.stop.Some? && n <= round.stop.value.height ==> r <= round.stop.value.height)
  {
  }

  function Reach(start: nat, rounds: seq<Round>): nat {
    if rounds == [] then start else PassReach(Reach(start, rounds[..|rounds| - 1]), rounds[|rounds| - 1])
  }

  /** The store has all of the node's blocks; with block 0 alone it is not seen, as the pass begins with it again. */
  predicate UpToDate(n: nat, round: Round) {
    n == round.latest + 1 && n > 1
  }

  /** The first of these rounds reach a length, up to which none of them would end the loop early. */
  ghost predicate Progress(start: nat, rounds: seq<Round>, i: nat, n: nat, exitEarly: bool)
    requires i <= |rounds|
  {
    && n == Reach(start, rounds[..i]) && start <= n
    && (exitEarly ==> forall j :: 0 <= j < i ==> !UpToDate(Reach(start, rounds[..j]), rounds[j]))
    && forall j :: 0 <= j < i && rounds[j].stop.None? ==> rounds[j].latest < n
  }

  lemma MoreProgress(start: nat, rounds: seq<Round>, i: nat, n: nat, exitEarly: bool)
    requires i < |rounds| && Progress(start, rounds, i, n, exitEarly)
    requires exitEarly ==> !UpToDate(n, rounds[i])
    ensures Progress(start, rounds, i + 1, PassReach(n, rounds[i]), exitEarly)
  {
    assert rounds[..i + 1][..i] == rounds[..i];
  }

  /**
   The whole loop: every pass starts from the height in memory and stores blocks up to the node's height or to
   its fault. Whatever fails, the store goes on holding a prefix of the chain, which never shrinks; how long it
   is depends on the rounds alone. All along, the store takes steps of the server.
   */
  method IndexBlocks(
    store: Store, blocks: seq<SourceBlock>, rounds: seq<Round>, exitEarly: bool, ghost chain: Chain, ghost start: nat
  ) returns (ghost n: nat, ghost done: nat, ghost trace: seq<System>)
    requires SourceChain(blocks)
    requires chain == ChainOf(store.tokens.Keys, blocks) && Tracks(store, chain, start)
    requires forall r :: r in rounds ==> r.latest < |blocks|
    modifies store
    ensures Tracks(store, chain, n) && done <= |rounds| && Progress(start, rounds, done, n, exitEarly)
    ensures if exitEarly && done < |rounds| then n == rounds[done].latest + 1 && n > 1 else done == |rounds|
    ensures Leads(chain, trace, old(Current(store, Idle)), Current(store, Idle))
  {
    n := start;
    done := 0;
    trace := [Current(store, Idle)];
    for i := 0 to |rounds|
      invariant Tracks(store, chain, n) && done == i && Progress(start, rounds, i, n, exitEarly)
      invariant Leads(chain, trace, old(Current(store, Idle)), Current(store, Idle))
    {
      var height := store.GetHeight();
      if height > 0 {
        height := height + 1;
      }
      if exitEarly && height == rounds[i].latest + 1 {
        return;
      }
      MoreProgress(start, rounds, i, n, exitEarly);
      ghost var before := Current(store, Idle);
      ghost var pass;
      n, pass := IndexPass(store, blocks, height, rounds[i], chain, n);
      Joined(chain, trace, pass, old(Current(store, Idle)), before, Current(store, Idle));
      trace := trace + pass[1..];
      done := done + 1;
    }
  }

  predicate Faults(round: Round, height: uint32) {
    round.stop == Some(FetchFails(height)) || round.stop == Some(WriteFails(height))
  }

  /** A pass that found `start` blocks has n and is at a height; its fault is not behind it. */
  predicate Passing(start: nat, round: Round, height: nat, n: nat) {
    && n == Max(start, height) && IsNext(height, n)
    && From(start) <= height && (height <= round.latest + 1 || height == From(start))
    && (round.stop.Some? && From(start) <= round.stop.value.height ==> height <= round.stop.value.height)
  }

  lemma PassGoesOn(start: nat, round: Round, height: uint32, n: nat)
    requires Passing(start, round, height, n) && height <= round.latest && !Faults(round, height)
    ensures Passing(start, round, height + 1, height + 1)
  {
    if round.stop.Some? {
      var stop := round.stop.value;
      assert stop == FetchFails(stop.height) || stop == WriteFails(stop.height);
    }
  }

  lemma PassEnds(start: nat, round: Round, height: uint32, n: nat)
    requires Passing(start, round, height, n) && (height > round.latest || Faults(round, height))
    ensures n == PassReach(start, round)
  {
  }

  lemma PassBegins(chain: Chain, idle: System, start: nat, round: Round) returns (trace: seq<System>)
    requires idle.Up? && idle.phase.Idle? && idle.indexed == LastOf(start) && start <= |chain| && round.latest < |chain|
    ensures FirstHeight(idle.indexed) == From(start) && Passing(start, round, From(start), start)
    ensures Leads(chain, trace, idle, Up(idle.db, idle.indexed, Ready(From(start), round.latest)))
  {
    var ready := Up(idle.db, idle.indexed, Ready(From(start), round.latest));
    assert Begin(chain, idle, ready);
    trace := [idle, ready];
  }

  /** The inner loop of one pass. */
  method IndexPass(
    store: Store, blocks: seq<SourceBlock>, from: uint32, round: Round, ghost chain: Chain, ghost start: nat
  ) returns (ghost n: nat, ghost trace: seq<System>)
    requires SourceChain(blocks)
    requires chain == ChainOf(store.tokens.Keys, blocks) && Tracks(store, chain, start)
    requires from == FirstHeight(store.heightIndexed) && round.latest < |blocks|
    modifies store
    ensures Tracks(store, chain, n) && n == PassReach(start, round)
    ensures Leads(chain, trace, old(Current(store, Idle)), Current(store, Idle))
  {
    n := start;
    var height := from;
    ghost var first := Current(store, Idle);
    trace := PassBegins(chain, first, start, round);
    ghost var now := Current(store, Ready(height, round.latest));
    while height <= round.latest
      invariant Tracks(store, chain, n) && Passing(start, round, height, n)
      invariant now == Current(store, Ready(height, round.latest)) && Leads(chain, trace, first, now)
      decreases |blocks| - height
    {
      if round.stop == Some(FetchFails(height)) {
        break;
      }
      ghost var steps, before := [], now;
      var ok, fault := false, round.stop == Some(WriteFails(height));
      ok, steps := IndexOne(store, blocks[height], height, round.latest, fault, chain, n);
      if !ok {
        break;
      }
      PassGoesOn(start, round, height, n);
      n := height + 1;
      height := height + 1;
      now := Current(store, Ready(height, round.latest));
      Joined(chain, trace, steps, first, before, now);
      trace := trace + steps[1..];
    }
    PassEnds(start, round, height, n);
    OneMoreStep(chain, trace, first, now, Current(store, Idle));
    trace := trace + [Current(store, Idle)];
  }
}
