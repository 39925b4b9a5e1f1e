/**
 The server as a state machine, over entries: the indexing loop step by step, with crashes and restarts
 at any point. The methods of Indexer take these steps; Runs proves what all runs keep.
 */
module Steps {
  import opened Index
  import opened Keys
  import opened Numbers
  import opened Wrappers

  /** Where the indexing loop is. Between Ready and Committed lies one transaction. */
  datatype Phase =
    | Idle
    | Ready(height: uint32, latest: uint32)
    | Committed(height: uint32, latest: uint32)

  /** The server is down, with a database on disk, or up, with a height in memory as well. */
  datatype System =
    | Down(db: Ledger)
    | Up(db: Ledger, indexed: Option<uint32>, phase: Phase)

  /** The number of blocks the height marker speaks of. */
  ghost function Count(db: Ledger): nat {
    if Marker in db && db[Marker].Raw? && |db[Marker].bytes| >= 4 then Uint32(db[Marker].bytes) + 1 else 0
  }

  /** getHeight */
  function Height(indexed: Option<uint32>): uint32 {
    if indexed.None? then 0 else indexed.value
  }

  function FirstHeight(indexed: Option<uint32>): nat {
    if Height(indexed) > 0 then Height(indexed) + 1 else 0
  }

  ghost function Recovered(db: Ledger): Option<uint32> {
    if Count(db) == 0 then None else Some(Count(db) - 1)
  }

  ghost predicate Restart(s: System, s': System) {
    s.Down? && s' == Up(s.db, Recovered(s.db), Idle)
  }

  ghost predicate Crash(s: System, s': System) {
    s.Up? && s' == Down(s.db)
  }

  /** A pass begins: the node reports some height of the chain. */
  ghost predicate Begin(chain: Chain, s: System, s': System) {
    && s.Up? && s.phase.Idle? && FirstHeight(s.indexed) < TWO32
    && exists latest: uint32 :: latest < |chain| && s' == s.(phase := Ready(FirstHeight(s.indexed), latest))
  }

  /** The transaction of setBlock goes through. */
  ghost predicate Commit(chain: Chain, s: System, s': System) {
    && s.Up? && s.phase.Ready? && s.phase.height <= s.phase.latest < |chain|
    && s' == Up(Indexed(s.db, s.phase.height, chain[s.phase.height]), s.indexed,
                Committed(s.phase.height, s.phase.latest))
  }

  /** setHeight, and on to the next block. */
  ghost predicate Publish(s: System, s': System) {
    && s.Up? && s.phase.Committed? && s.phase.height + 1 < TWO32
    && s' == Up(s.db, Some(s.phase.height), Ready(s.phase.height + 1, s.phase.latest))
  }

  /** The pass ends: it is done, a block cannot be fetched, or its transaction fails. */
  ghost predicate GiveUp(s: System, s': System) {
    s.Up? && s.phase.Ready? && s' == s.(phase := Idle)
  }

  ghost predicate Step(chain: Chain, s: System, s': System) {
    Restart(s, s') || Crash(s, s') || Begin(chain, s, s') || Commit(chain, s, s') || Publish(s, s') || GiveUp(s, s')
  }

  /** A run from an empty database. */
  ghost predicate IsRun(chain: Chain, run: seq<System>) {
    && run != [] && run[0] == Down(imap[])
    && forall i :: 0 <= i < |run| - 1 ==> Step(chain, run[i], run[i + 1])
  }

  lemma CountOfReflected(db: Ledger, chain: Chain, n: nat)
    requires n <= |chain| && Reflects(db, chain, n)
    ensures Count(db) == n
  {
    assert Lookup(db, Marker) == Expected(chain, n, Marker);
    if n > 0 {
      Uint32RoundTrip(n - 1);
    }
  }

  // Stretches of runs

  /** Consecutive states are one step apart. */
  ghost predicate Linked(chain: Chain, trace: seq<System>) {
    forall i :: 0 <= i < |trace| - 1 ==> Step(chain, trace[i], trace[i + 1])
  }

  /** The trace goes from one state to another by steps. */
  ghost predicate Leads(chain: Chain, trace: seq<System>, s: System, s': System) {
    trace != [] && trace[0] == s && trace[|trace| - 1] == s' && Linked(chain, trace)
  }

  lemma OneMoreStep(chain: Chain, trace: seq<System>, s: System, s': System, s'': System)
    requires Leads(chain, trace, s, s') && Step(chain, s', s'')
    ensures Leads(chain, trace + [s''], s, s'')
  {
  }

  /** One stretch after another; the state between them is not repeated. */
  lemma Joined(chain: Chain, first: seq<System>, second: seq<System>, s: System, s': System, s'': System)
    requires Leads(chain, first, s, s') && Leads(chain, second, s', s'')
    ensures Leads(chain, first + second[1..], s, s'')
  {
  }

  /** A run goes on with any stretch that starts where it ends. */
  lemma RunGoesOn(chain: Chain, run: seq<System>, trace: seq<System>, s: System)
    requires IsRun(chain, run) && Leads(chain, trace, run[|run| - 1], s)
    ensures IsRun(chain, run + trace[1..]) && (run + trace[1..])[|run + trace[1..]| - 1] == s
  {
    Joined(chain, run, trace, run[0], run[|run| - 1], s);
  }
}
