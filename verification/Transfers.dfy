/**
 Transfer events of a transaction: which of them are kept, which one is marked as the
 gas fee, what a kept transfer does to balances, and how it is stored.
 */
module Transfers {
  import opened Addresses
  import opened ByteStrings
  import opened Keys
  import opened Numbers
  import opened Wrappers

  /** A decoded transfer event; gasMark is the decoder's raw guess that it pays for gas. */
  datatype Decoded = Decoded(amount: nat, from: Address, to: Address, gasMark: bool)

  /** A notification event; None when it does not decode as a transfer. */
  datatype Event = Event(contract: Address, decoded: Option<Decoded>)

  /** A transfer that is kept. */
  datatype Move = Move(contract: Address, from: Address, to: Address, amount: nat, isGas: bool)

  /** model.Transfer */
  datatype StoredTransfer = StoredTransfer(amount: Bytes, contract: Bytes, from: Bytes, isGas: bool, to: Bytes)

  function StoredForm(m: Move): StoredTransfer {
    StoredTransfer(BigBytes(m.amount), AddrToSlice(m.contract), AddrToSlice(m.from), m.isGas, AddrToSlice(m.to))
  }

  function StoredForms(ms: seq<Move>): seq<StoredTransfer> {
    seq(|ms|, i requires 0 <= i < |ms| => StoredForm(ms[i]))
  }

  // Gas classification

  datatype Verdict = Verdict(gasVerified: bool, isGas: bool, skip: bool)

  /** checkgasVerified */
  function CheckGasVerified(
    contract: Address, payer: Address, from: Address, failed: bool, gasVerified: bool, isGas: bool
  ): Verdict {
    if failed && (contract != ONG || gasVerified) then Verdict(false, false, true)
    else if gasVerified then Verdict(true, false, false)
    else if isGas then Verdict(payer == from, payer == from, false)
    else Verdict(false, false, false)
  }

  function Classify(d: Decoded, contract: Address, isGas: bool): Move {
    Move(contract, d.from, d.to, d.amount, isGas)
  }

  /** The outcome of one event: the transfer it adds, if any, and whether the gas fee was seen by then. */
  datatype Outcome = Outcome(added: seq<Move>, gasVerified: bool)

  function Examine(tokens: set<Address>, payer: Address, failed: bool, e: Event, gasVerified: bool): Outcome {
    if e.contract !in tokens || e.decoded.None? then Outcome([], gasVerified)
    else
      var d := e.decoded.value;
      var v := CheckGasVerified(e.contract, payer, d.from, failed, gasVerified, d.gasMark);
      if v.skip then Outcome([], gasVerified)
      else Outcome([Classify(d, e.contract, v.isGas)], v.gasVerified)
  }

  /** The transfers kept from a notification, when gasVerified holds on entry or not. */
  function Kept(tokens: set<Address>, payer: Address, failed: bool, events: seq<Event>, gasVerified: bool): seq<Move>
    decreases |events|
  {
    if events == [] then []
    else
      var o := Examine(tokens, payer, failed, events[0], gasVerified);
      o.added + Kept(tokens, payer, failed, events[1..], o.gasVerified)
  }

  /** An event whose transfer is of a known token, and of ONG if the transaction failed. */
  predicate Eligible(tokens: set<Address>, failed: bool, e: Event) {
    e.contract in tokens && e.decoded.Some? && (failed ==> e.contract == ONG)
  }

  function Plain(tokens: set<Address>, failed: bool, e: Event): seq<Move> {
    if Eligible(tokens, failed, e) then [Classify(e.decoded.value, e.contract, false)] else []
  }

  /** The eligible events, none of them marked. */
  function Unmarked(tokens: set<Address>, failed: bool, events: seq<Event>): seq<Move>
    decreases |events|
  {
    if events == [] then [] else Plain(tokens, failed, events[0]) + Unmarked(tokens, failed, events[1..])
  }

  /** An event that would be taken for the gas fee if none was before. */
  predicate PaysGas(tokens: set<Address>, payer: Address, failed: bool, e: Event) {
    Eligible(tokens, failed, e) && e.decoded.value.gasMark && e.decoded.value.from == payer
  }

  /** The first event that pays gas, or the number of events. */
  function FirstPayment(tokens: set<Address>, payer: Address, failed: bool, events: seq<Event>): (i: nat)
    ensures i <= |events|
    ensures forall j :: 0 <= j < i ==> !PaysGas(tokens, payer, failed, events[j])
    ensures i < |events| ==> PaysGas(tokens, payer, failed, events[i])
    decreases |events|
  {
    if events == [] || PaysGas(tokens, payer, failed, events[0]) then 0
    else 1 + FirstPayment(tokens, payer, failed, events[1..])
  }

  lemma ExamineCases(tokens: set<Address>, payer: Address, failed: bool, e: Event)
    ensures Examine(tokens, payer, failed, e, true) == Outcome(if failed then [] else Plain(tokens, failed, e), true)
    ensures Examine(tokens, payer, failed, e, false) ==
            if PaysGas(tokens, payer, failed, e) then Outcome([Classify(e.decoded.value, e.contract, true)], true)
            else Outcome(Plain(tokens, failed, e), false)
  {
  }

  lemma {:induction false} KeptAfterGas(tokens: set<Address>, payer: Address, failed: bool, events: seq<Event>)
    ensures Kept(tokens, payer, failed, events, true) == if failed then [] else Unmarked(tokens, failed, events)
    decreases |events|
  {
    if events != [] {
      ExamineCases(tokens, payer, failed, events[0]);
      KeptAfterGas(tokens, payer, failed, events[1..]);
    }
  }

  /**
   The eligible events before event i unmarked, that event marked as the gas fee, and after it
   nothing if the transaction failed, otherwise the eligible rest unmarked.
   */
  function MarkedAt(tokens: set<Address>, failed: bool, events: seq<Event>, i: nat): seq<Move>
    requires i < |events| ==> events[i].decoded.Some?
  {
    if i >= |events| then Unmarked(tokens, failed, events)
    else
      Unmarked(tokens, failed, events[..i])
      + ([Classify(events[i].decoded.value, events[i].contract, true)]
         + (if failed then [] else Unmarked(tokens, failed, events[i + 1..])))
  }

  lemma MarkedLater(tokens: set<Address>, failed: bool, events: seq<Event>, i: nat)
    requires 0 < i <= |events| && (i < |events| ==> events[i].decoded.Some?)
    ensures MarkedAt(tokens, failed, events, i)
         == Plain(tokens, failed, events[0]) + MarkedAt(tokens, failed, events[1..], i - 1)
  {
    if i < |events| {
      var before, after := Unmarked(tokens, failed, events[1..][..i - 1]), Unmarked(tokens, failed, events[i + 1..]);
      var marked := [Classify(events[i].decoded.value, events[i].contract, true)] + (if failed then [] else after);
      assert events[..i][1..] == events[1..][..i - 1];
      assert events[i + 1..] == events[1..][i..];
      assert Plain(tokens, failed, events[0]) + before + marked == Plain(tokens, failed, events[0]) + (before + marked);
    }
  }

  /** What a notification keeps: the first payment is marked, and nothing else. */
  lemma {:induction false} GasShape(tokens: set<Address>, payer: Address, failed: bool, events: seq<Event>)
    ensures Kept(tokens, payer, failed, events, false)
         == MarkedAt(tokens, failed, events, FirstPayment(tokens, payer, failed, events))
    decreases |events|
  {
    if events != [] {
      ExamineCases(tokens, payer, failed, events[0]);
      if PaysGas(tokens, payer, failed, events[0]) {
        KeptAfterGas(tokens, payer, failed, events[1..]);
        assert events[..0] == [];
      } else {
        GasShape(tokens, payer, failed, events[1..]);
        MarkedLater(tokens, failed, events, FirstPayment(tokens, payer, failed, events));
      }
    }
  }

  predicate IsPlain(tokens: set<Address>, failed: bool, m: Move) {
    !m.isGas && m.contract in tokens && (failed ==> m.contract == ONG)
  }

  lemma {:induction false} UnmarkedPlain(tokens: set<Address>, failed: bool, events: seq<Event>)
    ensures forall m :: m in Unmarked(tokens, failed, events) ==> IsPlain(tokens, failed, m)
    decreases |events|
  {
    if events != [] {
      UnmarkedPlain(tokens, failed, events[1..]);
    }
  }

  /** At most one kept transfer is the gas fee; on a failed transaction all are ONG and none follows it. */
  lemma GasAtMostOnce(tokens: set<Address>, payer: Address, failed: bool, events: seq<Event>) returns (g: nat)
    ensures var ms := Kept(tokens, payer, failed, events, false);
            && g <= |ms|
            && (forall j :: 0 <= j < |ms| && j != g ==> IsPlain(tokens, failed, ms[j]))
            && (g < |ms| ==> ms[g].isGas && ms[g].from == payer && ms[g].contract in tokens)
            && (g < |ms| && failed ==> ms[g].contract == ONG && g == |ms| - 1)
  {
    var i := FirstPayment(tokens, payer, failed, events);
    GasShape(tokens, payer, failed, events);
    if i == |events| {
      UnmarkedPlain(tokens, failed, events);
      g := |Unmarked(tokens, failed, events)|;
    } else {
      UnmarkedPlain(tokens, failed, events[..i]);
      UnmarkedPlain(tokens, failed, events[i + 1..]);
      g := |Unmarked(tokens, failed, events[..i])|;
    }
  }

  lemma {:induction false} NothingEligible(tokens: set<Address>, failed: bool, events: seq<Event>)
    ensures Unmarked(tokens, failed, events) == [] <==>
            forall j :: 0 <= j < |events| ==> !Eligible(tokens, failed, events[j])
    decreases |events|
  {
    if events != [] {
      var rest := events[1..];
      NothingEligible(tokens, failed, rest);
      assert forall j :: 0 <= j < |rest| ==> rest[j] == events[j + 1];
      if !Eligible(tokens, failed, events[0]) && forall j :: 0 <= j < |rest| ==> !Eligible(tokens, failed, rest[j]) {
        forall j | 0 <= j < |events|
          ensures !Eligible(tokens, failed, events[j])
        {
          assert j > 0 ==> events[j] == rest[j - 1];
        }
      }
    }
  }

  /**
   A failed transaction keeps nothing but its gas fee exactly if no eligible event comes before the
   first one that pays gas; that the kept transfers of a failed transaction are gas fees is not enforced.
   */
  lemma FailedKeepsOnlyGas(tokens: set<Address>, payer: Address, events: seq<Event>)
    ensures (forall m :: m in Kept(tokens, payer, true, events, false) ==> m.isGas) <==>
            forall j :: 0 <= j < FirstPayment(tokens, payer, true, events) ==> !Eligible(tokens, true, events[j])
  {
    var i := FirstPayment(tokens, payer, true, events);
    var before := Unmarked(tokens, true, events[..i]);
    GasShape(tokens, payer, true, events);
    NothingEligible(tokens, true, events[..i]);
    UnmarkedPlain(tokens, true, events[..i]);
    assert i == |events| ==> events[..i] == events;
    assert before <= Kept(tokens, payer, true, events, false);
    if before != [] {
      assert before[0] in Kept(tokens, payer, true, events, false) && before[0] in before;
    }
  }

  /** An input on which it does not hold: a failed transaction with one ONG transfer that is not marked. */
  lemma FailedKeepsAnother(payer: Address, to: Address)
    ensures Kept({ONG}, payer, true, [Event(ONG, Some(Decoded(5, payer, to, false)))], false)
         == [Move(ONG, payer, to, 5, false)]
  {
  }

  // Effect on balances

  predicate Touches(m: Move, p: Pair) {
    p.acct != NULL && p.contract == m.contract && (p.acct == m.from || p.acct == m.to)
  }

  /** What a transfer adds to a balance: credit on the receiving side, debit on the sending side. */
  function Effect(m: Move, p: Pair): int {
    if p.acct == NULL || p.contract != m.contract then 0
    else (if p.acct == m.to then m.amount else 0) - (if p.acct == m.from then m.amount else 0)
  }

  function TotalEffect(ms: seq<Move>, p: Pair): int {
    if ms == [] then 0 else TotalEffect(ms[..|ms| - 1], p) + Effect(ms[|ms| - 1], p)
  }

  lemma {:induction false} TotalEffectAppend(ms: seq<Move>, ns: seq<Move>, p: Pair)
    ensures TotalEffect(ms + ns, p) == TotalEffect(ms, p) + TotalEffect(ns, p)
  {
    if ns == [] {
      assert ms + ns == ms;
    } else {
      assert (ms + ns)[..|ms + ns| - 1] == ms + ns[..|ns| - 1];
      TotalEffectAppend(ms, ns[..|ns| - 1], p);
    }
  }

  // The table of differences

  type Diffs = map<Pair, int>

  function Changed(d: Diffs, p: Pair, delta: int): Diffs {
    d[p := (if p in d then d[p] else 0) + delta]
  }

  /** One side of a transfer; the null address has no entry. */
  function SideEntered(d: Diffs, acct: Address, contract: Address, delta: int): Diffs {
    if acct == NULL then d else Changed(d, Pair(acct, contract), delta)
  }

  /** One transfer entered into the table: the sender's side first. */
  function Entered(d: Diffs, m: Move): Diffs {
    SideEntered(SideEntered(d, m.from, m.contract, -(m.amount as int)), m.to, m.contract, m.amount)
  }

  function EnteredAll(d: Diffs, ms: seq<Move>): Diffs {
    if ms == [] then d else Entered(EnteredAll(d, ms[..|ms| - 1]), ms[|ms| - 1])
  }

  lemma {:induction false} EnteredAppend(d: Diffs, ms: seq<Move>, ns: seq<Move>)
    ensures EnteredAll(d, ms + ns) == EnteredAll(EnteredAll(d, ms), ns)
  {
    if ns == [] {
      assert ms + ns == ms;
    } else {
      assert (ms + ns)[..|ms + ns| - 1] == ms + ns[..|ns| - 1];
      EnteredAppend(d, ms, ns[..|ns| - 1]);
    }
  }

  /** The table holds exactly the touched pairs, each with credits minus debits. */
  lemma {:induction false} TableMeaning(ms: seq<Move>, p: Pair)
    ensures p in EnteredAll(map[], ms) <==> exists i :: 0 <= i < |ms| && Touches(ms[i], p)
    ensures p in EnteredAll(map[], ms) ==> EnteredAll(map[], ms)[p] == TotalEffect(ms, p)
    ensures p !in EnteredAll(map[], ms) ==> TotalEffect(ms, p) == 0
  {
    if ms != [] {
      var init, last := ms[..|ms| - 1], ms[|ms| - 1];
      TableMeaning(init, p);
      assert p in EnteredAll(map[], ms) <==> p in EnteredAll(map[], init) || Touches(last, p);
      if p in EnteredAll(map[], init) {
        var i :| 0 <= i < |init| && Touches(init[i], p);
        assert Touches(ms[i], p);
      } else if Touches(last, p) {
        assert Touches(ms[|ms| - 1], p);
      } else {
        assert forall i :: 0 <= i < |init| ==> ms[i] == init[i];
      }
    }
  }
}
