/** Rosetta operations: printed from stored transfers for the block endpoints (services/block_service.go). */
module Operations {
  import opened Addresses
  import opened Blocks
  import opened Currencies
  import opened Errors
  import opened Keys
  import opened Numbers
  import opened Transfers
  import opened Wrappers

  type int64 = x: int | -0x8000_0000_0000_0000 <= x < 0x8000_0000_0000_0000

  /** int64(n), which wraps. */
  function ToInt64(n: int): int64 {
    var r := n % 0x1_0000_0000_0000_0000;
    if r < 0x8000_0000_0000_0000 then r else r - 0x1_0000_0000_0000_0000
  }

  /** Base-58 text of an address: what AddressFromBase58 parses, or fails on. */
  datatype AddressText = Base58(addr: Address) | NotBase58(text: string)

  datatype AccountId = AccountId(address: AddressText, sub: Option<HexText>)

  /** types.Amount */
  datatype Money = Money(value: string, currency: Option<Currency>)

  datatype Operation = Operation(
    index: Option<int64>, related: seq<Option<int64>>, kind: string, status: Option<string>,
    account: Option<AccountId>, amount: Option<Money>)

  const BURN := "burn"
  const GAS_FEE := "gas_fee"
  const MINT := "mint"
  const TRANSFER := "transfer"
  const SUCCESS := "SUCCESS"

  datatype TransferInfo = TransferInfo(
    amount: int, contract: Address, currency: Currency, from: Address, isGas: bool, to: Address)

  function SubAccount(t: TransferInfo): Option<HexText> {
    if IsNative(t.contract) then None else Some(Hex(t.contract))
  }

  /** One side of a transfer as an operation. */
  function Side(
    t: TransferInfo, acct: Address, amount: int, kind: string, index: int64, related: seq<Option<int64>>,
    setStatus: bool
  ): Operation {
    Operation(
      Some(index), related, kind, if setStatus then Some(SUCCESS) else None,
      Some(AccountId(Base58(acct), SubAccount(t))), Some(Money(IntText(amount), Some(t.currency))))
  }

  function FromKind(t: TransferInfo): string {
    if t.to == NULL then BURN else if t.isGas then GAS_FEE else TRANSFER
  }

  function ToKind(t: TransferInfo): string {
    if t.from == NULL then MINT else if t.isGas then GAS_FEE else TRANSFER
  }

  /** A transfer's operations, numbered from n: a debit unless the sender is null, a credit unless the receiver is. */
  function OperationsFrom(n: nat, t: TransferInfo, setStatus: bool): seq<Operation>
  {
    if t.from == NULL && t.to == NULL then []
    else if t.from == NULL then [Side(t, t.to, t.amount, ToKind(t), ToInt64(n), [], setStatus)]
    else if t.to == NULL then [Side(t, t.from, -t.amount, FromKind(t), ToInt64(n), [], setStatus)]
    else
      [Side(t, t.from, -t.amount, FromKind(t), ToInt64(n), [], setStatus),
       Side(t, t.to, t.amount, ToKind(t), ToInt64(n + 1), [Some(ToInt64(n))], setStatus)]
  }

  /**
   Every field of every operation of a transfer, numbered from n: the debit first, unless the sender is null, then
   the credit, unless the receiver is, and related to the debit if there is one.
   */
  lemma PrintedFields(n: nat, t: TransferInfo, setStatus: bool)
    ensures var ops := OperationsFrom(n, t, setStatus);
            var status := if setStatus then Some("SUCCESS") else None;
            var sub := if t.contract == ONT || t.contract == ONG then None else Some(Hex(t.contract));
            && |ops| == (if t.from == NULL then 0 else 1) + (if t.to == NULL then 0 else 1)
            && (t.from != NULL ==>
                  var kind := if t.to == NULL then "burn" else if t.isGas then "gas_fee" else "transfer";
                  ops[0] == Operation(Some(ToInt64(n)), [], kind, status, Some(AccountId(Base58(t.from), sub)),
                                      Some(Money(IntText(-t.amount), Some(t.currency)))))
            && (t.to != NULL ==>
                  var k := if t.from == NULL then 0 else 1;
                  var kind := if t.from == NULL then "mint" else if t.isGas then "gas_fee" else "transfer";
                  var related := if t.from == NULL then [] else [Some(ToInt64(n))];
                  ops[k] == Operation(Some(ToInt64(n + k)), related, kind, status, Some(AccountId(Base58(t.to), sub)),
                                      Some(Money(IntText(t.amount), Some(t.currency)))))
  {
  }

  /** One operation of appendOperations. */
  method OneOperation(
    xfer: TransferInfo, acct: Address, amount: int, typ: string, index: int64, related: seq<Option<int64>>,
    setStatus: bool
  ) returns (op: Operation)
    ensures op == Side(xfer, acct, amount, typ, index, related, setStatus)
  {
    var account := AccountId(Base58(acct), None);
    if !IsNative(xfer.contract) {
      account := account.(sub := Some(Hex(xfer.contract)));
    }
    op := Operation(
      Some(index), related, typ, None, Some(account), Some(Money(IntText(amount), Some(xfer.currency))));
    if setStatus {
      op := op.(status := Some(SUCCESS));
    }
  }

  function DebitSide(n: nat, t: TransferInfo, setStatus: bool): seq<Operation> {
    if t.from == NULL then [] else [Side(t, t.from, -t.amount, FromKind(t), ToInt64(n), [], setStatus)]
  }

  function CreditSide(n: nat, t: TransferInfo, related: seq<Option<int64>>, setStatus: bool): seq<Operation> {
    if t.to == NULL then [] else [Side(t, t.to, t.amount, ToKind(t), ToInt64(n), related, setStatus)]
  }

  lemma SidesJoin(ops: seq<Operation>, t: TransferInfo, setStatus: bool)
    ensures var debited := ops + DebitSide(|ops|, t, setStatus);
            var related := if t.from == NULL then [] else [Some(ToInt64(|debited| - 1))];
            debited + CreditSide(|debited|, t, related, setStatus) == ops + OperationsFrom(|ops|, t, setStatus)
  {
  }

  method AppendDebit(ops: seq<Operation>, xfer: TransferInfo, setStatus: bool) returns (result: seq<Operation>)
    requires xfer.from != NULL
    ensures result == ops + DebitSide(|ops|, xfer, setStatus)
  {
    var typ := TRANSFER;
    if xfer.to == NULL {
      typ := BURN;
    } else if xfer.isGas {
      typ := GAS_FEE;
    }
    var neg := -xfer.amount;
    var op := OneOperation(xfer, xfer.from, neg, typ, ToInt64(|ops|), [], setStatus);
    result := ops + [op];
  }

  method AppendCredit(ops: seq<Operation>, xfer: TransferInfo, related: seq<Option<int64>>, setStatus: bool)
    returns (result: seq<Operation>)
    requires xfer.to != NULL
    ensures result == ops + CreditSide(|ops|, xfer, related, setStatus)
  {
    var typ := TRANSFER;
    if xfer.from == NULL {
      typ := MINT;
    } else if xfer.isGas {
      typ := GAS_FEE;
    }
    var op := OneOperation(xfer, xfer.to, xfer.amount, typ, ToInt64(|ops|), related, setStatus);
    result := ops + [op];
  }

  /** appendOperations */
  method AppendOperations(ops: seq<Operation>, xfer: TransferInfo, setStatus: bool) returns (result: seq<Operation>)
    ensures result == ops + OperationsFrom(|ops|, xfer, setStatus)
  {
    SidesJoin(ops, xfer, setStatus);
    result := ops;
    var related: seq<Option<int64>> := [];
    if xfer.from != NULL {
      result := AppendDebit(result, xfer, setStatus);
      related := [Some(ToInt64(|result| - 1))];
    } else {
      assert result == ops + DebitSide(|ops|, xfer, setStatus);
    }
    if xfer.to != NULL {
      result := AppendCredit(result, xfer, related, setStatus);
    } else {
      assert result == result + CreditSide(|result|, xfer, related, setStatus);
    }
  }

  // What operations say about balances

  /** What an operation reports for a pair: its amount, if it names the account and the contract's currency. */
  function OpEffect(op: Operation, p: Pair): int {
    if op.account.Some? && op.account.value.address == Base58(p.acct)
       && op.amount.Some? && op.amount.value.currency.Some?
       && op.amount.value.currency.value.metadata == Contract(Hex(p.contract))
    then
      match ParseInt(op.amount.value.value)
      case None => 0
      case Some(v) => v
    else 0
  }

  function OpsEffect(ops: seq<Operation>, p: Pair): int {
    if ops == [] then 0 else OpsEffect(ops[..|ops| - 1], p) + OpEffect(ops[|ops| - 1], p)
  }

  lemma {:induction false} OpsEffectAppend(ops: seq<Operation>, more: seq<Operation>, p: Pair)
    ensures OpsEffect(ops + more, p) == OpsEffect(ops, p) + OpsEffect(more, p)
    decreases |more|
  {
    if more == [] {
      assert ops + more == ops;
    } else {
      assert (ops + more)[..|ops + more| - 1] == ops + more[..|more| - 1];
      OpsEffectAppend(ops, more[..|more| - 1], p);
    }
  }

  function InfoOf(tokens: Tokens, m: Move): TransferInfo
    requires m.contract in tokens
  {
    TransferInfo(m.amount, m.contract, tokens[m.contract].currency, m.from, m.isGas, m.to)
  }

  lemma SideEffect(
    t: TransferInfo, acct: Address, amount: int, kind: string, index: int64, related: seq<Option<int64>>, s: bool,
    p: Pair
  )
    requires t.currency.metadata == Contract(Hex(t.contract))
    ensures OpEffect(Side(t, acct, amount, kind, index, related, s), p)
         == if acct == p.acct && t.contract == p.contract then amount else 0
  {
    ParseIntText(amount);
  }

  /** The operations of a transfer report exactly what the transfer does to balances. */
  lemma PrintedEffect(tokens: Tokens, m: Move, n: nat, setStatus: bool, p: Pair)
    requires ValidTokens(tokens) && m.contract in tokens
    ensures OpsEffect(OperationsFrom(n, InfoOf(tokens, m), setStatus), p) == Effect(m, p)
  {
    var t := InfoOf(tokens, m);
    var ops := OperationsFrom(n, t, setStatus);
    SideEffect(t, m.from, -t.amount, FromKind(t), ToInt64(n), [], setStatus, p);
    SideEffect(t, m.to, t.amount, ToKind(t), ToInt64(n), [], setStatus, p);
    SideEffect(t, m.to, t.amount, ToKind(t), ToInt64(n + 1), [Some(ToInt64(n))], setStatus, p);
    FewOps(ops, p);
  }

  lemma FewOps(ops: seq<Operation>, p: Pair)
    requires |ops| <= 2
    ensures |ops| == 1 ==> OpsEffect(ops, p) == OpEffect(ops[0], p)
    ensures |ops| == 2 ==> OpsEffect(ops, p) == OpEffect(ops[0], p) + OpEffect(ops[1], p)
  {
  }

  // Stored transactions

  /** A stored transfer read back; None if a part of it does not decode. */
  function ReadTransfer(tokens: Tokens, x: StoredTransfer): Result<TransferInfo, ApiError> {
    match SliceToAddr(x.contract)
    case Err(_) => Err(DatastoreConsistency)
    case Ok(contract) =>
      if contract !in tokens then Err(CurrencyNotDefined)
      else
        match SliceToAddr(x.from)
        case Err(_) => Err(DatastoreConsistency)
        case Ok(from) =>
          match SliceToAddr(x.to)
          case Err(_) => Err(DatastoreConsistency)
          case Ok(to) =>
            Ok(TransferInfo(SetBytes(x.amount), contract, tokens[contract].currency, from, x.isGas, to))
  }

  /** Reading back what the indexer stored gives the transfer it kept. */
  lemma ReadStored(tokens: Tokens, m: Move)
    requires m.contract in tokens
    ensures ReadTransfer(tokens, StoredForm(m)) == Ok(InfoOf(tokens, m))
    ensures InfoOf(tokens, m)
         == TransferInfo(m.amount, m.contract, tokens[m.contract].currency, m.from, m.isGas, m.to)
  {
    SliceRoundTrip(m.contract);
    SliceRoundTrip(m.from);
    SliceRoundTrip(m.to);
    StoredAmount(m.amount);
  }

  /** The operations of stored transfers, numbered through; the first bad transfer decides the error. */
  function TxOperations(tokens: Tokens, xfers: seq<StoredTransfer>): Result<seq<Operation>, ApiError>
  {
    if xfers == [] then Ok([])
    else
      match TxOperations(tokens, xfers[..|xfers| - 1])
      case Err(e) => Err(e)
      case Ok(ops) =>
        match ReadTransfer(tokens, xfers[|xfers| - 1])
        case Err(e) => Err(e)
        case Ok(t) => Ok(ops + OperationsFrom(|ops|, t, true))
  }

  /** The k-th operation of a transaction: numbered, successful, and related to the one before or to none. */
  predicate NumberedOp(op: Operation, k: nat) {
    && op.index == Some(ToInt64(k)) && op.status == Some("SUCCESS")
    && (op.related == [] || (k > 0 && op.related == [Some(ToInt64(k - 1))]))
  }

  ghost predicate Numbered(ops: seq<Operation>) {
    forall k :: 0 <= k < |ops| ==> NumberedOp(ops[k], k)
  }

  lemma NumberedMore(ops: seq<Operation>, t: TransferInfo)
    requires Numbered(ops)
    ensures Numbered(ops + OperationsFrom(|ops|, t, true))
  {
    var more, n := OperationsFrom(|ops|, t, true), |ops|;
    PrintedFields(n, t, true);
    assert |more| > 0 ==> NumberedOp(more[0], n);
    assert |more| > 1 ==> NumberedOp(more[1], n + 1);
  }

  /** So are the operations of every transaction that reads. */
  lemma {:induction false} TxNumbered(tokens: Tokens, xfers: seq<StoredTransfer>)
    requires TxOperations(tokens, xfers).Ok?
    ensures Numbered(TxOperations(tokens, xfers).value)
    decreases |xfers|
  {
    if xfers != [] {
      var init := xfers[..|xfers| - 1];
      TxNumbered(tokens, init);
      NumberedMore(TxOperations(tokens, init).value, ReadTransfer(tokens, xfers[|xfers| - 1]).value);
    }
  }

  /** How many operations a kept transfer is printed as. */
  function SideCount(m: Move): nat {
    (if m.from == NULL then 0 else 1) + if m.to == NULL then 0 else 1
  }

  function SideCounts(ms: seq<Move>): nat {
    if ms == [] then 0 else SideCounts(ms[..|ms| - 1]) + SideCount(ms[|ms| - 1])
  }

  /** The operations of n transfers, when those of the last stand behind the others. */
  lemma LastPrinted(tokens: Tokens, ms: seq<Move>, last: Move, ops: seq<Operation>)
    requires last.contract in tokens && TxOperations(tokens, StoredForms(ms)) == Ok(ops)
    ensures TxOperations(tokens, StoredForms(ms + [last]))
         == Ok(ops + OperationsFrom(|ops|, InfoOf(tokens, last), true))
  {
    var xfers := StoredForms(ms + [last]);
    ReadStored(tokens, last);
    assert xfers[|xfers| - 1] == StoredForm(last);
    assert xfers[..|xfers| - 1] == StoredForms(ms);
  }

  /** The operations from place n on are those of a transfer that is printed there. */
  ghost predicate PrintedAt(ops: seq<Operation>, n: nat, tokens: Tokens, m: Move) {
    && m.contract in tokens && n + SideCount(m) <= |ops|
    && ops[n..n + SideCount(m)]
       == OperationsFrom(
            n, TransferInfo(m.amount, m.contract, tokens[m.contract].currency, m.from, m.isGas, m.to), true)
  }

  lemma PrintedBefore(ops: seq<Operation>, more: seq<Operation>, n: nat, tokens: Tokens, m: Move)
    requires PrintedAt(ops, n, tokens, m)
    ensures PrintedAt(ops + more, n, tokens, m)
  {
    assert (ops + more)[n..n + SideCount(m)] == ops[n..n + SideCount(m)];
  }

  lemma PrintedLast(ops: seq<Operation>, tokens: Tokens, m: Move)
    requires m.contract in tokens
    ensures PrintedAt(ops + OperationsFrom(|ops|, InfoOf(tokens, m), true), |ops|, tokens, m)
  {
    var more := OperationsFrom(|ops|, InfoOf(tokens, m), true);
    PrintedFields(|ops|, InfoOf(tokens, m), true);
    assert (ops + more)[|ops|..|ops| + |more|] == more;
  }

  /** Behind the operations of the transfers before it stand those of the j-th transfer, numbered on from there. */
  lemma {:induction false} TxPrinted(tokens: Tokens, ms: seq<Move>, j: nat)
    requires j < |ms| && forall m :: m in ms ==> m.contract in tokens
    ensures TxOperations(tokens, StoredForms(ms)).Ok?
    ensures PrintedAt(TxOperations(tokens, StoredForms(ms)).value, SideCounts(ms[..j]), tokens, ms[j])
    decreases |ms|
  {
    var init, last := ms[..|ms| - 1], ms[|ms| - 1];
    assert ms == init + [last];
    TxPrintedAll(tokens, init);
    var ops := TxOperations(tokens, StoredForms(init)).value;
    LastPrinted(tokens, init, last, ops);
    if j < |init| {
      assert ms[..j] == init[..j];
      TxPrinted(tokens, init, j);
      PrintedBefore(ops, OperationsFrom(|ops|, InfoOf(tokens, last), true), SideCounts(ms[..j]), tokens, ms[j]);
    } else {
      PrintedLast(ops, tokens, last);
    }
  }

  lemma {:induction false} TxPrintedAll(tokens: Tokens, ms: seq<Move>)
    requires forall m :: m in ms ==> m.contract in tokens
    ensures TxOperations(tokens, StoredForms(ms)).Ok?
    ensures |TxOperations(tokens, StoredForms(ms)).value| == SideCounts(ms)
    decreases |ms|
  {
    if ms != [] {
      var init, last := ms[..|ms| - 1], ms[|ms| - 1];
      assert ms == init + [last];
      TxPrintedAll(tokens, init);
      var ops := TxOperations(tokens, StoredForms(init)).value;
      LastPrinted(tokens, init, last, ops);
      PrintedFields(|ops|, InfoOf(tokens, last), true);
    }
  }

  lemma {:induction false} TxOperationsError(tokens: Tokens, xfers: seq<StoredTransfer>, i: nat)
    requires i <= |xfers| && TxOperations(tokens, xfers[..i]).Err?
    ensures TxOperations(tokens, xfers) == TxOperations(tokens, xfers[..i])
    decreases |xfers|
  {
    if i == |xfers| {
      assert xfers[..i] == xfers;
    } else {
      assert xfers[..|xfers| - 1][..i] == xfers[..i];
      TxOperationsError(tokens, xfers[..|xfers| - 1], i);
    }
  }

  /** transformTransaction: the loop over the stored transfers. */
  method TransformTransaction(tokens: Tokens, txn: StoredTx) returns (r: Result<seq<Operation>, ApiError>)
    ensures r == TxOperations(tokens, txn.transfers)
  {
    var ops: seq<Operation> := [];
    var xfers := txn.transfers;
    assert xfers[..0] == [];
    for i := 0 to |xfers|
      invariant TxOperations(tokens, xfers[..i]) == Ok(ops)
    {
      assert xfers[..i + 1][..i] == xfers[..i];
      var xfer := ReadTransfer(tokens, xfers[i]);
      if xfer.Err? {
        TxOperationsError(tokens, xfers, i + 1);
        return Err(xfer.error);
      }
      ops := AppendOperations(ops, xfer.value, true);
    }
    assert xfers[..|xfers|] == xfers;
    return Ok(ops);
  }

  /** Stored transfers always read back, and their operations report the transfers' total effect. */
  lemma {:induction false} StoredTxEffect(tokens: Tokens, ms: seq<Move>, p: Pair)
    requires ValidTokens(tokens) && forall m :: m in ms ==> m.contract in tokens
    ensures TxOperations(tokens, StoredForms(ms)).Ok?
    ensures OpsEffect(TxOperations(tokens, StoredForms(ms)).value, p) == TotalEffect(ms, p)
    decreases |ms|
  {
    if ms != [] {
      var init, last := ms[..|ms| - 1], ms[|ms| - 1];
      assert StoredForms(ms)[..|ms| - 1] == StoredForms(init);
      StoredTxEffect(tokens, init, p);
      ReadStored(tokens, last);
      var ops := TxOperations(tokens, StoredForms(init)).value;
      PrintedEffect(tokens, last, |ops|, true, p);
      OpsEffectAppend(ops, OperationsFrom(|ops|, InfoOf(tokens, last), true), p);
    }
  }
}
