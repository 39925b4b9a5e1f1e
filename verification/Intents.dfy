/** Transfer intents: two operations that make one transfer (services/construction_service.go). */
module Intents {
  import opened Addresses
  import opened Currencies
  import opened Errors
  import opened Numbers
  import opened Operations
  import opened Wrappers

  /** An operation that moves a nonzero amount of a registered token on an account. */
  predicate Moves(tokens: Tokens, op: Operation, info: CurrencyInfo, addr: Address, amount: int) {
    && op.account.Some? && op.account.value.address == Base58(addr)
    && op.amount.Some? && ParseInt(op.amount.value.value) == Some(amount) && amount != 0
    && ValidateCurrency(tokens, op.amount.value.currency) == Ok(info)
    && op.account.value.sub == (if IsNative(info.contract) then None else Some(Hex(info.contract)))
    && op.index.Some? && op.kind == TRANSFER
  }

  /** The later operation is related to the earlier one, comes right after it, and not the other way round. */
  predicate Follows(later: Operation, earlier: Operation) {
    && later.index.Some? && earlier.index.Some?
    && earlier.related == [] && later.related != [] && later.related[0] == earlier.index
    && ToInt64(later.index.value - earlier.index.value) == 1
  }

  /** A debit and a credit that make one transfer. */
  predicate Makes(tokens: Tokens, debit: Operation, credit: Operation, t: TransferInfo) {
    && t.amount > 0 && t.from != NULL && !t.isGas
    && t.contract in tokens && t.currency == tokens[t.contract].currency
    && Moves(tokens, debit, tokens[t.contract], t.from, -t.amount)
    && Moves(tokens, credit, tokens[t.contract], t.to, t.amount)
    && (Follows(debit, credit) || Follows(credit, debit))
  }

  /** Two operations, in either order and with the relation on either side, that intend a transfer. */
  predicate Intends(tokens: Tokens, ops: seq<Operation>, t: TransferInfo) {
    |ops| == 2 && (Makes(tokens, ops[0], ops[1], t) || Makes(tokens, ops[1], ops[0], t))
  }

  /**
   The fields of a debit and a credit that make a transfer: accounts as operations are printed with, opposite amounts
   that are not zero, one registered currency, the kind, and one relation, to an operation numbered one below.
   */
  lemma MadeFields(tokens: Tokens, debit: Operation, credit: Operation, t: TransferInfo)
    requires ValidTokens(tokens) && t.contract in tokens
    ensures var sub := if t.contract == ONT || t.contract == ONG then None else Some(Hex(t.contract));
            Makes(tokens, debit, credit, t) <==>
            && t.amount > 0 && t.from != NULL && !t.isGas && t.currency == tokens[t.contract].currency
            && debit.account == Some(AccountId(Base58(t.from), sub)) && debit.kind == "transfer"
            && debit.amount.Some? && debit.amount.value.currency == Some(t.currency)
            && ParseInt(debit.amount.value.value) == Some(-t.amount)
            && credit.account == Some(AccountId(Base58(t.to), sub)) && credit.kind == "transfer"
            && credit.amount.Some? && credit.amount.value.currency == Some(t.currency)
            && ParseInt(credit.amount.value.value) == Some(t.amount)
            && debit.index.Some? && credit.index.Some?
            && ((debit.related == [] && credit.related != [] && credit.related[0] == debit.index
                 && ToInt64(credit.index.value - debit.index.value) == 1)
                || (credit.related == [] && debit.related != [] && debit.related[0] == credit.index
                    && ToInt64(debit.index.value - credit.index.value) == 1))
  {
    OwnCurrencyValid(tokens, t.contract);
  }

  /** Operations intend at most one transfer. */
  lemma IntentUnique(tokens: Tokens, ops: seq<Operation>, t: TransferInfo, u: TransferInfo)
    requires ValidTokens(tokens) && Intends(tokens, ops, t) && Intends(tokens, ops, u)
    ensures t == u
  {
  }

  /** One turn of the loop of validateOps: what an operation says, if it says it properly. */
  method CheckOp(tokens: Tokens, op: Operation) returns (r: Result<(Address, int, CurrencyInfo), ApiError>)
    requires ValidTokens(tokens)
    ensures r.Ok? ==> Moves(tokens, op, r.value.2, r.value.0, r.value.1)
    ensures r.Ok? ==> r.value.2.contract in tokens && tokens[r.value.2.contract] == r.value.2
    ensures r.Err? ==> forall info, addr, amount :: !Moves(tokens, op, info, addr, amount)
  {
    if op.account.None? || op.account.value.address.NotBase58? || op.amount.None? {
      return Err(InvalidOpsIntent);
    }
    var amount := ParseInt(op.amount.value.value);
    if amount.None? || amount.value == 0 {
      return Err(InvalidOpsIntent);
    }
    var token := ValidateCurrency(tokens, op.amount.value.currency);
    if token.Err? {
      return Err(token.error);
    }
    if IsNative(token.value.contract) {
      if op.account.value.sub.Some? {
        return Err(InvalidOpsIntent);
      }
    } else if op.account.value.sub.None? || op.account.value.sub.value.NotHex?
              || op.account.value.sub.value.addr != token.value.contract {
      return Err(InvalidOpsIntent);
    }
    if op.index.None? || op.kind != TRANSFER {
      return Err(InvalidOpsIntent);
    }
    return Ok((op.account.value.address.addr, amount.value, token.value));
  }

  /** validateRelation */
  method ValidateRelation(ops: seq<Operation>, ifrom: nat, ito: nat) returns (ok: bool)
    requires ifrom < |ops| && ito < |ops| && ops[ifrom].related != []
    requires ops[ifrom].index.Some? && ops[ito].index.Some?
    ensures ok <==> Follows(ops[ifrom], ops[ito])
  {
    if |ops[ito].related| > 0 {
      return false;
    }
    var rel := ops[ifrom].related[0];
    if rel.None? {
      return false;
    }
    var src := ops[ito].index.value;
    if rel.value != src {
      return false;
    }
    var diff := ToInt64(ops[ifrom].index.value - src);
    return diff == 1;
  }

  method CheckRelations(ops: seq<Operation>) returns (ok: bool)
    requires |ops| == 2 && ops[0].index.Some? && ops[1].index.Some?
    ensures ok <==> Follows(ops[0], ops[1]) || Follows(ops[1], ops[0])
  {
    if |ops[0].related| > 0 {
      ok := ValidateRelation(ops, 0, 1);
    } else if |ops[1].related| > 0 {
      ok := ValidateRelation(ops, 1, 0);
    } else {
      ok := false;
    }
  }

  /** validateOps: accepts exactly the operations that intend a transfer, and says which. */
  method ValidateOps(tokens: Tokens, ops: Option<seq<Operation>>) returns (r: Result<TransferInfo, ApiError>)
    requires ValidTokens(tokens)
    ensures r.Ok? ==> ops.Some? && Intends(tokens, ops.value, r.value)
    ensures r.Err? && ops.Some? ==> forall t :: !Intends(tokens, ops.value, t)
  {
    if ops.None? || |ops.value| != 2 {
      return Err(InvalidOpsIntent);
    }
    var parts := CheckBoth(tokens, ops.value);
    if parts.Err? {
      return Err(parts.error);
    }
    var (addrs, amounts, cinfo) := parts.value;
    var related := CheckRelations(ops.value);
    if !related {
      return Err(InvalidOpsIntent);
    }
    if amounts[0] + amounts[1] != 0 {
      return Err(InvalidOpsIntent);
    }
    var xfer: TransferInfo;
    if amounts[0] > 0 {
      xfer := TransferInfo(amounts[0], cinfo.contract, cinfo.currency, addrs[1], false, addrs[0]);
    } else {
      xfer := TransferInfo(amounts[1], cinfo.contract, cinfo.currency, addrs[0], false, addrs[1]);
    }
    if xfer.from == NULL {
      return Err(InvalidOpsIntent);
    }
    return Ok(xfer);
  }

  /** The loop of validateOps over the two operations, which must be in one currency. */
  method CheckBoth(tokens: Tokens, ops: seq<Operation>)
    returns (r: Result<(seq<Address>, seq<int>, CurrencyInfo), ApiError>)
    requires ValidTokens(tokens) && |ops| == 2
    ensures r.Ok? ==> |r.value.0| == |r.value.1| == 2
    ensures r.Ok? ==> r.value.2.contract in tokens && tokens[r.value.2.contract] == r.value.2
    ensures r.Ok? ==> forall j :: 0 <= j < 2 ==> Moves(tokens, ops[j], r.value.2, r.value.0[j], r.value.1[j])
    ensures r.Err? ==> forall t :: !Intends(tokens, ops, t)
  {
    var addrs: seq<Address>, amounts: seq<int> := [], [];
    var cinfo: Option<CurrencyInfo> := None;
    for i := 0 to 2
      invariant |addrs| == |amounts| == i && (cinfo.Some? <==> i > 0)
      invariant cinfo.Some? ==> cinfo.value.contract in tokens && tokens[cinfo.value.contract] == cinfo.value
      invariant forall j :: 0 <= j < i ==> Moves(tokens, ops[j], cinfo.value, addrs[j], amounts[j])
    {
      var part := CheckOp(tokens, ops[i]);
      if part.Err? {
        return Err(part.error);
      }
      var (addr, amount, token) := part.value;
      addrs := addrs + [addr];
      amounts := amounts + [amount];
      if cinfo.None? {
        cinfo := Some(token);
      } else if cinfo.value != token {
        return Err(InvalidOpsIntent);
      }
    }
    return Ok((addrs, amounts, cinfo.value));
  }

  lemma PrintedSide(
    tokens: Tokens, t: TransferInfo, acct: Address, amount: int, index: int64, related: seq<Option<int64>>,
    setStatus: bool
  )
    requires ValidTokens(tokens) && t.contract in tokens && t.currency == tokens[t.contract].currency && amount != 0
    ensures Moves(tokens, Side(t, acct, amount, TRANSFER, index, related, setStatus), tokens[t.contract], acct, amount)
  {
    ParseIntText(amount);
    OwnCurrencyValid(tokens, t.contract);
  }

  lemma PrintedTransfer(tokens: Tokens, t: TransferInfo, setStatus: bool)
    requires ValidTokens(tokens) && t.contract in tokens && t.currency == tokens[t.contract].currency
    requires t.amount > 0 && t.from != NULL && t.to != NULL && !t.isGas
    ensures Intends(tokens, OperationsFrom(0, t, setStatus), t)
  {
    PrintedSide(tokens, t, t.from, -t.amount, 0, [], setStatus);
    PrintedSide(tokens, t, t.to, t.amount, 1, [Some(0)], setStatus);
    var ops := OperationsFrom(0, t, setStatus);
    assert Follows(ops[1], ops[0]);
    assert Makes(tokens, ops[0], ops[1], t);
  }

  /**
   Normal form: printing an intended transfer gives operations that intend the same transfer again,
   exactly when the receiver is not null. To a null receiver the print has one operation, and intends nothing.
   */
  lemma IntentNormalForm(tokens: Tokens, ops: seq<Operation>, t: TransferInfo, setStatus: bool)
    requires ValidTokens(tokens) && Intends(tokens, ops, t)
    ensures Intends(tokens, OperationsFrom(0, t, setStatus), t) <==> t.to != NULL
    ensures t.to == NULL ==> forall u :: !Intends(tokens, OperationsFrom(0, t, setStatus), u)
  {
    if t.to != NULL {
      PrintedTransfer(tokens, t, setStatus);
    } else {
      assert |OperationsFrom(0, t, setStatus)| == 1;
    }
  }

  /** A transfer to the null address is accepted as an intent, though it cannot be printed again. */
  lemma NullReceiverIntended(tokens: Tokens, from: Address)
    requires ValidTokens(tokens) && ONT in tokens && from != NULL
    ensures var t := TransferInfo(1, ONT, tokens[ONT].currency, from, false, NULL);
            var ops := [Side(t, from, -1, TRANSFER, 0, [], false), Side(t, NULL, 1, TRANSFER, 1, [Some(0)], false)];
            Intends(tokens, ops, t) && !Intends(tokens, OperationsFrom(0, t, false), t)
  {
  }

  lemma OnlyIntent(tokens: Tokens, ops: seq<Operation>, t: TransferInfo)
    requires ValidTokens(tokens) && Intends(tokens, ops, t)
    ensures forall u :: Intends(tokens, ops, u) ==> u == t
  {
  }
}
