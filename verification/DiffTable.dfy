/**
 The table of balance differences built while a block is indexed. It maps accounts and
 contracts to big integers that are changed in place, and a credited entry may be the
 very object the transfer event came with.
 */
module DiffTables {
  import opened Addresses
  import opened Keys
  import opened Numbers
  import opened Transfers

  /** big.Int */
  class BigInt {
    var value: int

    constructor (value: int)
      ensures this.value == value
    {
      this.value := value;
    }
  }

  /** The struct transfer: its amount is an object. */
  datatype LiveTransfer = LiveTransfer(amount: BigInt, from: Address, to: Address, isGas: bool)

  /** The nested maps hold exactly the flattened entries. */
  ghost predicate Flat(cells: map<Address, map<Address, BigInt>>, table: map<Pair, BigInt>) {
    forall p :: (p in table <==> p.acct in cells && p.contract in cells[p.acct])
                && (p in table ==> table[p] == cells[p.acct][p.contract])
  }

  /** No two entries share an object, so changing one in place changes no other. */
  ghost predicate Apart(table: map<Pair, BigInt>) {
    forall p, q :: p in table && q in table && table[p] == table[q] ==> p == q
  }

  ghost predicate Valued(table: map<Pair, BigInt>, contents: Diffs, repr: set<BigInt>)
    reads repr
  {
    contents.Keys == table.Keys && forall p :: p in table ==> table[p] in repr && table[p].value == contents[p]
  }

  lemma FlatMore(
    cells: map<Address, map<Address, BigInt>>, table: map<Pair, BigInt>, p: Pair, balance: BigInt,
    accts: map<Address, BigInt>
  )
    requires Flat(cells, table)
    requires accts == (if p.acct in cells then cells[p.acct] else map[])[p.contract := balance]
    ensures Flat(cells[p.acct := accts], table[p := balance])
  {
    var more, larger := cells[p.acct := accts], table[p := balance];
    forall q: Pair
      ensures (q in larger <==> q.acct in more && q.contract in more[q.acct])
              && (q in larger ==> larger[q] == more[q.acct][q.contract])
    {
      assert q == p <==> q.acct == p.acct && q.contract == p.contract;
    }
  }

  lemma ApartMore(table: map<Pair, BigInt>, p: Pair, balance: BigInt)
    requires Apart(table) && forall q :: q in table && q != p ==> table[q] != balance
    ensures Apart(table[p := balance])
  {
  }

  lemma ValuedMore(table: map<Pair, BigInt>, contents: Diffs, repr: set<BigInt>, p: Pair, balance: BigInt)
    requires Valued(table, contents, repr)
    ensures Valued(table[p := balance], contents[p := balance.value], repr + {balance})
  {
  }

  class DiffTable {
    var cells: map<Address, map<Address, BigInt>>
    ghost var table: map<Pair, BigInt>  // the nested maps, flattened
    ghost var contents: Diffs  // the value of each entry
    ghost var repr: set<BigInt>  // the objects the entries may point to

    ghost predicate Valid()
      reads this, repr
    {
      Flat(cells, table) && Apart(table) && Valued(table, contents, repr)
    }

    constructor ()
      ensures Valid() && repr == {} && contents == map[]
    {
      cells := map[];
      table := map[];
      contents := map[];
      repr := {};
    }

    /** Makes a pair's entry point to an object, creating the account's inner map if there is none. */
    method Put(p: Pair, balance: BigInt)
      requires Valid()
      requires forall q :: q in table && q != p ==> table[q] != balance
      modifies this
      ensures Valid() && repr == old(repr) + {balance} && contents == old(contents)[p := balance.value]
    {
      var accts: map<Address, BigInt> := if p.acct in cells then cells[p.acct] else map[];
      accts := accts[p.contract := balance];
      FlatMore(cells, table, p, balance, accts);
      ApartMore(table, p, balance);
      ValuedMore(table, contents, repr, p, balance);
      cells := cells[p.acct := accts];
      table := table[p := balance];
      contents := contents[p := balance.value];
      repr := repr + {balance};
    }

    /** balance.Add on an entry: the object itself changes, and with it this entry only. */
    method AddInPlace(p: Pair, balance: BigInt, delta: int)
      requires Valid() && p in table && table[p] == balance
      modifies this`contents, balance
      ensures Valid() && contents == Changed(old(contents), p, delta)
    {
      balance.value := balance.value + delta;
      contents := contents[p := balance.value];
    }

    /** Looks an account up and then, in its inner map, a contract. */
    method Lookup(acct: Address, contract: Address) returns (balance: BigInt?)
      requires Valid()
      ensures if Pair(acct, contract) in table then balance == table[Pair(acct, contract)] else balance == null
    {
      balance := null;
      if acct in cells {
        var accts: map<Address, BigInt> := cells[acct];
        if contract in accts {
          balance := accts[contract];
        }
      }
    }

    /** A missing entry gets an object that no entry points to. */
    method Enter(p: Pair, balance: BigInt)
      requires Valid() && balance !in repr && p !in table
      modifies this
      ensures Valid() && repr == old(repr) + {balance} && contents == Changed(old(contents), p, balance.value)
    {
      Put(p, balance);
    }

    /** The sender's half of balanceCal: a missing entry gets a new object. */
    method Debit(acct: Address, contract: Address, amount: BigInt)
      requires Valid() && amount !in repr
      modifies this, repr
      ensures Valid() && amount !in repr && fresh(repr - old(repr))
      ensures contents == SideEntered(old(contents), acct, contract, -amount.value)
    {
      if acct == NULL {
        return;
      }
      var delta := -amount.value;
      var balance := Lookup(acct, contract);
      if balance != null {
        AddInPlace(Pair(acct, contract), balance, delta);
      } else {
        var negated := new BigInt(delta);
        Enter(Pair(acct, contract), negated);
      }
      assert amount.value == old(amount.value);
    }

    /** The receiver's half of balanceCal: a missing entry takes over the transfer's own object. */
    method Credit(acct: Address, contract: Address, amount: BigInt)
      requires Valid() && amount !in repr
      modifies this, repr
      ensures Valid() && repr <= old(repr) + {amount}
      ensures amount.value == old(amount.value)
      ensures contents == SideEntered(old(contents), acct, contract, amount.value)
    {
      if acct == NULL {
        return;
      }
      var balance := Lookup(acct, contract);
      if balance != null {
        AddInPlace(Pair(acct, contract), balance, amount.value);
      } else {
        Enter(Pair(acct, contract), amount);
      }
    }

    /** Both sides of a transfer, the sender's first. */
    method EnterSides(xfer: LiveTransfer, contract: Address, ghost m: Move)
      requires Valid() && xfer.amount !in repr && xfer.amount.value >= 0
      requires m == MoveOf(xfer, contract, xfer.amount.value)
      modifies this, repr
      ensures Valid() && fresh(repr - old(repr) - {xfer.amount})
      ensures contents == Entered(old(contents), m) && xfer.amount.value == m.amount
    {
      Debit(xfer.from, contract, xfer.amount);
      assert contents == SideEntered(old(contents), m.from, m.contract, -(m.amount as int));
      Credit(xfer.to, contract, xfer.amount);
    }

    /**
     balanceCal: enters a transfer into the table and returns its stored form. The stored
     amount is the transfer's own, also when both sides are the same account.
     */
    method BalanceCal(xfer: LiveTransfer, contract: Address) returns (stored: StoredTransfer)
      requires Valid() && xfer.amount !in repr && xfer.amount.value >= 0
      modifies this, repr
      ensures Valid() && fresh(repr - old(repr) - {xfer.amount})
      ensures contents == Entered(old(contents), MoveOf(xfer, contract, old(xfer.amount.value)))
      ensures stored == StoredForm(MoveOf(xfer, contract, old(xfer.amount.value)))
    {
      EnterSides(xfer, contract, MoveOf(xfer, contract, xfer.amount.value));
      stored := Record(xfer, contract);
    }
  }

  method Record(xfer: LiveTransfer, contract: Address) returns (stored: StoredTransfer)
    requires xfer.amount.value >= 0
    ensures stored == StoredForm(MoveOf(xfer, contract, xfer.amount.value))
  {
    stored := StoredTransfer(
      BigBytes(xfer.amount.value), AddrToSlice(contract), AddrToSlice(xfer.from), xfer.isGas, AddrToSlice(xfer.to));
  }

  /** The transfer as a value. */
  function MoveOf(xfer: LiveTransfer, contract: Address, amount: nat): Move {
    Move(contract, xfer.from, xfer.to, amount, xfer.isGas)
  }
}
