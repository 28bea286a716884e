/** src/brc20.ts: one token ledger, that is the balances of a tick and a cached
    total supply. `Ledger` is the ledger as a value, with the meaning of each
    operation; `Brc20` is the object whose methods update it in place. */
module Ledgers {
  import opened Wrappers
  import opened BigNum
  import opened MapSum

  datatype Ledger = Ledger(balance: map<string, nat>, supply: nat) {

    function BalanceOf(address: string): nat {
      if address in balance then balance[address] else 0
    }

    /** The cached supply is the sum of the balances. */
    ghost predicate Valid() {
      supply == Sum(balance)
    }

    function Transfer(from: string, to: string, amount: nat): Result<Ledger, Error> {
      if amount == 0 then Err(InvalidAmount)
      else if BalanceOf(from) < amount then Err(InsufficientAmount)
      else
        var debited := balance[from := balance[from] - amount];
        var held := if to in debited then debited[to] else 0;
        Ok(Ledger(debited[to := held + amount], supply))
    }

    function Mint(address: string, amount: nat): Result<Ledger, Error> {
      if amount == 0 then Err(InvalidAmount)
      else Ok(Ledger(balance[address := BalanceOf(address) + amount], supply + amount))
    }

    function Burn(address: string, amount: nat): Result<Ledger, Error> {
      if amount == 0 then Err(InvalidAmount)
      else if BalanceOf(address) < amount then Err(InsufficientAmount)
      else if supply < amount then Err(InvalidAmount)
      else Ok(Ledger(balance[address := BalanceOf(address) - amount], supply - amount))
    }
  }

  /** A transfer moves exactly `amount` between two accounts (nothing at all when
      they are the same one), touches no other account, and keeps the supply equal
      to the sum of the balances. */
  lemma TransferEffect(l: Ledger, from: string, to: string, amount: nat)
    requires l.Valid() && l.Transfer(from, to, amount).Ok?
    ensures var l' := l.Transfer(from, to, amount).value;
            && l'.Valid() && l'.supply == l.supply
            && l'.BalanceOf(from) == l.BalanceOf(from) - (if from == to then 0 else amount)
            && l'.BalanceOf(to) == l.BalanceOf(to) + (if from == to then 0 else amount)
            && forall a :: a != from && a != to ==> l'.BalanceOf(a) == l.BalanceOf(a)
  {
    var debited := l.balance[from := l.balance[from] - amount];
    SumUpdate(l.balance, from, l.balance[from] - amount);
    SumUpdate(debited, to, (if to in debited then debited[to] else 0) + amount);
  }

  lemma MintEffect(l: Ledger, address: string, amount: nat)
    requires l.Valid() && amount > 0
    ensures var l' := l.Mint(address, amount).value;
            && l'.Valid() && l'.supply == l.supply + amount
            && l'.BalanceOf(address) == l.BalanceOf(address) + amount
            && forall a :: a != address ==> l'.BalanceOf(a) == l.BalanceOf(a)
  {
    SumUpdate(l.balance, address, l.BalanceOf(address) + amount);
  }

  /** A burn succeeds exactly when the holder has the amount: on a valid ledger the
      subtraction from the cached supply can never abort. */
  lemma BurnEffect(l: Ledger, address: string, amount: nat)
    requires l.Valid()
    ensures l.Burn(address, amount).Ok? <==> 0 < amount <= l.BalanceOf(address)
    ensures l.Burn(address, amount).Ok? ==>
              var l' := l.Burn(address, amount).value;
              && l'.Valid() && l'.supply == l.supply - amount
              && l'.BalanceOf(address) == l.BalanceOf(address) - amount
              && forall a :: a != address ==> l'.BalanceOf(a) == l.BalanceOf(a)
  {
    assert |address + "x"| != |address|;
    SumBoundsTwo(l.balance, address, address + "x");
    if 0 < amount <= l.BalanceOf(address) {
      SumUpdate(l.balance, address, l.BalanceOf(address) - amount);
    }
  }

  /** No two accounts together hold more than the supply. */
  lemma TwoHolders(l: Ledger, a: string, b: string)
    requires l.Valid() && a != b
    ensures l.BalanceOf(a) + l.BalanceOf(b) <= l.supply
  {
    SumBoundsTwo(l.balance, a, b);
  }

  class Brc20 {
    var balance: map<string, nat>
    var supply: nat

    ghost function Value(): Ledger
      reads this
    {
      Ledger(balance, supply)
    }

    constructor (balance: map<string, nat>)
      ensures Value() == Ledger(balance, this.supply) && Value().Valid()
    {
      this.balance := balance;
      this.supply := 0;
      new;
      var todo := balance.Keys;
      ghost var done: map<string, nat> := map[];
      while todo != {}
        invariant todo <= balance.Keys
        invariant done == map a | a in balance && a !in todo :: balance[a]
        invariant this.balance == balance && this.supply == Sum(done)
        decreases todo
      {
        var address :| address in todo;
        SumUpdate(done, address, balance[address]);
        done := done[address := balance[address]];
        this.supply := this.supply + balance[address];
        todo := todo - {address};
      }
      assert done == balance;
    }

    method Transfer(from: string, to: string, amount: nat) returns (r: Result<(), Error>)
      modifies this
      ensures r.Ok? ==> old(Value()).Transfer(from, to, amount) == Ok(Value())
      ensures r.Err? ==> old(Value()).Transfer(from, to, amount) == Err(r.error) && Value() == old(Value())
    {
      var _ :- Need(amount > 0, InvalidAmount);
      var _ :- Need(from in balance && balance[from] >= amount, InsufficientAmount);
      balance := balance[from := balance[from] - amount];
      balance := balance[to := (if to in balance then balance[to] else 0) + amount];
      return Ok(());
    }

    method Mint(address: string, amount: nat) returns (r: Result<(), Error>)
      modifies this
      ensures r.Ok? ==> old(Value()).Mint(address, amount) == Ok(Value())
      ensures r.Err? ==> old(Value()).Mint(address, amount) == Err(r.error) && Value() == old(Value())
    {
      var _ :- Need(amount > 0, InvalidAmount);
      balance := balance[address := (if address in balance then balance[address] else 0) + amount];
      supply := supply + amount;
      return Ok(());
    }

    method Burn(address: string, amount: nat) returns (r: Result<(), Error>)
      requires Value().Valid()
      modifies this
      ensures r.Ok? ==> old(Value()).Burn(address, amount) == Ok(Value())
      ensures r.Err? ==> old(Value()).Burn(address, amount) == Err(r.error) && Value() == old(Value())
    {
      var _ :- Need(amount > 0, InvalidAmount);
      var _ :- Need(address in balance && balance[address] >= amount, InsufficientAmount);
      BurnEffect(Value(), address, amount);
      balance := balance[address := balance[address] - amount];
      supply := supply - amount;
      return Ok(());
    }
  }
}
