/** src/assets.ts as the object it is: a table of ledgers, each updated in place.
    Every method is proved against the book that the table stands for, also when it
    throws halfway. */
module AssetTable {
  import opened Wrappers
  import opened BigNum
  import opened ContractUtils
  import opened Ledgers
  import opened Books

  /** The book `b` with empty ledgers of `tick` added for the asset kinds `done`. */
  ghost predicate Created(b: Book, b': Book, tick: string, done: set<AssetKind>) {
    && b'.kinds == b.kinds
    && (forall s :: s in b'.ledgers <==> s in b.ledgers || (s.tick == tick && s.kind in done))
    && (forall s | s in b'.ledgers :: b'.ledgers[s] == if s in b.ledgers then b.ledgers[s] else Ledger(map[], 0))
  }

  lemma CreatedAll(b: Book, b': Book, tick: string)
    requires Created(b, b', tick, b.kinds)
    ensures b' == b.TryCreate(tick)
  {
    forall s
      ensures s in b'.ledgers <==> s in b.TryCreate(tick).ledgers
    {
      assert s == Slot(s.kind, s.tick);
    }
    assert b'.ledgers == b.TryCreate(tick).ledgers;
  }

  /** A table whose entries agree but for one is the table with that entry put. */
  lemma OneEntry(before: map<Slot, Ledger>, after: map<Slot, Ledger>, s: Slot)
    requires s in after && after.Keys == before.Keys + {s}
    requires forall t | t in before && t != s :: after[t] == before[t]
    ensures after == before[s := after[s]]
  {
  }

  /** Whatever is done to a consistent ledger leaves it consistent. */
  lemma StaysValid(l: Ledger, from: string, to: string, amount: nat)
    requires l.Valid()
    ensures l.Transfer(from, to, amount).Ok? ==> l.Transfer(from, to, amount).value.Valid()
    ensures l.Mint(from, amount).Ok? ==> l.Mint(from, amount).value.Valid()
    ensures l.Burn(from, amount).Ok? ==> l.Burn(from, amount).value.Valid()
  {
    hide Ledger.Valid;
    if l.Transfer(from, to, amount).Ok? {
      TransferEffect(l, from, to, amount);
    }
    if amount > 0 {
      MintEffect(l, from, amount);
    }
    BurnEffect(l, from, amount);
  }

  lemma EmptyIsZero(l: Ledger)
    requires l.Valid() && l.balance == map[]
    ensures l == Ledger(map[], 0)
  {
  }

  class Assets {
    const kinds: set<AssetKind>
    var ledgers: map<Slot, Brc20>

    ghost predicate Valid()
      reads this, ledgers.Values
    {
      && Swap in kinds
      && (forall s | s in ledgers :: s.kind in kinds && ledgers[s].Value().Valid())
      && (forall s, t | s in ledgers && t in ledgers && ledgers[s] == ledgers[t] :: s == t)
    }

    ghost function Value(): Book
      reads this, ledgers.Values
    {
      Book(kinds, map s | s in ledgers :: ledgers[s].Value())
    }

    constructor (kinds: set<AssetKind>, balances: map<Slot, map<string, nat>>)
      requires Swap in kinds && forall s | s in balances :: s.kind in kinds
      ensures Valid() && fresh(ledgers.Values)
      ensures this.kinds == kinds && Value().Valid() && Value().ledgers.Keys == balances.Keys
      ensures forall s | s in balances :: Value().ledgers[s].balance == balances[s]
    {
      this.kinds := kinds;
      this.ledgers := map[];
      new;
      var todo := balances.Keys;
      while todo != {}
        invariant todo <= balances.Keys && Value().ledgers.Keys == balances.Keys - todo
        invariant Valid() && fresh(ledgers.Values)
        invariant forall s | s in Value().ledgers :: Value().ledgers[s].balance == balances[s]
        decreases todo
      {
        var s :| s in todo;
        AddLedger(s, balances[s]);
        todo := todo - {s};
      }
    }

    /** A new ledger in a free place of the table. */
    method Install(s: Slot, ledger: Brc20)
      requires Valid() && s.kind in kinds && s !in ledgers
      requires ledger !in ledgers.Values && ledger.Value().Valid()
      modifies this
      ensures Valid() && ledgers == old(ledgers)[s := ledger]
      ensures Value() == old(Value()).Put(s, ledger.Value())
    {
      hide Ledger.Valid;
      assert forall t | t in ledgers :: ledgers[t] in ledgers.Values;
      ledgers := ledgers[s := ledger];
      OneEntry(old(Value()).ledgers, Value().ledgers, s);
    }

    /** `new Brc20(balance, tick)` put into the table. */
    method AddLedger(s: Slot, balance: map<string, nat>)
      requires Valid() && s.kind in kinds && s !in ledgers
      modifies this
      ensures Valid() && s in ledgers
      ensures fresh(ledgers[s]) && ledgers.Values == old(ledgers.Values) + {ledgers[s]}
      ensures ledgers[s].Value() == Ledger(balance, ledgers[s].supply) && ledgers[s].Value().Valid()
      ensures balance == map[] ==> ledgers[s].Value() == Ledger(map[], 0)
      ensures Value() == old(Value()).Put(s, ledgers[s].Value())
    {
      hide Ledger.Valid, Valid, Value;
      var ledger := new Brc20(balance);
      NewValue(ledgers, s, ledger);
      if balance == map[] {
        EmptyIsZero(ledger.Value());
      }
      Install(s, ledger);
    }

    static lemma NewValue(was: map<Slot, Brc20>, s: Slot, ledger: Brc20)
      requires s !in was
      ensures was[s := ledger].Values == was.Values + {ledger}
    {
      assert was[s := ledger][s] == ledger;
      forall l | l in was.Values ensures l in was[s := ledger].Values {
        var t :| t in was && was[t] == l;
        assert was[s := ledger][t] == l;
      }
    }

    /** An update of one ledger is the update of one entry of the book. */
    lemma Entry(s: Slot)
      requires Valid() && s in ledgers
      ensures Value().Get(s) == Ok(ledgers[s].Value())
      ensures Value().Valid()
    {
    }

    lemma SameKinds()
      ensures Value().kinds == kinds
    {
    }

    /** One round of the loop of `tryCreate`. */
    method EnsureLedger(s: Slot)
      requires Valid() && s.kind in kinds
      modifies this
      ensures Valid() && fresh(ledgers.Values - old(ledgers.Values))
      ensures Value() == if s in old(Value()).ledgers then old(Value()) else old(Value()).Put(s, Ledger(map[], 0))
    {
      if s !in ledgers {
        AddLedger(s, map[]);
      }
    }

    method TryCreate(tick: string)
      requires Valid()
      modifies this
      ensures Valid() && fresh(ledgers.Values - old(ledgers.Values))
      ensures Value() == old(Value()).TryCreate(tick)
    {
      hide Book.TryCreate, Valid, Value;
      var todo := kinds;
      ghost var before := Value();
      while todo != {}
        invariant todo <= kinds && Valid() && fresh(ledgers.Values - old(ledgers.Values))
        invariant Created(before, Value(), tick, kinds - todo)
        decreases todo
      {
        var k :| k in todo;
        EnsureLedger(Slot(k, tick));
        todo := todo - {k};
      }
      SameKinds();
      assert kinds - todo == kinds;
      CreatedAll(before, Value(), tick);
    }

    /** `get(tick, kind).transfer(from, to, amount)` */
    method TransferAt(s: Slot, from: string, to: string, amount: nat) returns (r: Result<(), Error>)
      requires Valid()
      modifies ledgers.Values
      ensures Valid()
      ensures r.Ok? ==> old(Value()).Transfer(s, from, to, amount) == Ok(Value())
      ensures r.Err? ==> old(Value()).Transfer(s, from, to, amount) == Err(r.error) && Value() == old(Value())
    {
      hide Ledger.Transfer, Ledger.Mint, Ledger.Burn, Ledger.Valid;
      var _ :- Need(s in ledgers, Undefined);
      Entry(s);
      StaysValid(ledgers[s].Value(), from, to, amount);
      r := ledgers[s].Transfer(from, to, amount);
      OneEntry(old(Value()).ledgers, Value().ledgers, s);
    }

    /** `get(tick, kind).mint(address, amount)` */
    method MintAt(s: Slot, address: string, amount: nat) returns (r: Result<(), Error>)
      requires Valid()
      modifies ledgers.Values
      ensures Valid()
      ensures r.Ok? ==> old(Value()).Mint(s, address, amount) == Ok(Value())
      ensures r.Err? ==> old(Value()).Mint(s, address, amount) == Err(r.error) && Value() == old(Value())
    {
      hide Ledger.Transfer, Ledger.Mint, Ledger.Burn, Ledger.Valid;
      var _ :- Need(s in ledgers, Undefined);
      Entry(s);
      StaysValid(ledgers[s].Value(), address, address, amount);
      r := ledgers[s].Mint(address, amount);
      OneEntry(old(Value()).ledgers, Value().ledgers, s);
    }

    /** `get(tick, kind).burn(address, amount)`, which is also `assets.burn` */
    method BurnAt(s: Slot, address: string, amount: nat) returns (r: Result<(), Error>)
      requires Valid()
      modifies ledgers.Values
      ensures Valid()
      ensures r.Ok? ==> old(Value()).Burn(s, address, amount) == Ok(Value())
      ensures r.Err? ==> old(Value()).Burn(s, address, amount) == Err(r.error) && Value() == old(Value())
    {
      hide Ledger.Transfer, Ledger.Mint, Ledger.Burn, Ledger.Valid;
      var _ :- Need(s in ledgers, Undefined);
      Entry(s);
      StaysValid(ledgers[s].Value(), address, address, amount);
      r := ledgers[s].Burn(address, amount);
      OneEntry(old(Value()).ledgers, Value().ledgers, s);
    }

    method Mint(address: string, tick: string, amount: nat, kind: AssetKind) returns (r: Result<(), Error>)
      requires Valid()
      modifies this, ledgers.Values
      ensures Valid() && fresh(ledgers.Values - old(ledgers.Values))
      ensures r.Ok? ==> old(Value()).Deposit(address, tick, amount, kind) == Ok(Value())
      ensures r.Err? ==> old(Value()).Deposit(address, tick, amount, kind) == Err(r.error)
      ensures r.Err? ==> Value() == old(Value()).TryCreate(tick)
    {
      hide Valid, Value;
      TryCreate(tick);
      r := MintAt(Slot(kind, tick), address, amount);
    }

    method Transfer(tick: string, from: string, to: string, amount: nat, fromKind: AssetKind, toKind: AssetKind)
      returns (r: Result<(), Error>)
      requires Valid()
      modifies ledgers.Values
      ensures Valid()
      ensures r.Ok? ==> old(Value()).Move(tick, from, to, amount, fromKind, toKind) == Ok(Value())
      ensures r.Err? ==> old(Value()).Move(tick, from, to, amount, fromKind, toKind) == Err(r.error)
      ensures r.Err? ==> Value() == old(Value()).Burn(Slot(fromKind, tick), from, amount).ValueOr(old(Value()))
    {
      hide Valid, Value;
      var _ :- BurnAt(Slot(fromKind, tick), from, amount);
      r := MintAt(Slot(toKind, tick), to, amount);
    }

    method Convert(address: string, tick: string, amount: nat, fromKind: AssetKind, toKind: AssetKind)
      returns (r: Result<(), Error>)
      requires Valid()
      modifies ledgers.Values
      ensures Valid()
      ensures r.Ok? ==> old(Value()).Move(tick, address, address, amount, fromKind, toKind) == Ok(Value())
      ensures r.Err? ==> old(Value()).Move(tick, address, address, amount, fromKind, toKind) == Err(r.error)
      ensures r.Err? ==> Value() == old(Value()).Burn(Slot(fromKind, tick), address, amount).ValueOr(old(Value()))
    {
      hide Valid, Value;
      var _ :- BurnAt(Slot(fromKind, tick), address, amount);
      r := MintAt(Slot(toKind, tick), address, amount);
    }

    method SwapTicks(address: string, tickIn: string, tickOut: string, amountIn: nat, amountOut: nat)
      returns (r: Result<(), Error>)
      requires Valid()
      modifies ledgers.Values
      ensures Valid()
      ensures r.Ok? ==> old(Value()).SwapTicks(address, tickIn, tickOut, amountIn, amountOut) == Ok(Value())
      ensures r.Err? ==> old(Value()).SwapTicks(address, tickIn, tickOut, amountIn, amountOut) == Err(r.error)
      ensures r.Err? ==>
                Value() == old(Value()).Transfer(Slot(Swap, tickIn), address, PairStr(tickIn, tickOut), amountIn)
                                    .ValueOr(old(Value()))
    {
      hide Valid, Value;
      var pair := PairStr(tickIn, tickOut);
      var _ :- TransferAt(Slot(Swap, tickIn), address, pair, amountIn);
      r := TransferAt(Slot(Swap, tickOut), pair, address, amountOut);
    }
  }
}
