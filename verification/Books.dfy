/** src/assets.ts as a value: the ledgers of every asset kind and tick, and what
    each operation makes of them. A missing ledger makes an operation throw. */
module Books {
  import opened Wrappers
  import opened BigNum
  import opened ContractUtils
  import opened Ledgers

  datatype AssetKind = Swap | PendingSwap | Available | PendingAvailable | Approve | ConditionalApprove

  datatype Slot = Slot(kind: AssetKind, tick: string)

  datatype Book = Book(kinds: set<AssetKind>, ledgers: map<Slot, Ledger>) {

    ghost predicate Valid() {
      && Swap in kinds
      && forall s | s in ledgers :: s.kind in kinds && ledgers[s].Valid()
    }

    predicate IsExist(tick: string) {
      Slot(Swap, tick) in ledgers
    }

    function TryCreate(tick: string): Book {
      Book(kinds, (map k | k in kinds :: Slot(k, tick) := Ledger(map[], 0)) + ledgers)
    }

    function Get(s: Slot): Result<Ledger, Error> {
      if s in ledgers then Ok(ledgers[s]) else Err(Undefined)
    }

    function Put(s: Slot, l: Ledger): Book {
      this.(ledgers := ledgers[s := l])
    }

    /** `this.assets.get(tick).transfer(from, to, amount)` */
    function Transfer(s: Slot, from: string, to: string, amount: nat): Result<Book, Error> {
      var l :- Get(s);
      var l' :- l.Transfer(from, to, amount);
      Ok(Put(s, l'))
    }

    function Mint(s: Slot, address: string, amount: nat): Result<Book, Error> {
      var l :- Get(s);
      var l' :- l.Mint(address, amount);
      Ok(Put(s, l'))
    }

    function Burn(s: Slot, address: string, amount: nat): Result<Book, Error> {
      var l :- Get(s);
      var l' :- l.Burn(address, amount);
      Ok(Put(s, l'))
    }

    /** `assets.mint`: creates the tick first. */
    function Deposit(address: string, tick: string, amount: nat, kind: AssetKind): Result<Book, Error> {
      TryCreate(tick).Mint(Slot(kind, tick), address, amount)
    }

    /** `assets.transfer`, and with `from == to` also `assets.convert`. */
    function Move(tick: string, from: string, to: string, amount: nat, fromKind: AssetKind, toKind: AssetKind)
      : Result<Book, Error>
    {
      var b :- Burn(Slot(fromKind, tick), from, amount);
      b.Mint(Slot(toKind, tick), to, amount)
    }

    /** `assets.swap` */
    function SwapTicks(address: string, tickIn: string, tickOut: string, amountIn: nat, amountOut: nat)
      : Result<Book, Error>
    {
      var pair := PairStr(tickIn, tickOut);
      var b :- Transfer(Slot(Swap, tickIn), address, pair, amountIn);
      b.Transfer(Slot(Swap, tickOut), pair, address, amountOut)
    }

    // Totals in which a missing ledger counts as empty.

    function BalanceIn(s: Slot, address: string): nat {
      if s in ledgers then ledgers[s].BalanceOf(address) else 0
    }

    function SupplyIn(s: Slot): nat {
      if s in ledgers then ledgers[s].supply else 0
    }

    /** Everything that exists of a tick: all addresses, all asset kinds. */
    function Total(tick: string): nat {
      SupplyIn(Slot(Swap, tick)) + SupplyIn(Slot(PendingSwap, tick)) +
      SupplyIn(Slot(Available, tick)) + SupplyIn(Slot(PendingAvailable, tick)) +
      SupplyIn(Slot(Approve, tick)) + SupplyIn(Slot(ConditionalApprove, tick))
    }
  }

  /** What an account holds less what it held, as the only changes of a book. */
  ghost predicate Moved(b: Book, b': Book, s: Slot, from: string, to: string, amount: int) {
    && b'.Valid() && b'.kinds == b.kinds && b'.ledgers.Keys == b.ledgers.Keys
    && (forall t :: b'.SupplyIn(t) == b.SupplyIn(t))
    && forall t, a :: b'.BalanceIn(t, a) == b.BalanceIn(t, a)
                                            + (if t == s && a == to then amount else 0)
                                            - (if t == s && a == from then amount else 0)
  }

  ghost predicate Issued(b: Book, b': Book, s: Slot, address: string, amount: int) {
    && b'.Valid() && b'.kinds == b.kinds && b'.ledgers.Keys == b.ledgers.Keys
    && (forall t :: b'.SupplyIn(t) == b.SupplyIn(t) + (if t == s then amount else 0))
    && forall t, a :: b'.BalanceIn(t, a) == b.BalanceIn(t, a) + (if t == s && a == address then amount else 0)
  }

  lemma TransferMoves(b: Book, s: Slot, from: string, to: string, amount: nat)
    requires b.Valid() && b.Transfer(s, from, to, amount).Ok?
    ensures Moved(b, b.Transfer(s, from, to, amount).value, s, from, to, amount)
    ensures amount > 0 && amount <= b.BalanceIn(s, from)
  {
    TransferEffect(b.ledgers[s], from, to, amount);
  }

  lemma MintIssues(b: Book, s: Slot, address: string, amount: nat)
    requires b.Valid() && b.Mint(s, address, amount).Ok?
    ensures Issued(b, b.Mint(s, address, amount).value, s, address, amount)
    ensures amount > 0
  {
    MintEffect(b.ledgers[s], address, amount);
  }

  lemma BurnIssues(b: Book, s: Slot, address: string, amount: nat)
    requires b.Valid() && b.Burn(s, address, amount).Ok?
    ensures Issued(b, b.Burn(s, address, amount).value, s, address, -(amount as int))
    ensures 0 < amount <= b.BalanceIn(s, address)
  {
    BurnEffect(b.ledgers[s], address, amount);
  }

  lemma TryCreateKeeps(b: Book, tick: string)
    requires b.Valid()
    ensures var b' := b.TryCreate(tick);
            && b'.Valid() && b'.kinds == b.kinds
            && (forall t :: b'.SupplyIn(t) == b.SupplyIn(t))
            && (forall t, a :: b'.BalanceIn(t, a) == b.BalanceIn(t, a))
            && b'.ledgers.Keys == b.ledgers.Keys + set k | k in b.kinds :: Slot(k, tick)
  {
    assert Ledger(map[], 0).Valid();
  }

  lemma IssueChangesTotal(b: Book, b': Book, s: Slot, address: string, amount: int, tick: string)
    requires Issued(b, b', s, address, amount)
    ensures b'.Total(tick) == b.Total(tick) + (if s.tick == tick then amount else 0)
  {
    match s.kind
    case Swap =>
    case PendingSwap =>
    case Available =>
    case PendingAvailable =>
    case Approve =>
    case ConditionalApprove =>
  }

  /** `convert` and `transfer` between asset kinds: one account of one kind loses
      what one account of another gains, and every tick's total is unchanged. */
  lemma MoveConserves(b: Book, tick: string, from: string, to: string, amount: nat, fk: AssetKind, tk: AssetKind)
    requires b.Valid() && b.Move(tick, from, to, amount, fk, tk).Ok?
    ensures var b' := b.Move(tick, from, to, amount, fk, tk).value;
            && b'.Valid() && b'.kinds == b.kinds && b'.ledgers.Keys == b.ledgers.Keys
            && (forall t :: b'.Total(t) == b.Total(t))
            && (forall s, a :: b'.BalanceIn(s, a) == b.BalanceIn(s, a)
                                                     + (if s == Slot(tk, tick) && a == to then amount else 0)
                                                     - (if s == Slot(fk, tick) && a == from then amount else 0))
  {
    var b1 := b.Burn(Slot(fk, tick), from, amount).value;
    BurnIssues(b, Slot(fk, tick), from, amount);
    MintIssues(b1, Slot(tk, tick), to, amount);
    var b2 := b1.Mint(Slot(tk, tick), to, amount).value;
    forall t
      ensures b2.Total(t) == b.Total(t)
    {
      IssueChangesTotal(b, b1, Slot(fk, tick), from, -(amount as int), t);
      IssueChangesTotal(b1, b2, Slot(tk, tick), to, amount, t);
    }
  }
}
