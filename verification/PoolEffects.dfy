/** What one successful call of the contract does to a pool, and to every other pool. */
module PoolEffects {
  import opened Wrappers
  import opened Arithmetic
  import opened BigNum
  import opened ContractUtils
  import opened Ledgers
  import opened Books
  import opened PoolMath
  import opened ContractSpec

  /** One pool as it appears in the ledgers: reserves, share supply, shares locked
      forever, and the recorded k. */
  datatype Pool = Pool(reserve0: nat, reserve1: nat, supply: nat, locked: nat, kLast: nat) {
    function K(): nat {
      reserve0 * reserve1
    }

    /** The protocol fee that the next liquidity event mints. */
    function FeeDue(): nat {
      if kLast > 0 && Sqrt(K()) > Sqrt(kLast) then Fee(supply, Sqrt(K()), Sqrt(kLast)) else 0
    }
  }

  function ViewOf(w: World, tick0: string, tick1: string): Pool {
    var pair := PairStr(tick0, tick1);
    Pool(w.book.BalanceIn(Slot(Swap, tick0), pair), w.book.BalanceIn(Slot(Swap, tick1), pair),
         w.book.SupplyIn(Slot(Swap, pair)), w.book.BalanceIn(Slot(Swap, pair), LOCK), w.KLast(pair))
  }

  /** An address that can sign calls: neither a pool's account nor the lock. */
  predicate User(address: string) {
    !PairShaped(address) && address != LOCK
  }

  /** Two plain ticks in the order in which a pool stores them. */
  predicate PoolTicks(tick0: string, tick1: string) {
    Plain(tick0) && Plain(tick1) && StrLess(tick0, tick1)
  }

  /** A call left the pool with pair string `q` alone, up to gifts to its accounts. */
  ghost predicate Quiet(w: World, w': World, q: string) {
    && (forall s :: w'.book.BalanceIn(s, q) >= w.book.BalanceIn(s, q))
    && w'.book.BalanceIn(Slot(Swap, q), LOCK) >= w.book.BalanceIn(Slot(Swap, q), LOCK)
    && w'.book.SupplyIn(Slot(Swap, q)) == w.book.SupplyIn(Slot(Swap, q))
    && w'.KLast(q) == w.KLast(q)
  }

  // ---- protocol fee

  /** The fee mint of a liquidity event issues exactly `FeeDue` shares to the fee
      address, and nothing else happens. */
  lemma {:induction false} MintFeeEffect(w: World, cfg: Config, tick0: string, tick1: string)
    requires w.book.Valid() && MintFee(w, cfg, tick0, tick1).Ok?
    ensures var w' := MintFee(w, cfg, tick0, tick1).value;
            var fee := ViewOf(w, tick0, tick1).FeeDue();
            && w'.kLast == w.kLast
            && GetFeeLp(w, tick0, tick1) == Ok(fee)
            && Issued(w.book, w'.book, Slot(Swap, PairStr(tick0, tick1)), cfg.feeTo, fee)
  {
    var pair := Slot(Swap, PairStr(tick0, tick1));
    var fee := GetFeeLp(w, tick0, tick1).value;
    FeeIsDue(w, tick0, tick1);
    if fee > 0 {
      MintIssues(w.book, pair, cfg.feeTo, fee);
    }
  }

  lemma FeeIsDue(w: World, tick0: string, tick1: string)
    requires GetFeeLp(w, tick0, tick1).Ok?
    ensures GetFeeLp(w, tick0, tick1).value == ViewOf(w, tick0, tick1).FeeDue()
  {
  }

  // ---- adding liquidity

  /** Both deposits moved from the caller to the pool. */
  ghost predicate TakenIn(b: Book, b': Book, p: AddLiqIn, amount0: nat, amount1: nat) {
    var pair := PairStr(p.tick0, p.tick1);
    && b'.Valid() && b'.kinds == b.kinds && b'.ledgers.Keys == b.ledgers.Keys
    && (forall s :: b'.SupplyIn(s) == b.SupplyIn(s))
    && forall s, a :: b'.BalanceIn(s, a) == b.BalanceIn(s, a)
         + (if s == Slot(Swap, p.tick0) && a == pair then amount0 else 0)
         - (if s == Slot(Swap, p.tick0) && a == p.address then amount0 else 0)
         + (if s == Slot(Swap, p.tick1) && a == pair then amount1 else 0)
         - (if s == Slot(Swap, p.tick1) && a == p.address then amount1 else 0)
  }

  lemma TakeInEffect(b: Book, p: AddLiqIn, amount0: nat, amount1: nat)
    requires b.Valid() && TakeIn(b, p, amount0, amount1).Ok?
    ensures TakenIn(b, TakeIn(b, p, amount0, amount1).value, p, amount0, amount1)
    ensures amount0 > 0 && amount1 > 0
  {
    var pair := PairStr(p.tick0, p.tick1);
    var b1 := b.Transfer(Slot(Swap, p.tick0), p.address, pair, amount0).value;
    TransferMoves(b, Slot(Swap, p.tick0), p.address, pair, amount0);
    TransferMoves(b1, Slot(Swap, p.tick1), p.address, pair, amount1);
  }

  /** The complete change of the books by one `addLiq`. */
  ghost predicate Added(b: Book, b': Book, cfg: Config, p: AddLiqIn, out: AddLiqOut, fee: nat, lock: nat) {
    var pair := PairStr(p.tick0, p.tick1);
    && b'.Valid() && b'.kinds == b.kinds && b'.ledgers.Keys == b.ledgers.Keys
    && (forall s :: b'.SupplyIn(s) == b.SupplyIn(s) + (if s == Slot(Swap, pair) then fee + lock + out.lp else 0))
    && (forall s, a :: b'.BalanceIn(s, a) == b.BalanceIn(s, a)
          + (if s == Slot(Swap, p.tick0) && a == pair then out.amount0 else 0)
          - (if s == Slot(Swap, p.tick0) && a == p.address then out.amount0 else 0)
          + (if s == Slot(Swap, p.tick1) && a == pair then out.amount1 else 0)
          - (if s == Slot(Swap, p.tick1) && a == p.address then out.amount1 else 0)
          + (if s == Slot(Swap, pair) && a == p.address then out.lp else 0)
          + (if s == Slot(Swap, pair) && a == LOCK then lock else 0)
          + (if s == Slot(Swap, pair) && a == cfg.feeTo then fee else 0))
  }

  /** `kLast` of the pool is the product of its reserves, and no other entry moved. */
  ghost predicate Recorded(w: World, w': World, tick0: string, tick1: string) {
    var pair := PairStr(tick0, tick1);
    w'.kLast == w.kLast[pair := w'.book.BalanceIn(Slot(Swap, tick0), pair) * w'.book.BalanceIn(Slot(Swap, tick1), pair)]
  }

  /** The ledger operations of a first deposit, and what it reports. */
  ghost predicate FirstDeposit(w: World, p: AddLiqIn, w': World, out: AddLiqOut) {
    var pair := Slot(Swap, PairStr(p.tick0, p.tick1));
    && out.lp + MINIMUM_LIQUIDITY == Sqrt(p.amount0 * p.amount1)
    && out.amount0 == p.amount0 && out.amount1 == p.amount1
    && w.book.Mint(pair, p.address, out.lp).Ok?
    && var b1 := w.book.Mint(pair, p.address, out.lp).value;
    && b1.Mint(pair, LOCK, MINIMUM_LIQUIDITY).Ok?
    && TakeIn(b1.Mint(pair, LOCK, MINIMUM_LIQUIDITY).value, p, p.amount0, p.amount1) == Ok(w'.book)
    && Recorded(w, w', p.tick0, p.tick1)
  }

  lemma AddFirstShape(w: World, p: AddLiqIn)
    requires AddLiqFirst(w, p).Ok?
    ensures FirstDeposit(w, p, AddLiqFirst(w, p).value.0, AddLiqFirst(w, p).value.1)
  {
    hide Sqrt, PairStr, Book.Mint, Book.Transfer, LeastAccepted;
  }

  /** The first deposit mints the floored geometric mean, of which 1000 shares are
      locked, and takes both amounts in full. */
  lemma {:induction false} FirstDepositEffect(w: World, cfg: Config, p: AddLiqIn, w': World, out: AddLiqOut)
    requires w.book.Valid() && FirstDeposit(w, p, w', out)
    ensures 0 < out.lp && 0 < out.amount0 && 0 < out.amount1
    ensures out.amount0 == p.amount0 && out.amount1 == p.amount1
    ensures out.lp + MINIMUM_LIQUIDITY == Sqrt(p.amount0 * p.amount1)
    ensures Recorded(w, w', p.tick0, p.tick1)
    ensures Added(w.book, w'.book, cfg, p, out, 0, MINIMUM_LIQUIDITY)
  {
    var pair := Slot(Swap, PairStr(p.tick0, p.tick1));
    var b1 := w.book.Mint(pair, p.address, out.lp).value;
    MintIssues(w.book, pair, p.address, out.lp);
    var b2 := b1.Mint(pair, LOCK, MINIMUM_LIQUIDITY).value;
    MintIssues(b1, pair, LOCK, MINIMUM_LIQUIDITY);
    TakeInEffect(b2, p, p.amount0, p.amount1);
    ComposeAdd(w.book, b1, b2, w'.book, cfg, p, out, MINIMUM_LIQUIDITY);
  }

  lemma ComposeAdd(b: Book, b1: Book, b2: Book, b': Book, cfg: Config, p: AddLiqIn, out: AddLiqOut, lock: nat)
    requires Issued(b, b1, Slot(Swap, PairStr(p.tick0, p.tick1)), p.address, out.lp)
    requires Issued(b1, b2, Slot(Swap, PairStr(p.tick0, p.tick1)), LOCK, lock)
    requires TakenIn(b2, b', p, out.amount0, out.amount1)
    ensures Added(b, b', cfg, p, out, 0, lock)
  {
  }

  /** The trimmed deposits never exceed what was offered. */
  lemma AdjustBounds(amount0: nat, amount1: nat, reserve0: nat, reserve1: nat)
    requires Adjust(amount0, amount1, reserve0, reserve1).Ok?
    ensures reserve0 > 0
    ensures var (a0, a1) := Adjust(amount0, amount1, reserve0, reserve1).value;
            a0 <= amount0 && a1 <= amount1 && (a0 == amount0 || a1 == amount1)
  {
    var full := Quotient(amount0 * reserve1, reserve0);
    if full > amount1 {
      // amount1 < full, so amount1 * reserve0 < amount0 * reserve1
      MulMonotone(amount1, full, reserve0);
      FloorAtMost(amount1 * reserve0, reserve1, amount0);
    }
  }

  /** The deposits trimmed to the ratio of the reserves. */
  function Trimmed(amount0: nat, amount1: nat, reserve0: nat, reserve1: nat): (nat, nat)
    requires reserve0 > 0 && reserve1 > 0
  {
    var matching := Quotient(amount0 * reserve1, reserve0);
    if matching <= amount1 then (amount0, matching) else (Quotient(amount1 * reserve0, reserve1), amount1)
  }

  /** The ledger operations of a later deposit, and what it reports. */
  ghost predicate NextDeposit(w: World, p: AddLiqIn, w': World, out: AddLiqOut) {
    var v := ViewOf(w, p.tick0, p.tick1);
    var pair := Slot(Swap, PairStr(p.tick0, p.tick1));
    && Adjust(p.amount0, p.amount1, v.reserve0, v.reserve1) == Ok((out.amount0, out.amount1))
    && v.reserve0 > 0 && v.reserve1 > 0
    && out.lp == SmallerShare(v, out.amount0, out.amount1)
    && w.book.Mint(pair, p.address, out.lp).Ok?
    && TakeIn(w.book.Mint(pair, p.address, out.lp).value, p, out.amount0, out.amount1) == Ok(w'.book)
    && Recorded(w, w', p.tick0, p.tick1)
  }

  /** The smaller of the two proportional shares of a deposit. */
  function SmallerShare(v: Pool, amount0: nat, amount1: nat): nat
    requires v.reserve0 > 0 && v.reserve1 > 0
  {
    var lp0 := Quotient(amount0 * v.supply, v.reserve0);
    var lp1 := Quotient(amount1 * v.supply, v.reserve1);
    if lp0 < lp1 then lp0 else lp1
  }

  lemma {:induction false} AddNextShape(w: World, p: AddLiqIn)
    requires AddLiqNext(w, p).Ok?
    ensures NextDeposit(w, p, AddLiqNext(w, p).value.0, AddLiqNext(w, p).value.1)
  {
  }

  /** A later deposit takes at most what is offered, in the pool's ratio. */
  lemma {:induction false} NextDepositEffect(w: World, cfg: Config, p: AddLiqIn, w': World, out: AddLiqOut)
    requires w.book.Valid() && NextDeposit(w, p, w', out)
    ensures Added(w.book, w'.book, cfg, p, out, 0, 0)
    ensures 0 < out.amount0 <= p.amount0 && 0 < out.amount1 <= p.amount1 && 0 < out.lp
    ensures out.amount0 == p.amount0 || out.amount1 == p.amount1
    ensures Proportional(ViewOf(w, p.tick0, p.tick1), p, out)
    ensures Recorded(w, w', p.tick0, p.tick1)
  {
    var v := ViewOf(w, p.tick0, p.tick1);
    var pair := Slot(Swap, PairStr(p.tick0, p.tick1));
    AdjustBounds(p.amount0, p.amount1, v.reserve0, v.reserve1);
    var b1 := w.book.Mint(pair, p.address, out.lp).value;
    MintIssues(w.book, pair, p.address, out.lp);
    TakeInEffect(b1, p, out.amount0, out.amount1);
    ComposeAdd(w.book, b1, b1, w'.book, cfg, p, out, 0);
  }

  lemma SortedAdd(p: AddLiqIn)
    requires Plain(p.tick0) && Plain(p.tick1) && p.tick0 != p.tick1
    ensures PoolTicks(SortAdd(p).tick0, SortAdd(p).tick1)
    ensures PairStr(SortAdd(p).tick0, SortAdd(p).tick1) == PairStr(p.tick0, p.tick1)
    ensures SortAdd(p).address == p.address
  {
    StrLessTotal(p.tick0, p.tick1);
  }

  /** What the fee mint leaves of the pool: the same reserves, more shares. */
  lemma AfterFee(w: World, cfg: Config, tick0: string, tick1: string)
    requires w.book.Valid() && PoolTicks(tick0, tick1) && MintFee(w, cfg, tick0, tick1).Ok?
    ensures var v := ViewOf(w, tick0, tick1);
            ViewOf(MintFee(w, cfg, tick0, tick1).value, tick0, tick1) ==
            v.(supply := v.supply + v.FeeDue(), locked := v.locked + (if cfg.feeTo == LOCK then v.FeeDue() else 0))
  {
    PairRoundTrip(tick0, tick1);
    MintFeeEffect(w, cfg, tick0, tick1);
  }

  lemma NoFeeWithoutSupply(v: Pool)
    requires v.supply == 0
    ensures v.FeeDue() == 0
  {
    if Sqrt(v.K()) > Sqrt(v.kLast) {
      NoFeeOnNothing(Sqrt(v.K()), Sqrt(v.kLast));
    }
  }

  /** The pool after a deposit, in terms of the pool before it. */
  ghost predicate Deposited(v: Pool, v': Pool, out: AddLiqOut, lock: nat) {
    && v'.reserve0 == v.reserve0 + out.amount0 && v'.reserve1 == v.reserve1 + out.amount1
    && v'.supply == v.supply + v.FeeDue() + lock + out.lp
    && v'.locked >= v.locked + lock
    && v'.kLast == v'.K()
  }

  /** `addLiq` in full. Both branches take at most what the caller offers. The first
      deposit locks 1000 shares and hands out the rest of the floored geometric mean;
      a later one first pays the protocol fee, and then mints the smaller of the two
      shares of the enlarged supply. */
  ghost predicate LiquidityAdded(w: World, w': World, cfg: Config, p: AddLiqIn, out: AddLiqOut) {
    var v := ViewOf(w, p.tick0, p.tick1);
    var v' := ViewOf(w', p.tick0, p.tick1);
    var lock := if v.supply == 0 then MINIMUM_LIQUIDITY else 0;
    && Deposited(v, v', out, lock)
    && 0 < out.amount0 <= p.amount0 && 0 < out.amount1 <= p.amount1 && 0 < out.lp
    && (out.amount0 == p.amount0 || out.amount1 == p.amount1)
    && (v.supply == 0 ==> out.lp + MINIMUM_LIQUIDITY == Sqrt(out.amount0 * out.amount1))
    && (v.supply > 0 ==> Proportional(v.(supply := v.supply + v.FeeDue()), p, out))
    && Recorded(w, w', p.tick0, p.tick1)
    && Added(w.book, w'.book, cfg, p, out, v.FeeDue(), lock)
  }

  /** The deposits are trimmed to the reserves, and the shares are the smaller part of the supply. */
  ghost predicate Proportional(v: Pool, p: AddLiqIn, out: AddLiqOut) {
    && v.reserve0 > 0 && v.reserve1 > 0
    && (out.amount0, out.amount1) == Trimmed(p.amount0, p.amount1, v.reserve0, v.reserve1)
    && out.lp == SmallerShare(v, out.amount0, out.amount1)
  }

  lemma {:induction false} AddLiqEffect(w: World, cfg: Config, unsorted: AddLiqIn)
    requires w.book.Valid() && AddLiq(w, cfg, unsorted).Ok?
    requires Plain(unsorted.tick0) && Plain(unsorted.tick1) && unsorted.tick0 != unsorted.tick1
    requires !PairShaped(unsorted.address)
    ensures LiquidityAdded(w, AddLiq(w, cfg, unsorted).value.0, cfg, SortAdd(unsorted),
                           AddLiq(w, cfg, unsorted).value.1)
  {
    SortedAdd(unsorted);
    AddLiqShape(w, cfg, unsorted);
    var p := SortAdd(unsorted);
    AfterFee(w, cfg, p.tick0, p.tick1);
    MintFeeEffect(w, cfg, p.tick0, p.tick1);
    AfterFeeDeposit(w, MintFee(w, cfg, p.tick0, p.tick1).value, AddLiq(w, cfg, unsorted).value.0, cfg, p,
                    AddLiq(w, cfg, unsorted).value.1);
  }

  lemma NoFeeUnlessSupplied(v: Pool)
    ensures v.supply == 0 ==> v.FeeDue() == 0
  {
    if v.supply == 0 {
      NoFeeWithoutSupply(v);
    }
  }

  lemma {:induction false} AddLiqShape(w: World, cfg: Config, unsorted: AddLiqIn)
    requires AddLiq(w, cfg, unsorted).Ok?
    ensures var p := SortAdd(unsorted);
            && MintFee(w, cfg, p.tick0, p.tick1).Ok?
            && AfterFeeAdd(MintFee(w, cfg, p.tick0, p.tick1).value, p, AddLiq(w, cfg, unsorted).value.0,
                           AddLiq(w, cfg, unsorted).value.1)
  {
    var p := SortAdd(unsorted);
    var w1 := MintFee(w, cfg, p.tick0, p.tick1).value;
    if Supply(w1, PairStr(p.tick0, p.tick1)) == Ok(0) {
      AddFirstShape(w1, p);
    } else {
      AddNextShape(w1, p);
    }
  }

  /** The deposit that follows the fee mint. */
  ghost predicate AfterFeeAdd(w1: World, p: AddLiqIn, w': World, out: AddLiqOut) {
    if ViewOf(w1, p.tick0, p.tick1).supply == 0 then FirstDeposit(w1, p, w', out) else NextDeposit(w1, p, w', out)
  }

  lemma {:induction false} AfterFeeDeposit(w: World, w1: World, w': World, cfg: Config, p: AddLiqIn, out: AddLiqOut)
    requires PoolTicks(p.tick0, p.tick1) && !PairShaped(p.address)
    requires w1.book.Valid()
    requires Issued(w.book, w1.book, Slot(Swap, PairStr(p.tick0, p.tick1)), cfg.feeTo,
                    ViewOf(w, p.tick0, p.tick1).FeeDue())
    requires w1.kLast == w.kLast
    requires AfterFeeAdd(w1, p, w', out)
    requires var v := ViewOf(w, p.tick0, p.tick1);
             ViewOf(w1, p.tick0, p.tick1).(locked := v.locked) == v.(supply := v.supply + v.FeeDue())
    ensures LiquidityAdded(w, w', cfg, p, out)
  {
    hide FirstDeposit, NextDeposit;
    var fee := ViewOf(w, p.tick0, p.tick1).FeeDue();
    NoFeeUnlessSupplied(ViewOf(w, p.tick0, p.tick1));
    if ViewOf(w1, p.tick0, p.tick1).supply == 0 {
      FirstDepositEffect(w1, cfg, p, w', out);
      ComposeFee(w.book, w1.book, w'.book, cfg, p, out, fee, MINIMUM_LIQUIDITY);
      DepositView(w, w', cfg, p, out, MINIMUM_LIQUIDITY);
    } else {
      NextDepositEffect(w1, cfg, p, w', out);
      ComposeFee(w.book, w1.book, w'.book, cfg, p, out, fee, 0);
      DepositView(w, w', cfg, p, out, 0);
    }
  }

  lemma ComposeFee(b: Book, b1: Book, b': Book, cfg: Config, p: AddLiqIn, out: AddLiqOut, fee: nat, lock: nat)
    requires Issued(b, b1, Slot(Swap, PairStr(p.tick0, p.tick1)), cfg.feeTo, fee)
    requires Added(b1, b', cfg, p, out, 0, lock)
    ensures Added(b, b', cfg, p, out, fee, lock)
  {
  }

  lemma DepositView(w: World, w': World, cfg: Config, p: AddLiqIn, out: AddLiqOut, lock: nat)
    requires PoolTicks(p.tick0, p.tick1) && !PairShaped(p.address)
    requires Added(w.book, w'.book, cfg, p, out, ViewOf(w, p.tick0, p.tick1).FeeDue(), lock)
    requires Recorded(w, w', p.tick0, p.tick1)
    ensures Deposited(ViewOf(w, p.tick0, p.tick1), ViewOf(w', p.tick0, p.tick1), out, lock)
  {
    PairRoundTrip(p.tick0, p.tick1);
    StrLessTotal(p.tick0, p.tick1);
  }

  // ---- removing liquidity

  /** The ledger operations of a withdrawal, after the fee mint. */
  ghost predicate Withdrawal(w1: World, p: RemoveLiqIn, w': World, out: RemoveLiqOut) {
    var v := ViewOf(w1, p.tick0, p.tick1);
    var pair := PairStr(p.tick0, p.tick1);
    && v.supply > 0
    && out.tick0 == p.tick0 && out.tick1 == p.tick1
    && out.amount0 == Quotient(p.lp * v.reserve0, v.supply)
    && out.amount1 == Quotient(p.lp * v.reserve1, v.supply)
    && w1.book.Burn(Slot(Swap, pair), p.address, p.lp).Ok?
    && var b1 := w1.book.Burn(Slot(Swap, pair), p.address, p.lp).value;
    && b1.Transfer(Slot(Swap, p.tick0), pair, p.address, out.amount0).Ok?
    && var b2 := b1.Transfer(Slot(Swap, p.tick0), pair, p.address, out.amount0).value;
    && b2.Transfer(Slot(Swap, p.tick1), pair, p.address, out.amount1) == Ok(w'.book)
    && Recorded(w1, w', p.tick0, p.tick1)
  }

  lemma {:induction false} RemoveLiqShape(w: World, cfg: Config, unsorted: RemoveLiqIn)
    requires RemoveLiq(w, cfg, unsorted).Ok?
    ensures var p := SortRemove(unsorted);
            && MintFee(w, cfg, p.tick0, p.tick1).Ok?
            && Withdrawal(MintFee(w, cfg, p.tick0, p.tick1).value, p,
                          RemoveLiq(w, cfg, unsorted).value.0, RemoveLiq(w, cfg, unsorted).value.1)
            && RemoveLiq(w, cfg, unsorted).value.0.book.IsExist(PairStr(p.tick0, p.tick1))
  {
  }

  /** The complete change of the books by one `removeLiq`. */
  ghost predicate Removed(b: Book, b': Book, cfg: Config, p: RemoveLiqIn, out: RemoveLiqOut, fee: nat) {
    var pair := PairStr(p.tick0, p.tick1);
    && b'.Valid() && b'.kinds == b.kinds && b'.ledgers.Keys == b.ledgers.Keys
    && (forall s :: b'.SupplyIn(s) == b.SupplyIn(s) + (if s == Slot(Swap, pair) then fee - p.lp else 0))
    && (forall s, a :: b'.BalanceIn(s, a) == b.BalanceIn(s, a)
          - (if s == Slot(Swap, p.tick0) && a == pair then out.amount0 else 0)
          + (if s == Slot(Swap, p.tick0) && a == p.address then out.amount0 else 0)
          - (if s == Slot(Swap, p.tick1) && a == pair then out.amount1 else 0)
          + (if s == Slot(Swap, p.tick1) && a == p.address then out.amount1 else 0)
          - (if s == Slot(Swap, pair) && a == p.address then p.lp else 0)
          + (if s == Slot(Swap, pair) && a == cfg.feeTo then fee else 0))
  }

  lemma ComposeRemove(b: Book, b1: Book, b2: Book, b3: Book, b': Book, cfg: Config, p: RemoveLiqIn, out: RemoveLiqOut,
                      fee: nat)
    requires Issued(b, b1, Slot(Swap, PairStr(p.tick0, p.tick1)), cfg.feeTo, fee)
    requires Issued(b1, b2, Slot(Swap, PairStr(p.tick0, p.tick1)), p.address, -(p.lp as int))
    requires Moved(b2, b3, Slot(Swap, p.tick0), PairStr(p.tick0, p.tick1), p.address, out.amount0)
    requires Moved(b3, b', Slot(Swap, p.tick1), PairStr(p.tick0, p.tick1), p.address, out.amount1)
    ensures Removed(b, b', cfg, p, out, fee)
  {
  }

  /** `removeLiq` in full: after the protocol fee, the caller burns `lp` shares, which
      it holds and which are never the locked ones, and receives the floored
      proportional part of each reserve. */
  ghost predicate LiquidityRemoved(w: World, w': World, cfg: Config, p: RemoveLiqIn, out: RemoveLiqOut) {
    var v := ViewOf(w, p.tick0, p.tick1);
    var v' := ViewOf(w', p.tick0, p.tick1);
    var supply := v.supply + v.FeeDue();
    && Removed(w.book, w'.book, cfg, p, out, v.FeeDue())
    && Recorded(w, w', p.tick0, p.tick1)
    && 0 < p.lp && p.lp + v.locked <= supply
    && out.tick0 == p.tick0 && out.tick1 == p.tick1
    && 0 < out.amount0 && 0 < out.amount1
    && out.amount0 == Quotient(p.lp * v.reserve0, supply)
    && out.amount1 == Quotient(p.lp * v.reserve1, supply)
    && v'.reserve0 == v.reserve0 - out.amount0 && v'.reserve1 == v.reserve1 - out.amount1
    && v'.supply == supply - p.lp && v'.locked >= v.locked && v'.kLast == v'.K()
  }

  lemma {:induction false} RemoveLiqEffect(w: World, cfg: Config, unsorted: RemoveLiqIn)
    requires w.book.Valid() && RemoveLiq(w, cfg, unsorted).Ok?
    requires Plain(unsorted.tick0) && Plain(unsorted.tick1) && unsorted.tick0 != unsorted.tick1
    requires User(unsorted.address)
    ensures LiquidityRemoved(w, RemoveLiq(w, cfg, unsorted).value.0, cfg, SortRemove(unsorted),
                             RemoveLiq(w, cfg, unsorted).value.1)
    ensures var w', out := RemoveLiq(w, cfg, unsorted).value.0, RemoveLiq(w, cfg, unsorted).value.1;
            && (out.tick0, out.tick1) == SortTicks(unsorted.tick0, unsorted.tick1)
            && Gains(w.book, w'.book, Slot(Swap, out.tick0), unsorted.address, out.amount0)
            && Gains(w.book, w'.book, Slot(Swap, out.tick1), unsorted.address, out.amount1)
    ensures PoolTicks(SortRemove(unsorted).tick0, SortRemove(unsorted).tick1)
    ensures PairStr(SortRemove(unsorted).tick0, SortRemove(unsorted).tick1) == PairStr(unsorted.tick0, unsorted.tick1)
  {
    StrLessTotal(unsorted.tick0, unsorted.tick1);
    RemoveLiqShape(w, cfg, unsorted);
    var p := SortRemove(unsorted);
    AfterFee(w, cfg, p.tick0, p.tick1);
    MintFeeEffect(w, cfg, p.tick0, p.tick1);
    WithdrawalEffect(w, MintFee(w, cfg, p.tick0, p.tick1).value, RemoveLiq(w, cfg, unsorted).value.0, cfg, p,
                     RemoveLiq(w, cfg, unsorted).value.1);
    PaidOnReportedTicks(w.book, RemoveLiq(w, cfg, unsorted).value.0.book, cfg, p, RemoveLiq(w, cfg, unsorted).value.1,
                        ViewOf(w, p.tick0, p.tick1).FeeDue());
  }

  ghost predicate Gains(b: Book, b': Book, s: Slot, address: string, amount: nat) {
    b'.BalanceIn(s, address) == b.BalanceIn(s, address) + amount
  }

  /** The caller gains each reported amount in the reported tick. */
  lemma PaidOnReportedTicks(b: Book, b': Book, cfg: Config, p: RemoveLiqIn, out: RemoveLiqOut, fee: nat)
    requires PoolTicks(p.tick0, p.tick1) && User(p.address) && Removed(b, b', cfg, p, out, fee)
    requires out.tick0 == p.tick0 && out.tick1 == p.tick1
    ensures Gains(b, b', Slot(Swap, out.tick0), p.address, out.amount0)
    ensures Gains(b, b', Slot(Swap, out.tick1), p.address, out.amount1)
  {
    PairRoundTrip(p.tick0, p.tick1);
    StrLessTotal(p.tick0, p.tick1);
  }

  lemma {:induction false} WithdrawalEffect(w: World, w1: World, w': World, cfg: Config, p: RemoveLiqIn,
                                            out: RemoveLiqOut)
    requires PoolTicks(p.tick0, p.tick1) && User(p.address)
    requires w1.book.Valid() && w1.kLast == w.kLast
    requires var v := ViewOf(w, p.tick0, p.tick1);
             && Issued(w.book, w1.book, Slot(Swap, PairStr(p.tick0, p.tick1)), cfg.feeTo, v.FeeDue())
             && ViewOf(w1, p.tick0, p.tick1).(locked := v.locked) == v.(supply := v.supply + v.FeeDue())
    requires Withdrawal(w1, p, w', out)
    ensures LiquidityRemoved(w, w', cfg, p, out)
  {
    var pair := PairStr(p.tick0, p.tick1);
    var fee := ViewOf(w, p.tick0, p.tick1).FeeDue();
    var b1 := w1.book.Burn(Slot(Swap, pair), p.address, p.lp).value;
    var b2 := b1.Transfer(Slot(Swap, p.tick0), pair, p.address, out.amount0).value;
    BurnIssues(w1.book, Slot(Swap, pair), p.address, p.lp);
    TransferMoves(b1, Slot(Swap, p.tick0), pair, p.address, out.amount0);
    TransferMoves(b2, Slot(Swap, p.tick1), pair, p.address, out.amount1);
    ComposeRemove(w.book, w1.book, b1, b2, w'.book, cfg, p, out, fee);
    TwoHolders(w1.book.ledgers[Slot(Swap, pair)], p.address, LOCK);
    WithdrawalView(w, w', cfg, p, out);
  }

  lemma WithdrawalView(w: World, w': World, cfg: Config, p: RemoveLiqIn, out: RemoveLiqOut)
    requires PoolTicks(p.tick0, p.tick1) && User(p.address)
    requires Removed(w.book, w'.book, cfg, p, out, ViewOf(w, p.tick0, p.tick1).FeeDue())
    requires Recorded(w, w', p.tick0, p.tick1)
    ensures var v := ViewOf(w, p.tick0, p.tick1);
            var v' := ViewOf(w', p.tick0, p.tick1);
            && v'.reserve0 == v.reserve0 - out.amount0 && v'.reserve1 == v.reserve1 - out.amount1
            && v'.supply == v.supply + v.FeeDue() - p.lp && v'.locked >= v.locked && v'.kLast == v'.K()
  {
    PairRoundTrip(p.tick0, p.tick1);
    StrLessTotal(p.tick0, p.tick1);
  }

  // ---- swaps

  /** `getAmountOut` and `getAmountIn` fail or price exactly as on the curve. */
  lemma {:induction false} PricesAreOnCurve(cfg: Config, p: SwapIn, reserveIn: nat, reserveOut: nat)
    requires SwapAmounts(cfg, p, reserveIn, reserveOut).Ok?
    ensures reserveIn > 0 && reserveOut > 0 && cfg.swapFeeRate1000 <= 1000
    ensures var (amountIn, amountOut) := SwapAmounts(cfg, p, reserveIn, reserveOut).value;
            && amountIn > 0
            && OnCurve(reserveIn, reserveOut, 1000 - cfg.swapFeeRate1000, amountIn, amountOut)
            && (p.exactType.ExactIn? ==>
                  && amountIn == p.amount
                  && amountOut == OutFor(reserveIn, reserveOut, 1000 - cfg.swapFeeRate1000, p.amount))
            && (p.exactType.ExactOut? ==>
                  && amountOut == p.amount < reserveOut && cfg.swapFeeRate1000 < 1000
                  && amountIn == InFor(reserveIn, reserveOut, 1000 - cfg.swapFeeRate1000, p.amount))
  {
    var (amountIn, amountOut) := SwapAmounts(cfg, p, reserveIn, reserveOut).value;
    var g := 1000 - cfg.swapFeeRate1000;
    match p.exactType
    case ExactIn =>
      OutIsLargest(reserveIn, reserveOut, g, amountIn, amountOut);
    case ExactOut =>
      PositiveFactors(reserveOut - amountOut, g);
      InIsLeast(reserveIn, reserveOut, g, amountOut, amountIn);
      OutIsLargest(reserveIn, reserveOut, g, amountIn, amountOut);
  }

  lemma PositiveFactors(a: nat, b: nat)
    requires a * b > 0
    ensures a > 0 && b > 0
  {
  }

  /** A swap in full: the amounts move between the caller and the pool's two
      accounts, on the curve of the reserves before it, and nothing else changes. */
  ghost predicate Swapped(w: World, w': World, cfg: Config, p: SwapIn, amountIn: nat, amountOut: nat) {
    var pair := PairStr(p.tickIn, p.tickOut);
    var g := 1000 - cfg.swapFeeRate1000;
    && w'.kLast == w.kLast
    && w'.book.Valid() && w'.book.kinds == w.book.kinds && w'.book.ledgers.Keys == w.book.ledgers.Keys
    && (forall s :: w'.book.SupplyIn(s) == w.book.SupplyIn(s))
    && (forall s, a :: w'.book.BalanceIn(s, a) == w.book.BalanceIn(s, a)
          + (if s == Slot(Swap, p.tickIn) && a == pair then amountIn else 0)
          - (if s == Slot(Swap, p.tickIn) && a == p.address then amountIn else 0)
          - (if s == Slot(Swap, p.tickOut) && a == pair then amountOut else 0)
          + (if s == Slot(Swap, p.tickOut) && a == p.address then amountOut else 0))
    && amountIn > 0 && amountOut > 0 && cfg.swapFeeRate1000 <= 1000
    && OnCurve(w.book.BalanceIn(Slot(Swap, p.tickIn), pair), w.book.BalanceIn(Slot(Swap, p.tickOut), pair),
               g, amountIn, amountOut)
  }

  lemma {:induction false} SwapShape(w: World, cfg: Config, p: SwapIn)
    requires SwapTokens(w, cfg, p).Ok?
    ensures var pair := PairStr(p.tickIn, p.tickOut);
            var amounts := SwapAmounts(cfg, p, w.book.BalanceIn(Slot(Swap, p.tickIn), pair),
                                       w.book.BalanceIn(Slot(Swap, p.tickOut), pair));
            && amounts.Ok?
            && var (amountIn, amountOut) := amounts.value;
            && SwapTokens(w, cfg, p).value.1 == (if p.exactType.ExactIn? then amountOut else amountIn)
            && SwapTokens(w, cfg, p).value.0.kLast == w.kLast
            && w.book.Transfer(Slot(Swap, p.tickIn), p.address, pair, amountIn).Ok?
            && w.book.Transfer(Slot(Swap, p.tickIn), p.address, pair, amountIn).value
               .Transfer(Slot(Swap, p.tickOut), pair, p.address, amountOut) == Ok(SwapTokens(w, cfg, p).value.0.book)
  {
  }

  /** The swap reports the amount that the caller did not fix. */
  lemma {:induction false} SwapEffect(w: World, cfg: Config, p: SwapIn) returns (amountIn: nat, amountOut: nat)
    requires w.book.Valid() && SwapTokens(w, cfg, p).Ok?
    ensures Swapped(w, SwapTokens(w, cfg, p).value.0, cfg, p, amountIn, amountOut)
    ensures p.exactType.ExactIn? ==> amountIn == p.amount && SwapTokens(w, cfg, p).value.1 == amountOut
    ensures p.exactType.ExactOut? ==> amountOut == p.amount && SwapTokens(w, cfg, p).value.1 == amountIn
  {
    var pair := PairStr(p.tickIn, p.tickOut);
    SwapShape(w, cfg, p);
    var reserveIn := w.book.BalanceIn(Slot(Swap, p.tickIn), pair);
    var reserveOut := w.book.BalanceIn(Slot(Swap, p.tickOut), pair);
    var amounts := SwapAmounts(cfg, p, reserveIn, reserveOut).value;
    amountIn, amountOut := amounts.0, amounts.1;
    PricesAreOnCurve(cfg, p, reserveIn, reserveOut);
    SwapMoves(w, SwapTokens(w, cfg, p).value.0, cfg, p, amountIn, amountOut);
  }

  lemma SwapMoves(w: World, w': World, cfg: Config, p: SwapIn, amountIn: nat, amountOut: nat)
    requires w.book.Valid() && w'.kLast == w.kLast
    requires var pair := PairStr(p.tickIn, p.tickOut);
             && w.book.Transfer(Slot(Swap, p.tickIn), p.address, pair, amountIn).Ok?
             && w.book.Transfer(Slot(Swap, p.tickIn), p.address, pair, amountIn).value
                .Transfer(Slot(Swap, p.tickOut), pair, p.address, amountOut) == Ok(w'.book)
             && cfg.swapFeeRate1000 <= 1000
             && OnCurve(w.book.BalanceIn(Slot(Swap, p.tickIn), pair), w.book.BalanceIn(Slot(Swap, p.tickOut), pair),
                        1000 - cfg.swapFeeRate1000, amountIn, amountOut)
    ensures Swapped(w, w', cfg, p, amountIn, amountOut)
  {
    var pair := PairStr(p.tickIn, p.tickOut);
    var b1 := w.book.Transfer(Slot(Swap, p.tickIn), p.address, pair, amountIn).value;
    TransferMoves(w.book, Slot(Swap, p.tickIn), p.address, pair, amountIn);
    TransferMoves(b1, Slot(Swap, p.tickOut), pair, p.address, amountOut);
  }

  /** A swap on a pool keeps its shares and its recorded k, and never lowers k. */
  lemma SwapView(w: World, w': World, cfg: Config, p: SwapIn, amountIn: nat, amountOut: nat)
    requires Swapped(w, w', cfg, p, amountIn, amountOut)
    requires Plain(p.tickIn) && Plain(p.tickOut) && p.tickIn != p.tickOut && !PairShaped(p.address)
    ensures var (t0, t1) := SortTicks(p.tickIn, p.tickOut);
            var v := ViewOf(w, t0, t1);
            var v' := ViewOf(w', t0, t1);
            && PoolTicks(t0, t1)
            && v'.K() >= v.K()
            && v' == v.(reserve0 := v'.reserve0, reserve1 := v'.reserve1)
  {
    hide OnCurve;
    var (t0, t1) := SortTicks(p.tickIn, p.tickOut);
    PairRoundTrip(t0, t1);
    StrLessTotal(p.tickIn, p.tickOut);
    PairStrSymmetric(p.tickIn, p.tickOut);
    SwapHoldings(w, w', cfg, p, amountIn, amountOut);
  }

  /** The two holdings that a swap changes, whichever way it goes. */
  lemma {:induction false} SwapHoldings(w: World, w': World, cfg: Config, p: SwapIn, amountIn: nat, amountOut: nat)
    requires Swapped(w, w', cfg, p, amountIn, amountOut) && p.tickIn != p.tickOut && !PairShaped(p.address)
    requires PairShaped(PairStr(p.tickIn, p.tickOut)) && PairStr(p.tickIn, p.tickOut) !in {p.tickIn, p.tickOut}
    ensures var pair := PairStr(p.tickIn, p.tickOut);
            && w'.book.BalanceIn(Slot(Swap, p.tickIn), pair) * w'.book.BalanceIn(Slot(Swap, p.tickOut), pair) >=
               w.book.BalanceIn(Slot(Swap, p.tickIn), pair) * w.book.BalanceIn(Slot(Swap, p.tickOut), pair)
            && w'.book.BalanceIn(Slot(Swap, pair), LOCK) == w.book.BalanceIn(Slot(Swap, pair), LOCK)
  {
    hide OnCurve, PairStr, PairShaped;
    var pair := PairStr(p.tickIn, p.tickOut);
    var reserveIn := w.book.BalanceIn(Slot(Swap, p.tickIn), pair);
    var reserveOut := w.book.BalanceIn(Slot(Swap, p.tickOut), pair);
    CurveKeepsProduct(reserveIn, reserveOut, 1000 - cfg.swapFeeRate1000, amountIn, amountOut);
    assert w'.book.BalanceIn(Slot(Swap, p.tickIn), pair) == reserveIn + amountIn;
    assert w'.book.BalanceIn(Slot(Swap, p.tickOut), pair) == reserveOut - amountOut;
  }
}
