/** What a caller is protected from, and what a caller can count on: the slippage
    bounds of each call, exactly when a swap goes through, and that the order in which
    a pool is named does not matter. */
module PoolTerms {
  import opened Wrappers
  import opened Arithmetic
  import opened BigNum
  import opened ContractUtils
  import opened Ledgers
  import opened Books
  import opened PoolMath
  import opened ContractSpec
  import opened PoolEffects

  // ---- floors in slippage tests

  /** `y` reaches the floor of a quotient. */
  lemma ReachesFloor(y: nat, num: nat, den: nat)
    requires den > 0
    ensures y >= Quotient(num, den) <==> (y + 1) * den > num
  {
    var q := Quotient(num, den);
    if y >= q {
      MulMonotone(q + 1, y + 1, den);
    } else {
      MulMonotone(y + 1, q, den);
    }
  }

  /** `x` stays under the floor of a quotient. */
  lemma StaysUnderFloor(x: nat, num: nat, den: nat)
    requires den > 0
    ensures x <= Quotient(num, den) <==> x * den <= num
  {
    var q := Quotient(num, den);
    if x <= q {
      MulMonotone(x, q, den);
    } else {
      MulMonotone(q + 1, x, den);
    }
  }

  /** The protocol fee is the largest amount of shares that is at most one sixth of the growth of the enlarged
      supply. */
  lemma {:induction false} FeeIsLargest(s: nat, rk: nat, rl: nat, n: nat)
    requires rk > rl
    ensures n <= Fee(s, rk, rl) <==> 6 * rk * n <= (s + n) * (rk - rl)
  {
    hide Quotient;
    StaysUnderFloor(n, s * (rk - rl), rk * 5 + rl);
    assert n * (rk * 5 + rl) == 6 * rk * n - n * (rk - rl);
    assert (s + n) * (rk - rl) == s * (rk - rl) + n * (rk - rl);
  }

  /** At least `expected`, less the slippage, up to the rounding of one unit. */
  predicate NotBelow(amount: nat, expected: nat, slippage1000: nat) {
    slippage1000 <= 1000 && (amount + 1) * 1000 > expected * (1000 - slippage1000)
  }

  lemma LeastAcceptedIs(amount: nat, expected: nat, slippage1000: nat)
    ensures LeastAccepted(expected, slippage1000).Ok? <==> slippage1000 <= 1000
    ensures slippage1000 <= 1000 ==>
              (amount >= LeastAccepted(expected, slippage1000).value <==> NotBelow(amount, expected, slippage1000))
  {
    hide Quotient;
    if slippage1000 <= 1000 {
      ReachesFloor(amount, expected * (1000 - slippage1000), 1000);
    }
  }

  /** An `addLiq` that returns has minted at least what the caller accepts. */
  lemma {:induction false} AddLiqWithinSlippage(w: World, cfg: Config, a: AddLiqIn)
    requires AddLiq(w, cfg, a).Ok?
    ensures var out := AddLiq(w, cfg, a).value.1; out.lp > 0 && NotBelow(out.lp, a.expected, a.slippage1000)
  {
    hide MintFee, TakeIn, FirstShares, QuoteAdd, RecordK, Sqrt, Quotient, LeastAccepted, NotBelow;
    LeastAcceptedIs(AddLiq(w, cfg, a).value.1.lp, a.expected, a.slippage1000);
  }

  /** A `removeLiq` that returns has paid at least what the caller accepts of both. */
  lemma {:induction false} RemoveLiqWithinSlippage(w: World, cfg: Config, r: RemoveLiqIn)
    requires RemoveLiq(w, cfg, r).Ok?
    ensures var p, out := SortRemove(r), RemoveLiq(w, cfg, r).value.1;
            NotBelow(out.amount0, p.amount0, r.slippage1000) && NotBelow(out.amount1, p.amount1, r.slippage1000)
  {
    hide MintFee, PayOut, QuoteRemove, RecordK, Quotient, LeastAccepted, NotBelow;
    var p, out := SortRemove(r), RemoveLiq(w, cfg, r).value.1;
    LeastAcceptedIs(out.amount0, p.amount0, r.slippage1000);
    LeastAcceptedIs(out.amount1, p.amount1, r.slippage1000);
  }

  /** What a swap would move, given the reserves. */
  predicate Affordable(cfg: Config, p: SwapIn, reserveIn: nat, reserveOut: nat, held: nat) {
    && reserveIn > 0 && reserveOut > 0
    && match p.exactType
       case ExactIn =>
         && cfg.swapFeeRate1000 <= 1000 && p.amount <= held
         && var out := OutFor(reserveIn, reserveOut, 1000 - cfg.swapFeeRate1000, p.amount);
         && out > 0 && (out + 1) * (1000 + p.slippage1000) > p.expected * 1000
       case ExactOut =>
         && cfg.swapFeeRate1000 < 1000 && p.amount < reserveOut
         && var paid := InFor(reserveIn, reserveOut, 1000 - cfg.swapFeeRate1000, p.amount);
         && paid <= held && paid * 1000 <= p.expected * (1000 + p.slippage1000)
  }

  lemma {:induction false} AmountsWhenAffordable(cfg: Config, p: SwapIn, reserveIn: nat, reserveOut: nat, held: nat)
    requires p.amount > 0
    ensures Affordable(cfg, p, reserveIn, reserveOut, held) <==>
            var amounts := SwapAmounts(cfg, p, reserveIn, reserveOut);
            amounts.Ok? && amounts.value.0 <= held && amounts.value.1 > 0
  {
    hide Quotient;
    if reserveIn > 0 && reserveOut > 0 && cfg.swapFeeRate1000 <= 1000 {
      var g := 1000 - cfg.swapFeeRate1000;
      match p.exactType
      case ExactIn =>
        ReachesFloor(OutFor(reserveIn, reserveOut, g, p.amount), p.expected * 1000, 1000 + p.slippage1000);
      case ExactOut =>
        if p.amount < reserveOut && g > 0 {
          PositiveProduct(reserveOut - p.amount, g);
          StaysUnderFloor(InFor(reserveIn, reserveOut, g, p.amount), p.expected * (1000 + p.slippage1000), 1000);
        }
    }
  }

  /** A swap goes through exactly when it is well-formed, both ticks and both reserves
      exist, the price is within the slippage, and the caller holds what it costs. */
  lemma {:induction false} SwapSucceeds(w: World, cfg: Config, p: SwapIn)
    ensures SwapTokens(w, cfg, p).Ok? <==>
            var pair := PairStr(p.tickIn, p.tickOut);
            && p.amount > 0 && p.slippage1000 <= 1000
            && w.book.IsExist(p.tickIn) && w.book.IsExist(p.tickOut)
            && Affordable(cfg, p, w.book.BalanceIn(Slot(Swap, p.tickIn), pair),
                          w.book.BalanceIn(Slot(Swap, p.tickOut), pair),
                          w.book.BalanceIn(Slot(Swap, p.tickIn), p.address))
  {
    hide Affordable, SwapAmounts, PairStr;
    var pair := PairStr(p.tickIn, p.tickOut);
    var reserveIn := w.book.BalanceIn(Slot(Swap, p.tickIn), pair);
    var reserveOut := w.book.BalanceIn(Slot(Swap, p.tickOut), pair);
    if p.amount > 0 && w.book.IsExist(p.tickIn) && w.book.IsExist(p.tickOut) {
      AmountsWhenAffordable(cfg, p, reserveIn, reserveOut, w.book.BalanceIn(Slot(Swap, p.tickIn), p.address));
      var amounts := SwapAmounts(cfg, p, reserveIn, reserveOut);
      if amounts.Ok? {
        AmountsFit(cfg, p, reserveIn, reserveOut);
        TransfersFit(w.book, p, pair, amounts.value.0, amounts.value.1);
      }
    }
  }

  lemma {:induction false} AmountsFit(cfg: Config, p: SwapIn, reserveIn: nat, reserveOut: nat)
    requires SwapAmounts(cfg, p, reserveIn, reserveOut).Ok?
    ensures var (paid, got) := SwapAmounts(cfg, p, reserveIn, reserveOut).value; paid > 0 && got < reserveOut
  {
    hide SwapAmounts, Quotient, OnCurve, OutFor, InFor;
    PricesAreOnCurve(cfg, p, reserveIn, reserveOut);
    if p.exactType.ExactIn? {
      OutIsLargest(reserveIn, reserveOut, 1000 - cfg.swapFeeRate1000, p.amount, 0);
    }
  }

  /** Both transfers of a swap go through when the payer holds enough and something
      less than the reserve is paid out. */
  lemma {:induction false} TransfersFit(b: Book, p: SwapIn, pair: string, paid: nat, got: nat)
    requires Slot(Swap, p.tickIn) in b.ledgers && Slot(Swap, p.tickOut) in b.ledgers
    requires paid > 0 && got < b.BalanceIn(Slot(Swap, p.tickOut), pair) && pair == PairStr(p.tickIn, p.tickOut)
    ensures b.SwapTicks(p.address, p.tickIn, p.tickOut, paid, got).Ok? <==>
            paid <= b.BalanceIn(Slot(Swap, p.tickIn), p.address) && got > 0
  {
    hide PairStr;
  }

  // ---- when liquidity can be added and taken out

  lemma {:induction false} OperationsSucceed(b: Book, s: Slot, from: string, to: string, amount: nat)
    requires b.Valid()
    ensures b.Transfer(s, from, to, amount).Ok? <==> s in b.ledgers && 0 < amount <= b.BalanceIn(s, from)
    ensures b.Mint(s, from, amount).Ok? <==> s in b.ledgers && amount > 0
    ensures b.Burn(s, from, amount).Ok? <==> s in b.ledgers && 0 < amount <= b.BalanceIn(s, from)
  {
    if s in b.ledgers {
      BurnEffect(b.ledgers[s], from, amount);
    }
  }

  lemma {:induction false} FeeSucceeds(w: World, cfg: Config, tick0: string, tick1: string)
    requires w.book.Valid() && w.book.IsExist(PairStr(tick0, tick1))
    ensures MintFee(w, cfg, tick0, tick1).Ok? <==> w.book.IsExist(tick0) && w.book.IsExist(tick1)
  {
    hide PairStr, Sqrt, Quotient;
    var fee := GetFeeLp(w, tick0, tick1);
    if fee.Ok? {
      OperationsSucceed(w.book, Slot(Swap, PairStr(tick0, tick1)), cfg.feeTo, cfg.feeTo, fee.value);
    }
  }

  lemma HolderWithinSupply(b: Book, s: Slot, address: string)
    requires b.Valid()
    ensures b.BalanceIn(s, address) <= b.SupplyIn(s)
  {
    if s in b.ledgers {
      TwoHolders(b.ledgers[s], address, address + "'");
    }
  }

  /** Shares are paid out of a pool. */
  predicate Payable(p: RemoveLiqIn, supply: nat, reserve0: nat, reserve1: nat, held: nat) {
    && p.slippage1000 <= 1000 && 0 < p.lp <= held && supply > 0
    && var out0, out1 := Quotient(p.lp * reserve0, supply), Quotient(p.lp * reserve1, supply);
    && out0 > 0 && out1 > 0
    && NotBelow(out0, p.amount0, p.slippage1000) && NotBelow(out1, p.amount1, p.slippage1000)
  }

  /** The payment out of a book whose fee has been minted. */
  lemma {:induction false} PaysOut(b: Book, p: RemoveLiqIn, out: RemoveLiqOut)
    requires b.Valid() && PoolTicks(p.tick0, p.tick1) && User(p.address)
    requires b.IsExist(p.tick0) && b.IsExist(p.tick1) && b.IsExist(PairStr(p.tick0, p.tick1))
    requires out.amount0 <= b.BalanceIn(Slot(Swap, p.tick0), PairStr(p.tick0, p.tick1))
    requires out.amount1 <= b.BalanceIn(Slot(Swap, p.tick1), PairStr(p.tick0, p.tick1))
    ensures PayOut(b, p, out).Ok? <==>
            && 0 < p.lp <= b.BalanceIn(Slot(Swap, PairStr(p.tick0, p.tick1)), p.address)
            && out.amount0 > 0 && out.amount1 > 0
  {
    hide PairStr, Book.Transfer, Book.Burn;
    var pair := PairStr(p.tick0, p.tick1);
    PairRoundTrip(p.tick0, p.tick1);
    StrLessTotal(p.tick0, p.tick1);
    OperationsSucceed(b, Slot(Swap, pair), p.address, p.address, p.lp);
    var burnt := b.Burn(Slot(Swap, pair), p.address, p.lp);
    if burnt.Ok? {
      BurnIssues(b, Slot(Swap, pair), p.address, p.lp);
      OperationsSucceed(burnt.value, Slot(Swap, p.tick0), pair, p.address, out.amount0);
      var paid := burnt.value.Transfer(Slot(Swap, p.tick0), pair, p.address, out.amount0);
      if paid.Ok? {
        TransferMoves(burnt.value, Slot(Swap, p.tick0), pair, p.address, out.amount0);
        OperationsSucceed(paid.value, Slot(Swap, p.tick1), pair, p.address, out.amount1);
      }
    }
  }

  lemma {:induction false} RecordSucceeds(w: World, tick0: string, tick1: string)
    ensures RecordK(w, tick0, tick1).Ok? <==> w.book.IsExist(tick0) && w.book.IsExist(tick1)
  {
  }

  lemma {:induction false} PayOutKeepsLedgers(b: Book, p: RemoveLiqIn, out: RemoveLiqOut)
    requires PayOut(b, p, out).Ok?
    ensures PayOut(b, p, out).value.ledgers.Keys == b.ledgers.Keys
  {
    hide PairStr;
  }

  lemma AcceptPayOutIs(p: RemoveLiqIn, out: RemoveLiqOut)
    ensures AcceptPayOut(p, out).Ok? <==>
            NotBelow(out.amount0, p.amount0, p.slippage1000) && NotBelow(out.amount1, p.amount1, p.slippage1000)
  {
    hide LeastAccepted;
    LeastAcceptedIs(out.amount0, p.amount0, p.slippage1000);
    LeastAcceptedIs(out.amount1, p.amount1, p.slippage1000);
  }

  /** The end of a removal, once the fee has been minted. */
  lemma {:induction false} RemovalSucceeds(w: World, p: RemoveLiqIn)
    requires w.book.Valid() && PoolTicks(p.tick0, p.tick1) && User(p.address)
    requires w.book.IsExist(p.tick0) && w.book.IsExist(p.tick1) && w.book.IsExist(PairStr(p.tick0, p.tick1))
    requires p.slippage1000 <= 1000
    ensures var pair := PairStr(p.tick0, p.tick1);
            var out := QuoteRemove(w, p);
            var v := ViewOf(w, p.tick0, p.tick1);
            Payable(p, v.supply, v.reserve0, v.reserve1, w.book.BalanceIn(Slot(Swap, pair), p.address)) <==>
            && out.Ok? && PayOut(w.book, p, out.value).Ok? && AcceptPayOut(p, out.value).Ok?
            && RecordK(w.(book := PayOut(w.book, p, out.value).value), p.tick0, p.tick1).Ok?
  {
    hide PairStr, PayOut, AcceptPayOut, RecordK, NotBelow, Quotient;
    var pair := PairStr(p.tick0, p.tick1);
    var v := ViewOf(w, p.tick0, p.tick1);
    HolderWithinSupply(w.book, Slot(Swap, pair), p.address);
    var out := QuoteRemove(w, p);
    if out.Ok? {
      if p.lp <= v.supply {
        ShareIsPart(p.lp, v.reserve0, v.supply);
        ShareIsPart(p.lp, v.reserve1, v.supply);
        PaysOut(w.book, p, out.value);
      } else {
        NothingToBurn(w.book, p, out.value);
      }
      AcceptPayOutIs(p, out.value);
      var paid := PayOut(w.book, p, out.value);
      if paid.Ok? {
        PayOutKeepsLedgers(w.book, p, out.value);
        RecordSucceeds(w.(book := paid.value), p.tick0, p.tick1);
      }
    }
  }

  lemma NothingToBurn(b: Book, p: RemoveLiqIn, out: RemoveLiqOut)
    requires p.lp > b.BalanceIn(Slot(Swap, PairStr(p.tick0, p.tick1)), p.address)
    ensures PayOut(b, p, out).Err?
  {
    hide PairStr;
  }

  lemma ShareIsPart(lp: nat, reserve: nat, supply: nat)
    requires lp <= supply && supply > 0
    ensures Quotient(lp * reserve, supply) <= reserve
  {
    BurnKeepsShare(reserve, supply, lp);
  }

  /** A holder can take liquidity out exactly when the pool and both tokens exist, the
      shares are held once the fee is minted, both floored payments are positive, and
      both are within the slippage. */
  predicate Withdrawable(w: World, cfg: Config, p: RemoveLiqIn) {
    var pair := PairStr(p.tick0, p.tick1);
    var v := ViewOf(w, p.tick0, p.tick1);
    && w.book.IsExist(p.tick0) && w.book.IsExist(p.tick1) && w.book.IsExist(pair)
    && Payable(p, v.supply + v.FeeDue(), v.reserve0, v.reserve1,
               w.book.BalanceIn(Slot(Swap, pair), p.address) + if cfg.feeTo == p.address then v.FeeDue() else 0)
  }

  lemma {:induction false} MintFeeKeepsLedgers(w: World, cfg: Config, tick0: string, tick1: string)
    requires MintFee(w, cfg, tick0, tick1).Ok?
    ensures MintFee(w, cfg, tick0, tick1).value.book.ledgers.Keys == w.book.ledgers.Keys
  {
    hide GetFeeLp, PairStr;
  }

  lemma {:induction false} RemoveLiqSucceeds(w: World, cfg: Config, r: RemoveLiqIn)
    requires w.book.Valid() && User(r.address) && PoolTicks(SortRemove(r).tick0, SortRemove(r).tick1)
    ensures RemoveLiq(w, cfg, r).Ok? <==> Withdrawable(w, cfg, SortRemove(r))
  {
    hide PairStr, QuoteRemove, PayOut, AcceptPayOut, RecordK, MintFee, NotBelow, Quotient, ViewOf, StrLess;
    var p := SortRemove(r);
    var pair := PairStr(p.tick0, p.tick1);
    var fee := MintFee(w, cfg, p.tick0, p.tick1);
    if w.book.IsExist(pair) {
      FeeSucceeds(w, cfg, p.tick0, p.tick1);
    }
    if fee.Ok? {
      MintFeeKeepsLedgers(w, cfg, p.tick0, p.tick1);
      QuoteNeedsPool(fee.value, p);
      MintFeeEffect(w, cfg, p.tick0, p.tick1);
      AfterFee(w, cfg, p.tick0, p.tick1);
      if w.book.IsExist(pair) && p.slippage1000 <= 1000 {
        RemovalSucceeds(fee.value, p);
      }
    }
  }

  lemma QuoteNeedsPool(w: World, p: RemoveLiqIn)
    ensures QuoteRemove(w, p).Ok? ==>
              w.book.IsExist(PairStr(p.tick0, p.tick1)) && w.book.IsExist(p.tick0) && w.book.IsExist(p.tick1)
  {
    hide PairStr;
  }

  // ---- the same for adding

  /** One deposit is taken in full, and of the other the most that keeps to the ratio of the reserves; a later
      deposit is worth the most shares that do not dilute either reserve. */
  lemma {:induction false} DepositIsLargest(v: Pool, amount0: nat, amount1: nat, x: nat)
    requires v.reserve0 > 0 && v.reserve1 > 0
    ensures var (a0, a1) := Trimmed(amount0, amount1, v.reserve0, v.reserve1);
            if (amount1 + 1) * v.reserve0 > amount0 * v.reserve1
            then a0 == amount0 && (x <= a1 <==> x * v.reserve0 <= amount0 * v.reserve1)
            else a1 == amount1 && (x <= a0 <==> x * v.reserve1 <= amount1 * v.reserve0)
    ensures x <= SmallerShare(v, amount0, amount1) <==>
            x * v.reserve0 <= amount0 * v.supply && x * v.reserve1 <= amount1 * v.supply
  {
    hide Quotient;
    ReachesFloor(amount1, amount0 * v.reserve1, v.reserve0);
    StaysUnderFloor(x, amount0 * v.reserve1, v.reserve0);
    StaysUnderFloor(x, amount1 * v.reserve0, v.reserve1);
    StaysUnderFloor(x, amount0 * v.supply, v.reserve0);
    StaysUnderFloor(x, amount1 * v.supply, v.reserve1);
  }

  /** Shares are minted against deposits that the caller holds. */
  predicate Mintable(p: AddLiqIn, supply: nat, reserve0: nat, reserve1: nat, held0: nat, held1: nat) {
    && p.amount0 > 0 && p.amount1 > 0 && p.slippage1000 <= 1000
    && if supply == 0 then
         && p.amount0 <= held0 && p.amount1 <= held1
         && Sqrt(p.amount0 * p.amount1) > MINIMUM_LIQUIDITY
         && NotBelow(Sqrt(p.amount0 * p.amount1) - MINIMUM_LIQUIDITY, p.expected, p.slippage1000)
       else
         && reserve0 > 0 && reserve1 > 0
         && var (amount0, amount1) := Trimmed(p.amount0, p.amount1, reserve0, reserve1);
         var lp0, lp1 := Quotient(amount0 * supply, reserve0), Quotient(amount1 * supply, reserve1);
         && amount0 <= held0 && amount1 <= held1
         && lp0 > 0 && lp1 > 0
         && NotBelow(if lp0 < lp1 then lp0 else lp1, p.expected, p.slippage1000)
  }

  lemma {:induction false} TakesIn(b: Book, p: AddLiqIn, amount0: nat, amount1: nat)
    requires b.Valid() && PoolTicks(p.tick0, p.tick1)
    ensures TakeIn(b, p, amount0, amount1).Ok? <==>
            && b.IsExist(p.tick0) && b.IsExist(p.tick1)
            && 0 < amount0 <= b.BalanceIn(Slot(Swap, p.tick0), p.address)
            && 0 < amount1 <= b.BalanceIn(Slot(Swap, p.tick1), p.address)
  {
    hide PairStr, Book.Transfer;
    var pair := PairStr(p.tick0, p.tick1);
    StrLessTotal(p.tick0, p.tick1);
    OperationsSucceed(b, Slot(Swap, p.tick0), p.address, pair, amount0);
    var paid := b.Transfer(Slot(Swap, p.tick0), p.address, pair, amount0);
    if paid.Ok? {
      TransferMoves(b, Slot(Swap, p.tick0), p.address, pair, amount0);
      OperationsSucceed(paid.value, Slot(Swap, p.tick1), p.address, pair, amount1);
    }
  }

  lemma {:induction false} TakeInKeepsLedgers(b: Book, p: AddLiqIn, amount0: nat, amount1: nat)
    requires TakeIn(b, p, amount0, amount1).Ok?
    ensures TakeIn(b, p, amount0, amount1).value.ledgers.Keys == b.ledgers.Keys
  {
    hide PairStr;
  }

  lemma AcceptLpIs(lp: nat, expected: nat, slippage1000: nat)
    ensures AcceptLp(lp, expected, slippage1000).Ok? <==> lp > 0 && NotBelow(lp, expected, slippage1000)
  {
    hide LeastAccepted, NotBelow;
    LeastAcceptedIs(lp, expected, slippage1000);
    if slippage1000 > 1000 {
      TooMuch(lp, expected, slippage1000);
    }
  }

  lemma TooMuch(lp: nat, expected: nat, slippage1000: nat)
    requires slippage1000 > 1000
    ensures !NotBelow(lp, expected, slippage1000)
  {
  }

  /** Minting shares of the pool leaves the balances of its tokens alone. */
  lemma {:induction false} MintLeavesTokens(b: Book, p: AddLiqIn, address: string, lp: nat)
    requires b.Valid() && PoolTicks(p.tick0, p.tick1) && b.Mint(Slot(Swap, PairStr(p.tick0, p.tick1)), address, lp).Ok?
    ensures var b' := b.Mint(Slot(Swap, PairStr(p.tick0, p.tick1)), address, lp).value;
            && b'.Valid() && b'.ledgers.Keys == b.ledgers.Keys
            && forall a :: b'.BalanceIn(Slot(Swap, p.tick0), a) == b.BalanceIn(Slot(Swap, p.tick0), a)
                           && b'.BalanceIn(Slot(Swap, p.tick1), a) == b.BalanceIn(Slot(Swap, p.tick1), a)
  {
    hide PairStr, Book.Mint;
    PairRoundTrip(p.tick0, p.tick1);
    MintIssues(b, Slot(Swap, PairStr(p.tick0, p.tick1)), address, lp);
  }

  /** A pool with its ledgers, and the state after the fee. */
  ghost predicate Standing(w: World, p: AddLiqIn) {
    && w.book.Valid() && PoolTicks(p.tick0, p.tick1)
    && w.book.IsExist(p.tick0) && w.book.IsExist(p.tick1) && w.book.IsExist(PairStr(p.tick0, p.tick1))
  }

  lemma {:induction false} FirstSucceeds(w: World, p: AddLiqIn)
    requires Standing(w, p) && p.amount0 > 0 && p.amount1 > 0 && p.slippage1000 <= 1000
    ensures AddLiqFirst(w, p).Ok? <==>
            Mintable(p, 0, 0, 0, w.book.BalanceIn(Slot(Swap, p.tick0), p.address),
                     w.book.BalanceIn(Slot(Swap, p.tick1), p.address))
  {
    hide PairStr, TakeIn, AcceptLp, RecordK, Sqrt, NotBelow, Book.Mint, PoolTicks;
    var pair := Slot(Swap, PairStr(p.tick0, p.tick1));
    var root := Sqrt(p.amount0 * p.amount1);
    if root >= MINIMUM_LIQUIDITY {
      var lp: nat := root - MINIMUM_LIQUIDITY;
      OperationsSucceed(w.book, pair, p.address, p.address, lp);
      AcceptLpIs(lp, p.expected, p.slippage1000);
      var one := w.book.Mint(pair, p.address, lp);
      if one.Ok? {
        MintLeavesTokens(w.book, p, p.address, lp);
        OperationsSucceed(one.value, pair, LOCK, LOCK, MINIMUM_LIQUIDITY);
        MintLeavesTokens(one.value, p, LOCK, MINIMUM_LIQUIDITY);
        DepositSucceeds(w, one.value.Mint(pair, LOCK, MINIMUM_LIQUIDITY).value, p, p.amount0, p.amount1);
      }
    }
  }

  /** The deposits and the record of k, over a book with the same tokens. */
  lemma {:induction false} DepositSucceeds(w: World, b: Book, p: AddLiqIn, amount0: nat, amount1: nat)
    requires b.Valid() && PoolTicks(p.tick0, p.tick1) && b.IsExist(p.tick0) && b.IsExist(p.tick1)
    ensures var taken := TakeIn(b, p, amount0, amount1);
            && (taken.Ok? <==> 0 < amount0 <= b.BalanceIn(Slot(Swap, p.tick0), p.address) &&
                               0 < amount1 <= b.BalanceIn(Slot(Swap, p.tick1), p.address))
            && (taken.Ok? ==> RecordK(w.(book := taken.value), p.tick0, p.tick1).Ok?)
  {
    hide PairStr, TakeIn, RecordK, PoolTicks;
    TakesIn(b, p, amount0, amount1);
    var taken := TakeIn(b, p, amount0, amount1);
    if taken.Ok? {
      TakeInKeepsLedgers(b, p, amount0, amount1);
      RecordSucceeds(w.(book := taken.value), p.tick0, p.tick1);
    }
  }

  lemma {:induction false} QuoteAddIs(w: World, p: AddLiqIn)
    requires Standing(w, p)
    requires ViewOf(w, p.tick0, p.tick1).supply > 0
    ensures var v := ViewOf(w, p.tick0, p.tick1);
            var q := QuoteAdd(w, p);
            if v.reserve0 > 0 && v.reserve1 > 0 then
              var (amount0, amount1) := Trimmed(p.amount0, p.amount1, v.reserve0, v.reserve1);
              var lp0, lp1 := Quotient(amount0 * v.supply, v.reserve0), Quotient(amount1 * v.supply, v.reserve1);
              q == Ok(AddLiqOut(if lp0 < lp1 then lp0 else lp1, amount0, amount1))
            else q.Err?
  {
    hide PairStr, PoolTicks;
  }

  lemma {:induction false} NextSucceeds(w: World, p: AddLiqIn)
    requires Standing(w, p) && p.amount0 > 0 && p.amount1 > 0 && p.slippage1000 <= 1000
    requires ViewOf(w, p.tick0, p.tick1).supply > 0
    ensures var v := ViewOf(w, p.tick0, p.tick1);
            AddLiqNext(w, p).Ok? <==>
            Mintable(p, v.supply, v.reserve0, v.reserve1, w.book.BalanceIn(Slot(Swap, p.tick0), p.address),
                     w.book.BalanceIn(Slot(Swap, p.tick1), p.address))
  {
    hide PairStr, PoolTicks, QuoteAdd, TakeIn, AcceptLp, RecordK, NotBelow, Book.Mint, Quotient, ViewOf;
    var pair := Slot(Swap, PairStr(p.tick0, p.tick1));
    QuoteAddIs(w, p);
    var q := QuoteAdd(w, p);
    if q.Ok? {
      var out := q.value;
      OperationsSucceed(w.book, pair, p.address, p.address, out.lp);
      AcceptLpIs(out.lp, p.expected, p.slippage1000);
      SharesNeedAmounts(out.amount0, ViewOf(w, p.tick0, p.tick1).supply, ViewOf(w, p.tick0, p.tick1).reserve0);
      SharesNeedAmounts(out.amount1, ViewOf(w, p.tick0, p.tick1).supply, ViewOf(w, p.tick0, p.tick1).reserve1);
      var minted := w.book.Mint(pair, p.address, out.lp);
      if minted.Ok? {
        MintLeavesTokens(w.book, p, p.address, out.lp);
        DepositSucceeds(w, minted.value, p, out.amount0, out.amount1);
      }
    }
  }

  lemma SharesNeedAmounts(amount: nat, supply: nat, reserve: nat)
    requires reserve > 0
    ensures Quotient(amount * supply, reserve) > 0 ==> amount > 0
  {
  }

  /** A deposit goes through exactly when it is well-formed, the pool and both tokens
      exist, the caller holds what the trimmed deposits take, and the shares minted are
      positive and within the slippage. */
  predicate Depositable(w: World, p: AddLiqIn) {
    var v := ViewOf(w, p.tick0, p.tick1);
    && w.book.IsExist(p.tick0) && w.book.IsExist(p.tick1) && w.book.IsExist(PairStr(p.tick0, p.tick1))
    && Mintable(p, v.supply + v.FeeDue(), v.reserve0, v.reserve1,
                w.book.BalanceIn(Slot(Swap, p.tick0), p.address), w.book.BalanceIn(Slot(Swap, p.tick1), p.address))
  }

  lemma {:induction false} AddLiqSucceeds(w: World, cfg: Config, a: AddLiqIn)
    requires w.book.Valid() && PoolTicks(SortAdd(a).tick0, SortAdd(a).tick1)
    ensures AddLiq(w, cfg, a).Ok? <==> Depositable(w, SortAdd(a))
  {
    hide PairStr, MintFee, NotBelow, Quotient, Sqrt, ViewOf, AddLiqFirst, AddLiqNext, StrLess, Trimmed;
    var p := SortAdd(a);
    var pair := PairStr(p.tick0, p.tick1);
    var fee := MintFee(w, cfg, p.tick0, p.tick1);
    if w.book.IsExist(pair) {
      FeeSucceeds(w, cfg, p.tick0, p.tick1);
      if fee.Ok? {
        FeeLeavesTokens(w, cfg, p);
        if p.amount0 > 0 && p.amount1 > 0 && p.slippage1000 <= 1000 {
          if ViewOf(fee.value, p.tick0, p.tick1).supply == 0 {
            FirstSucceeds(fee.value, p);
          } else {
            NextSucceeds(fee.value, p);
          }
        }
      }
    }
  }

  lemma {:induction false} FeeLeavesTokens(w: World, cfg: Config, p: AddLiqIn)
    requires w.book.Valid() && PoolTicks(p.tick0, p.tick1) && MintFee(w, cfg, p.tick0, p.tick1).Ok?
    requires w.book.IsExist(p.tick0) && w.book.IsExist(p.tick1) && w.book.IsExist(PairStr(p.tick0, p.tick1))
    ensures var w1 := MintFee(w, cfg, p.tick0, p.tick1).value;
            var v, v1 := ViewOf(w, p.tick0, p.tick1), ViewOf(w1, p.tick0, p.tick1);
            && Standing(w1, p) && Supply(w1, PairStr(p.tick0, p.tick1)) == Ok(v1.supply)
            && v1.supply == v.supply + v.FeeDue() && v1.reserve0 == v.reserve0 && v1.reserve1 == v.reserve1
            && w1.book.BalanceIn(Slot(Swap, p.tick0), p.address) == w.book.BalanceIn(Slot(Swap, p.tick0), p.address)
            && w1.book.BalanceIn(Slot(Swap, p.tick1), p.address) == w.book.BalanceIn(Slot(Swap, p.tick1), p.address)
  {
    hide PairStr, MintFee, StrLess, Sqrt;
    PairRoundTrip(p.tick0, p.tick1);
    MintFeeEffect(w, cfg, p.tick0, p.tick1);
    AfterFee(w, cfg, p.tick0, p.tick1);
  }

  // ---- naming

  /** `addLiq` is the same call whichever way round the pool is named. */
  lemma AddLiqNamesEitherWay(w: World, cfg: Config, a: AddLiqIn)
    requires a.tick0 != "" && a.tick1 != "" && a.tick0 != a.tick1
    ensures var b := a.(tick0 := a.tick1, tick1 := a.tick0, amount0 := a.amount1, amount1 := a.amount0);
            SortAdd(b) == SortAdd(a) && AddLiq(w, cfg, b) == AddLiq(w, cfg, a)
  {
    hide MintFee, AddLiqFirst, AddLiqNext, PairStr;
    StrLessTotal(a.tick0, a.tick1);
  }

  lemma RemoveLiqNamesEitherWay(w: World, cfg: Config, r: RemoveLiqIn)
    requires r.tick0 != "" && r.tick1 != "" && r.tick0 != r.tick1
    ensures var q := r.(tick0 := r.tick1, tick1 := r.tick0, amount0 := r.amount1, amount1 := r.amount0);
            SortRemove(q) == SortRemove(r) && RemoveLiq(w, cfg, q) == RemoveLiq(w, cfg, r)
  {
    hide MintFee, QuoteRemove, PayOut, AcceptPayOut, RecordK;
    StrLessTotal(r.tick0, r.tick1);
  }

  // ---- throws

  /** Nothing of a base tick appeared or went. */
  ghost predicate Conserved(b: Book, b': Book, tick: string) {
    b'.Valid() && b'.Total(tick) == b.Total(tick)
  }

  lemma TransferConserves(b: Book, s: Slot, from: string, to: string, amount: nat, tick: string)
    requires b.Valid()
    ensures Conserved(b, b.Transfer(s, from, to, amount).ValueOr(b), tick)
  {
    hide Book.Transfer;
    if b.Transfer(s, from, to, amount).Ok? {
      TransferMoves(b, s, from, to, amount);
    }
  }

  lemma ShareMintConserves(b: Book, pair: string, address: string, amount: nat, tick: string)
    requires b.Valid() && pair != tick
    ensures Conserved(b, b.Mint(Slot(Swap, pair), address, amount).ValueOr(b), tick)
  {
    hide Book.Mint;
    if b.Mint(Slot(Swap, pair), address, amount).Ok? {
      MintIssues(b, Slot(Swap, pair), address, amount);
      IssueChangesTotal(b, b.Mint(Slot(Swap, pair), address, amount).value, Slot(Swap, pair), address, amount, tick);
    }
  }

  lemma ShareBurnConserves(b: Book, pair: string, address: string, amount: nat, tick: string)
    requires b.Valid() && pair != tick
    ensures Conserved(b, b.Burn(Slot(Swap, pair), address, amount).ValueOr(b), tick)
  {
    hide Book.Burn;
    if b.Burn(Slot(Swap, pair), address, amount).Ok? {
      BurnIssues(b, Slot(Swap, pair), address, amount);
      IssueChangesTotal(b, b.Burn(Slot(Swap, pair), address, amount).value, Slot(Swap, pair), address,
                        -(amount as int), tick);
    }
  }

  lemma FeeConserves(w: World, cfg: Config, tick0: string, tick1: string, tick: string)
    requires w.book.Valid() && PairStr(tick0, tick1) != tick
    ensures Conserved(w.book, MintFee(w, cfg, tick0, tick1).ValueOr(w).book, tick)
  {
    hide Book.Mint, GetFeeLp, Conserved, PairStr;
    var liquidity := GetFeeLp(w, tick0, tick1);
    NothingConserves(w.book, tick);
    if liquidity.Ok? {
      ShareMintConserves(w.book, PairStr(tick0, tick1), cfg.feeTo, liquidity.value, tick);
    }
  }

  lemma NothingConserves(b: Book, tick: string)
    requires b.Valid()
    ensures Conserved(b, b, tick)
  {
  }

  lemma BothConserve(b: Book, b1: Book, b': Book, tick: string)
    requires Conserved(b, b1, tick) && Conserved(b1, b', tick)
    ensures Conserved(b, b', tick)
  {
  }

  lemma StaysConsistent(b: Book, b': Book, tick: string)
    requires Conserved(b, b', tick)
    ensures b'.Valid()
  {
  }

  lemma TakeInConserves(b: Book, p: AddLiqIn, amount0: nat, amount1: nat, tick: string)
    requires b.Valid()
    ensures Conserved(b, TakeIn(b, p, amount0, amount1).ValueOr(ThrownTakeIn(b, p, amount0)), tick)
  {
    hide Book.Transfer, Conserved, PairStr;
    var pair := PairStr(p.tick0, p.tick1);
    var b1 := ThrownTakeIn(b, p, amount0);
    TransferConserves(b, Slot(Swap, p.tick0), p.address, pair, amount0, tick);
    StaysConsistent(b, b1, tick);
    TransferConserves(b1, Slot(Swap, p.tick1), p.address, pair, amount1, tick);
    BothConserve(b, b1, b1.Transfer(Slot(Swap, p.tick1), p.address, pair, amount1).ValueOr(b1), tick);
  }

  lemma FirstSharesConserve(b: Book, p: AddLiqIn, firstLp: nat, tick: string)
    requires b.Valid() && PairStr(p.tick0, p.tick1) != tick
    ensures Conserved(b, FirstShares(b, p, firstLp).ValueOr(ThrownFirstShares(b, p, firstLp)), tick)
  {
    hide Book.Mint, Conserved, PairStr;
    var pair := PairStr(p.tick0, p.tick1);
    var b1 := ThrownFirstShares(b, p, firstLp);
    ShareMintConserves(b, pair, p.address, firstLp, tick);
    StaysConsistent(b, b1, tick);
    ShareMintConserves(b1, pair, LOCK, MINIMUM_LIQUIDITY, tick);
    BothConserve(b, b1, b1.Mint(Slot(Swap, pair), LOCK, MINIMUM_LIQUIDITY).ValueOr(b1), tick);
  }

  /** An `addLiq` that throws halfway has still conserved every base tick. */
  lemma ThrownAddLiqConserves(w: World, cfg: Config, a: AddLiqIn, tick: string)
    requires w.book.Valid() && PairStr(SortAdd(a).tick0, SortAdd(a).tick1) != tick
    ensures Conserved(w.book, ThrownAddLiq(w, cfg, a), tick)
  {
    hide MintFee, Conserved, PairStr, ThrownAddLiqFirst, ThrownAddLiqNext;
    var p := SortAdd(a);
    NothingConserves(w.book, tick);
    FeeConserves(w, cfg, p.tick0, p.tick1, tick);
    var w1 := MintFee(w, cfg, p.tick0, p.tick1).ValueOr(w);
    StaysConsistent(w.book, w1.book, tick);
    FirstConserves(w1, p, tick);
    NextConserves(w1, p, tick);
    BothConserve(w.book, w1.book, ThrownAddLiqFirst(w1, p), tick);
    BothConserve(w.book, w1.book, ThrownAddLiqNext(w1, p), tick);
  }

  lemma FirstConserves(w: World, p: AddLiqIn, tick: string)
    requires w.book.Valid() && PairStr(p.tick0, p.tick1) != tick
    ensures Conserved(w.book, ThrownAddLiqFirst(w, p), tick)
  {
    hide Conserved, PairStr, FirstShares, ThrownFirstShares, TakeIn, ThrownTakeIn, Sqrt;
    NothingConserves(w.book, tick);
    var firstLp := SubCal(Sqrt(p.amount0 * p.amount1), MINIMUM_LIQUIDITY);
    if firstLp.Ok? {
      FirstSharesConserve(w.book, p, firstLp.value, tick);
      var b1 := FirstShares(w.book, p, firstLp.value).ValueOr(ThrownFirstShares(w.book, p, firstLp.value));
      StaysConsistent(w.book, b1, tick);
      TakeInConserves(b1, p, p.amount0, p.amount1, tick);
      BothConserve(w.book, b1, TakeIn(b1, p, p.amount0, p.amount1).ValueOr(ThrownTakeIn(b1, p, p.amount0)), tick);
    }
  }

  lemma NextConserves(w: World, p: AddLiqIn, tick: string)
    requires w.book.Valid() && PairStr(p.tick0, p.tick1) != tick
    ensures Conserved(w.book, ThrownAddLiqNext(w, p), tick)
  {
    hide Conserved, PairStr, QuoteAdd, TakeIn, ThrownTakeIn, Book.Mint;
    NothingConserves(w.book, tick);
    var quote := QuoteAdd(w, p);
    if quote.Ok? {
      var out, pair := quote.value, PairStr(p.tick0, p.tick1);
      ShareMintConserves(w.book, pair, p.address, out.lp, tick);
      var b1 := w.book.Mint(Slot(Swap, pair), p.address, out.lp).ValueOr(w.book);
      StaysConsistent(w.book, b1, tick);
      TakeInConserves(b1, p, out.amount0, out.amount1, tick);
      BothConserve(w.book, b1, TakeIn(b1, p, out.amount0, out.amount1).ValueOr(ThrownTakeIn(b1, p, out.amount0)), tick);
    }
  }

  /** So has a `removeLiq`. */
  lemma ThrownRemoveLiqConserves(w: World, cfg: Config, r: RemoveLiqIn, tick: string)
    requires w.book.Valid() && PairStr(SortRemove(r).tick0, SortRemove(r).tick1) != tick
    ensures Conserved(w.book, ThrownRemoveLiq(w, cfg, r), tick)
  {
    hide MintFee, Conserved, PairStr, QuoteRemove, PayOut, ThrownPayOut;
    var p := SortRemove(r);
    NothingConserves(w.book, tick);
    FeeConserves(w, cfg, p.tick0, p.tick1, tick);
    var w1 := MintFee(w, cfg, p.tick0, p.tick1).ValueOr(w);
    StaysConsistent(w.book, w1.book, tick);
    var quote := QuoteRemove(w1, p);
    if quote.Ok? {
      PayOutConserves(w1.book, p, quote.value, tick);
      BothConserve(w.book, w1.book, PayOut(w1.book, p, quote.value).ValueOr(ThrownPayOut(w1.book, p, quote.value)),
                   tick);
    }
  }

  lemma PayOutConserves(b: Book, p: RemoveLiqIn, out: RemoveLiqOut, tick: string)
    requires b.Valid() && PairStr(p.tick0, p.tick1) != tick
    ensures Conserved(b, PayOut(b, p, out).ValueOr(ThrownPayOut(b, p, out)), tick)
  {
    hide Conserved, PairStr, Book.Burn, Book.Transfer;
    var pair := PairStr(p.tick0, p.tick1);
    var b1 := b.Burn(Slot(Swap, pair), p.address, p.lp).ValueOr(b);
    ShareBurnConserves(b, pair, p.address, p.lp, tick);
    StaysConsistent(b, b1, tick);
    var b2 := b1.Transfer(Slot(Swap, p.tick0), pair, p.address, out.amount0).ValueOr(b1);
    TransferConserves(b1, Slot(Swap, p.tick0), pair, p.address, out.amount0, tick);
    BothConserve(b, b1, b2, tick);
    StaysConsistent(b, b2, tick);
    TransferConserves(b2, Slot(Swap, p.tick1), pair, p.address, out.amount1, tick);
    BothConserve(b, b2, b2.Transfer(Slot(Swap, p.tick1), pair, p.address, out.amount1).ValueOr(b2), tick);
  }

  /** And a swap. */
  lemma ThrownSwapConserves(w: World, cfg: Config, p: SwapIn, tick: string)
    requires w.book.Valid()
    ensures Conserved(w.book, ThrownSwap(w, cfg, p), tick)
  {
    hide Conserved, PairStr, SwapPriced, Book.Transfer;
    NothingConserves(w.book, tick);
    var priced := SwapPriced(w, cfg, p);
    if priced.Ok? {
      TransferConserves(w.book, Slot(Swap, p.tickIn), p.address, PairStr(p.tickIn, p.tickOut), priced.value.0, tick);
    }
  }
}
