/** The promises of the swap contract over arbitrary runs. */
module PoolRuns {
  import opened Wrappers
  import opened Arithmetic
  import opened BigNum
  import opened ContractUtils
  import opened Ledgers
  import opened Books
  import opened PoolMath
  import opened ContractSpec
  import opened PoolEffects
  import opened PoolSafety

  // ---- the invariant of every reachable state

  lemma InitialIsOk(w: World)
    requires Initial(w)
    ensures WorldOk(w)
  {
    forall t0, t1 | Plain(t0) && Plain(t1)
      ensures !w.book.IsExist(PairStr(t0, t1))
    {
      PairRoundTrip(t0, t1);
    }
  }

  /** No pool over one tick alone ever exists, so the source needs no check for it
      outside `deployPool`. */
  lemma NoDegeneratePool(w: World, cfg: Config, c: Call)
    requires WorldOk(w) && Admissible(c) && Perform(w, cfg, c).Ok?
    ensures c.CallAddLiq? ==> c.add.tick0 != c.add.tick1
    ensures c.CallRemoveLiq? ==> c.remove.tick0 != c.remove.tick1
  {
    if c.CallRemoveLiq? {
      RemoveLiqShape(w, cfg, c.remove);
      var p := SortRemove(c.remove);
      MintFeeEffect(w, cfg, p.tick0, p.tick1);
    }
  }

  lemma PerformKeepsBook(w: World, cfg: Config, c: Call)
    requires WorldOk(w) && Admissible(c) && Perform(w, cfg, c).Ok?
    ensures Perform(w, cfg, c).value.book.Valid()
    ensures forall t | Plain(t) :: !Perform(w, cfg, c).value.book.IsExist(PairStr(t, t))
  {
    var w' := Perform(w, cfg, c).value;
    NoDegeneratePool(w, cfg, c);
    match c
    case CallAddLiq(p) => AddLiqEffect(w, cfg, p);
    case CallRemoveLiq(p) => RemoveLiqEffect(w, cfg, p);
    case CallSwap(p) => var _, _ := SwapEffect(w, cfg, p);
    case CallDeployPool(p) =>
      TryCreateKeeps(w.book, PairStr(p.tick0, p.tick1));
      forall t | Plain(t)
        ensures !w'.book.IsExist(PairStr(t, t))
      {
        PairInjective(p.tick0, p.tick1, t, t);
      }
    case CallSend(p) => TransferMoves(w.book, Slot(Swap, p.tick), p.from, p.to, p.amount);
    case CallMint(a, tick, n, k) =>
      TryCreateKeeps(w.book, tick);
      MintIssues(w.book.TryCreate(tick), Slot(k, tick), a, n);
      forall t | Plain(t)
        ensures !w'.book.IsExist(PairStr(t, t))
      {
        PairRoundTrip(t, t);
      }
    case CallBurn(a, t, n, k) => BurnIssues(w.book, Slot(k, t), a, n);
    case CallMove(t, f, a, n, fk, tk) => MoveConserves(w.book, t, f, a, n, fk, tk);
  }

  lemma {:induction false} PerformKeepsPool(w: World, cfg: Config, c: Call, t0: string, t1: string)
    requires WorldOk(w) && Admissible(c) && Perform(w, cfg, c).Ok? && PoolTicks(t0, t1)
    ensures PoolStep(w, Perform(w, cfg, c).value, t0, t1)
  {
    NoDegeneratePool(w, cfg, c);
    match c
    case CallAddLiq(p) => AddLiqStep(w, cfg, p, t0, t1);
    case CallRemoveLiq(p) => RemoveLiqStep(w, cfg, p, t0, t1);
    case CallSwap(p) => SwapStep(w, cfg, p, t0, t1);
    case _ =>
      PairRoundTrip(t0, t1);
      OtherCallsAreQuiet(w, cfg, c, PairStr(t0, t1));
      QuietGrows(w, Perform(w, cfg, c).value, t0, t1);
  }

  lemma {:induction false} StepKeeps(w: World, cfg: Config, c: Call)
    requires WorldOk(w) && Admissible(c)
    ensures WorldOk(Step(w, cfg, c))
    ensures forall t0, t1 | PoolTicks(t0, t1) :: ShareKept(ViewOf(w, t0, t1), ViewOf(Step(w, cfg, c), t0, t1))
  {
    if Perform(w, cfg, c).Ok? {
      PerformKeepsBook(w, cfg, c);
      forall t0, t1 | PoolTicks(t0, t1)
        ensures PoolStep(w, Step(w, cfg, c), t0, t1)
      {
        PerformKeepsPool(w, cfg, c, t0, t1);
      }
    }
  }

  /** In every state that any run reaches, each initialised pool satisfies
      supply^2 <= kLast <= reserve0 * reserve1 and holds its locked shares; and no
      share has lost value since the start: kLast / supply^2 never falls, exactly,
      across first mints, later mints, burns, protocol fees, swaps and gifts. */
  lemma {:induction false} SharesNeverLoseValue(w: World, cfg: Config, calls: seq<Call>, t0: string, t1: string)
    requires WorldOk(w) && PoolTicks(t0, t1)
    requires forall c | c in calls :: Admissible(c)
    ensures WorldOk(Run(w, cfg, calls))
    ensures ShareKept(ViewOf(w, t0, t1), ViewOf(Run(w, cfg, calls), t0, t1))
    decreases |calls|
  {
    if calls != [] {
      var w1 := Step(w, cfg, calls[0]);
      StepKeeps(w, cfg, calls[0]);
      SharesNeverLoseValue(w1, cfg, calls[1..], t0, t1);
      var v, v1, v' := ViewOf(w, t0, t1), ViewOf(w1, t0, t1), ViewOf(Run(w, cfg, calls), t0, t1);
      if v.supply > 0 {
        ShareTransitive(v.kLast, v.supply, v1.kLast, v1.supply, v'.kLast, v'.supply);
      }
    }
  }

  /** The same promise from deployment on, with the current reserves: whatever a pool's
      value per share was at some liquidity event, the reserves still cover it. */
  lemma {:induction false} ReservesCoverShares(w: World, cfg: Config, before: seq<Call>, after: seq<Call>, t0: string,
                                               t1: string)
    requires Initial(w) && PoolTicks(t0, t1)
    requires forall c | c in before + after :: Admissible(c)
    ensures var v := ViewOf(Run(w, cfg, before), t0, t1);
            var v' := ViewOf(Run(Run(w, cfg, before), cfg, after), t0, t1);
            v.supply > 0 ==> v'.supply > 0 && v'.K() * (v.supply * v.supply) >= v.kLast * (v'.supply * v'.supply)
  {
    InitialIsOk(w);
    SharesNeverLoseValue(w, cfg, before, t0, t1);
    var w1 := Run(w, cfg, before);
    SharesNeverLoseValue(w1, cfg, after, t0, t1);
    var v, v' := ViewOf(w1, t0, t1), ViewOf(Run(w1, cfg, after), t0, t1);
    MulMonotone(v'.kLast, v'.K(), v.supply * v.supply);
  }

  /** A call that is not a liquidity event of the pool over `t0` and `t1`. */
  predicate NoEvent(c: Call, t0: string, t1: string) {
    && (c.CallAddLiq? ==> SortTicks(c.add.tick0, c.add.tick1) != (t0, t1))
    && (c.CallRemoveLiq? ==> SortTicks(c.remove.tick0, c.remove.tick1) != (t0, t1))
  }

  /** Between two liquidity events of a pool, over any swaps, gifts, sends, deposits,
      withdrawals and calls to other pools, its supply and recorded k stand still and
      reserve0 * reserve1 never falls. */
  lemma {:induction false} KNeverFalls(w: World, cfg: Config, calls: seq<Call>, t0: string, t1: string)
    requires WorldOk(w) && PoolTicks(t0, t1)
    requires forall c | c in calls :: Admissible(c) && NoEvent(c, t0, t1)
    ensures Grew(ViewOf(w, t0, t1), ViewOf(Run(w, cfg, calls), t0, t1))
    decreases |calls|
  {
    if calls != [] {
      var c := calls[0];
      StepKeeps(w, cfg, c);
      if Perform(w, cfg, c).Ok? {
        NoEventGrows(w, cfg, c, t0, t1);
      }
      KNeverFalls(Step(w, cfg, c), cfg, calls[1..], t0, t1);
    }
  }

  lemma {:induction false} NoEventGrows(w: World, cfg: Config, c: Call, t0: string, t1: string)
    requires WorldOk(w) && PoolTicks(t0, t1) && Admissible(c) && NoEvent(c, t0, t1) && Perform(w, cfg, c).Ok?
    ensures Grew(ViewOf(w, t0, t1), ViewOf(Perform(w, cfg, c).value, t0, t1))
  {
    var w' := Perform(w, cfg, c).value;
    var q := PairStr(t0, t1);
    PairRoundTrip(t0, t1);
    NoDegeneratePool(w, cfg, c);
    match c
    case CallAddLiq(p) =>
      AddLiqEffect(w, cfg, p);
      SortedAdd(p);
      PairRoundTrip(p.tick0, p.tick1);
      AddedIsQuiet(w, w', cfg, SortAdd(p), AddLiq(w, cfg, p).value.1, q);
      QuietGrows(w, w', t0, t1);
    case CallRemoveLiq(p) =>
      RemoveLiqEffect(w, cfg, p);
      PairRoundTrip(p.tick0, p.tick1);
      RemovedIsQuiet(w, w', cfg, SortRemove(p), RemoveLiq(w, cfg, p).value.1, q);
      QuietGrows(w, w', t0, t1);
    case CallSwap(p) =>
      SwapStep(w, cfg, p, t0, t1);
    case _ =>
      OtherCallsAreQuiet(w, cfg, c, q);
      QuietGrows(w, w', t0, t1);
  }

  /** Nobody can trade value out of a pool: over any run without liquidity events, if
      one reserve ends no higher than it began, the other ends no lower. */
  lemma {:induction false} NoFreeTrade(w: World, cfg: Config, calls: seq<Call>, t0: string, t1: string)
    requires WorldOk(w) && PoolTicks(t0, t1) && ViewOf(w, t0, t1).supply > 0
    requires forall c | c in calls :: Admissible(c) && NoEvent(c, t0, t1)
    ensures var v, v' := ViewOf(w, t0, t1), ViewOf(Run(w, cfg, calls), t0, t1);
            && (v'.reserve0 <= v.reserve0 ==> v'.reserve1 >= v.reserve1)
            && (v'.reserve1 <= v.reserve1 ==> v'.reserve0 >= v.reserve0)
  {
    KNeverFalls(w, cfg, calls, t0, t1);
    PoolStaysAlive(w, t0, t1);
    var v, v' := ViewOf(w, t0, t1), ViewOf(Run(w, cfg, calls), t0, t1);
    if v'.reserve0 <= v.reserve0 {
      MulMonotone(v'.reserve0, v.reserve0, v'.reserve1);
      MulCancel(v.reserve1, v'.reserve1, v.reserve0);
    }
    if v'.reserve1 <= v.reserve1 {
      MulMonotone(v'.reserve1, v.reserve1, v'.reserve0);
      MulCancel(v.reserve0, v'.reserve0, v.reserve1);
    }
  }

  // ---- liveness of an initialised pool

  /** Once initialised, a pool has at least 1000 shares and something of both tokens,
      so none of the contract's divisions can abort on it. */
  lemma {:induction false} PoolStaysAlive(w: World, t0: string, t1: string)
    requires WorldOk(w) && PoolTicks(t0, t1) && ViewOf(w, t0, t1).supply > 0
    ensures var v := ViewOf(w, t0, t1);
            && v.supply >= MINIMUM_LIQUIDITY && v.reserve0 > 0 && v.reserve1 > 0 && v.kLast > 0
            && v.supply <= Sqrt(v.kLast)
            && (forall a, b: nat :: Adjust(a, b, v.reserve0, v.reserve1).Ok?)
            && (forall a: nat :: MulDivCal(a, v.supply, v.reserve0).Ok? && MulDivCal(a, v.supply, v.reserve1).Ok?)
            && (forall lp: nat :: MulDivCal(lp, v.reserve0, v.supply).Ok? && MulDivCal(lp, v.reserve1, v.supply).Ok?)
            && GetFeeLp(w, t0, t1).Ok?
  {
    var v := ViewOf(w, t0, t1);
    var pair := PairStr(t0, t1);
    TwoHolders(w.book.ledgers[Slot(Swap, pair)], LOCK, "");
    SquareMonotone(1, v.supply);
    PositiveFactors(v.reserve0, v.reserve1);
    SqrtIsGreatest(v.kLast, v.supply);
  }

  // ---- protocol fee

  /** The fee of a liquidity event never exceeds one sixth of the growth in the floored
      root of k since the last event, and never lifts the supply above that root. */
  predicate FeeWithinBound(v: Pool, fee: nat) {
    var rootK, rootKLast := Sqrt(v.K()), Sqrt(v.kLast);
    && v.supply + fee <= rootK
    && 6 * rootK * fee <= (v.supply + fee) * (rootK - rootKLast)
    && (rootK <= rootKLast + 1 ==> fee == 0)
  }

  lemma {:induction false} FeeDueIsBounded(v: Pool)
    requires PoolOk(v) && (v.supply > 0 ==> v.supply <= Sqrt(v.kLast))
    ensures FeeWithinBound(v, v.FeeDue())
  {
    hide Sqrt, Fee;
    var rootK, rootKLast := Sqrt(v.K()), Sqrt(v.kLast);
    if v.supply == 0 {
      NoFeeWithoutSupply(v);
      SqrtMonotone(0, v.K());
    } else {
      SqrtMonotone(v.kLast, v.K());
      if rootK > rootKLast {
        FeeBound(v.supply, rootK, rootKLast);
        if rootK == rootKLast + 1 {
          NoFeeForGapOne(v.supply, rootKLast);
        }
      }
    }
  }

  lemma {:induction false} ProtocolFeeIsBounded(w: World, cfg: Config, t0: string, t1: string)
    requires WorldOk(w) && PoolTicks(t0, t1) && MintFee(w, cfg, t0, t1).Ok?
    ensures var v, v1 := ViewOf(w, t0, t1), ViewOf(MintFee(w, cfg, t0, t1).value, t0, t1);
            v1.supply >= v.supply && FeeWithinBound(v, v1.supply - v.supply)
  {
    hide MintFee, FeeWithinBound, Sqrt, Fee;
    AfterFee(w, cfg, t0, t1);
    if ViewOf(w, t0, t1).supply > 0 {
      PoolStaysAlive(w, t0, t1);
    }
    FeeDueIsBounded(ViewOf(w, t0, t1));
  }

  // ---- adding and removing

  /** Shares bought in an initialised pool and sold back at once return at most what
      was paid, in both tokens: the second fee is zero because `kLast` was just set. */
  lemma {:induction false} AddThenRemove(w: World, cfg: Config, a: AddLiqIn, r: RemoveLiqIn)
    requires WorldOk(w) && User(a.address) && Plain(a.tick0) && Plain(a.tick1)
    requires AddLiq(w, cfg, a).Ok? && ViewOf(w, SortAdd(a).tick0, SortAdd(a).tick1).supply > 0
    requires r.address == a.address && r.tick0 == a.tick0 && r.tick1 == a.tick1
    requires r.lp == AddLiq(w, cfg, a).value.1.lp
    requires RemoveLiq(AddLiq(w, cfg, a).value.0, cfg, r).Ok?
    ensures var put := AddLiq(w, cfg, a).value.1;
            var got := RemoveLiq(AddLiq(w, cfg, a).value.0, cfg, r).value.1;
            && got.amount0 <= put.amount0 <= SortAdd(a).amount0
            && got.amount1 <= put.amount1 <= SortAdd(a).amount1
  {
    NoDegeneratePool(w, cfg, CallAddLiq(a));
    AddLiqEffect(w, cfg, a);
    SortedAdd(a);
    var (w1, put) := AddLiq(w, cfg, a).value;
    RemoveLiqEffect(w1, cfg, r);
    SoldBack(w, w1, RemoveLiq(w1, cfg, r).value.0, cfg, SortAdd(a), put, SortRemove(r), RemoveLiq(w1, cfg, r).value.1);
  }

  lemma {:induction false} SoldBack(w: World, w1: World, w2: World, cfg: Config, a: AddLiqIn, put: AddLiqOut,
                                    r: RemoveLiqIn, got: RemoveLiqOut)
    requires LiquidityAdded(w, w1, cfg, a, put) && LiquidityRemoved(w1, w2, cfg, r, got)
    requires r.tick0 == a.tick0 && r.tick1 == a.tick1 && r.lp == put.lp
    requires ViewOf(w, a.tick0, a.tick1).supply > 0
    ensures got.amount0 <= put.amount0 && got.amount1 <= put.amount1
  {
    hide PoolOk, Quotient, Sqrt, Fee, PairStr, Added, Removed, Recorded, ViewOf, PairShaped;
    var v := ViewOf(w, a.tick0, a.tick1);
    var s1 := v.supply + v.FeeDue();
    MintThenBurn(v.reserve0, s1, put.amount0, put.lp);
    MintThenBurn(v.reserve1, s1, put.amount1, put.lp);
  }

  // ---- prices

  /** `getAmountIn` asks for enough, and for at most one unit too much: one exactly
      when its division leaves no remainder. Both prices stay on the curve. */
  lemma {:induction false} PricesAreAdjoint(cfg: Config, amountOut: nat, reserveIn: nat, reserveOut: nat)
    requires GetAmountIn(cfg, amountOut, reserveIn, reserveOut).Ok?
    ensures var x := GetAmountIn(cfg, amountOut, reserveIn, reserveOut).value;
            var g := 1000 - cfg.swapFeeRate1000;
            && GetAmountOut(cfg, x, reserveIn, reserveOut).Ok?
            && GetAmountOut(cfg, x, reserveIn, reserveOut).value >= amountOut
            && OnCurve(reserveIn, reserveOut, g, x, amountOut)
            && forall x0: nat | x0 > 0 ::
                 GetAmountOut(cfg, x0, reserveIn, reserveOut).value >= amountOut <==>
                 x0 >= x - (if ExactInput(reserveIn, reserveOut, g, amountOut) then 1 else 0)
  {
    var g := 1000 - cfg.swapFeeRate1000;
    PositiveFactors(reserveOut - amountOut, g);
    forall x0: nat | x0 > 0
      ensures GetAmountOut(cfg, x0, reserveIn, reserveOut) == Ok(OutFor(reserveIn, reserveOut, g, x0))
    {
    }
    var x := InFor(reserveIn, reserveOut, g, amountOut);
    forall x0: nat
    {
      InIsLeast(reserveIn, reserveOut, g, amountOut, x0);
    }
    OutIsLargest(reserveIn, reserveOut, g, x, amountOut);
  }

  /** A swap of a fixed direction, whoever makes it and however it is priced. */
  predicate SwapOf(c: Call, tickIn: string, tickOut: string) {
    c.CallSwap? && c.swap.tickIn == tickIn && c.swap.tickOut == tickOut && User(c.swap.address)
  }

  /** A pool's holding of a tick. */
  function Reserve(w: World, tick: string, other: string): nat {
    w.book.BalanceIn(Slot(Swap, tick), PairStr(tick, other))
  }

  /** The holding that a swap from `tickIn` pays out of. */
  function GivenFrom(w: World, tickIn: string, tickOut: string): nat {
    w.book.BalanceIn(Slot(Swap, tickOut), PairStr(tickIn, tickOut))
  }

  /** From `w` to `w'` the pool took in and gave out amounts on the curve of `w`. */
  predicate TradedOnCurve(w: World, w': World, g: nat, tickIn: string, tickOut: string) {
    && Reserve(w', tickIn, tickOut) >= Reserve(w, tickIn, tickOut)
    && GivenFrom(w', tickIn, tickOut) <= GivenFrom(w, tickIn, tickOut)
    && OnCurve(Reserve(w, tickIn, tickOut), GivenFrom(w, tickIn, tickOut), g,
               Reserve(w', tickIn, tickOut) - Reserve(w, tickIn, tickOut),
               GivenFrom(w, tickIn, tickOut) - GivenFrom(w', tickIn, tickOut))
  }

  /** Consecutive swaps in one direction, by any users, exact in or exact out, failed
      ones included, stay together on the curve of the first reserves. */
  lemma {:induction false} SplitTradesStayOnCurve(w: World, cfg: Config, calls: seq<Call>, tickIn: string,
                                                  tickOut: string)
    requires WorldOk(w) && Plain(tickIn) && Plain(tickOut) && tickIn != tickOut && cfg.swapFeeRate1000 <= 1000
    requires forall c | c in calls :: SwapOf(c, tickIn, tickOut)
    ensures TradedOnCurve(w, Run(w, cfg, calls), 1000 - cfg.swapFeeRate1000, tickIn, tickOut)
    decreases |calls|
  {
    if calls == [] {
      NoTrade(w, 1000 - cfg.swapFeeRate1000, tickIn, tickOut);
    } else {
      var w1 := Step(w, cfg, calls[0]);
      TradeStep(w, cfg, calls[0], tickIn, tickOut);
      SplitTradesStayOnCurve(w1, cfg, calls[1..], tickIn, tickOut);
      TradesCompose(w, w1, Run(w1, cfg, calls[1..]), 1000 - cfg.swapFeeRate1000, tickIn, tickOut);
    }
  }

  lemma NoTrade(w: World, g: nat, tickIn: string, tickOut: string)
    ensures TradedOnCurve(w, w, g, tickIn, tickOut)
  {
    var rin, rout := Reserve(w, tickIn, tickOut), GivenFrom(w, tickIn, tickOut);
    assert (rin * 1000 + 0 * g) * (rout - 0) == 1000 * rin * rout;
  }

  lemma {:induction false} TradeStep(w: World, cfg: Config, c: Call, tickIn: string, tickOut: string)
    requires WorldOk(w) && Plain(tickIn) && Plain(tickOut) && tickIn != tickOut && cfg.swapFeeRate1000 <= 1000
    requires SwapOf(c, tickIn, tickOut)
    ensures WorldOk(Step(w, cfg, c))
    ensures TradedOnCurve(w, Step(w, cfg, c), 1000 - cfg.swapFeeRate1000, tickIn, tickOut)
  {
    StepKeeps(w, cfg, c);
    if Perform(w, cfg, c).Ok? {
      var x, y := SwapEffect(w, cfg, c.swap);
      OneTrade(w, Step(w, cfg, c), cfg, c.swap, x, y);
    } else {
      NoTrade(w, 1000 - cfg.swapFeeRate1000, tickIn, tickOut);
    }
  }

  lemma OneTrade(w: World, w': World, cfg: Config, p: SwapIn, x: nat, y: nat)
    requires Swapped(w, w', cfg, p, x, y) && User(p.address)
    requires Plain(p.tickIn) && Plain(p.tickOut) && p.tickIn != p.tickOut
    ensures TradedOnCurve(w, w', 1000 - cfg.swapFeeRate1000, p.tickIn, p.tickOut)
  {
    PairRoundTrip(p.tickIn, p.tickOut);
    var pair := PairStr(p.tickIn, p.tickOut);
    assert w'.book.BalanceIn(Slot(Swap, p.tickIn), pair) == w.book.BalanceIn(Slot(Swap, p.tickIn), pair) + x;
    assert w'.book.BalanceIn(Slot(Swap, p.tickOut), pair) == w.book.BalanceIn(Slot(Swap, p.tickOut), pair) - y;
  }

  lemma {:induction false} TradesCompose(w: World, w1: World, w': World, g: nat, tickIn: string, tickOut: string)
    requires g <= 1000
    requires TradedOnCurve(w, w1, g, tickIn, tickOut) && TradedOnCurve(w1, w', g, tickIn, tickOut)
    ensures TradedOnCurve(w, w', g, tickIn, tickOut)
  {
    var rin, rin1, rin' := Reserve(w, tickIn, tickOut), Reserve(w1, tickIn, tickOut), Reserve(w', tickIn, tickOut);
    var rout, rout1, rout' := GivenFrom(w, tickIn, tickOut), GivenFrom(w1, tickIn, tickOut),
                              GivenFrom(w', tickIn, tickOut);
    CurveComposes(rin, rout, g, rin1 - rin, rout - rout1, rin' - rin1, rout1 - rout');
  }

  /** No single exact-in swap of the total paid would have returned less. */
  predicate NoBetterThanOneSwap(w: World, w': World, cfg: Config, tickIn: string, tickOut: string) {
    var rin, rout := Reserve(w, tickIn, tickOut), GivenFrom(w, tickIn, tickOut);
    var paid, got := Reserve(w', tickIn, tickOut) - rin, rout - GivenFrom(w', tickIn, tickOut);
    paid > 0 && rin > 0 && rout > 0 ==>
      GetAmountOut(cfg, paid, rin, rout).Ok? && got <= GetAmountOut(cfg, paid, rin, rout).value
  }

  /** Splitting a trade never helps: whatever a series of swaps paid in total, one
      exact-in swap of that sum on the first reserves returns at least as much. */
  lemma {:induction false} SplittingATradeNeverHelps(w: World, cfg: Config, calls: seq<Call>, tickIn: string,
                                                     tickOut: string)
    requires WorldOk(w) && Plain(tickIn) && Plain(tickOut) && tickIn != tickOut && cfg.swapFeeRate1000 <= 1000
    requires forall c | c in calls :: SwapOf(c, tickIn, tickOut)
    ensures NoBetterThanOneSwap(w, Run(w, cfg, calls), cfg, tickIn, tickOut)
  {
    SplitTradesStayOnCurve(w, cfg, calls, tickIn, tickOut);
    FromCurve(w, Run(w, cfg, calls), cfg, tickIn, tickOut);
  }

  lemma {:induction false} FromCurve(w: World, w': World, cfg: Config, tickIn: string, tickOut: string)
    requires cfg.swapFeeRate1000 <= 1000 && TradedOnCurve(w, w', 1000 - cfg.swapFeeRate1000, tickIn, tickOut)
    ensures NoBetterThanOneSwap(w, w', cfg, tickIn, tickOut)
  {
    var rin, rout := Reserve(w, tickIn, tickOut), GivenFrom(w, tickIn, tickOut);
    var paid, got := Reserve(w', tickIn, tickOut) - rin, rout - GivenFrom(w', tickIn, tickOut);
    if paid > 0 && rin > 0 && rout > 0 {
      OneSwapPaysMost(cfg, rin, rout, paid, got);
    }
  }

  lemma OneSwapPaysMost(cfg: Config, rin: nat, rout: nat, paid: nat, got: nat)
    requires cfg.swapFeeRate1000 <= 1000 && paid > 0 && rin > 0 && rout > 0
    requires OnCurve(rin, rout, 1000 - cfg.swapFeeRate1000, paid, got)
    ensures GetAmountOut(cfg, paid, rin, rout).Ok? && got <= GetAmountOut(cfg, paid, rin, rout).value
  {
    OutIsLargest(rin, rout, 1000 - cfg.swapFeeRate1000, paid, got);
  }

  // ---- conservation

  /** What deposits and withdrawals issue of a tick, net, over a run. */
  function NetIssued(w: World, cfg: Config, calls: seq<Call>, tick: string): int
    decreases |calls|
  {
    if calls == [] then 0
    else
      var c := calls[0];
      var here :=
        if Perform(w, cfg, c).Err? then 0
        else if c.CallMint? && c.tick == tick then c.amount
        else if c.CallBurn? && c.tick == tick then -(c.amount as int)
        else 0;
      here + NetIssued(Step(w, cfg, c), cfg, calls[1..], tick)
  }

  /** Over all addresses and asset kinds, a base tick's total changes by deposits and
      withdrawals only: pools, swaps, sends and conversions conserve it. */
  lemma {:induction false} BaseTicksAreConserved(w: World, cfg: Config, calls: seq<Call>, tick: string)
    requires WorldOk(w) && Plain(tick)
    requires forall c | c in calls :: Admissible(c)
    ensures Run(w, cfg, calls).book.Total(tick) == w.book.Total(tick) + NetIssued(w, cfg, calls, tick)
    decreases |calls|
  {
    if calls != [] {
      StepKeeps(w, cfg, calls[0]);
      BaseTicksAreConserved(Step(w, cfg, calls[0]), cfg, calls[1..], tick);
      if Perform(w, cfg, calls[0]).Ok? {
        CallConserves(w, cfg, calls[0], tick);
      }
    }
  }

  lemma CallConserves(w: World, cfg: Config, c: Call, tick: string)
    requires WorldOk(w) && Plain(tick) && Admissible(c) && Perform(w, cfg, c).Ok?
    ensures Perform(w, cfg, c).value.book.Total(tick) == w.book.Total(tick) +
              (if c.CallMint? && c.tick == tick then c.amount else 0) -
              (if c.CallBurn? && c.tick == tick then c.amount else 0)
  {
    var w' := Perform(w, cfg, c).value;
    NoDegeneratePool(w, cfg, c);
    match c
    case CallAddLiq(p) =>
      AddLiqEffect(w, cfg, p);
      SortedAdd(p);
      SharesAreNoBaseTick(w.book, w'.book, p.tick0, p.tick1, tick);
    case CallRemoveLiq(p) =>
      RemoveLiqEffect(w, cfg, p);
      SharesAreNoBaseTick(w.book, w'.book, p.tick0, p.tick1, tick);
    case CallSwap(p) =>
      var _, _ := SwapEffect(w, cfg, p);
      SameSupplySameTotal(w.book, w'.book, tick);
    case CallDeployPool(p) =>
      TryCreateKeeps(w.book, PairStr(p.tick0, p.tick1));
      SameSupplySameTotal(w.book, w'.book, tick);
    case CallSend(p) =>
      TransferMoves(w.book, Slot(Swap, p.tick), p.from, p.to, p.amount);
      SameSupplySameTotal(w.book, w'.book, tick);
    case CallMint(a, t, n, k) =>
      TryCreateKeeps(w.book, t);
      SameSupplySameTotal(w.book, w.book.TryCreate(t), tick);
      MintIssues(w.book.TryCreate(t), Slot(k, t), a, n);
      IssueChangesTotal(w.book.TryCreate(t), w'.book, Slot(k, t), a, n, tick);
    case CallBurn(a, t, n, k) =>
      BurnIssues(w.book, Slot(k, t), a, n);
      IssueChangesTotal(w.book, w'.book, Slot(k, t), a, -(n as int), tick);
    case CallMove(t, f, a, n, fk, tk) => MoveConserves(w.book, t, f, a, n, fk, tk);
  }

  lemma SameSupplySameTotal(b: Book, b': Book, tick: string)
    requires forall k :: b'.SupplyIn(Slot(k, tick)) == b.SupplyIn(Slot(k, tick))
    ensures b'.Total(tick) == b.Total(tick)
  {
  }

  lemma SharesAreNoBaseTick(b: Book, b': Book, t0: string, t1: string, tick: string)
    requires Plain(tick) && Plain(t0) && Plain(t1)
    requires forall s | s != Slot(Swap, PairStr(t0, t1)) :: b'.SupplyIn(s) == b.SupplyIn(s)
    ensures b'.Total(tick) == b.Total(tick)
  {
    PairRoundTrip(t0, t1);
    SameSupplySameTotal(b, b', tick);
  }
}
