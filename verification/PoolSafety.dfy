/** Safety of every pool over whole runs: any users, any pools, any order of calls,
    calls that fail included. */
module PoolSafety {
  import opened Arithmetic
  import opened BigNum
  import opened ContractUtils
  import opened Books
  import opened PoolMath
  import opened ContractSpec
  import opened PoolEffects

  /** A pool is either untouched, or it holds its locked shares and the square of its
      supply is below the recorded k, which is below the current k. */
  predicate PoolOk(v: Pool) {
    if v.supply == 0 then v.kLast == 0
    else v.locked >= MINIMUM_LIQUIDITY && v.supply * v.supply <= v.kLast <= v.K()
  }

  /** One share is worth at least what it was worth, measured by k at the last
      liquidity event over the square of the supply. */
  predicate ShareKept(v: Pool, v': Pool) {
    v.supply > 0 ==> v'.supply > 0 && v'.kLast * (v.supply * v.supply) >= v.kLast * (v'.supply * v'.supply)
  }

  ghost predicate WorldOk(w: World) {
    && w.book.Valid()
    && (forall t | Plain(t) :: !w.book.IsExist(PairStr(t, t)))
    && (forall t0, t1 | PoolTicks(t0, t1) :: PoolOk(ViewOf(w, t0, t1)))
  }

  /** A world before any pool was deployed, whatever its token balances are. */
  ghost predicate Initial(w: World) {
    && w.book.Valid()
    && w.kLast == map[]
    && forall s | s in w.book.ledgers :: s.kind == Swap ==> !PairShaped(s.tick)
  }

  /** Calls as the host issues them: signed by users, on plain ticks. Only `send` may
      also name a pool's shares. */
  predicate Admissible(c: Call) {
    match c
    case CallDeployPool(p) => Plain(p.tick0) && Plain(p.tick1)
    case CallAddLiq(p) => User(p.address) && Plain(p.tick0) && Plain(p.tick1)
    case CallRemoveLiq(p) => User(p.address) && Plain(p.tick0) && Plain(p.tick1)
    case CallSwap(p) => User(p.address) && Plain(p.tickIn) && Plain(p.tickOut)
    case CallSend(p) => User(p.from)
    case CallMint(a, t, n, k) => Plain(t)
    case CallBurn(a, t, n, k) => User(a) && Plain(t)
    case CallMove(t, f, a, n, fk, tk) => User(f) && Plain(t)
  }

  // ---- one pool through one event

  lemma {:induction false} AddKeepsPool(v: Pool, v': Pool, out: AddLiqOut)
    requires PoolOk(v) && v.supply > 0 && v.reserve0 > 0 && v.reserve1 > 0
    requires Deposited(v, v', out, 0)
    requires out.lp == SmallerShare(v.(supply := v.supply + v.FeeDue()), out.amount0, out.amount1)
    ensures PoolOk(v') && ShareKept(v, v')
  {
    var s1 := v.supply + v.FeeDue();
    FeeEvent(v);
    MintKeepsShare(v.reserve0, v.reserve1, s1, out.amount0, out.amount1, out.lp);
    ProportionalShare(v.reserve0, v.reserve1, s1, v'.reserve0, v'.reserve1, v'.supply);
    EventKeepsPool(v, s1, v');
  }

  /** What `lp` shares of `supply` are paid out of a reserve. */
  function Paid(lp: nat, reserve: nat, supply: nat): nat
    requires supply > 0
  {
    Quotient(lp * reserve, supply)
  }

  lemma {:induction false} RemoveKeepsPool(v: Pool, s1: nat, v': Pool, lp: nat)
    requires PoolOk(v) && v.supply > 0
    requires v.K() * (v.supply * v.supply) >= v.kLast * (s1 * s1)
    requires lp + v.locked <= s1 && v'.supply == s1 - lp
    requires v'.locked >= v.locked && v'.kLast == v'.K()
    requires v'.reserve0 == v.reserve0 - Paid(lp, v.reserve0, s1)
    requires v'.reserve1 == v.reserve1 - Paid(lp, v.reserve1, s1)
    ensures PoolOk(v') && ShareKept(v, v')
  {
    BurnRatio(v, s1, v', lp);
    EventKeepsPool(v, s1, v');
  }

  lemma {:induction false} BurnRatio(v: Pool, s1: nat, v': Pool, lp: nat)
    requires s1 > 0 && lp <= s1 && v'.supply == s1 - lp
    requires v'.reserve0 == v.reserve0 - Paid(lp, v.reserve0, s1)
    requires v'.reserve1 == v.reserve1 - Paid(lp, v.reserve1, s1)
    ensures v'.K() * (s1 * s1) >= v.K() * (v'.supply * v'.supply)
  {
    BurnKeepsShare(v.reserve0, s1, lp);
    BurnKeepsShare(v.reserve1, s1, lp);
    ProportionalShare(v.reserve0, v.reserve1, s1, v'.reserve0, v'.reserve1, v'.supply);
  }

  /** The protocol fee leaves the supply under the root of k, and gives back only
      growth that happened since the last event. */
  lemma {:induction false} FeeEvent(v: Pool)
    requires PoolOk(v) && v.supply > 0
    ensures var s1 := v.supply + v.FeeDue();
            v.K() * (v.supply * v.supply) >= v.kLast * (s1 * s1)
  {
    if v.FeeDue() > 0 {
      FeeKeepsShare(v.supply, v.K(), v.kLast);
    } else {
      MulMonotone(v.kLast, v.K(), v.supply * v.supply);
    }
  }

  lemma EventKeepsPool(v: Pool, s1: nat, v': Pool)
    requires PoolOk(v) && v.supply > 0 && s1 > 0 && v'.supply > 0
    requires v.K() * (v.supply * v.supply) >= v.kLast * (s1 * s1)
    requires v'.K() * (s1 * s1) >= v.K() * (v'.supply * v'.supply)
    requires v'.kLast == v'.K() && v'.locked >= v.locked
    ensures PoolOk(v') && ShareKept(v, v')
  {
    SupplyUnderRoot(v.kLast, v.supply, v.K(), s1);
    SupplyUnderRoot(v.K(), s1, v'.K(), v'.supply);
    ShareTransitive(v.kLast, v.supply, v.K(), s1, v'.K(), v'.supply);
  }

  lemma FirstDepositIsOk(v: Pool, v': Pool, out: AddLiqOut)
    requires PoolOk(v) && v.supply == 0
    requires Deposited(v, v', out, MINIMUM_LIQUIDITY)
    requires out.lp + MINIMUM_LIQUIDITY == Sqrt(out.amount0 * out.amount1)
    ensures PoolOk(v')
  {
    NoFeeWithoutSupply(v);
    MulBoth(out.amount0, v'.reserve0, out.amount1, v'.reserve1);
  }

  /** Gifts and swaps: the supply and the recorded k stay, k does not fall. */
  predicate Grew(v: Pool, v': Pool) {
    v'.supply == v.supply && v'.kLast == v.kLast && v'.locked >= v.locked && v'.K() >= v.K()
  }

  lemma GrowthKeepsPool(v: Pool, v': Pool)
    requires PoolOk(v) && Grew(v, v')
    ensures PoolOk(v') && ShareKept(v, v')
  {
  }

  lemma {:induction false} QuietGrows(w: World, w': World, t0: string, t1: string)
    requires Quiet(w, w', PairStr(t0, t1))
    ensures Grew(ViewOf(w, t0, t1), ViewOf(w', t0, t1))
  {
    var v, v' := ViewOf(w, t0, t1), ViewOf(w', t0, t1);
    MulBoth(v.reserve0, v'.reserve0, v.reserve1, v'.reserve1);
  }

  // ---- one call, every pool

  /** What a call may do to a pool. */
  ghost predicate PoolStep(w: World, w': World, t0: string, t1: string) {
    var v, v' := ViewOf(w, t0, t1), ViewOf(w', t0, t1);
    PoolOk(v) ==> PoolOk(v') && ShareKept(v, v')
  }

  lemma {:induction false} AddLiqStep(w: World, cfg: Config, a: AddLiqIn, t0: string, t1: string)
    requires w.book.Valid() && AddLiq(w, cfg, a).Ok? && User(a.address)
    requires Plain(a.tick0) && Plain(a.tick1) && a.tick0 != a.tick1 && PoolTicks(t0, t1)
    ensures PoolStep(w, AddLiq(w, cfg, a).value.0, t0, t1)
  {
    AddLiqEffect(w, cfg, a);
    SortedAdd(a);
    AddedStep(w, AddLiq(w, cfg, a).value.0, cfg, SortAdd(a), AddLiq(w, cfg, a).value.1, t0, t1);
  }

  lemma FirstIsKept(v: Pool, v': Pool)
    requires v.supply == 0
    ensures ShareKept(v, v')
  {
  }

  lemma {:induction false} AddedStep(w: World, w': World, cfg: Config, p: AddLiqIn, out: AddLiqOut, t0: string,
                                     t1: string)
    requires LiquidityAdded(w, w', cfg, p, out)
    requires PoolTicks(p.tick0, p.tick1) && PoolTicks(t0, t1) && User(p.address)
    ensures PoolStep(w, w', t0, t1)
  {
    hide PoolOk, ShareKept, Sqrt, Fee, Quiet, Grew, Added, Recorded, ViewOf, PairStr, StrLess, Quotient;
    var v, v' := ViewOf(w, t0, t1), ViewOf(w', t0, t1);
    PairRoundTrip(t0, t1);
    PairRoundTrip(p.tick0, p.tick1);
    if (t0, t1) == (p.tick0, p.tick1) {
      if PoolOk(v) {
        if v.supply == 0 {
          FirstDepositIsOk(v, v', out);
          FirstIsKept(v, v');
        } else {
          AddKeepsPool(v, v', out);
        }
      }
    } else {
      AddedIsQuiet(w, w', cfg, p, out, PairStr(t0, t1));
      QuietGrows(w, w', t0, t1);
      if PoolOk(v) {
        GrowthKeepsPool(v, v');
      }
    }
  }

  lemma {:induction false} AddedIsQuiet(w: World, w': World, cfg: Config, p: AddLiqIn, out: AddLiqOut, q: string)
    requires LiquidityAdded(w, w', cfg, p, out) && User(p.address)
    requires PairShaped(q) && Plain(p.tick0) && Plain(p.tick1) && q != PairStr(p.tick0, p.tick1)
    ensures Quiet(w, w', q)
  {
    OthersAfterAdd(w.book, w'.book, cfg, p, out, ViewOf(w, p.tick0, p.tick1).FeeDue(),
                   if ViewOf(w, p.tick0, p.tick1).supply == 0 then MINIMUM_LIQUIDITY else 0, q);
  }

  lemma OthersAfterAdd(b: Book, b': Book, cfg: Config, p: AddLiqIn, out: AddLiqOut, fee: nat, lock: nat, q: string)
    requires Added(b, b', cfg, p, out, fee, lock) && User(p.address)
    requires PairShaped(q) && Plain(p.tick0) && Plain(p.tick1) && q != PairStr(p.tick0, p.tick1)
    ensures forall s :: b'.BalanceIn(s, q) >= b.BalanceIn(s, q)
    ensures b'.BalanceIn(Slot(Swap, q), LOCK) >= b.BalanceIn(Slot(Swap, q), LOCK)
    ensures b'.SupplyIn(Slot(Swap, q)) == b.SupplyIn(Slot(Swap, q))
  {
  }

  lemma {:induction false} RemoveLiqStep(w: World, cfg: Config, a: RemoveLiqIn, t0: string, t1: string)
    requires w.book.Valid() && RemoveLiq(w, cfg, a).Ok? && User(a.address)
    requires Plain(a.tick0) && Plain(a.tick1) && a.tick0 != a.tick1 && PoolTicks(t0, t1)
    ensures PoolStep(w, RemoveLiq(w, cfg, a).value.0, t0, t1)
  {
    RemoveLiqEffect(w, cfg, a);
    RemovedStep(w, RemoveLiq(w, cfg, a).value.0, cfg, SortRemove(a), RemoveLiq(w, cfg, a).value.1, t0, t1);
  }

  lemma {:induction false} RemovedStep(w: World, w': World, cfg: Config, p: RemoveLiqIn, out: RemoveLiqOut,
                                       t0: string, t1: string)
    requires LiquidityRemoved(w, w', cfg, p, out)
    requires PoolTicks(p.tick0, p.tick1) && PoolTicks(t0, t1) && User(p.address)
    ensures PoolStep(w, w', t0, t1)
  {
    hide PoolOk, ShareKept, Sqrt, Fee, Quiet, Grew;
    var v, v' := ViewOf(w, t0, t1), ViewOf(w', t0, t1);
    PairRoundTrip(t0, t1);
    PairRoundTrip(p.tick0, p.tick1);
    if (t0, t1) == (p.tick0, p.tick1) {
      NoFeeUnlessSupplied(v);
      if PoolOk(v) {
        FeeEvent(v);
        RemoveKeepsPool(v, v.supply + v.FeeDue(), v', p.lp);
      }
    } else {
      RemovedIsQuiet(w, w', cfg, p, out, PairStr(t0, t1));
      QuietGrows(w, w', t0, t1);
      if PoolOk(v) {
        GrowthKeepsPool(v, v');
      }
    }
  }

  lemma RemovedIsQuiet(w: World, w': World, cfg: Config, p: RemoveLiqIn, out: RemoveLiqOut, q: string)
    requires LiquidityRemoved(w, w', cfg, p, out) && User(p.address)
    requires PairShaped(q) && Plain(p.tick0) && Plain(p.tick1) && q != PairStr(p.tick0, p.tick1)
    ensures Quiet(w, w', q)
  {
    OthersAfterRemove(w.book, w'.book, cfg, p, out, ViewOf(w, p.tick0, p.tick1).FeeDue(), q);
  }

  lemma OthersAfterRemove(b: Book, b': Book, cfg: Config, p: RemoveLiqIn, out: RemoveLiqOut, fee: nat, q: string)
    requires Removed(b, b', cfg, p, out, fee) && User(p.address)
    requires PairShaped(q) && Plain(p.tick0) && Plain(p.tick1) && q != PairStr(p.tick0, p.tick1)
    ensures forall s :: b'.BalanceIn(s, q) >= b.BalanceIn(s, q)
    ensures b'.BalanceIn(Slot(Swap, q), LOCK) >= b.BalanceIn(Slot(Swap, q), LOCK)
    ensures b'.SupplyIn(Slot(Swap, q)) == b.SupplyIn(Slot(Swap, q))
  {
  }

  lemma {:induction false} SwapStep(w: World, cfg: Config, p: SwapIn, t0: string, t1: string)
    requires w.book.Valid() && SwapTokens(w, cfg, p).Ok? && User(p.address)
    requires Plain(p.tickIn) && Plain(p.tickOut) && PoolTicks(t0, t1)
    ensures PoolStep(w, SwapTokens(w, cfg, p).value.0, t0, t1)
    ensures Grew(ViewOf(w, t0, t1), ViewOf(SwapTokens(w, cfg, p).value.0, t0, t1))
  {
    var amountIn, amountOut := SwapEffect(w, cfg, p);
    SwappedStep(w, SwapTokens(w, cfg, p).value.0, cfg, p, amountIn, amountOut, t0, t1);
  }

  lemma {:induction false} SwappedStep(w: World, w': World, cfg: Config, p: SwapIn, amountIn: nat, amountOut: nat,
                                       t0: string, t1: string)
    requires Swapped(w, w', cfg, p, amountIn, amountOut) && User(p.address)
    requires Plain(p.tickIn) && Plain(p.tickOut) && PoolTicks(t0, t1)
    ensures PoolStep(w, w', t0, t1)
    ensures Grew(ViewOf(w, t0, t1), ViewOf(w', t0, t1))
  {
    var v, v' := ViewOf(w, t0, t1), ViewOf(w', t0, t1);
    PairRoundTrip(t0, t1);
    PairRoundTrip(p.tickIn, p.tickOut);
    StrLessTotal(t0, t1);
    if SortTicks(p.tickIn, p.tickOut) == (t0, t1) {
      SwapView(w, w', cfg, p, amountIn, amountOut);
    } else {
      assert Quiet(w, w', PairStr(t0, t1));
      QuietGrows(w, w', t0, t1);
    }
    if PoolOk(v) {
      GrowthKeepsPool(v, v');
    }
  }

  /** A movement out of a user's account takes nothing from a pool. */
  lemma UserMoveIsQuiet(w: World, b': Book, s: Slot, from: string, to: string, amount: nat, q: string)
    requires Moved(w.book, b', s, from, to, amount) && User(from) && PairShaped(q)
    ensures Quiet(w, w.(book := b'), q)
  {
  }

  lemma UserIssueIsQuiet(w: World, b': Book, s: Slot, address: string, amount: int, q: string)
    requires Issued(w.book, b', s, address, amount) && Plain(s.tick) && PairShaped(q)
    requires amount < 0 ==> User(address)
    ensures Quiet(w, w.(book := b'), q)
  {
  }

  lemma QuietTransitive(w: World, w1: World, w': World, q: string)
    requires Quiet(w, w1, q) && Quiet(w1, w', q)
    ensures Quiet(w, w', q)
  {
  }

  lemma CreateIsQuiet(w: World, tick: string, q: string)
    requires w.book.Valid()
    ensures w.book.TryCreate(tick).Valid() && Quiet(w, w.(book := w.book.TryCreate(tick)), q)
  {
    TryCreateKeeps(w.book, tick);
  }

  lemma MintCallIsQuiet(w: World, a: string, t: string, n: nat, k: AssetKind, q: string)
    requires w.book.Valid() && Plain(t) && PairShaped(q) && w.book.Deposit(a, t, n, k).Ok?
    ensures w.book.Deposit(a, t, n, k).value.Valid()
    ensures Quiet(w, w.(book := w.book.Deposit(a, t, n, k).value), q)
  {
    CreateIsQuiet(w, t, q);
    var w1 := w.(book := w.book.TryCreate(t));
    MintIssues(w1.book, Slot(k, t), a, n);
    UserIssueIsQuiet(w1, w1.book.Mint(Slot(k, t), a, n).value, Slot(k, t), a, n, q);
    QuietTransitive(w, w1, w.(book := w.book.Deposit(a, t, n, k).value), q);
  }

  lemma BurnCallIsQuiet(w: World, a: string, s: Slot, n: nat, q: string)
    requires w.book.Valid() && Plain(s.tick) && User(a) && PairShaped(q) && w.book.Burn(s, a, n).Ok?
    ensures w.book.Burn(s, a, n).value.Valid()
    ensures Quiet(w, w.(book := w.book.Burn(s, a, n).value), q)
  {
    BurnIssues(w.book, s, a, n);
    UserIssueIsQuiet(w, w.book.Burn(s, a, n).value, s, a, -(n as int), q);
  }

  lemma MoveCallIsQuiet(w: World, t: string, f: string, a: string, n: nat, fk: AssetKind, tk: AssetKind, q: string)
    requires w.book.Valid() && Plain(t) && User(f) && PairShaped(q) && w.book.Move(t, f, a, n, fk, tk).Ok?
    ensures w.book.Move(t, f, a, n, fk, tk).value.Valid()
    ensures Quiet(w, w.(book := w.book.Move(t, f, a, n, fk, tk).value), q)
  {
    BurnCallIsQuiet(w, f, Slot(fk, t), n, q);
    var w1 := w.(book := w.book.Burn(Slot(fk, t), f, n).value);
    MintIssues(w1.book, Slot(tk, t), a, n);
    UserIssueIsQuiet(w1, w1.book.Mint(Slot(tk, t), a, n).value, Slot(tk, t), a, n, q);
    QuietTransitive(w, w1, w.(book := w.book.Move(t, f, a, n, fk, tk).value), q);
  }

  /** Deployments, gifts and asset movements never take from a pool. */
  lemma OtherCallsAreQuiet(w: World, cfg: Config, c: Call, q: string)
    requires w.book.Valid() && Admissible(c) && Perform(w, cfg, c).Ok? && PairShaped(q)
    requires !c.CallAddLiq? && !c.CallRemoveLiq? && !c.CallSwap?
    ensures Perform(w, cfg, c).value.book.Valid()
    ensures Quiet(w, Perform(w, cfg, c).value, q)
  {
    match c
    case CallDeployPool(p) => CreateIsQuiet(w, PairStr(p.tick0, p.tick1), q);
    case CallSend(p) =>
      TransferMoves(w.book, Slot(Swap, p.tick), p.from, p.to, p.amount);
      UserMoveIsQuiet(w, Perform(w, cfg, c).value.book, Slot(Swap, p.tick), p.from, p.to, p.amount, q);
    case CallMint(a, t, n, k) => MintCallIsQuiet(w, a, t, n, k, q);
    case CallBurn(a, t, n, k) => BurnCallIsQuiet(w, a, Slot(k, t), n, q);
    case CallMove(t, f, a, n, fk, tk) => MoveCallIsQuiet(w, t, f, a, n, fk, tk, q);
  }
}
