/** The calls around the pools: creating a pool, sending, depositing, withdrawing and moving assets, each with
    exactly when it goes through and what it changes; and the errors of the calls on a pool. */
module PoolCalls {
  import opened Wrappers
  import opened BigNum
  import opened ContractUtils
  import opened Ledgers
  import opened Books
  import opened ContractSpec
  import opened PoolEffects
  import opened PoolTerms

  // ---- names of pools

  /** The first differing character decides, and a proper prefix comes first. */
  ghost predicate FirstDifference(a: string, b: string, k: nat) {
    && k <= |a| && k < |b| && a[..k] == b[..k]
    && (k < |a| ==> a[k] < b[k])
  }

  lemma {:induction false} StrLessIs(a: string, b: string)
    ensures StrLess(a, b) <==> exists k: nat :: FirstDifference(a, b, k)
  {
    if b == "" {
    } else if a == "" {
      assert FirstDifference(a, b, 0);
    } else {
      StrLessIs(a[1..], b[1..]);
      if StrLess(a, b) {
        if a[0] < b[0] {
          assert FirstDifference(a, b, 0);
        } else {
          var k: nat :| FirstDifference(a[1..], b[1..], k);
          assert a[..k + 1] == [a[0]] + a[1..][..k] && b[..k + 1] == [b[0]] + b[1..][..k];
          assert FirstDifference(a, b, k + 1);
        }
      }
      forall k: nat | FirstDifference(a, b, k)
        ensures StrLess(a, b)
      {
        if k > 0 {
          assert a[0] == a[..k][0] && b[0] == b[..k][0];
          assert a[1..][..k - 1] == a[..k][1..] && b[1..][..k - 1] == b[..k][1..];
          assert FirstDifference(a[1..], b[1..], k - 1);
        }
      }
    }
  }

  /** A pool is named by its ticks, the lesser one first, with a slash between them. */
  lemma PairStrIs(a: string, b: string)
    ensures a != "" && StrLess(a, b) ==> PairStr(a, b) == PairStr(b, a) == a + "/" + b
    ensures a == "" || b == "" || a == b ==> PairStr(a, b) == a + "/" + b
  {
    StrLessTotal(a, b);
  }

  /** A pair string of plain ticks is decoded exactly when its ticks are in order. */
  lemma PairStructIs(a: string, b: string)
    requires Plain(a) && Plain(b)
    ensures PairStruct(a + "/" + b) == if StrLess(b, a) then Err(ServerError) else Ok((a, b))
  {
    var pair := a + "/" + b;
    assert pair[..4] == a && pair[5..] == b;
    StrLessTotal(a, b);
  }

  lemma PairOfOrdiAndSats()
    ensures PairStr("ordi", "sats") == PairStr("sats", "ordi") == "ordi/sats"
  {
    assert StrLess("ordi", "sats");
    PairStrIs("ordi", "sats");
  }

  // ---- creating a pool

  /** `deployPool` goes through exactly for two different ticks without a pool; then the pool exists, with an
      empty ledger of every kind that had none, and nothing else has changed. */
  lemma DeployPoolEffect(w: World, p: DeployPoolIn)
    requires Swap in w.book.kinds
    ensures var pair := PairStr(p.tick0, p.tick1);
            && (DeployPool(w, p).Ok? <==> p.tick0 != p.tick1 && Slot(Swap, pair) !in w.book.ledgers)
            && (p.tick0 == p.tick1 ==> DeployPool(w, p) == Err(DuplicateTick))
            && (p.tick0 != p.tick1 && Slot(Swap, pair) in w.book.ledgers ==> DeployPool(w, p) == Err(PoolExisted))
    ensures DeployPool(w, p).Ok? ==> Deployed(w, DeployPool(w, p).value, PairStr(p.tick0, p.tick1))
  {
  }

  ghost predicate Deployed(w: World, w': World, pair: string) {
    && w'.kLast == w.kLast && w'.book.kinds == w.book.kinds
    && Slot(Swap, pair) in w'.book.ledgers
    && (forall s | s in w'.book.ledgers :: s in w.book.ledgers || (s.tick == pair && s.kind in w.book.kinds))
    && (forall s | s in w.book.ledgers :: s in w'.book.ledgers && w'.book.ledgers[s] == w.book.ledgers[s])
    && (forall k | k in w.book.kinds ::
          && Slot(k, pair) in w'.book.ledgers
          && (Slot(k, pair) !in w.book.ledgers ==> w'.book.ledgers[Slot(k, pair)] == Ledger(map[], 0)))
  }

  /** A pool is created once, under whichever name. */
  lemma DeployPoolOnce(w: World, p: DeployPoolIn, q: DeployPoolIn)
    requires Swap in w.book.kinds && DeployPool(w, p).Ok? && p.tick0 != "" && p.tick1 != ""
    requires {q.tick0, q.tick1} == {p.tick0, p.tick1}
    ensures DeployPool(DeployPool(w, p).value, q) == Err(PoolExisted)
  {
    PairStrSymmetric(p.tick0, p.tick1);
    assert q.tick0 in {p.tick0, p.tick1} && q.tick1 in {p.tick0, p.tick1};
    assert p.tick0 in {q.tick0, q.tick1} && p.tick1 in {q.tick0, q.tick1};
    assert PairStr(q.tick0, q.tick1) == PairStr(p.tick0, p.tick1);
    DeployPoolEffect(w, p);
    DeployPoolEffect(DeployPool(w, p).value, q);
  }

  // ---- sending, and the assets around the contract

  /** `send` moves swap assets, exactly when the sender holds the positive amount. */
  lemma {:induction false} SendEffect(w: World, p: SendIn)
    requires w.book.Valid()
    ensures Send(w, p).Ok? <==>
            Slot(Swap, p.tick) in w.book.ledgers && 0 < p.amount <= w.book.BalanceIn(Slot(Swap, p.tick), p.from)
    ensures Send(w, p).Ok? ==>
              && Send(w, p).value.kLast == w.kLast
              && Moved(w.book, Send(w, p).value.book, Slot(Swap, p.tick), p.from, p.to, p.amount)
    ensures p.amount == 0 ==> Send(w, p) == Err(InvalidAmount)
    ensures p.amount > 0 && Slot(Swap, p.tick) !in w.book.ledgers ==> Send(w, p) == Err(Undefined)
    ensures Slot(Swap, p.tick) in w.book.ledgers && p.amount > w.book.BalanceIn(Slot(Swap, p.tick), p.from) ==>
              Send(w, p) == Err(InsufficientAmount)
  {
    OperationsSucceed(w.book, Slot(Swap, p.tick), p.from, p.to, p.amount);
    if Send(w, p).Ok? {
      TransferMoves(w.book, Slot(Swap, p.tick), p.from, p.to, p.amount);
    }
  }

  /** The error of a ledger operation that does not go through: a missing ledger, no amount, or too little held. */
  lemma {:induction false} OperationErrors(b: Book, s: Slot, from: string, to: string, amount: nat)
    requires b.Valid()
    ensures s !in b.ledgers ==>
              b.Transfer(s, from, to, amount) == b.Mint(s, from, amount) == b.Burn(s, from, amount) == Err(Undefined)
    ensures s in b.ledgers && amount == 0 ==>
              b.Transfer(s, from, to, amount) == b.Mint(s, from, amount) == b.Burn(s, from, amount) ==
              Err(InvalidAmount)
    ensures s in b.ledgers && amount > b.BalanceIn(s, from) ==>
              b.Transfer(s, from, to, amount) == b.Burn(s, from, amount) == Err(InsufficientAmount)
  {
  }

  /** A deposit goes through for every positive amount of a known kind, and credits one account of it. */
  lemma {:induction false} DepositEffect(b: Book, address: string, tick: string, amount: nat, kind: AssetKind)
    requires b.Valid() && kind in b.kinds
    ensures b.Deposit(address, tick, amount, kind).Ok? <==> amount > 0
    ensures amount > 0 ==>
              var b' := b.Deposit(address, tick, amount, kind).value;
              && b'.Valid() && b'.kinds == b.kinds
              && b'.ledgers.Keys == b.ledgers.Keys + (set k | k in b.kinds :: Slot(k, tick))
              && (forall s :: b'.SupplyIn(s) == b.SupplyIn(s) + if s == Slot(kind, tick) then amount else 0)
              && (forall s, a :: b'.BalanceIn(s, a) ==
                                 b.BalanceIn(s, a) + if s == Slot(kind, tick) && a == address then amount else 0)
  {
    TryCreateKeeps(b, tick);
    OperationsSucceed(b.TryCreate(tick), Slot(kind, tick), address, address, amount);
    if amount > 0 {
      MintIssues(b.TryCreate(tick), Slot(kind, tick), address, amount);
    }
  }

  /** A move between kinds goes through exactly when the first account holds the positive amount and the second
      ledger exists; `MoveConserves` says what it changes. */
  lemma {:induction false} MoveSucceeds(b: Book, tick: string, from: string, to: string, amount: nat, fk: AssetKind,
                                        tk: AssetKind)
    requires b.Valid()
    ensures b.Move(tick, from, to, amount, fk, tk).Ok? <==>
            && Slot(fk, tick) in b.ledgers && Slot(tk, tick) in b.ledgers
            && 0 < amount <= b.BalanceIn(Slot(fk, tick), from)
  {
    OperationsSucceed(b, Slot(fk, tick), from, to, amount);
    var burnt := b.Burn(Slot(fk, tick), from, amount);
    if burnt.Ok? {
      BurnIssues(b, Slot(fk, tick), from, amount);
      OperationsSucceed(burnt.value, Slot(tk, tick), to, to, amount);
    }
  }

  // ---- errors of the calls on a pool

  /** The checks of `swap`, in order. */
  lemma {:induction false} SwapErrors(w: World, cfg: Config, p: SwapIn)
    ensures p.amount == 0 ==> SwapTokens(w, cfg, p) == Err(InvalidAmount)
    ensures p.amount > 0 && p.slippage1000 > 1000 ==> SwapTokens(w, cfg, p) == Err(InvalidSlippage)
    ensures p.amount > 0 && p.slippage1000 <= 1000 && !(w.book.IsExist(p.tickIn) && w.book.IsExist(p.tickOut)) ==>
              SwapTokens(w, cfg, p) == Err(Undefined)
    ensures p.amount > 0 && p.slippage1000 <= 1000 && w.book.IsExist(p.tickIn) && w.book.IsExist(p.tickOut) &&
            (w.book.BalanceIn(Slot(Swap, p.tickIn), PairStr(p.tickIn, p.tickOut)) == 0 ||
             w.book.BalanceIn(Slot(Swap, p.tickOut), PairStr(p.tickIn, p.tickOut)) == 0) ==>
              SwapTokens(w, cfg, p) == Err(InsufficientLiquidity)
  {
    hide PairStr;
  }

  /** Of two swaps that differ in what they expect, and one goes through, the other does as well or exceeds
      its slippage. */
  lemma {:induction false} SwapSlips(w: World, cfg: Config, p: SwapIn, expected: nat)
    requires SwapTokens(w, cfg, p.(expected := expected)).Ok?
    ensures SwapTokens(w, cfg, p).Ok? || SwapTokens(w, cfg, p) == Err(ExceedingSlippage)
  {
    hide PairStr, GetAmountOut, GetAmountIn, Book.SwapTicks;
  }

  /** The checks of `addLiq`, in order. */
  lemma {:induction false} AddLiqErrors(w: World, cfg: Config, a: AddLiqIn)
    ensures a.amount0 == 0 || a.amount1 == 0 ==> AddLiq(w, cfg, a) == Err(InvalidAmount)
    ensures a.amount0 > 0 && a.amount1 > 0 && a.slippage1000 > 1000 ==> AddLiq(w, cfg, a) == Err(InvalidSlippage)
    ensures a.amount0 > 0 && a.amount1 > 0 && a.slippage1000 <= 1000 && a.tick0 != "" && a.tick1 != "" &&
            !w.book.IsExist(PairStr(a.tick0, a.tick1)) ==>
              AddLiq(w, cfg, a) == Err(PoolNotFound)
  {
    hide MintFee, AddLiqFirst, AddLiqNext;
    if a.tick0 != "" && a.tick1 != "" {
      PairStrSymmetric(a.tick0, a.tick1);
    }
  }

  lemma {:induction false} AddLiqSlips(w: World, cfg: Config, a: AddLiqIn, expected: nat)
    requires AddLiq(w, cfg, a.(expected := expected)).Ok?
    ensures AddLiq(w, cfg, a).Ok? || AddLiq(w, cfg, a) == Err(ExceedingSlippage)
  {
    hide PairStr, MintFee, FirstShares, TakeIn, RecordK, Sqrt, Adjust, LeastAccepted;
    LeastAcceptedIs(0, a.expected, a.slippage1000);
    var p := SortAdd(a);
    var w1 := MintFee(w, cfg, p.tick0, p.tick1).value;
    assert QuoteAdd(w1, p.(expected := expected)) == QuoteAdd(w1, p);
    SameDeposit(w1.book, p, expected);
  }

  lemma SameDeposit(b: Book, p: AddLiqIn, expected: nat)
    ensures forall lp :: FirstShares(b, p.(expected := expected), lp) == FirstShares(b, p, lp)
    ensures forall b1, x, y :: TakeIn(b1, p.(expected := expected), x, y) == TakeIn(b1, p, x, y)
  {
    hide PairStr, Book.Transfer, Book.Mint;
  }

  /** The checks of `removeLiq`; the pool is looked up after the fee. */
  lemma {:induction false} RemoveLiqErrors(w: World, cfg: Config, r: RemoveLiqIn)
    ensures r.lp == 0 ==> RemoveLiq(w, cfg, r) == Err(InvalidAmount)
    ensures r.lp > 0 && r.slippage1000 > 1000 ==> RemoveLiq(w, cfg, r) == Err(InvalidSlippage)
    ensures r.lp > 0 && r.slippage1000 <= 1000 && r.tick0 != "" && r.tick1 != "" &&
            w.book.IsExist(r.tick0) && w.book.IsExist(r.tick1) &&
            !w.book.IsExist(PairStr(r.tick0, r.tick1)) && w.KLast(PairStr(r.tick0, r.tick1)) == 0 ==>
              RemoveLiq(w, cfg, r) == Err(PoolNotFound)
  {
    hide PayOut, AcceptPayOut, Sqrt;
    if r.tick0 != "" && r.tick1 != "" {
      PairStrSymmetric(r.tick0, r.tick1);
    }
  }

  lemma {:induction false} RemoveLiqSlips(w: World, cfg: Config, r: RemoveLiqIn, amount0: nat, amount1: nat)
    requires RemoveLiq(w, cfg, r.(amount0 := amount0, amount1 := amount1)).Ok?
    ensures RemoveLiq(w, cfg, r).Ok? || RemoveLiq(w, cfg, r) == Err(ExceedingSlippage)
  {
    hide PairStr, MintFee, RecordK, Book.Burn, Book.Transfer, LeastAccepted;
    LeastAcceptedIs(0, r.amount0, r.slippage1000);
    LeastAcceptedIs(0, r.amount1, r.slippage1000);
  }

  // ---- what a throw leaves, step by step

  /** A later deposit that throws has minted its shares, unless they are none; then it has made as many of the
      two transfers as the caller could pay. `b1` is the book with the shares. */
  lemma {:induction false} NextThrown(w: World, p: AddLiqIn) returns (b1: Book)
    requires w.book.Valid() && PoolTicks(p.tick0, p.tick1) && QuoteAdd(w, p).Ok?
    ensures var out, b' := QuoteAdd(w, p).value, ThrownAddLiqNext(w, p);
            var pair := PairStr(p.tick0, p.tick1);
            var pays0 := 0 < out.amount0 <= w.book.BalanceIn(Slot(Swap, p.tick0), p.address);
            var pays1 := 0 < out.amount1 <= w.book.BalanceIn(Slot(Swap, p.tick1), p.address);
            && (out.lp == 0 ==> b' == w.book)
            && (out.lp > 0 ==>
                  && Issued(w.book, b1, Slot(Swap, pair), p.address, out.lp)
                  && (!pays0 ==> b' == b1)
                  && (pays0 && !pays1 ==> Moved(b1, b', Slot(Swap, p.tick0), p.address, pair, out.amount0))
                  && (pays0 && pays1 ==> TakenIn(b1, b', p, out.amount0, out.amount1)))
  {
    hide PairStr, QuoteAdd, Book.Mint, Book.Transfer;
    var out, pair := QuoteAdd(w, p).value, PairStr(p.tick0, p.tick1);
    QuoteNeedsLedgers(w, p);
    OperationsSucceed(w.book, Slot(Swap, pair), p.address, p.address, out.lp);
    b1 := w.book;
    if out.lp > 0 {
      b1 := w.book.Mint(Slot(Swap, pair), p.address, out.lp).value;
      MintIssues(w.book, Slot(Swap, pair), p.address, out.lp);
      SharesAreNoTokens(w.book, b1, p, out.lp);
      TransfersThrown(b1, p, out.amount0, out.amount1);
    }
  }

  lemma QuoteNeedsLedgers(w: World, p: AddLiqIn)
    ensures QuoteAdd(w, p).Ok? ==>
              w.book.IsExist(PairStr(p.tick0, p.tick1)) && w.book.IsExist(p.tick0) && w.book.IsExist(p.tick1)
  {
    hide PairStr, Adjust;
  }

  lemma SharesAreNoTokens(b: Book, b1: Book, p: AddLiqIn, lp: nat)
    requires PoolTicks(p.tick0, p.tick1) && Issued(b, b1, Slot(Swap, PairStr(p.tick0, p.tick1)), p.address, lp)
    ensures forall a :: b1.BalanceIn(Slot(Swap, p.tick0), a) == b.BalanceIn(Slot(Swap, p.tick0), a)
    ensures forall a :: b1.BalanceIn(Slot(Swap, p.tick1), a) == b.BalanceIn(Slot(Swap, p.tick1), a)
  {
    PairRoundTrip(p.tick0, p.tick1);
  }

  /** As many of the two deposits as can be paid. */
  lemma {:induction false} TransfersThrown(b: Book, p: AddLiqIn, amount0: nat, amount1: nat)
    requires b.Valid() && PoolTicks(p.tick0, p.tick1) && b.IsExist(p.tick0) && b.IsExist(p.tick1)
    ensures var b' := TakeIn(b, p, amount0, amount1).ValueOr(ThrownTakeIn(b, p, amount0));
            var pair := PairStr(p.tick0, p.tick1);
            var pays0 := 0 < amount0 <= b.BalanceIn(Slot(Swap, p.tick0), p.address);
            var pays1 := 0 < amount1 <= b.BalanceIn(Slot(Swap, p.tick1), p.address);
            && (!pays0 ==> b' == b)
            && (pays0 && !pays1 ==> Moved(b, b', Slot(Swap, p.tick0), p.address, pair, amount0))
            && (pays0 && pays1 ==> TakenIn(b, b', p, amount0, amount1))
  {
    hide PairStr, Book.Transfer;
    var pair := PairStr(p.tick0, p.tick1);
    TakesIn(b, p, amount0, amount1);
    OperationsSucceed(b, Slot(Swap, p.tick0), p.address, pair, amount0);
    if b.Transfer(Slot(Swap, p.tick0), p.address, pair, amount0).Ok? {
      TransferMoves(b, Slot(Swap, p.tick0), p.address, pair, amount0);
    }
    if TakeIn(b, p, amount0, amount1).Ok? {
      TakeInEffect(b, p, amount0, amount1);
    }
  }

  /** A first deposit that throws after its root has minted the caller's shares when they are positive, then the
      locked ones, and then pays in like a later one. */
  lemma {:induction false} FirstThrown(w: World, p: AddLiqIn) returns (b1: Book, b2: Book)
    requires w.book.Valid() && PoolTicks(p.tick0, p.tick1)
    requires w.book.IsExist(p.tick0) && w.book.IsExist(p.tick1) && w.book.IsExist(PairStr(p.tick0, p.tick1))
    ensures var b', pair, root := ThrownAddLiqFirst(w, p), PairStr(p.tick0, p.tick1), Sqrt(p.amount0 * p.amount1);
            var pays0 := 0 < p.amount0 <= w.book.BalanceIn(Slot(Swap, p.tick0), p.address);
            var pays1 := 0 < p.amount1 <= w.book.BalanceIn(Slot(Swap, p.tick1), p.address);
            && (root <= 1000 ==> b' == w.book)
            && (root > 1000 ==>
                  && Issued(w.book, b1, Slot(Swap, pair), p.address, root - 1000)
                  && Issued(b1, b2, Slot(Swap, pair), "0", 1000)
                  && (!pays0 ==> b' == b2)
                  && (pays0 && !pays1 ==> Moved(b2, b', Slot(Swap, p.tick0), p.address, pair, p.amount0))
                  && (pays0 && pays1 ==> TakenIn(b2, b', p, p.amount0, p.amount1)))
  {
    hide PairStr, Book.Mint, Book.Transfer, Sqrt, TakeIn, ThrownTakeIn;
    var pair, root := Slot(Swap, PairStr(p.tick0, p.tick1)), Sqrt(p.amount0 * p.amount1);
    b1, b2 := w.book, w.book;
    if root >= 1000 {
      OperationsSucceed(w.book, pair, p.address, p.address, root - 1000);
      if root > 1000 {
        b1 := w.book.Mint(pair, p.address, root - 1000).value;
        MintIssues(w.book, pair, p.address, root - 1000);
        SharesAreNoTokens(w.book, b1, p, root - 1000);
        OperationsSucceed(b1, pair, LOCK, LOCK, 1000);
        b2 := b1.Mint(pair, LOCK, 1000).value;
        MintIssues(b1, pair, LOCK, 1000);
        SharesAreNoTokens(b1, b2, p.(address := LOCK), 1000);
        TransfersThrown(b2, p, p.amount0, p.amount1);
      }
    }
  }

  /** A removal that throws has burnt the shares when the caller holds them, and then made as many of the two
      payments as are positive and covered. */
  lemma {:induction false} PayOutThrown(b: Book, p: RemoveLiqIn, out: RemoveLiqOut) returns (b1: Book)
    requires b.Valid() && PoolTicks(p.tick0, p.tick1) && User(p.address)
    requires b.IsExist(p.tick0) && b.IsExist(p.tick1) && b.IsExist(PairStr(p.tick0, p.tick1))
    ensures var b', pair := ThrownPayOut(b, p, out), PairStr(p.tick0, p.tick1);
            var holds := 0 < p.lp <= b.BalanceIn(Slot(Swap, pair), p.address);
            var pays0 := 0 < out.amount0 <= b.BalanceIn(Slot(Swap, p.tick0), pair);
            && (!holds ==> b' == b)
            && (holds ==> Issued(b, b1, Slot(Swap, pair), p.address, -(p.lp as int)))
            && (holds && !pays0 ==> b' == b1)
            && (holds && pays0 ==> Moved(b1, b', Slot(Swap, p.tick0), pair, p.address, out.amount0))
  {
    hide PairStr, Book.Burn, Book.Transfer;
    var pair := PairStr(p.tick0, p.tick1);
    OperationsSucceed(b, Slot(Swap, pair), p.address, p.address, p.lp);
    b1 := b;
    if b.Burn(Slot(Swap, pair), p.address, p.lp).Ok? {
      b1 := b.Burn(Slot(Swap, pair), p.address, p.lp).value;
      BurnIssues(b, Slot(Swap, pair), p.address, p.lp);
      PairRoundTrip(p.tick0, p.tick1);
      OperationsSucceed(b1, Slot(Swap, p.tick0), pair, p.address, out.amount0);
      if b1.Transfer(Slot(Swap, p.tick0), pair, p.address, out.amount0).Ok? {
        TransferMoves(b1, Slot(Swap, p.tick0), pair, p.address, out.amount0);
      }
    }
  }

  /** A swap that throws has changed nothing, unless it was priced and the caller could pay: then it has paid. */
  lemma {:induction false} SwapThrown(w: World, cfg: Config, p: SwapIn)
    requires w.book.Valid()
    ensures var b', priced := ThrownSwap(w, cfg, p), SwapPriced(w, cfg, p);
            if priced.Ok? && 0 < priced.value.0 <= w.book.BalanceIn(Slot(Swap, p.tickIn), p.address)
            then Moved(w.book, b', Slot(Swap, p.tickIn), p.address, PairStr(p.tickIn, p.tickOut), priced.value.0)
            else b' == w.book
  {
    hide PairStr, SwapAmounts, Book.Transfer;
    var priced, pair := SwapPriced(w, cfg, p), PairStr(p.tickIn, p.tickOut);
    if priced.Ok? {
      OperationsSucceed(w.book, Slot(Swap, p.tickIn), p.address, pair, priced.value.0);
      if w.book.Transfer(Slot(Swap, p.tickIn), p.address, pair, priced.value.0).Ok? {
        TransferMoves(w.book, Slot(Swap, p.tickIn), p.address, pair, priced.value.0);
      }
    }
  }
}
