/** src/contract.ts as functions on values: the state that one call of the swap
    contract leaves, what it returns, or the error it throws. */
module ContractSpec {
  import opened Wrappers
  import opened Arithmetic
  import opened BigNum
  import opened ContractUtils
  import opened Books

  datatype Config = Config(feeTo: string, swapFeeRate1000: nat)

  /** The contract's whole state: its assets and `status.kLast`. */
  datatype World = World(book: Book, kLast: map<string, nat>) {
    /** An absent entry is NaN in the source, which is never greater than zero. */
    function KLast(pair: string): nat {
      if pair in kLast then kLast[pair] else 0
    }
  }

  datatype ExactType = ExactIn | ExactOut
  datatype DeployPoolIn = DeployPoolIn(address: string, tick0: string, tick1: string)
  datatype AddLiqIn = AddLiqIn(address: string, tick0: string, tick1: string, amount0: nat, amount1: nat,
                               expected: nat, slippage1000: nat)
  datatype AddLiqOut = AddLiqOut(lp: nat, amount0: nat, amount1: nat)
  datatype RemoveLiqIn = RemoveLiqIn(address: string, lp: nat, tick0: string, tick1: string,
                                     amount0: nat, amount1: nat, slippage1000: nat)
  datatype RemoveLiqOut = RemoveLiqOut(tick0: string, tick1: string, amount0: nat, amount1: nat)
  datatype SwapIn = SwapIn(address: string, tickIn: string, tickOut: string, amount: nat, exactType: ExactType,
                           expected: nat, slippage1000: nat)
  datatype SendIn = SendIn(from: string, to: string, tick: string, amount: nat)

  const MINIMUM_LIQUIDITY: nat := 1000
  const FEE_RATE: nat := 6
  const LOCK := "0"

  function SortAdd(p: AddLiqIn): AddLiqIn {
    if SwapsTicks(p.tick0, p.tick1)
    then p.(tick0 := p.tick1, tick1 := p.tick0, amount0 := p.amount1, amount1 := p.amount0)
    else p
  }

  function SortRemove(p: RemoveLiqIn): RemoveLiqIn {
    if SwapsTicks(p.tick0, p.tick1)
    then p.(tick0 := p.tick1, tick1 := p.tick0, amount0 := p.amount1, amount1 := p.amount0)
    else p
  }

  /** The least amount accepted when `expected` may slip down. */
  function LeastAccepted(expected: nat, slippage1000: nat): Result<nat, Error> {
    var keep :- SubCal(1000, slippage1000);
    MulDivCal(expected, keep, 1000)
  }

  function Balance(w: World, tick: string, address: string): Result<nat, Error> {
    var l :- w.book.Get(Slot(Swap, tick));
    Ok(l.BalanceOf(address))
  }

  function Supply(w: World, tick: string): Result<nat, Error> {
    var l :- w.book.Get(Slot(Swap, tick));
    Ok(l.supply)
  }

  function DeployPool(w: World, p: DeployPoolIn): Result<World, Error> {
    var _ :- Need(p.tick0 != p.tick1, DuplicateTick);
    var pair := PairStr(p.tick0, p.tick1);
    var _ :- Need(!w.book.IsExist(pair), PoolExisted);
    Ok(w.(book := w.book.TryCreate(pair)))
  }

  /** The fee formula on a supply and the two floored roots. */
  function FeeLiquidity(supply: nat, rootK: nat, rootKLast: nat): Result<nat, Error> {
    var growth :- SubCal(rootK, rootKLast);
    DivCal(supply * growth, rootK * (FEE_RATE - 1) + rootKLast)
  }

  /** The liquidity owed to the protocol for the growth of k since `kLast`. */
  function GetFeeLp(w: World, tick0: string, tick1: string): Result<nat, Error> {
    var pair := PairStr(tick0, tick1);
    var reserve0 :- Balance(w, tick0, pair);
    var reserve1 :- Balance(w, tick1, pair);
    if w.KLast(pair) > 0 then
      var rootK := Sqrt(reserve0 * reserve1);
      var rootKLast := Sqrt(w.KLast(pair));
      if rootK > rootKLast then
        var supply :- Supply(w, pair);
        FeeLiquidity(supply, rootK, rootKLast)
      else Ok(0)
    else Ok(0)
  }

  function MintFee(w: World, cfg: Config, tick0: string, tick1: string): Result<World, Error> {
    var liquidity :- GetFeeLp(w, tick0, tick1);
    if liquidity > 0 then
      var book :- w.book.Mint(Slot(Swap, PairStr(tick0, tick1)), cfg.feeTo, liquidity);
      Ok(w.(book := book))
    else Ok(w)
  }

  /** The end of a liquidity event: `kLast` becomes the product of the reserves. */
  function RecordK(w: World, tick0: string, tick1: string): Result<World, Error> {
    var pair := PairStr(tick0, tick1);
    var reserve0 :- Balance(w, tick0, pair);
    var reserve1 :- Balance(w, tick1, pair);
    Ok(w.(kLast := w.kLast[pair := reserve0 * reserve1]))
  }

  /** Both deposits into the pool's accounts. */
  function TakeIn(b: Book, p: AddLiqIn, amount0: nat, amount1: nat): Result<Book, Error> {
    var pair := PairStr(p.tick0, p.tick1);
    var b1 :- b.Transfer(Slot(Swap, p.tick0), p.address, pair, amount0);
    b1.Transfer(Slot(Swap, p.tick1), p.address, pair, amount1)
  }

  /** A minted amount is accepted when it is positive and within the slippage. */
  function AcceptLp(lp: nat, expected: nat, slippage1000: nat): Result<(), Error> {
    var _ :- Need(lp > 0, InvalidAmount);
    var least :- LeastAccepted(expected, slippage1000);
    var _ :- Need(lp >= least, ExceedingSlippage);
    Ok(())
  }

  /** The shares of a first deposit: the caller's, and the locked ones. */
  function FirstShares(b: Book, p: AddLiqIn, firstLp: nat): Result<Book, Error> {
    var pair := Slot(Swap, PairStr(p.tick0, p.tick1));
    var b1 :- b.Mint(pair, p.address, firstLp);
    b1.Mint(pair, LOCK, MINIMUM_LIQUIDITY)
  }

  function AddLiqFirst(w: World, p: AddLiqIn): Result<(World, AddLiqOut), Error> {
    var lp := Sqrt(p.amount0 * p.amount1);
    var firstLp :- SubCal(lp, MINIMUM_LIQUIDITY);
    var b1 :- FirstShares(w.book, p, firstLp);
    var b2 :- TakeIn(b1, p, p.amount0, p.amount1);
    var _ :- AcceptLp(firstLp, p.expected, p.slippage1000);
    var w' :- RecordK(w.(book := b2), p.tick0, p.tick1);
    Ok((w', AddLiqOut(firstLp, p.amount0, p.amount1)))
  }

  /** The two deposits trimmed to the ratio of the reserves. */
  function Adjust(amount0: nat, amount1: nat, reserve0: nat, reserve1: nat): Result<(nat, nat), Error> {
    var amount1Adjust :- MulDivCal(amount0, reserve1, reserve0);
    if amount1Adjust <= amount1 then Ok((amount0, amount1Adjust))
    else
      NonZeroQuotient(amount0, reserve1, reserve0);
      Ok((Quotient(amount1 * reserve0, reserve1), amount1))
  }

  /** A positive quotient has a positive numerator, so the second division of the
      trimming never aborts. */
  lemma NonZeroQuotient(a: nat, b: nat, c: nat)
    requires c > 0 && Quotient(a * b, c) > 0
    ensures b > 0
  {
  }

  /** The deposits of a later `addLiq` and the shares they are worth. */
  function QuoteAdd(w: World, p: AddLiqIn): Result<AddLiqOut, Error> {
    var pair := PairStr(p.tick0, p.tick1);
    var poolLp :- Supply(w, pair);
    var reserve0 :- Balance(w, p.tick0, pair);
    var reserve1 :- Balance(w, p.tick1, pair);
    var (amount0, amount1) :- Adjust(p.amount0, p.amount1, reserve0, reserve1);
    var lp0 :- MulDivCal(amount0, poolLp, reserve0);
    var lp1 :- MulDivCal(amount1, poolLp, reserve1);
    Ok(AddLiqOut(if lp0 < lp1 then lp0 else lp1, amount0, amount1))
  }

  function AddLiqNext(w: World, p: AddLiqIn): Result<(World, AddLiqOut), Error> {
    var out :- QuoteAdd(w, p);
    var b1 :- w.book.Mint(Slot(Swap, PairStr(p.tick0, p.tick1)), p.address, out.lp);
    var b2 :- TakeIn(b1, p, out.amount0, out.amount1);
    var _ :- AcceptLp(out.lp, p.expected, p.slippage1000);
    var _ :- Need(out.amount1 == p.amount1 || out.amount0 == p.amount0, ServerError);
    var w' :- RecordK(w.(book := b2), p.tick0, p.tick1);
    Ok((w', out))
  }

  function AddLiq(w: World, cfg: Config, unsorted: AddLiqIn): Result<(World, AddLiqOut), Error> {
    var p := SortAdd(unsorted);
    var _ :- Need(p.amount0 > 0, InvalidAmount);
    var _ :- Need(p.amount1 > 0, InvalidAmount);
    var _ :- Need(p.slippage1000 <= 1000, InvalidSlippage);
    var pair := PairStr(p.tick0, p.tick1);
    var _ :- Need(w.book.IsExist(pair), PoolNotFound);
    var w1 :- MintFee(w, cfg, p.tick0, p.tick1);
    var supply :- Supply(w1, pair);
    if supply == 0 then AddLiqFirst(w1, p) else AddLiqNext(w1, p)
  }

  /** What `lp` shares are worth. */
  function QuoteRemove(w: World, p: RemoveLiqIn): Result<RemoveLiqOut, Error> {
    var pair := PairStr(p.tick0, p.tick1);
    var _ :- Need(w.book.IsExist(pair), PoolNotFound);
    var poolLp :- Supply(w, pair);
    var reserve0 :- Balance(w, p.tick0, pair);
    var reserve1 :- Balance(w, p.tick1, pair);
    var acquire0 :- MulDivCal(p.lp, reserve0, poolLp);
    Ok(RemoveLiqOut(p.tick0, p.tick1, acquire0, Quotient(p.lp * reserve1, poolLp)))
  }

  /** The burn of the shares, and both payments out of the pool's accounts. */
  function PayOut(b: Book, p: RemoveLiqIn, out: RemoveLiqOut): Result<Book, Error> {
    var pair := PairStr(p.tick0, p.tick1);
    var b1 :- b.Burn(Slot(Swap, pair), p.address, p.lp);
    var b2 :- b1.Transfer(Slot(Swap, p.tick0), pair, p.address, out.amount0);
    b2.Transfer(Slot(Swap, p.tick1), pair, p.address, out.amount1)
  }

  function AcceptPayOut(p: RemoveLiqIn, out: RemoveLiqOut): Result<(), Error> {
    var least0 :- LeastAccepted(p.amount0, p.slippage1000);
    var _ :- Need(out.amount0 >= least0, ExceedingSlippage);
    var least1 :- LeastAccepted(p.amount1, p.slippage1000);
    var _ :- Need(out.amount1 >= least1, ExceedingSlippage);
    Ok(())
  }

  function RemoveLiq(w: World, cfg: Config, unsorted: RemoveLiqIn): Result<(World, RemoveLiqOut), Error> {
    var p := SortRemove(unsorted);
    var _ :- Need(p.lp > 0, InvalidAmount);
    var _ :- Need(p.slippage1000 <= 1000, InvalidSlippage);
    var w1 :- MintFee(w, cfg, p.tick0, p.tick1);
    var out :- QuoteRemove(w1, p);
    var b :- PayOut(w1.book, p, out);
    var _ :- AcceptPayOut(p, out);
    var w' :- RecordK(w1.(book := b), p.tick0, p.tick1);
    Ok((w', out))
  }

  function GetAmountOut(cfg: Config, amountIn: nat, reserveIn: nat, reserveOut: nat): Result<nat, Error> {
    var _ :- Need(amountIn > 0, InvalidAmount);
    var _ :- Need(reserveIn > 0 && reserveOut > 0, InsufficientLiquidity);
    var g :- SubCal(1000, cfg.swapFeeRate1000);
    var amountInWithFee := amountIn * g;
    DivCal(amountInWithFee * reserveOut, reserveIn * 1000 + amountInWithFee)
  }

  function GetAmountIn(cfg: Config, amountOut: nat, reserveIn: nat, reserveOut: nat): Result<nat, Error> {
    var _ :- Need(amountOut > 0, InvalidAmount);
    var _ :- Need(reserveIn > 0 && reserveOut > 0, InsufficientLiquidity);
    var numerator := reserveIn * amountOut * 1000;
    var g :- SubCal(1000, cfg.swapFeeRate1000);
    var left :- SubCal(reserveOut, amountOut);
    var q :- DivCal(numerator, left * g);
    Ok(q + 1)
  }

  /** The amounts that a swap moves in and out. */
  function SwapAmounts(cfg: Config, p: SwapIn, reserveIn: nat, reserveOut: nat): Result<(nat, nat), Error> {
    match p.exactType
    case ExactIn =>
      var amountOut :- GetAmountOut(cfg, p.amount, reserveIn, reserveOut);
      var least :- MulDivCal(p.expected, 1000, 1000 + p.slippage1000);
      var _ :- Need(amountOut >= least, ExceedingSlippage);
      Ok((p.amount, amountOut))
    case ExactOut =>
      var amountIn :- GetAmountIn(cfg, p.amount, reserveIn, reserveOut);
      var most :- MulDivCal(p.expected, 1000 + p.slippage1000, 1000);
      var _ :- Need(amountIn <= most, ExceedingSlippage);
      Ok((amountIn, p.amount))
  }

  function SwapTokens(w: World, cfg: Config, p: SwapIn): Result<(World, nat), Error> {
    var _ :- Need(p.amount > 0, InvalidAmount);
    var _ :- Need(p.slippage1000 <= 1000, InvalidSlippage);
    var pair := PairStr(p.tickIn, p.tickOut);
    var reserveIn :- Balance(w, p.tickIn, pair);
    var reserveOut :- Balance(w, p.tickOut, pair);
    var (amountIn, amountOut) :- SwapAmounts(cfg, p, reserveIn, reserveOut);
    var b :- w.book.SwapTicks(p.address, p.tickIn, p.tickOut, amountIn, amountOut);
    Ok((w.(book := b), if p.exactType.ExactIn? then amountOut else amountIn))
  }

  function Send(w: World, p: SendIn): Result<World, Error> {
    var _ :- Need(p.amount > 0, InvalidAmount);
    var b :- w.book.Transfer(Slot(Swap, p.tick), p.from, p.to, p.amount);
    Ok(w.(book := b))
  }

  // ---- what a throw leaves

  /** The ledgers where a call stopped; `status.kLast` is written last and never by a
      call that throws. */
  function ThrownTakeIn(b: Book, p: AddLiqIn, amount0: nat): Book {
    b.Transfer(Slot(Swap, p.tick0), p.address, PairStr(p.tick0, p.tick1), amount0).ValueOr(b)
  }

  function ThrownFirstShares(b: Book, p: AddLiqIn, firstLp: nat): Book {
    b.Mint(Slot(Swap, PairStr(p.tick0, p.tick1)), p.address, firstLp).ValueOr(b)
  }

  function ThrownAddLiqFirst(w: World, p: AddLiqIn): Book {
    match SubCal(Sqrt(p.amount0 * p.amount1), MINIMUM_LIQUIDITY)
    case Err(_) => w.book
    case Ok(firstLp) =>
      match FirstShares(w.book, p, firstLp)
      case Err(_) => ThrownFirstShares(w.book, p, firstLp)
      case Ok(b1) => TakeIn(b1, p, p.amount0, p.amount1).ValueOr(ThrownTakeIn(b1, p, p.amount0))
  }

  function ThrownAddLiqNext(w: World, p: AddLiqIn): Book {
    match QuoteAdd(w, p)
    case Err(_) => w.book
    case Ok(out) =>
      match w.book.Mint(Slot(Swap, PairStr(p.tick0, p.tick1)), p.address, out.lp)
      case Err(_) => w.book
      case Ok(b1) => TakeIn(b1, p, out.amount0, out.amount1).ValueOr(ThrownTakeIn(b1, p, out.amount0))
  }

  function ThrownAddLiq(w: World, cfg: Config, unsorted: AddLiqIn): Book {
    var p := SortAdd(unsorted);
    var pair := PairStr(p.tick0, p.tick1);
    if p.amount0 == 0 || p.amount1 == 0 || p.slippage1000 > 1000 || !w.book.IsExist(pair) then w.book
    else
      match MintFee(w, cfg, p.tick0, p.tick1)
      case Err(_) => w.book
      case Ok(w1) => if Supply(w1, pair) == Ok(0) then ThrownAddLiqFirst(w1, p) else ThrownAddLiqNext(w1, p)
  }

  function ThrownPayOut(b: Book, p: RemoveLiqIn, out: RemoveLiqOut): Book {
    var pair := PairStr(p.tick0, p.tick1);
    match b.Burn(Slot(Swap, pair), p.address, p.lp)
    case Err(_) => b
    case Ok(b1) => b1.Transfer(Slot(Swap, p.tick0), pair, p.address, out.amount0).ValueOr(b1)
  }

  function ThrownRemoveLiq(w: World, cfg: Config, unsorted: RemoveLiqIn): Book {
    var p := SortRemove(unsorted);
    if p.lp == 0 || p.slippage1000 > 1000 then w.book
    else
      match MintFee(w, cfg, p.tick0, p.tick1)
      case Err(_) => w.book
      case Ok(w1) =>
        match QuoteRemove(w1, p)
        case Err(_) => w1.book
        case Ok(out) => PayOut(w1.book, p, out).ValueOr(ThrownPayOut(w1.book, p, out))
  }

  /** The amounts of a swap that gets as far as its transfers. */
  function SwapPriced(w: World, cfg: Config, p: SwapIn): Result<(nat, nat), Error> {
    var _ :- Need(p.amount > 0, InvalidAmount);
    var _ :- Need(p.slippage1000 <= 1000, InvalidSlippage);
    var reserveIn :- Balance(w, p.tickIn, PairStr(p.tickIn, p.tickOut));
    var reserveOut :- Balance(w, p.tickOut, PairStr(p.tickIn, p.tickOut));
    SwapAmounts(cfg, p, reserveIn, reserveOut)
  }

  function ThrownSwap(w: World, cfg: Config, p: SwapIn): Book {
    match SwapPriced(w, cfg, p)
    case Err(_) => w.book
    case Ok((amountIn, _)) =>
      w.book.Transfer(Slot(Swap, p.tickIn), p.address, PairStr(p.tickIn, p.tickOut), amountIn).ValueOr(w.book)
  }

  // ---- runs

  /** What the host may ask for: the five contract functions, and the asset
      operations around them. */
  datatype Call =
    | CallDeployPool(deploy: DeployPoolIn)
    | CallAddLiq(add: AddLiqIn)
    | CallRemoveLiq(remove: RemoveLiqIn)
    | CallSwap(swap: SwapIn)
    | CallSend(send: SendIn)
    | CallMint(address: string, tick: string, amount: nat, kind: AssetKind)
    | CallBurn(address: string, tick: string, amount: nat, kind: AssetKind)
    | CallMove(tick: string, from: string, to: string, amount: nat, fromKind: AssetKind, toKind: AssetKind)

  function Perform(w: World, cfg: Config, c: Call): Result<World, Error> {
    match c
    case CallDeployPool(p) => DeployPool(w, p)
    case CallAddLiq(p) => var r :- AddLiq(w, cfg, p); Ok(r.0)
    case CallRemoveLiq(p) => var r :- RemoveLiq(w, cfg, p); Ok(r.0)
    case CallSwap(p) => var r :- SwapTokens(w, cfg, p); Ok(r.0)
    case CallSend(p) => Send(w, p)
    case CallMint(a, t, n, k) => var b :- w.book.Deposit(a, t, n, k); Ok(w.(book := b))
    case CallBurn(a, t, n, k) => var b :- w.book.Burn(Slot(k, t), a, n); Ok(w.(book := b))
    case CallMove(t, f, a, n, fk, tk) => var b :- w.book.Move(t, f, a, n, fk, tk); Ok(w.(book := b))
  }

  /** A call that throws leaves no trace: the host works on a copy of the state. */
  function Step(w: World, cfg: Config, c: Call): World {
    Perform(w, cfg, c).ValueOr(w)
  }

  function Run(w: World, cfg: Config, calls: seq<Call>): World
    decreases |calls|
  {
    if calls == [] then w else Run(Step(w, cfg, calls[0]), cfg, calls[1..])
  }
}
