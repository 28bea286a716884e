/** src/contract.ts as the object it is. Each method runs the integer calculator and
    updates ledgers in place, and is proved to leave, return or throw exactly what
    ContractSpec says. When a call throws, the ledgers may be half-way through it, as
    in the source, but each is still consistent. */
module SwapContract {
  import opened Wrappers
  import opened BigNum
  import opened ContractUtils
  import opened Books
  import Spec = ContractSpec
  import opened AssetTable

  class Contract {
    const assets: Assets
    var kLast: map<string, nat>
    const config: Spec.Config

    ghost predicate Valid()
      reads this, assets, assets.ledgers.Values
    {
      assets.Valid()
    }

    ghost function World(): Spec.World
      reads this, assets, assets.ledgers.Values
    {
      Spec.World(assets.Value(), kLast)
    }

    constructor (assets: Assets, kLast: map<string, nat>, config: Spec.Config)
      requires assets.Valid()
      ensures Valid() && this.assets == assets && this.config == config
      ensures World() == Spec.World(assets.Value(), kLast)
    {
      this.assets := assets;
      this.kLast := kLast;
      this.config := config;
    }

    method DeployPool(p: Spec.DeployPoolIn) returns (r: Result<(), Error>)
      requires Valid()
      modifies assets
      ensures Valid() && fresh(assets.ledgers.Values - old(assets.ledgers.Values))
      ensures r.Ok? ==> Spec.DeployPool(old(World()), p) == Ok(World())
      ensures r.Err? ==> Spec.DeployPool(old(World()), p) == Err(r.error) && World() == old(World())
    {
      var _ :- Need(p.tick0 != p.tick1, DuplicateTick);
      var pair := PairStr(p.tick0, p.tick1);
      var _ :- Need(Slot(Swap, pair) !in assets.ledgers, PoolExisted);
      assets.TryCreate(pair);
      return Ok(());
    }

    method BalanceOf(tick: string, address: string) returns (r: Result<nat, Error>)
      requires Valid()
      ensures r == Spec.Balance(World(), tick, address)
    {
      var _ :- Need(Slot(Swap, tick) in assets.ledgers, Undefined);
      var ledger := assets.ledgers[Slot(Swap, tick)];
      assets.Entry(Slot(Swap, tick));
      return Ok(if address in ledger.balance then ledger.balance[address] else 0);
    }

    method SupplyOf(tick: string) returns (r: Result<nat, Error>)
      requires Valid()
      ensures r == Spec.Supply(World(), tick)
    {
      var _ :- Need(Slot(Swap, tick) in assets.ledgers, Undefined);
      assets.Entry(Slot(Swap, tick));
      return Ok(assets.ledgers[Slot(Swap, tick)].supply);
    }

    method FeeLiquidity(supply: nat, rootK: nat, rootKLast: nat) returns (r: Result<nat, Error>)
      ensures r == Spec.FeeLiquidity(supply, rootK, rootKLast)
    {
      var growth :- Subtract(rootK, rootKLast);
      var scale := Subtract(Spec.FEE_RATE, 1);
      var denominator := MultiplyAdd(rootK, scale.value, rootKLast);
      r := Divide(supply * growth, denominator);
    }

    method GetFeeLp(tick0: string, tick1: string) returns (r: Result<nat, Error>)
      requires Valid()
      ensures r == Spec.GetFeeLp(World(), tick0, tick1)
    {
      hide Assets.Valid, Assets.Value, Spec.Balance, Spec.Supply, Spec.FeeLiquidity, Sqrt;
      var pair := PairStr(tick0, tick1);
      var reserve0 :- BalanceOf(tick0, pair);
      var reserve1 :- BalanceOf(tick1, pair);
      if pair in kLast && kLast[pair] > 0 {
        var rootK := MultiplySqrt(reserve0, reserve1);
        var rootKLast := SquareRoot(kLast[pair]);
        if rootK > rootKLast {
          var supply :- SupplyOf(pair);
          r := FeeLiquidity(supply, rootK, rootKLast);
          return;
        }
      }
      return Ok(0);
    }

    method MintFee(tick0: string, tick1: string) returns (r: Result<(), Error>)
      requires Valid()
      modifies assets.ledgers.Values
      ensures Valid()
      ensures r.Ok? ==> Spec.MintFee(old(World()), config, tick0, tick1) == Ok(World())
      ensures r.Err? ==> Spec.MintFee(old(World()), config, tick0, tick1) == Err(r.error) && World() == old(World())
    {
      hide Assets.Valid, Assets.Value, Spec.GetFeeLp;
      var pair := PairStr(tick0, tick1);
      var liquidity :- GetFeeLp(tick0, tick1);
      if liquidity > 0 {
        var _ :- assets.MintAt(Slot(Swap, pair), config.feeTo, liquidity);
      }
      return Ok(());
    }

    method RecordK(tick0: string, tick1: string) returns (r: Result<(), Error>)
      requires Valid()
      modifies this`kLast
      ensures Valid()
      ensures r.Ok? ==> Spec.RecordK(old(World()), tick0, tick1) == Ok(World())
      ensures r.Err? ==> Spec.RecordK(old(World()), tick0, tick1) == Err(r.error) && World() == old(World())
    {
      hide Assets.Valid, Assets.Value;
      var pair := PairStr(tick0, tick1);
      var reserve0 :- BalanceOf(tick0, pair);
      var reserve1 :- BalanceOf(tick1, pair);
      kLast := kLast[pair := reserve0 * reserve1];
      return Ok(());
    }

    method LeastAccepted(expected: nat, slippage1000: nat) returns (r: Result<nat, Error>)
      ensures r == Spec.LeastAccepted(expected, slippage1000)
    {
      var keep :- Subtract(1000, slippage1000);
      r := MultiplyDivide(expected, keep, 1000);
    }

    /** Both deposits into the pool's accounts. */
    method TakeIn(p: Spec.AddLiqIn, amount0: nat, amount1: nat) returns (r: Result<(), Error>)
      requires Valid()
      modifies assets.ledgers.Values
      ensures Valid()
      ensures r.Ok? ==> Spec.TakeIn(old(assets.Value()), p, amount0, amount1) == Ok(assets.Value())
      ensures r.Err? ==> Spec.TakeIn(old(assets.Value()), p, amount0, amount1) == Err(r.error)
      ensures r.Err? ==> assets.Value() == Spec.ThrownTakeIn(old(assets.Value()), p, amount0)
    {
      hide Assets.Valid, Assets.Value;
      var pair := PairStr(p.tick0, p.tick1);
      var _ :- assets.TransferAt(Slot(Swap, p.tick0), p.address, pair, amount0);
      r := assets.TransferAt(Slot(Swap, p.tick1), p.address, pair, amount1);
    }

    method AcceptLp(lp: nat, expected: nat, slippage1000: nat) returns (r: Result<(), Error>)
      ensures r == Spec.AcceptLp(lp, expected, slippage1000)
    {
      var _ :- Need(lp > 0, InvalidAmount);
      var least :- LeastAccepted(expected, slippage1000);
      var _ :- Need(lp >= least, ExceedingSlippage);
      return Ok(());
    }

    method FirstShares(p: Spec.AddLiqIn, firstLp: nat) returns (r: Result<(), Error>)
      requires Valid()
      modifies assets.ledgers.Values
      ensures Valid()
      ensures r.Ok? ==> Spec.FirstShares(old(assets.Value()), p, firstLp) == Ok(assets.Value())
      ensures r.Err? ==> Spec.FirstShares(old(assets.Value()), p, firstLp) == Err(r.error)
      ensures r.Err? ==> assets.Value() == Spec.ThrownFirstShares(old(assets.Value()), p, firstLp)
    {
      hide Assets.Valid, Assets.Value;
      var pair := Slot(Swap, PairStr(p.tick0, p.tick1));
      var _ :- assets.MintAt(pair, p.address, firstLp);
      r := assets.MintAt(pair, Spec.LOCK, Spec.MINIMUM_LIQUIDITY);
    }

    /** The branch of `addLiq` for a pool without shares. */
    method AddLiqFirst(p: Spec.AddLiqIn) returns (r: Result<Spec.AddLiqOut, Error>)
      requires Valid()
      modifies this`kLast, assets.ledgers.Values
      ensures Valid()
      ensures r.Ok? ==> Spec.AddLiqFirst(old(World()), p) == Ok((World(), r.value))
      ensures r.Err? ==> Spec.AddLiqFirst(old(World()), p) == Err(r.error)
      ensures r.Err? ==> assets.Value() == Spec.ThrownAddLiqFirst(old(World()), p) && kLast == old(kLast)
    {
      hide Assets.Valid, Assets.Value, Sqrt, Spec.FirstShares, Spec.TakeIn, Spec.AcceptLp,
           Spec.ThrownFirstShares, Spec.ThrownTakeIn;
      var lp := MultiplySqrt(p.amount0, p.amount1);
      var firstLp :- Subtract(lp, Spec.MINIMUM_LIQUIDITY);
      var _ :- FirstShares(p, firstLp);
      var _ :- TakeIn(p, p.amount0, p.amount1);
      var _ :- AcceptLp(firstLp, p.expected, p.slippage1000);
      var _ :- RecordK(p.tick0, p.tick1);
      return Ok(Spec.AddLiqOut(firstLp, p.amount0, p.amount1));
    }

    method Adjust(amount0: nat, amount1: nat, reserve0: nat, reserve1: nat) returns (r: Result<(nat, nat), Error>)
      ensures r == Spec.Adjust(amount0, amount1, reserve0, reserve1)
    {
      var amount1Adjust :- MultiplyDivide(amount0, reserve1, reserve0);
      if amount1Adjust <= amount1 {
        return Ok((amount0, amount1Adjust));
      }
      Spec.NonZeroQuotient(amount0, reserve1, reserve0);
      var amount0Adjust := MultiplyDivide(amount1, reserve0, reserve1);
      return Ok((amount0Adjust.value, amount1));
    }

    method QuoteAdd(p: Spec.AddLiqIn) returns (r: Result<Spec.AddLiqOut, Error>)
      requires Valid()
      ensures r == Spec.QuoteAdd(World(), p)
    {
      hide Assets.Valid, Assets.Value, Spec.Adjust;
      var pair := PairStr(p.tick0, p.tick1);
      var poolLp :- SupplyOf(pair);
      var reserve0 :- BalanceOf(p.tick0, pair);
      var reserve1 :- BalanceOf(p.tick1, pair);
      var adjusted :- Adjust(p.amount0, p.amount1, reserve0, reserve1);
      var (amount0, amount1) := adjusted;
      var lp0 :- MultiplyDivide(amount0, poolLp, reserve0);
      var lp1 :- MultiplyDivide(amount1, poolLp, reserve1);
      return Ok(Spec.AddLiqOut(if lp0 < lp1 then lp0 else lp1, amount0, amount1));
    }

    /** The branch of `addLiq` for a pool that already has shares. */
    method AddLiqNext(p: Spec.AddLiqIn) returns (r: Result<Spec.AddLiqOut, Error>)
      requires Valid()
      modifies this`kLast, assets.ledgers.Values
      ensures Valid()
      ensures r.Ok? ==> Spec.AddLiqNext(old(World()), p) == Ok((World(), r.value))
      ensures r.Err? ==> Spec.AddLiqNext(old(World()), p) == Err(r.error)
      ensures r.Err? ==> assets.Value() == Spec.ThrownAddLiqNext(old(World()), p) && kLast == old(kLast)
    {
      hide Assets.Valid, Assets.Value, Book.Mint, Spec.QuoteAdd, Spec.TakeIn, Spec.AcceptLp,
           Spec.ThrownTakeIn;
      var out :- QuoteAdd(p);
      var _ :- assets.MintAt(Slot(Swap, PairStr(p.tick0, p.tick1)), p.address, out.lp);
      var _ :- TakeIn(p, out.amount0, out.amount1);
      var _ :- AcceptLp(out.lp, p.expected, p.slippage1000);
      var _ :- Need(out.amount1 == p.amount1 || out.amount0 == p.amount0, ServerError);
      var _ :- RecordK(p.tick0, p.tick1);
      return Ok(out);
    }

    method AddLiq(params: Spec.AddLiqIn) returns (r: Result<Spec.AddLiqOut, Error>)
      requires Valid()
      modifies this`kLast, assets.ledgers.Values
      ensures Valid()
      ensures r.Ok? ==> Spec.AddLiq(old(World()), config, params) == Ok((World(), r.value))
      ensures r.Err? ==> Spec.AddLiq(old(World()), config, params) == Err(r.error)
      ensures r.Err? ==> assets.Value() == Spec.ThrownAddLiq(old(World()), config, params) && kLast == old(kLast)
    {
      hide Spec.MintFee, Spec.AddLiqFirst, Spec.AddLiqNext, Spec.ThrownAddLiqFirst, Spec.ThrownAddLiqNext;
      var p := Spec.SortAdd(params);
      var _ :- Need(p.amount0 > 0, InvalidAmount);
      var _ :- Need(p.amount1 > 0, InvalidAmount);
      var _ :- Need(p.slippage1000 <= 1000, InvalidSlippage);
      var pair := PairStr(p.tick0, p.tick1);
      var _ :- Need(Slot(Swap, pair) in assets.ledgers, PoolNotFound);
      assert World().book.IsExist(pair);
      var _ :- MintFee(p.tick0, p.tick1);
      if assets.ledgers[Slot(Swap, pair)].supply == 0 {
        r := AddLiqFirst(p);
      } else {
        r := AddLiqNext(p);
      }
    }

    method QuoteRemove(p: Spec.RemoveLiqIn) returns (r: Result<Spec.RemoveLiqOut, Error>)
      requires Valid()
      ensures r == Spec.QuoteRemove(World(), p)
    {
      var pair := PairStr(p.tick0, p.tick1);
      var _ :- Need(Slot(Swap, pair) in assets.ledgers, PoolNotFound);
      var poolLp := assets.ledgers[Slot(Swap, pair)].supply;
      var reserve0 :- BalanceOf(p.tick0, pair);
      var reserve1 :- BalanceOf(p.tick1, pair);
      var acquire0 :- MultiplyDivide(p.lp, reserve0, poolLp);
      var acquire1 := MultiplyDivide(p.lp, reserve1, poolLp);
      return Ok(Spec.RemoveLiqOut(p.tick0, p.tick1, acquire0, acquire1.value));
    }

    method PayOut(p: Spec.RemoveLiqIn, out: Spec.RemoveLiqOut) returns (r: Result<(), Error>)
      requires Valid()
      modifies assets.ledgers.Values
      ensures Valid()
      ensures r.Ok? ==> Spec.PayOut(old(assets.Value()), p, out) == Ok(assets.Value())
      ensures r.Err? ==> Spec.PayOut(old(assets.Value()), p, out) == Err(r.error)
      ensures r.Err? ==> assets.Value() == Spec.ThrownPayOut(old(assets.Value()), p, out)
    {
      hide Assets.Valid, Assets.Value;
      var pair := PairStr(p.tick0, p.tick1);
      var _ :- assets.BurnAt(Slot(Swap, pair), p.address, p.lp);
      var _ :- assets.TransferAt(Slot(Swap, p.tick0), pair, p.address, out.amount0);
      r := assets.TransferAt(Slot(Swap, p.tick1), pair, p.address, out.amount1);
    }

    method AcceptPayOut(p: Spec.RemoveLiqIn, out: Spec.RemoveLiqOut) returns (r: Result<(), Error>)
      ensures r == Spec.AcceptPayOut(p, out)
    {
      var least0 :- LeastAccepted(p.amount0, p.slippage1000);
      var _ :- Need(out.amount0 >= least0, ExceedingSlippage);
      var least1 := LeastAccepted(p.amount1, p.slippage1000);
      var _ :- Need(out.amount1 >= least1.value, ExceedingSlippage);
      return Ok(());
    }

    method RemoveLiq(params: Spec.RemoveLiqIn) returns (r: Result<Spec.RemoveLiqOut, Error>)
      requires Valid()
      modifies this`kLast, assets.ledgers.Values
      ensures Valid()
      ensures r.Ok? ==> Spec.RemoveLiq(old(World()), config, params) == Ok((World(), r.value))
      ensures r.Err? ==> Spec.RemoveLiq(old(World()), config, params) == Err(r.error)
      ensures r.Err? ==> assets.Value() == Spec.ThrownRemoveLiq(old(World()), config, params) && kLast == old(kLast)
    {
      hide Assets.Valid, Assets.Value, Spec.MintFee, Spec.QuoteRemove, Spec.PayOut, Spec.AcceptPayOut,
           Spec.ThrownPayOut;
      var p := Spec.SortRemove(params);
      var _ :- Need(p.lp > 0, InvalidAmount);
      var _ :- Need(p.slippage1000 <= 1000, InvalidSlippage);
      var _ :- MintFee(p.tick0, p.tick1);
      var out :- QuoteRemove(p);
      var _ :- PayOut(p, out);
      var _ :- AcceptPayOut(p, out);
      var _ :- RecordK(p.tick0, p.tick1);
      return Ok(out);
    }

    method GetAmountOut(amountIn: nat, reserveIn: nat, reserveOut: nat) returns (r: Result<nat, Error>)
      ensures r == Spec.GetAmountOut(config, amountIn, reserveIn, reserveOut)
    {
      var _ :- Need(amountIn > 0, InvalidAmount);
      var _ :- Need(reserveIn > 0 && reserveOut > 0, InsufficientLiquidity);
      var g :- Subtract(1000, config.swapFeeRate1000);
      var amountInWithFee := amountIn * g;
      var denominator := MultiplyAdd(reserveIn, 1000, amountInWithFee);
      r := Divide(amountInWithFee * reserveOut, denominator);
    }

    method GetAmountIn(amountOut: nat, reserveIn: nat, reserveOut: nat) returns (r: Result<nat, Error>)
      ensures r == Spec.GetAmountIn(config, amountOut, reserveIn, reserveOut)
    {
      var _ :- Need(amountOut > 0, InvalidAmount);
      var _ :- Need(reserveIn > 0 && reserveOut > 0, InsufficientLiquidity);
      var numerator := reserveIn * amountOut * 1000;
      var g :- Subtract(1000, config.swapFeeRate1000);
      var denominator :- SubtractMultiply(reserveOut, amountOut, g);
      r := DivideAdd(numerator, denominator, 1);
    }

    method SwapAmounts(p: Spec.SwapIn, reserveIn: nat, reserveOut: nat) returns (r: Result<(nat, nat), Error>)
      ensures r == Spec.SwapAmounts(config, p, reserveIn, reserveOut)
    {
      hide Spec.GetAmountOut, Spec.GetAmountIn;
      if p.exactType == Spec.ExactIn {
        var amountOut :- GetAmountOut(p.amount, reserveIn, reserveOut);
        var amountOutMin := MultiplyDivide(p.expected, 1000, 1000 + p.slippage1000);
        var _ :- Need(amountOut >= amountOutMin.value, ExceedingSlippage);
        return Ok((p.amount, amountOut));
      } else {
        var amountIn :- GetAmountIn(p.amount, reserveIn, reserveOut);
        var amountInMax := MultiplyDivide(p.expected, 1000 + p.slippage1000, 1000);
        var _ :- Need(amountIn <= amountInMax.value, ExceedingSlippage);
        return Ok((amountIn, p.amount));
      }
    }

    method SwapTokens(p: Spec.SwapIn) returns (r: Result<nat, Error>)
      requires Valid()
      modifies assets.ledgers.Values
      ensures Valid()
      ensures r.Ok? ==> Spec.SwapTokens(old(World()), config, p) == Ok((World(), r.value))
      ensures r.Err? ==> Spec.SwapTokens(old(World()), config, p) == Err(r.error)
      ensures r.Err? ==> assets.Value() == Spec.ThrownSwap(old(World()), config, p)
    {
      hide Assets.Valid, Assets.Value, Spec.Balance, Spec.SwapAmounts, Book.SwapTicks;
      var _ :- Need(p.amount > 0, InvalidAmount);
      var _ :- Need(p.slippage1000 <= 1000, InvalidSlippage);
      var pair := PairStr(p.tickIn, p.tickOut);
      var reserveIn :- BalanceOf(p.tickIn, pair);
      var reserveOut :- BalanceOf(p.tickOut, pair);
      var amounts :- SwapAmounts(p, reserveIn, reserveOut);
      var (amountIn, amountOut) := amounts;
      var _ :- assets.SwapTicks(p.address, p.tickIn, p.tickOut, amountIn, amountOut);
      return Ok(if p.exactType == Spec.ExactIn then amountOut else amountIn);
    }

    method Send(p: Spec.SendIn) returns (r: Result<(), Error>)
      requires Valid()
      modifies assets.ledgers.Values
      ensures Valid()
      ensures r.Ok? ==> Spec.Send(old(World()), p) == Ok(World())
      ensures r.Err? ==> Spec.Send(old(World()), p) == Err(r.error) && World() == old(World())
    {
      hide Assets.Valid, Assets.Value;
      var _ :- Need(p.amount > 0, InvalidAmount);
      r := assets.TransferAt(Slot(Swap, p.tick), p.from, p.to, p.amount);
    }
  }
}
