/** The event strings of the BRC-20 indexer lose nothing: every amount, supply and
    balance that it ever reaches is one that the ticker's own decimals can express. */
module IndexGrain {
  import opened Wrappers
  import opened Numbers
  import opened IndexTables
  import opened IndexSpec

  /** The amounts of an event are expressible with the decimals of its ticker. */
  ghost predicate EventGrain(e: Event, decimals: nat)
    requires decimals <= 18
  {
    match e
    case Deploy(_, _, _, maxSupply, d, limit, _) => d == decimals && Granular(maxSupply, d) && Granular(limit, d)
    case Mint(_, _, _, amount, _) => Granular(amount, decimals)
    case Inscribe(_, _, _, amount) => Granular(amount, decimals)
    case Move(_, _, _, _, amount, _) => Granular(amount, decimals)
  }

  ghost predicate BalanceGrain(b: Balance, decimals: nat)
    requires decimals <= 18
  {
    Granular(b.overall, decimals) && Granular(b.available, decimals)
  }

  ghost predicate TickerGrain(k: Ticker) {
    && k.decimals <= 18
    && Granular(k.maxSupply, k.decimals) && Granular(k.limit, k.decimals) && Granular(k.remaining, k.decimals)
  }

  ghost predicate GrainOk(t: Tables) {
    && (forall tick | tick in t.tickers :: TickerGrain(t.tickers[tick]))
    && (forall r | r in t.events :: r.event.tick in t.tickers && EventGrain(r.event, t.tickers[r.event.tick].decimals))
    && (forall r | r in t.balances :: r.tick in t.tickers && BalanceGrain(r.balance, t.tickers[r.tick].decimals))
  }

  // ---- where amounts come from

  lemma ZeroIsGranular(decimals: nat)
    requires decimals <= 18
    ensures Granular(0, decimals)
  {
    assert IsMultiple(0, 0, Pow10(18 - decimals));
  }

  lemma AmountIsGranular(field: Option<string>, decimals: nat)
    requires decimals <= 18
    ensures ParseAmount(field, decimals).Some? ==> Granular(ParseAmount(field, decimals).value, decimals)
    ensures ParsePositive(field, decimals).Some? ==> Granular(ParsePositive(field, decimals).value, decimals)
  {
    hide Extended, Granular;
    if field.Some? && IsPositiveNumberWithDot(field.value) {
      ParsedIsGranular(field.value, decimals);
    }
  }

  lemma MaxAmountIsGranular(decimals: nat)
    requires decimals <= 18
    ensures Granular(MAX_AMOUNT, decimals)
  {
    ShiftedIsGranular(18446744073709551615, 18, decimals);
    assert Pow10(18) == UNIT by {
      assert Pow10(9) == 1_000_000_000;
      Pow10Sum(9, 9);
    }
  }

  lemma DeployIsGranular(height: nat, js: Content, tick: string, originalTick: string, deployer: string)
    ensures var e := DeployEvent(height, js, tick, originalTick, deployer);
            e.Some? ==> EventGrain(e.value, e.value.decimals)
  {
    hide Granular, ParseAmount, ParsePositive;
    if ParseDecimals(js.decimals).Some? {
      var d := ParseDecimals(js.decimals).value;
      AmountIsGranular(js.maxSupply, d);
      AmountIsGranular(js.lim, d);
      MaxAmountIsGranular(d);
    }
  }

  lemma TakenIsGranular(env: Env, height: nat, w: Work, row: TransferRow)
    requires GrainOk(w.tables) && DecimalsOk(w.tables)
    ensures var e := Taken(env, height, w, row);
            e.Some? ==>
              EventGrain(e.value, if e.value.Deploy? then e.value.decimals else w.tables.tickers[e.value.tick].decimals)
  {
    hide Granular, ParsePositive, DeployEvent, Lower, LastBalance;
    var id := row.inscriptionId;
    if id in env.catalog && env.catalog[id].content.tick.Some? {
      var js := env.catalog[id].content;
      var tick := Lower(js.tick.value);
      DeployIsGranular(height, js, tick, js.tick.value, row.newPkScript);
      if tick in w.tables.tickers {
        assert TickerGrain(w.tables.tickers[tick]);
        AmountIsGranular(js.amt, w.tables.tickers[tick].decimals);
      }
    }
  }

  // ---- what keeps it

  lemma {:induction false} LastIsGranular(rows: seq<BalanceRow>, pkscript: string, tick: string, decimals: nat)
    requires decimals <= 18
    requires forall r | r in rows && r.tick == tick :: BalanceGrain(r.balance, decimals)
    ensures BalanceGrain(LastBalance(rows, pkscript, tick), decimals)
  {
    ZeroIsGranular(decimals);
    if rows != [] {
      LastIsGranular(rows[..|rows| - 1], pkscript, tick, decimals);
    }
  }

  lemma CreditGrain(t: Tables, height: nat, pkscript: string, tick: string, overall: int, available: int, eventId: int)
    requires GrainOk(t) && tick in t.tickers && TickerGrain(t.tickers[tick])
    requires Granular(overall, t.tickers[tick].decimals) && Granular(available, t.tickers[tick].decimals)
    ensures GrainOk(Credit(t, height, pkscript, tick, overall, available, eventId))
  {
    hide Granular;
    var d := t.tickers[tick].decimals;
    LastIsGranular(t.balances, pkscript, tick, d);
    var b := LastBalance(t.balances, pkscript, tick);
    GranularArithmetic(b.overall, overall, d);
    GranularArithmetic(b.available, available, d);
  }

  lemma LoggedGrain(t: Tables, height: nat, id: string, e: Event)
    requires GrainOk(t) && e.tick in t.tickers && TickerGrain(t.tickers[e.tick])
    requires EventGrain(e, t.tickers[e.tick].decimals)
    ensures GrainOk(Logged(t, height, id, e))
  {
    hide EventGrain, TickerGrain, BalanceGrain;
  }

  lemma NegatedGrain(n: int, decimals: nat)
    requires decimals <= 18 && Granular(n, decimals)
    ensures Granular(-n, decimals)
  {
    ZeroIsGranular(decimals);
    GranularArithmetic(0, n, decimals);
  }

  lemma DeployGrain(w: Work, height: nat, id: string, e: Event)
    requires GrainOk(w.tables) && e.Deploy? && e.decimals <= 18 && e.tick !in w.tables.tickers &&
             EventGrain(e, e.decimals)
    ensures GrainOk(DoDeploy(w, height, id, e).tables)
  {
    hide Granular, Noted;
  }

  lemma {:induction false} MintGrain(w: Work, height: nat, id: string, e: Event)
    requires GrainOk(w.tables) && e.Mint? && e.tick in w.tables.tickers && TickerGrain(w.tables.tickers[e.tick])
    requires EventGrain(e, w.tables.tickers[e.tick].decimals)
    ensures GrainOk(DoMint(w, height, id, e).tables)
  {
    hide Granular, Noted, Credit;
    var t := Logged(w.tables, height, id, e);
    LoggedGrain(w.tables, height, id, e);
    CreditGrain(t, height, e.minter, e.tick, e.amount, e.amount, |w.tables.events|);
    CreditKeepsTickers(t, height, e.minter, e.tick, e.amount, e.amount, |w.tables.events|);
    GranularArithmetic(w.tables.tickers[e.tick].remaining, e.amount, w.tables.tickers[e.tick].decimals);
  }

  lemma CreditKeepsTickers(t: Tables, height: nat, pkscript: string, tick: string, overall: int, available: int,
                           eventId: int)
    ensures Credit(t, height, pkscript, tick, overall, available, eventId).tickers == t.tickers
  {
  }

  lemma {:induction false} TransferGrain(w: Work, height: nat, id: string, e: Event)
    requires GrainOk(w.tables) && (e.Inscribe? || e.Move?)
    requires e.tick in w.tables.tickers && TickerGrain(w.tables.tickers[e.tick])
    requires EventGrain(e, w.tables.tickers[e.tick].decimals)
    ensures e.Inscribe? ==> GrainOk(DoInscribe(w, height, id, e).tables)
    ensures e.Move? ==> GrainOk(DoMove(w, height, id, e).tables)
  {
    hide Granular, Noted, Credit;
    var t := Logged(w.tables, height, id, e);
    var n := |w.tables.events|;
    var d := w.tables.tickers[e.tick].decimals;
    LoggedGrain(w.tables, height, id, e);
    NegatedGrain(e.amount, d);
    ZeroIsGranular(d);
    if e.Inscribe? {
      CreditGrain(t, height, e.source, e.tick, 0, -(e.amount as int), n);
    } else if e.spent.None? {
      CreditGrain(t, height, e.source, e.tick, 0, e.amount, n);
    } else {
      CreditGrain(t, height, e.source, e.tick, -(e.amount as int), 0, n);
      CreditKeepsTickers(t, height, e.source, e.tick, -(e.amount as int), 0, n);
      CreditGrain(Credit(t, height, e.source, e.tick, -(e.amount as int), 0, n), height, e.spent.value, e.tick,
                  e.amount, e.amount, -n);
    }
  }

  lemma {:induction false} ProcessGrain(env: Env, height: nat, w: Work, row: TransferRow)
    requires GrainOk(w.tables) && DecimalsOk(w.tables)
    ensures GrainOk(Process(env, height, w, row).tables)
  {
    hide Taken, EventGrain, DoDeploy, DoMint, DoInscribe, DoMove;
    TakenIsGranular(env, height, w, row);
    match Taken(env, height, w, row)
    case None =>
    case Some(e) =>
      match e
      case Deploy(_, _, _, _, _, _, _) => DeployGrain(w, height, row.inscriptionId, e);
      case Mint(_, _, _, _, _) => MintGrain(w, height, row.inscriptionId, e);
      case Inscribe(_, _, _, _) => TransferGrain(w, height, row.inscriptionId, e);
      case Move(_, _, _, _, _, _) => TransferGrain(w, height, row.inscriptionId, e);
  }

  lemma {:induction false} ProcessAllGrain(env: Env, height: nat, w: Work, rows: seq<TransferRow>)
    requires GrainOk(w.tables) && DecimalsOk(w.tables)
    ensures GrainOk(ProcessAll(env, height, w, rows).tables)
  {
    hide GrainOk, Process;
    if rows != [] {
      ProcessAllGrain(env, height, w, rows[..|rows| - 1]);
      ProcessGrain(env, height, ProcessAll(env, height, w, rows[..|rows| - 1]), rows[|rows| - 1]);
    }
  }

  /** In the tables of any chain at all, every max supply, limit, remaining supply,
      balance and event amount is a multiple of the ticker's smallest unit. */
  lemma {:induction false} EverythingIsGranular(env: Env, chain: seq<Block>)
    ensures GrainOk(Replay(env, chain))
  {
    hide GrainOk, ProcessAll, BlockHashes;
    if chain == [] {
      EmptyIsGranular();
    } else {
      var n := |chain| - 1;
      var t := Replay(env, chain[..n]);
      var height := env.firstHeight + n;
      EverythingIsGranular(env, chain[..n]);
      var rows := if height < env.firstBrc20Height then [] else chain[n].rows;
      ProcessAllGrain(env, height, Work(t, ""), rows);
      GrainIgnoresHashes(ProcessAll(env, height, Work(t, ""), rows).tables, Replay(env, chain));
    }
  }

  lemma EmptyIsGranular()
    ensures GrainOk(NoTables)
  {
  }

  lemma GrainIgnoresHashes(t: Tables, t': Tables)
    requires GrainOk(t) && t' == t.(hashes := t'.hashes, blocks := t'.blocks)
    ensures GrainOk(t')
  {
  }

  /** What an event string prints of an amount is parsed back to that amount. */
  predicate PrintsExactly(n: nat, decimals: nat)
    requires decimals <= 18
  {
    var s := Fixed(Dec(n), decimals);
    IsPositiveNumberWithDot(s) && Extended(s, decimals) == Some(n)
  }

  predicate AmountsPrintExactly(e: Event, decimals: nat)
    requires decimals <= 18
  {
    match e
    case Deploy(_, _, _, maxSupply, _, limit, _) => PrintsExactly(maxSupply, decimals) && PrintsExactly(limit, decimals)
    case Mint(_, _, _, amount, _) => PrintsExactly(amount, decimals)
    case Inscribe(_, _, _, amount) => PrintsExactly(amount, decimals)
    case Move(_, _, _, _, amount, _) => PrintsExactly(amount, decimals)
  }

  /** Every event of every chain prints its amounts without loss. */
  lemma EventStringsLoseNothing(env: Env, chain: seq<Block>)
    ensures var t := Replay(env, chain);
            forall r | r in t.events :: r.event.tick in t.tickers &&
              AmountsPrintExactly(r.event, t.tickers[r.event.tick].decimals)
  {
    var t := Replay(env, chain);
    EverythingIsGranular(env, chain);
    forall r | r in t.events
      ensures r.event.tick in t.tickers && AmountsPrintExactly(r.event, t.tickers[r.event.tick].decimals)
    {
      GrainPrints(r.event, t.tickers[r.event.tick].decimals);
    }
  }

  lemma {:induction false} GrainPrints(e: Event, decimals: nat)
    requires decimals <= 18 && EventGrain(e, decimals)
    ensures AmountsPrintExactly(e, decimals)
  {
    hide Fixed, Dec, Extended, Granular;
    match e
    case Deploy(_, _, _, maxSupply, _, limit, _) =>
      EventAmountRoundTrip(maxSupply, decimals);
      EventAmountRoundTrip(limit, decimals);
    case Mint(_, _, _, amount, _) => EventAmountRoundTrip(amount, decimals);
    case Inscribe(_, _, _, amount) => EventAmountRoundTrip(amount, decimals);
    case Move(_, _, _, _, amount, _) => EventAmountRoundTrip(amount, decimals);
  }
}
