/** The BRC-20 rules as every reachable log shows them: each ticker is deployed once and
    keeps its terms, self-mint tickers are 5-character ones deployed after the enabling
    height, and each mint stays within its ticker's limit and belongs to its deployer
    where it must. */
module IndexRules {
  import opened Wrappers
  import opened IndexTables
  import opened IndexSpec

  predicate TickerFollowsRules(tick: string, t: Ticker) {
    && t.decimals <= 18
    && 0 < t.maxSupply <= MAX_AMOUNT && 0 < t.limit <= MAX_AMOUNT
    && tick == Lower(t.originalTick) && (|t.originalTick| == 4 || |t.originalTick| == 5)
    && (t.selfMint <==> |t.originalTick| == 5)
    && (t.selfMint ==> t.height >= SELF_MINT_ENABLE_HEIGHT)
  }

  predicate EventFollowsRules(tickers: map<string, Ticker>, r: EventRow) {
    && r.event.tick in tickers
    && var t := tickers[r.event.tick];
    match r.event
    case Deploy(_, _, originalTick, maxSupply, decimals, limit, selfMint) =>
      && t.deployId == r.inscriptionId && t.height == r.height && t.originalTick == originalTick
      && t.maxSupply == maxSupply && t.decimals == decimals && t.limit == limit && t.selfMint == selfMint
    case Mint(_, _, _, amount, parentId) =>
      0 < amount <= t.limit && (t.selfMint ==> parentId == t.deployId)
    case Inscribe(_, _, _, amount) => amount > 0
    case Move(_, _, _, _, amount, _) => amount > 0
  }

  ghost predicate DeployedOnce(events: seq<EventRow>) {
    forall i, j :: 0 <= i < j < |events| && events[i].event.Deploy? && events[j].event.Deploy? ==>
      events[i].event.tick != events[j].event.tick
  }

  ghost predicate RulesOk(t: Tables) {
    && (forall tick | tick in t.tickers :: TickerFollowsRules(tick, t.tickers[tick]))
    && (forall r | r in t.events :: EventFollowsRules(t.tickers, r))
    && DeployedOnce(t.events)
  }

  /** What the event of a row must satisfy for the rules to go on holding. */
  predicate Lawful(tickers: map<string, Ticker>, height: nat, e: Event) {
    match e
    case Deploy(_, tick, originalTick, maxSupply, decimals, limit, selfMint) =>
      && tick !in tickers
      && TickerFollowsRules(tick, Ticker(originalTick, maxSupply, decimals, limit, maxSupply, height, selfMint, ""))
    case Mint(_, tick, _, amount, parentId) =>
      && tick in tickers && 0 < amount <= tickers[tick].limit
      && (tickers[tick].selfMint ==> parentId == tickers[tick].deployId)
    case Inscribe(_, tick, _, amount) => tick in tickers && amount > 0
    case Move(_, _, tick, _, amount, _) => tick in tickers && amount > 0
  }

  lemma DeployIsLawful(tickers: map<string, Ticker>, height: nat, js: Content, originalTick: string, deployer: string)
    requires Lower(originalTick) !in tickers && (|originalTick| == 4 || |originalTick| == 5)
    requires DeployEvent(height, js, Lower(originalTick), originalTick, deployer).Some?
    ensures Lawful(tickers, height, DeployEvent(height, js, Lower(originalTick), originalTick, deployer).value)
  {
    hide ParseDecimals, Lower;
  }

  lemma MintIsLawful(ticker: Ticker, amt: Option<string>, parentId: string)
    requires ticker.decimals <= 18 && MintGrant(InfoOf(ticker), amt, parentId).Some?
    ensures 0 < MintGrant(InfoOf(ticker), amt, parentId).value <= ticker.limit
    ensures ticker.selfMint ==> parentId == ticker.deployId
  {
    hide ParseAmount;
  }

  lemma {:induction false} TakenIsLawful(env: Env, height: nat, w: Work, row: TransferRow)
    requires DecimalsOk(w.tables) && Taken(env, height, w, row).Some?
    ensures Lawful(w.tables.tickers, height, Taken(env, height, w, row).value)
  {
    hide Lower, DeployEvent, MintGrant, TickerFollowsRules, ParseAmount, Unsettled, LastBalance;
    var js := env.catalog[row.inscriptionId].content;
    var originalTick := js.tick.value;
    var tick := Lower(originalTick);
    var e := Taken(env, height, w, row).value;
    match e
    case Deploy(_, _, _, _, _, _, _) => DeployIsLawful(w.tables.tickers, height, js, originalTick, row.newPkScript);
    case Mint(_, _, _, _, _) => MintIsLawful(w.tables.tickers[tick], js.amt, env.catalog[row.inscriptionId].parentId);
    case _ =>
  }

  /** Terms of known tickers stay; only what remains to be minted changes. */
  predicate TermsStay(before: map<string, Ticker>, after: map<string, Ticker>) {
    forall tick | tick in before :: tick in after && after[tick] == before[tick].(remaining := after[tick].remaining)
  }

  lemma {:induction false} RowKeepsRules(t: Tables, t': Tables, r: EventRow)
    requires RulesOk(t) && t'.events == t.events + [r] && EventFollowsRules(t'.tickers, r)
    requires TermsStay(t.tickers, t'.tickers)
    requires forall tick | tick in t'.tickers :: tick in t.tickers || TickerFollowsRules(tick, t'.tickers[tick])
    requires r.event.Deploy? ==> r.event.tick !in t.tickers
    ensures RulesOk(t')
  {
    forall q | q in t.events
      ensures EventFollowsRules(t'.tickers, q)
    {
      assert EventFollowsRules(t.tickers, q);
    }
    forall i | 0 <= i < |t.events|
      ensures t.events[i].event.tick in t.tickers && t'.events[i] == t.events[i]
    {
      assert t.events[i] in t.events;
    }
  }

  lemma {:induction false} ProcessKeepsRules(env: Env, height: nat, w: Work, row: TransferRow)
    requires DecimalsOk(w.tables) && RulesOk(w.tables)
    ensures RulesOk(Process(env, height, w, row).tables)
  {
    hide RulesOk, Taken, Noted, LastBalance, TickerFollowsRules, DecimalsOk;
    match Taken(env, height, w, row)
    case None =>
    case Some(e) =>
      TakenIsLawful(env, height, w, row);
      var t' := Process(env, height, w, row).tables;
      if e.Deploy? {
        DeployedTicker(w.tables.tickers, height, row.inscriptionId, e);
      }
      RowKeepsRules(w.tables, t', EventRow(|w.tables.events|, height, row.inscriptionId, e));
  }

  lemma DeployedTicker(tickers: map<string, Ticker>, height: nat, id: string, e: Event)
    requires e.Deploy? && Lawful(tickers, height, e)
    ensures TickerFollowsRules(e.tick,
                               Ticker(e.originalTick, e.maxSupply, e.decimals, e.limit, e.maxSupply, height,
                                      e.selfMint, id))
  {
  }

  lemma {:induction false} ProcessAllKeepsRules(env: Env, height: nat, w: Work, rows: seq<TransferRow>)
    requires DecimalsOk(w.tables) && RulesOk(w.tables)
    ensures RulesOk(ProcessAll(env, height, w, rows).tables)
  {
    hide RulesOk, Process;
    if rows != [] {
      ProcessAllKeepsRules(env, height, w, rows[..|rows| - 1]);
      ProcessKeepsRules(env, height, ProcessAll(env, height, w, rows[..|rows| - 1]), rows[|rows| - 1]);
    }
  }

  /** Every state that indexing a chain reaches obeys the rules. */
  lemma {:induction false} RulesAreKept(env: Env, chain: seq<Block>)
    ensures RulesOk(Replay(env, chain))
  {
    hide ProcessAll, BlockHashes, DecimalsOk, TickerFollowsRules;
    if chain != [] {
      var n := |chain| - 1;
      var height := env.firstHeight + n;
      RulesAreKept(env, chain[..n]);
      ProcessAllKeepsRules(env, height, Work(Replay(env, chain[..n]), ""),
                           if height < env.firstBrc20Height then [] else chain[n].rows);
    }
  }
}
