/** The memory of the BRC-20 indexer in the middle of a block, as one value: its caches
    and its pending rows. Each handler's updates are shown to keep the caches in
    agreement and to mean exactly what the handler means on the tables. */
module IndexMemory {
  import opened Wrappers
  import opened IndexTables
  import opened IndexSpec
  import opened IndexLedger
  import opened IndexCache

  datatype Memory = Memory(
    ticks: map<string, TickInfo>, balanceCache: map<string, Balance>, validity: map<string, int>,
    inscribeEvents: map<string, Event>, newEvents: seq<EventRow>, newTickers: seq<NewTicker>,
    minted: map<string, nat>, newBalances: seq<BalanceRow>, text: string)
  {
    /** The tables as they will be when the pending rows are written. */
    function Over(t: Tables): Work {
      Work(Tables(t.events + newEvents, Merged(t.tickers, newTickers, minted), t.balances + newBalances, t.hashes,
                  t.blocks), text)
    }
  }

  predicate SourcesAreHex(events: seq<EventRow>) {
    forall r | r in events && r.event.Inscribe? :: HexScript(r.event.source) && TickSized(r.event.tick)
  }

  /** Every cache agrees with the committed rows of `t` and the pending rows of `m`. */
  ghost predicate Agrees(env: Env, t: Tables, m: Memory, seen: set<string>) {
    var w := m.Over(t);
    && LedgerOk(env, w.tables, seen)
    && SourcesAreHex(w.tables.events)
    && m.ticks == TicksOf(w.tables.tickers)
    && (forall tick | tick in m.minted :: tick in w.tables.tickers)
    && BalancesAgree(m.balanceCache, t.balances, m.newBalances)
    && ValidityAgrees(m.validity, t.events, m.newEvents)
    && EventsAgree(m.inscribeEvents, t.events, m.newEvents)
  }

  /** The row that logs an event, with the id the indexer gives it. */
  function RowFor(t: Tables, m: Memory, height: nat, id: string, e: Event): EventRow {
    EventRow(|t.events + m.newEvents|, height, id, e)
  }

  /** The caches and pending rows after an event has been logged. */
  function WithEvent(m: Memory, r: EventRow, decimals: nat): Memory
    requires decimals <= 18 && (r.event.Deploy? ==> r.event.decimals == decimals)
  {
    m.(newEvents := m.newEvents + [r],
       validity := ValidityStored(m.validity, r),
       inscribeEvents := EventStored(m.inscribeEvents, r),
       text := m.text + EventStr(r.event, r.inscriptionId, decimals) + SEPARATOR)
  }

  /** The same, kind by kind, as the handlers write it. */
  lemma WithEventIs(m: Memory, r: EventRow, decimals: nat)
    requires decimals <= 18 && (r.event.Deploy? ==> r.event.decimals == decimals)
    ensures var logged := m.(newEvents := m.newEvents + [r],
                             text := m.text + EventStr(r.event, r.inscriptionId, decimals) + SEPARATOR);
            WithEvent(m, r, decimals) ==
            match r.event
            case Deploy(_, _, _, _, _, _, _) => logged
            case Mint(_, _, _, _, _) => logged
            case Inscribe(_, _, _, _) =>
              logged.(validity := m.validity[r.inscriptionId := 1],
                      inscribeEvents := m.inscribeEvents[r.inscriptionId := r.event])
            case Move(_, _, _, _, _, _) =>
              logged.(validity := m.validity[r.inscriptionId := -1],
                      inscribeEvents := m.inscribeEvents - {r.inscriptionId})
  {
  }

  /** The balance cache and pending rows after an account's balance has been noted. */
  function WithBalance(m: Memory, r: BalanceRow): Memory {
    m.(newBalances := m.newBalances + [r], balanceCache := m.balanceCache[Key(r.pkscript, r.tick) := r.balance])
  }

  /** The parts of the agreement that an event touches. */
  ghost predicate LogsAgree(t: Tables, m: Memory) {
    && SourcesAreHex(t.events + m.newEvents)
    && ValidityAgrees(m.validity, t.events, m.newEvents)
    && EventsAgree(m.inscribeEvents, t.events, m.newEvents)
  }

  lemma {:induction false} EventAgrees(t: Tables, m: Memory, height: nat, id: string, e: Event, decimals: nat)
    requires decimals <= 18 && (e.Deploy? ==> e.decimals == decimals)
    requires LogsAgree(t, m) && LogOk(t.events + m.newEvents)
    requires Follows(t.events + m.newEvents, RowFor(t, m, height, id, e))
    requires e.Inscribe? ==> HexScript(e.source) && TickSized(e.tick)
    ensures var m' := WithEvent(m, RowFor(t, m, height, id, e), decimals);
            && LogsAgree(t, m')
            && m'.Over(t) == Work(Logged(m.Over(t).tables, height, id, e), Noted(m.Over(t), id, e, decimals))
  {
    hide LogOk, Follows, EventStr, Merged, ValidityAgrees, EventsAgree;
    var r := RowFor(t, m, height, id, e);
    StoreValidity(m.validity, t.events, m.newEvents, r);
    StoreEvent(m.inscribeEvents, t.events, m.newEvents, r);
    assert t.events + (m.newEvents + [r]) == (t.events + m.newEvents) + [r];
  }

  /** The row that credits an account on top of its last balance. */
  function CreditRow(t: Tables, m: Memory, height: nat, p: string, k: string, overall: int, available: int,
                     eventId: int): BalanceRow {
    var b := LastBalance(t.balances + m.newBalances, p, k);
    BalanceRow(p, k, Balance(b.overall + overall, b.available + available), height, eventId)
  }

  lemma BalanceAgrees(t: Tables, m: Memory, height: nat, p: string, k: string, overall: int, available: int,
                      eventId: int)
    requires BalancesAgree(m.balanceCache, t.balances, m.newBalances) && HexScript(p) && TickSized(k)
    ensures var r := CreditRow(t, m, height, p, k, overall, available, eventId);
            var m' := WithBalance(m, r);
            && BalancesAgree(m'.balanceCache, t.balances, m'.newBalances)
            && m'.Over(t) == Work(Credit(m.Over(t).tables, height, p, k, overall, available, eventId), m.text)
  {
    hide Merged, BalancesAgree;
    var r := CreditRow(t, m, height, p, k, overall, available, eventId);
    StoreBalance(m.balanceCache, t.balances, m.newBalances, r);
    assert t.balances + (m.newBalances + [r]) == (t.balances + m.newBalances) + [r];
  }

  // ---- the handlers

  function AfterDeploy(t: Tables, m: Memory, height: nat, id: string, e: Event): Memory
    requires e.Deploy? && e.decimals <= 18
  {
    var ticker := Ticker(e.originalTick, e.maxSupply, e.decimals, e.limit, e.maxSupply, height, e.selfMint, id);
    var m1 := WithEvent(m, RowFor(t, m, height, id, e), e.decimals);
    m1.(newTickers := m1.newTickers + [NewTicker(e.tick, ticker)], ticks := m1.ticks[e.tick := InfoOf(ticker)])
  }

  lemma {:induction false} DeployAgrees(env: Env, t: Tables, m: Memory, seen: set<string>, height: nat, id: string,
                                        e: Event)
    requires Agrees(env, t, m, seen) && id in seen
    requires e.Deploy? && e.decimals <= 18 && e.tick !in m.ticks
    ensures Agrees(env, t, AfterDeploy(t, m, height, id, e), seen)
    ensures AfterDeploy(t, m, height, id, e).Over(t) == DoDeploy(m.Over(t), height, id, e)
  {
    hide LedgerOk, Noted, EventStr, Merged, ValidityAgrees, EventsAgree, BalancesAgree, LogOk;
    LogIsOk(env, m.Over(t).tables, seen);
    EventAgrees(t, m, height, id, e, e.decimals);
    var ticker := Ticker(e.originalTick, e.maxSupply, e.decimals, e.limit, e.maxSupply, height, e.selfMint, id);
    MergedInsert(t.tickers, m.newTickers, m.minted, NewTicker(e.tick, ticker));
    DeployKeeps(env, m.Over(t), height, id, e, seen);
  }

  lemma LogIsOk(env: Env, t: Tables, seen: set<string>)
    requires LedgerOk(env, t, seen)
    ensures LogOk(t.events) && DecimalsOk(t)
  {
  }

  /** A mint's change of the supplies and of the minter's balance. */
  function WithMint(t: Tables, m: Memory, height: nat, e: Event, eventId: nat): Memory
    requires e.Mint? && e.tick in m.ticks
  {
    var info := m.ticks[e.tick];
    var m1 := m.(minted := m.minted[e.tick := (if e.tick in m.minted then m.minted[e.tick] else 0) + e.amount]);
    var m2 := WithBalance(m1, CreditRow(t, m1, height, e.minter, e.tick, e.amount, e.amount, eventId));
    m2.(ticks := m2.ticks[e.tick := info.(remaining := info.remaining - e.amount)])
  }

  function AfterMint(t: Tables, m: Memory, height: nat, id: string, e: Event): Memory
    requires e.Mint? && e.tick in m.ticks && m.ticks[e.tick].decimals <= 18
  {
    var r := RowFor(t, m, height, id, e);
    WithMint(t, WithEvent(m, r, m.ticks[e.tick].decimals), height, e, r.id)
  }

  lemma TicksAfterMint(tickers: map<string, Ticker>, tick: string, amount: nat)
    requires tick in tickers
    ensures var k := tickers[tick];
            TicksOf(tickers[tick := k.(remaining := k.remaining - amount)]) ==
            TicksOf(tickers)[tick := InfoOf(k).(remaining := k.remaining - amount)]
  {
  }

  lemma {:induction false} MintAgrees(env: Env, t: Tables, m: Memory, seen: set<string>, height: nat, id: string,
                                      e: Event)
    requires Agrees(env, t, m, seen) && id in seen
    requires e.Mint? && e.tick in m.ticks && m.ticks[e.tick].decimals <= 18 && e.amount <= m.ticks[e.tick].remaining
    requires HexScript(e.minter) && TickSized(e.tick)
    ensures Agrees(env, t, AfterMint(t, m, height, id, e), seen)
    ensures AfterMint(t, m, height, id, e).Over(t) == DoMint(m.Over(t), height, id, e)
  {
    hide LedgerOk, Noted, EventStr, Merged, ValidityAgrees, EventsAgree, BalancesAgree, LogOk, LastBalance, TicksOf,
         ValidityStored, EventStored;
    LogIsOk(env, m.Over(t).tables, seen);
    var tickers := m.Over(t).tables.tickers;
    TicksCarry(tickers, e.tick);
    MintMeans(t, m, height, id, e);
    TicksAfterMint(tickers, e.tick, e.amount);
    MintKeeps(env, m.Over(t), height, id, e, seen);
  }

  lemma TicksCarry(tickers: map<string, Ticker>, tick: string)
    ensures tick in TicksOf(tickers) <==> tick in tickers
    ensures tick in tickers ==> TicksOf(tickers)[tick] == InfoOf(tickers[tick])
  {
  }

  lemma MintMeans(t: Tables, m: Memory, height: nat, id: string, e: Event)
    requires LogsAgree(t, m) && LogOk(t.events + m.newEvents) &&
             BalancesAgree(m.balanceCache, t.balances, m.newBalances)
    requires e.Mint? && e.tick in m.Over(t).tables.tickers
    requires e.tick in m.ticks && m.ticks[e.tick] == InfoOf(m.Over(t).tables.tickers[e.tick]) &&
             m.ticks[e.tick].decimals <= 18
    requires HexScript(e.minter) && TickSized(e.tick)
    ensures var m' := AfterMint(t, m, height, id, e);
            && LogsAgree(t, m') && BalancesAgree(m'.balanceCache, t.balances, m'.newBalances)
            && m'.Over(t) == DoMint(m.Over(t), height, id, e)
  {
    hide EventStr, Merged, ValidityAgrees, EventsAgree, BalancesAgree, LogOk, LastBalance, ValidityStored, EventStored;
    var eventId := |t.events + m.newEvents|;
    var info := m.ticks[e.tick];
    EventAgrees(t, m, height, id, e, info.decimals);
    var m1 := WithEvent(m, RowFor(t, m, height, id, e), info.decimals);
    MergedMint(t.tickers, m.newTickers, m.minted, e.tick, e.amount);
    var m2 := m1.(minted := m1.minted[e.tick := (if e.tick in m1.minted then m1.minted[e.tick] else 0) + e.amount]);
    BalanceAgrees(t, m2, height, e.minter, e.tick, e.amount, e.amount, eventId);
  }

  function AfterInscribe(t: Tables, m: Memory, height: nat, id: string, e: Event): Memory
    requires e.Inscribe? && e.tick in m.ticks && m.ticks[e.tick].decimals <= 18
  {
    var m1 := WithEvent(m, RowFor(t, m, height, id, e), m.ticks[e.tick].decimals);
    WithBalance(m1, CreditRow(t, m1, height, e.source, e.tick, 0, -(e.amount as int), |t.events + m.newEvents|))
  }

  lemma {:induction false} InscribeAgrees(env: Env, t: Tables, m: Memory, seen: set<string>, height: nat, id: string,
                                          e: Event)
    requires Agrees(env, t, m, seen) && id !in seen
    requires e.Inscribe? && e.tick in m.ticks && m.ticks[e.tick].decimals <= 18
    requires HexScript(e.source) && TickSized(e.tick)
    requires e.amount <= LastBalance(t.balances + m.newBalances, e.source, e.tick).available
    requires DecimalsOk(m.Over(t).tables) && InscribedOk(env, m.Over(t).tables.tickers, RowFor(t, m, height, id, e))
    ensures Agrees(env, t, AfterInscribe(t, m, height, id, e), seen + {id})
    ensures AfterInscribe(t, m, height, id, e).Over(t) == DoInscribe(m.Over(t), height, id, e)
  {
    hide LedgerOk, Noted, EventStr, Merged, ValidityAgrees, EventsAgree, BalancesAgree, LogOk, LastBalance, InscribedOk;
    LogIsOk(env, m.Over(t).tables, seen);
    NewIdFollows(env, m.Over(t).tables, seen, height, id, e);
    EventAgrees(t, m, height, id, e, m.ticks[e.tick].decimals);
    var m1 := WithEvent(m, RowFor(t, m, height, id, e), m.ticks[e.tick].decimals);
    BalanceAgrees(t, m1, height, e.source, e.tick, 0, -(e.amount as int), |t.events + m.newEvents|);
    InscribeKeeps(env, m.Over(t), height, id, e, seen);
  }

  lemma NewIdFollows(env: Env, t: Tables, seen: set<string>, height: nat, id: string, e: Event)
    requires LedgerOk(env, t, seen) && id !in seen && !e.Move?
    ensures Follows(t.events, EventRow(|t.events|, height, id, e))
  {
    NoEventNoCount(t.events, id);
  }

  /** The balance rows of a move: between two accounts, or back to the available balance. */
  function WithMove(t: Tables, m: Memory, height: nat, e: Event, eventId: nat): Memory
    requires e.Move?
  {
    match e.spent
    case None => WithBalance(m, CreditRow(t, m, height, e.source, e.tick, 0, e.amount, eventId))
    case Some(spent) =>
      var m1 := WithBalance(m, CreditRow(t, m, height, e.source, e.tick, -(e.amount as int), 0, eventId));
      WithBalance(m1, CreditRow(t, m1, height, spent, e.tick, e.amount, e.amount, -(eventId as int)))
  }

  function AfterMove(t: Tables, m: Memory, height: nat, id: string, e: Event): Memory
    requires e.Move? && e.tick in m.ticks && m.ticks[e.tick].decimals <= 18
  {
    var r := RowFor(t, m, height, id, e);
    WithMove(t, WithEvent(m, r, m.ticks[e.tick].decimals), height, e, r.id)
  }

  lemma MoveAgrees(env: Env, t: Tables, m: Memory, seen: set<string>, height: nat, id: string, e: Event)
    requires Agrees(env, t, m, seen) && id in seen
    requires e.Move? && e.tick in m.ticks && m.ticks[e.tick].decimals <= 18
    requires HexScript(e.source) && TickSized(e.tick) && (e.spent.Some? ==> HexScript(e.spent.value))
    requires Follows(t.events + m.newEvents, RowFor(t, m, height, id, e))
    ensures Agrees(env, t, AfterMove(t, m, height, id, e), seen)
    ensures AfterMove(t, m, height, id, e).Over(t) == DoMove(m.Over(t), height, id, e)
  {
    hide LedgerOk, Noted, EventStr, Merged, ValidityAgrees, EventsAgree, BalancesAgree, LogOk, LastBalance, Follows;
    LogIsOk(env, m.Over(t).tables, seen);
    var n := |t.events + m.newEvents|;
    EventAgrees(t, m, height, id, e, m.ticks[e.tick].decimals);
    var m1 := WithEvent(m, RowFor(t, m, height, id, e), m.ticks[e.tick].decimals);
    MoveKeeps(env, m.Over(t), height, id, e, seen);
    match e.spent
    case None => BalanceAgrees(t, m1, height, e.source, e.tick, 0, e.amount, n);
    case Some(spent) =>
      BalanceAgrees(t, m1, height, e.source, e.tick, -(e.amount as int), 0, n);
      var m2 := WithBalance(m1, CreditRow(t, m1, height, e.source, e.tick, -(e.amount as int), 0, n));
      BalanceAgrees(t, m2, height, spent, e.tick, e.amount, e.amount, -n);
  }

  /** What the handlers' callers know of the log inside a block. */
  lemma WorkingLog(env: Env, t: Tables, m: Memory, seen: set<string>)
    requires Agrees(env, t, m, seen)
    ensures LogOk(t.events + m.newEvents) && DecimalsOk(m.Over(t).tables)
    ensures EventsAgree(m.inscribeEvents, t.events, m.newEvents)
    ensures BalancesAgree(m.balanceCache, t.balances, m.newBalances)
    ensures ValidityAgrees(m.validity, t.events, m.newEvents)
  {
  }

  lemma MoreSeen(env: Env, t: Tables, m: Memory, seen: set<string>, more: set<string>)
    requires Agrees(env, t, m, seen) && seen <= more
    ensures Agrees(env, t, m, more)
  {
  }

  // ---- the decisions of the loop body, taken on the caches

  lemma TickKnown(env: Env, t: Tables, m: Memory, seen: set<string>, tick: string)
    requires Agrees(env, t, m, seen)
    ensures tick in m.ticks <==> tick in m.Over(t).tables.tickers
    ensures tick in m.ticks ==> m.ticks[tick] == InfoOf(m.Over(t).tables.tickers[tick]) && m.ticks[tick].decimals <= 18
    ensures DecimalsOk(m.Over(t).tables)
  {
    TicksCarry(m.Over(t).tables.tickers, tick);
  }

  /** No transfer event without a known tick and a positive amount. */
  lemma NoTransfer(env: Env, t: Tables, m: Memory, seen: set<string>, row: TransferRow, js: Content, tick: string)
    requires Agrees(env, t, m, seen) && js.tick.Some? && DecimalsOk(m.Over(t).tables)
    requires tick in m.ticks ==> m.ticks[tick].decimals <= 18 && ParsePositive(js.amt, m.ticks[tick].decimals).None?
    ensures TransferEvent(m.Over(t).tables, js, tick, row) == None
  {
    hide LedgerOk, Merged;
    TickKnown(env, t, m, seen, tick);
  }

  lemma InscribeDecision(env: Env, t: Tables, m: Memory, seen: set<string>, row: TransferRow, js: Content,
                         tick: string, amount: nat)
    requires Agrees(env, t, m, seen) && js.tick.Some? && DecimalsOk(m.Over(t).tables)
    requires tick in m.ticks && m.ticks[tick].decimals <= 18 &&
             ParsePositive(js.amt, m.ticks[tick].decimals) == Some(amount)
    requires row.oldSatpoint == ""
    ensures var enough := amount <= LastBalance(t.balances + m.newBalances, row.newPkScript, tick).available;
            TransferEvent(m.Over(t).tables, js, tick, row) ==
            if enough then Some(Inscribe(row.newPkScript, tick, js.tick.value, amount)) else None
  {
    hide LedgerOk, Merged;
    TickKnown(env, t, m, seen, tick);
  }

  lemma InscribeIsOk(env: Env, t: Tables, m: Memory, seen: set<string>, height: nat, id: string, js: Content,
                     tick: string, pkscript: string, amount: nat)
    requires Agrees(env, t, m, seen) && DecimalsOk(m.Over(t).tables)
    requires id in env.catalog && env.catalog[id].content == js && js.tick.Some? && tick == Lower(js.tick.value)
    requires tick in m.ticks && m.ticks[tick].decimals <= 18 &&
             ParsePositive(js.amt, m.ticks[tick].decimals) == Some(amount)
    ensures InscribedOk(env, m.Over(t).tables.tickers,
                        RowFor(t, m, height, id, Inscribe(pkscript, tick, js.tick.value, amount)))
  {
    hide LedgerOk, Merged, ParsePositive;
    TickKnown(env, t, m, seen, tick);
  }

  /** A move is let through exactly when the transfer is open, and then it settles the
      amount and tick that were inscribed. */
  lemma MoveDecision(env: Env, t: Tables, m: Memory, seen: set<string>, row: TransferRow, js: Content, tick: string,
                     amount: nat)
    requires Agrees(env, t, m, seen) && DecimalsOk(m.Over(t).tables)
    requires js.tick.Some? && tick == Lower(js.tick.value)
    requires row.inscriptionId in env.catalog && env.catalog[row.inscriptionId].content == js
    requires tick in m.ticks && m.ticks[tick].decimals <= 18 &&
             ParsePositive(js.amt, m.ticks[tick].decimals) == Some(amount)
    requires row.oldSatpoint != ""
    ensures var events := t.events + m.newEvents;
            var open := Open(events);
            if Unsettled(events, row.inscriptionId) then
              && row.inscriptionId in open && row.inscriptionId in seen
              && open[row.inscriptionId].Inscribe? && open[row.inscriptionId].tick == tick
              && open[row.inscriptionId].amount == amount && HexScript(open[row.inscriptionId].source)
              && TransferEvent(m.Over(t).tables, js, tick, row) ==
                 Some(Move(open[row.inscriptionId].source, if row.sentAsFee then None else Some(row.newPkScript), tick,
                           js.tick.value, amount, row.txId))
            else TransferEvent(m.Over(t).tables, js, tick, row) == None
  {
    hide Merged, ParsePositive, LogOk;
    TickKnown(env, t, m, seen, tick);
    var events := t.events + m.newEvents;
    OpenIsUnsettled(events, row.inscriptionId);
    if Unsettled(events, row.inscriptionId) {
      var r := OpenComesFromLog(events, row.inscriptionId);
      assert InscribedOk(env, m.Over(t).tables.tickers, r);
    }
  }

  // ---- the beginning and the end of a block

  /** The caches alone, with nothing pending. */
  function Cleared(m: Memory): Memory {
    m.(newEvents := [], newTickers := [], minted := map[], newBalances := [], text := "")
  }

  lemma ClearedOver(m: Memory, t: Tables)
    ensures Cleared(m).Over(t) == Work(t, "")
  {
    MergedNothing(t.tickers);
    assert t.events + [] == t.events && t.balances + [] == t.balances;
  }

  lemma {:induction false} MaxIdIsLast(events: seq<EventRow>)
    requires LogOk(events)
    ensures MaxEventId(events) == |events| - 1
  {
    if events != [] {
      MaxIdIsLast(events[..|events| - 1]);
    }
  }

  /** Once the pending rows are written, the caches agree with the new tables. */
  lemma WrittenAgrees(env: Env, t: Tables, m: Memory, seen: set<string>, t': Tables)
    requires Agrees(env, t, m, seen)
    requires t' == m.Over(t).tables.(hashes := t'.hashes, blocks := t'.blocks)
    ensures Agrees(env, t', Cleared(m), seen)
  {
    hide LedgerOk, Merged, ValidityOf, Open, LastBalance;
    ClearedOver(m, t');
    HashesDoNotMatter(env, m.Over(t).tables, t', seen);
    assert t'.events + [] == t.events + m.newEvents;
    assert t'.balances + [] == t.balances + m.newBalances;
  }

  lemma {:induction false} CreatedOncePrefix(rows: seq<TransferRow>, seen: set<string>, i: nat)
    requires CreatedOnce(rows, seen) && i <= |rows|
    ensures CreatedOnce(rows[..i], seen)
    decreases |rows|
  {
    if i == |rows| {
      assert rows[..i] == rows;
    } else {
      CreatedOncePrefix(rows[..|rows| - 1], seen, i);
      assert rows[..|rows| - 1][..i] == rows[..i];
    }
  }

  lemma AgreesHex(env: Env, t: Tables, m: Memory, seen: set<string>)
    requires Agrees(env, t, Cleared(m), seen)
    ensures SourcesAreHex(t.events)
  {
    ClearedOver(m, t);
  }

  /** Loading the tickers again changes nothing. */
  lemma AgreesTicks(env: Env, t: Tables, m: Memory, seen: set<string>)
    requires Agrees(env, t, Cleared(m), seen)
    ensures m.ticks == TicksOf(t.tickers)
  {
    ClearedOver(m, t);
  }

  /** Empty caches with freshly loaded tickers agree with any sound tables. */
  lemma ResetAgrees(env: Env, t: Tables, m: Memory, seen: set<string>)
    requires LedgerOk(env, t, seen) && SourcesAreHex(t.events)
    requires m == Memory(TicksOf(t.tickers), map[], map[], map[], [], [], map[], [], "")
    ensures Agrees(env, t, m, seen)
  {
    hide LedgerOk, Open, LastBalance;
    ClearedOver(m, t);
  }

  lemma {:induction false} RollbackKeepsHex(events: seq<EventRow>, h: int)
    requires SourcesAreHex(events)
    ensures SourcesAreHex(EventsUpTo(events, h))
  {
    if events != [] {
      RollbackKeepsHex(events[..|events| - 1], h);
    }
  }

  lemma {:induction false} ChainOkPrefix(chain: seq<Block>, keep: nat)
    requires ChainOk(chain) && keep <= |chain|
    ensures ChainOk(chain[..keep])
    decreases |chain|
  {
    if keep == |chain| {
      assert chain[..keep] == chain;
    } else {
      ChainOkPrefix(chain[..|chain| - 1], keep);
      assert chain[..|chain| - 1][..keep] == chain[..keep];
    }
  }
}
