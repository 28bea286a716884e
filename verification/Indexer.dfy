/** modules/brc20_index/brc20_index.py as the running program: one database, caches
    that live as long as the process, and the pending rows of the block being indexed.
    The methods are proved to leave exactly the tables of IndexSpec, which has none of
    the caches, and to keep every cache in agreement with the tables. */
module Indexer {
  import opened Wrappers
  import opened IndexTables
  import opened IndexSpec
  import opened IndexLedger
  import opened IndexCache
  import opened IndexMemory
  import opened IndexReorg
  import opened IndexRules
  import opened IndexExtra
  import opened IndexHashes
  import opened IndexReindex

  datatype ReorgCheck = NoReorg | RollBackTo(height: nat) | TooDeep

  /** What one round of the main loop did. */
  datatype Outcome = Waiting | Indexed | RolledBack | Critical

  /** The newest of the last ten blocks that the source still has. */
  ghost predicate NewestMatch(chain: seq<Block>, source: seq<Block>, k: int) {
    && 0 <= k && |chain| - 10 <= k < |chain| <= |source| && chain[k].hash == source[k].hash
    && forall j :: k < j < |chain| ==> chain[j].hash != source[j].hash
  }

  /** What the indexer assumes of the blocks it is given. */
  ghost predicate Indexable(source: seq<Block>) {
    && ChainOk(source)
    && forall b, row | b in source && row in b.rows :: HexScript(row.newPkScript)
  }

  class Indexer {
    const env: Env
    // the database
    var tables: Tables
    // the caches
    var ticks: map<string, TickInfo>
    var balanceCache: map<string, Balance>
    var transferValidity: map<string, int>
    var inscribeEvents: map<string, Event>
    // the block being indexed
    var blockStartMaxEventId: int
    var newEvents: seq<EventRow>
    var newTickers: seq<NewTicker>
    var minted: map<string, nat>
    var newBalances: seq<BalanceRow>
    var blockEventsStr: string
    // the blocks that the tables stand for, and the inscriptions created so far
    ghost var chain: seq<Block>
    ghost var seen: set<string>

    ghost function Mem(): Memory
      reads this
    {
      Memory(ticks, balanceCache, transferValidity, inscribeEvents, newEvents, newTickers, minted, newBalances,
             blockEventsStr)
    }

    /** Between blocks: the tables are the replay of the chain, and the caches agree
        with them; whatever is still in the pending lists has been written. */
    ghost predicate Valid()
      reads this
    {
      && ChainOk(chain) && tables == Replay(env, chain) && seen == CreatedBy(chain)
      && Agrees(env, tables, Cleared(Mem()), seen)
    }

    /** Inside a block: the caches agree with the tables and the pending rows. */
    ghost predicate Working()
      reads this
    {
      Agrees(env, tables, Mem(), seen) && blockStartMaxEventId == |tables.events| - 1
    }

    ghost function Current(): Work
      reads this
    {
      Mem().Over(tables)
    }

    constructor (env: Env)
      ensures Valid() && this.env == env && chain == []
    {
      this.env := env;
      tables := NoTables;
      ticks, balanceCache, transferValidity, inscribeEvents := map[], map[], map[], map[];
      blockStartMaxEventId, newEvents, newTickers, minted, newBalances, blockEventsStr := -1, [], [], map[], [], "";
      chain, seen := [], {};
      new;
      EmptyLedgerIsOk(env);
      ResetAgrees(env, tables, Mem(), seen);
    }

    // ---- reading through the caches

    method GetLastBalance(pkscript: string, tick: string) returns (b: Balance)
      requires BalancesAgree(balanceCache, tables.balances, newBalances) && HexScript(pkscript) && TickSized(tick)
      modifies this`balanceCache
      ensures b == LastBalance(tables.balances + newBalances, pkscript, tick)
      ensures BalancesAgree(balanceCache, tables.balances, newBalances)
      ensures balanceCache == old(balanceCache)[Key(pkscript, tick) := b]
    {
      if Key(pkscript, tick) in balanceCache {
        b := balanceCache[Key(pkscript, tick)];
        return;
      }
      LoadBalance(balanceCache, tables.balances, newBalances, pkscript, tick);
      b := LastBalance(tables.balances, pkscript, tick);
      balanceCache := balanceCache[Key(pkscript, tick) := b];
    }

    method IsUsedOrInvalid(inscriptionId: string) returns (r: bool)
      requires Working()
      modifies this`transferValidity
      ensures r <==> !Unsettled(tables.events + newEvents, inscriptionId)
      ensures Working() && Current() == old(Current())
    {
      hide LedgerOk, BalancesAgree, EventsAgree, InscribeCount, MoveCount;
      if inscriptionId in transferValidity {
        return transferValidity[inscriptionId] != 1;
      }
      LoadValidity(transferValidity, tables.events, newEvents, inscriptionId);
      var inscribeCount := InscribeCount(tables.events, inscriptionId);
      var moveCount := MoveCount(tables.events, inscriptionId);
      if inscribeCount != 1 {
        transferValidity := transferValidity[inscriptionId := 0];
        return true;
      } else if moveCount != 0 {
        transferValidity := transferValidity[inscriptionId := -1];
        return true;
      } else {
        transferValidity := transferValidity[inscriptionId := 1];
        return false;
      }
    }

    /** The cached event is used once: reading it removes it. */
    method GetTransferInscribeEvent(inscriptionId: string) returns (e: Event)
      requires EventsAgree(inscribeEvents, tables.events, newEvents) && LogOk(tables.events + newEvents)
      requires inscriptionId in Open(tables.events + newEvents)
      modifies this`inscribeEvents
      ensures e == Open(tables.events + newEvents)[inscriptionId]
      ensures inscribeEvents == old(inscribeEvents) - {inscriptionId}
    {
      if inscriptionId in inscribeEvents {
        e := inscribeEvents[inscriptionId];
        inscribeEvents := inscribeEvents - {inscriptionId};
        return;
      }
      EventIsCommitted(inscribeEvents, tables.events, newEvents, inscriptionId);
      e := InscribeEvent(tables.events, inscriptionId);
    }

    // ---- logging

    /** Appends an event to the pending rows and to the block's text. */
    method LogEvent(height: nat, inscriptionId: string, e: Event, decimals: nat) returns (eventId: nat)
      requires decimals <= 18 && (e.Deploy? ==> e.decimals == decimals)
      requires blockStartMaxEventId == |tables.events| - 1
      modifies this`newEvents, this`blockEventsStr
      ensures eventId == |tables.events + old(newEvents)|
      ensures Mem() == old(Mem()).(newEvents := old(newEvents) + [RowFor(tables, old(Mem()), height, inscriptionId, e)],
                                   text := old(blockEventsStr) + EventStr(e, inscriptionId, decimals) + SEPARATOR)
    {
      blockEventsStr := blockEventsStr + EventStr(e, inscriptionId, decimals) + SEPARATOR;
      eventId := blockStartMaxEventId + |newEvents| + 1;
      newEvents := newEvents + [EventRow(eventId, height, inscriptionId, e)];
    }

    /** Changes the cached balance object in place and appends its new state. */
    method NoteBalance(height: nat, pkscript: string, tick: string, overall: int, available: int, eventId: int)
      requires BalancesAgree(balanceCache, tables.balances, newBalances) && HexScript(pkscript) && TickSized(tick)
      modifies this`balanceCache, this`newBalances
      ensures BalancesAgree(balanceCache, tables.balances, newBalances)
      ensures Mem() == WithBalance(old(Mem()),
                                   CreditRow(tables, old(Mem()), height, pkscript, tick, overall, available, eventId))
    {
      hide LastBalance, BalancesAgree;
      var last := GetLastBalance(pkscript, tick);
      var changed := Balance(last.overall + overall, last.available + available);
      StoreBalance(balanceCache, tables.balances, newBalances, BalanceRow(pkscript, tick, changed, height, eventId));
      balanceCache := balanceCache[Key(pkscript, tick) := changed];
      newBalances := newBalances + [BalanceRow(pkscript, tick, changed, height, eventId)];
    }

    // ---- the handlers

    method DeployInscribe(height: nat, inscriptionId: string, e: Event)
      requires Working() && inscriptionId in seen
      requires e.Deploy? && e.decimals <= 18 && e.tick !in ticks
      modifies this
      ensures Working() && tables == old(tables) && chain == old(chain) && seen == old(seen)
      ensures Current() == DoDeploy(old(Current()), height, inscriptionId, e)
    {
      hide Agrees, EventStr, DoDeploy, Memory.Over;
      DeployAgrees(env, tables, Mem(), seen, height, inscriptionId, e);
      var eventId := LogEvent(height, inscriptionId, e, e.decimals);
      var ticker := Ticker(e.originalTick, e.maxSupply, e.decimals, e.limit, e.maxSupply, height, e.selfMint,
                           inscriptionId);
      newTickers := newTickers + [NewTicker(e.tick, ticker)];
      ticks := ticks[e.tick := TickInfo(e.maxSupply, e.limit, e.decimals, e.selfMint, inscriptionId)];
      assert Mem() == AfterDeploy(old(tables), old(Mem()), height, inscriptionId, e);
    }

    method MintInscribe(height: nat, inscriptionId: string, e: Event)
      requires Working() && inscriptionId in seen
      requires e.Mint? && e.tick in ticks && ticks[e.tick].decimals <= 18 && e.amount <= ticks[e.tick].remaining
      requires HexScript(e.minter) && TickSized(e.tick)
      modifies this
      ensures Working() && tables == old(tables) && chain == old(chain) && seen == old(seen)
      ensures Current() == DoMint(old(Current()), height, inscriptionId, e)
    {
      hide Agrees, DoMint, BalancesAgree, LogOk, DecimalsOk, Memory.Over, WithEvent, WithMint;
      WorkingLog(env, tables, Mem(), seen);
      MintAgrees(env, tables, Mem(), seen, height, inscriptionId, e);
      var eventId := LogCreation(height, inscriptionId, e, ticks[e.tick].decimals);
      NoteMint(height, e, eventId);
    }

    /** The supplies and the minter's balance after a mint. */
    method NoteMint(height: nat, e: Event, eventId: nat)
      requires e.Mint? && e.tick in ticks && HexScript(e.minter) && TickSized(e.tick)
      requires BalancesAgree(balanceCache, tables.balances, newBalances)
      modifies this`minted, this`balanceCache, this`newBalances, this`ticks
      ensures Mem() == WithMint(tables, old(Mem()), height, e, eventId)
    {
      hide BalancesAgree, WithBalance, CreditRow;
      minted := minted[e.tick := (if e.tick in minted then minted[e.tick] else 0) + e.amount];
      assert Mem() == old(Mem()).(minted := minted);
      NoteBalance(height, e.minter, e.tick, e.amount, e.amount, eventId);
      ticks := ticks[e.tick := ticks[e.tick].(remaining := ticks[e.tick].remaining - e.amount)];
    }

    /** The log entry of a mint, or of an inscribed transfer, which is then valid. */
    method LogCreation(height: nat, inscriptionId: string, e: Event, decimals: nat) returns (eventId: nat)
      requires (e.Mint? || e.Inscribe?) && decimals <= 18 && blockStartMaxEventId == |tables.events| - 1
      modifies this`newEvents, this`blockEventsStr, this`transferValidity, this`inscribeEvents
      ensures eventId == |tables.events + old(newEvents)|
      ensures Mem() == WithEvent(old(Mem()), RowFor(tables, old(Mem()), height, inscriptionId, e), decimals)
    {
      hide EventStr, WithEvent;
      WithEventIs(Mem(), RowFor(tables, Mem(), height, inscriptionId, e), decimals);
      eventId := LogEvent(height, inscriptionId, e, decimals);
      if e.Inscribe? {
        transferValidity := transferValidity[inscriptionId := 1];
        inscribeEvents := inscribeEvents[inscriptionId := e];
      }
    }

    method TransferInscribe(height: nat, inscriptionId: string, e: Event)
      requires Working() && inscriptionId !in seen
      requires e.Inscribe? && e.tick in ticks && ticks[e.tick].decimals <= 18
      requires HexScript(e.source) && TickSized(e.tick)
      requires e.amount <= LastBalance(tables.balances + newBalances, e.source, e.tick).available
      requires DecimalsOk(Current().tables)
      requires InscribedOk(env, Current().tables.tickers, RowFor(tables, Mem(), height, inscriptionId, e))
      modifies this
      ensures Working() && tables == old(tables) && chain == old(chain) && seen == old(seen) + {inscriptionId}
      ensures Current() == DoInscribe(old(Current()), height, inscriptionId, e)
    {
      hide Agrees, DoInscribe, BalancesAgree, LastBalance, LogOk, DecimalsOk, InscribedOk, Memory.Over, WithEvent,
           WithBalance, CreditRow;
      WorkingLog(env, tables, Mem(), seen);
      InscribeAgrees(env, tables, Mem(), seen, height, inscriptionId, e);
      var eventId := LogCreation(height, inscriptionId, e, ticks[e.tick].decimals);
      NoteBalance(height, e.source, e.tick, 0, -(e.amount as int), eventId);
      seen := seen + {inscriptionId};
    }

    /** The log entry of a settled transfer whose event has just been taken from the cache. */
    method LogMove(height: nat, inscriptionId: string, e: Event, decimals: nat,
                   ghost before: Memory) returns (eventId: nat)
      requires e.Move? && decimals <= 18 && blockStartMaxEventId == |tables.events| - 1
      requires Mem() == before.(inscribeEvents := before.inscribeEvents - {inscriptionId})
      modifies this`newEvents, this`blockEventsStr, this`transferValidity
      ensures eventId == RowFor(tables, before, height, inscriptionId, e).id
      ensures Mem() == WithEvent(before, RowFor(tables, before, height, inscriptionId, e), decimals)
    {
      hide EventStr, WithEvent;
      WithEventIs(before, RowFor(tables, before, height, inscriptionId, e), decimals);
      eventId := LogEvent(height, inscriptionId, e, decimals);
      transferValidity := transferValidity[inscriptionId := -1];
    }

    method TransferTransferNormal(height: nat, inscriptionId: string, spent: string, tick: string, originalTick: string,
                                  amount: nat, usingTxId: nat)
      requires Working() && inscriptionId in seen && tick in ticks && ticks[tick].decimals <= 18
      requires HexScript(spent) && TickSized(tick)
      requires inscriptionId in Open(tables.events + newEvents)
      requires var inscribed := Open(tables.events + newEvents)[inscriptionId];
               inscribed.Inscribe? && inscribed.tick == tick && inscribed.amount == amount &&
               HexScript(inscribed.source)
      modifies this
      ensures Working() && tables == old(tables) && chain == old(chain) && seen == old(seen)
      ensures Current() == DoMove(old(Current()), height, inscriptionId,
                                  Move(old(Open(tables.events + newEvents)[inscriptionId]).source, Some(spent), tick,
                                       originalTick, amount, usingTxId))
    {
      hide Agrees, EventStr, DoMove, BalancesAgree, EventsAgree, LogOk, DecimalsOk, Open, Memory.Over, WithEvent,
           WithBalance, CreditRow;
      WorkingLog(env, tables, Mem(), seen);
      ghost var before := Mem();
      var inscribed := GetTransferInscribeEvent(inscriptionId);
      var e := Move(inscribed.source, Some(spent), tick, originalTick, amount, usingTxId);
      MoveAgrees(env, tables, before, seen, height, inscriptionId, e);
      var eventId := LogMove(height, inscriptionId, e, ticks[tick].decimals, before);
      // when the receiver is the source, the second change is to the same cached object
      NoteBalance(height, e.source, tick, -(amount as int), 0, eventId);
      NoteBalance(height, spent, tick, amount, amount, -(eventId as int));
    }

    method TransferTransferSpendToFee(height: nat, inscriptionId: string, tick: string, originalTick: string,
                                      amount: nat, usingTxId: nat)
      requires Working() && inscriptionId in seen && tick in ticks && ticks[tick].decimals <= 18 && TickSized(tick)
      requires inscriptionId in Open(tables.events + newEvents)
      requires var inscribed := Open(tables.events + newEvents)[inscriptionId];
               inscribed.Inscribe? && inscribed.tick == tick && inscribed.amount == amount &&
               HexScript(inscribed.source)
      modifies this
      ensures Working() && tables == old(tables) && chain == old(chain) && seen == old(seen)
      ensures Current() == DoMove(old(Current()), height, inscriptionId,
                                  Move(old(Open(tables.events + newEvents)[inscriptionId]).source, None, tick,
                                       originalTick, amount, usingTxId))
    {
      hide Agrees, EventStr, DoMove, BalancesAgree, EventsAgree, LogOk, DecimalsOk, Open, Memory.Over, WithEvent,
           WithBalance, CreditRow;
      WorkingLog(env, tables, Mem(), seen);
      ghost var before := Mem();
      var inscribed := GetTransferInscribeEvent(inscriptionId);
      var e := Move(inscribed.source, None, tick, originalTick, amount, usingTxId);
      MoveAgrees(env, tables, before, seen, height, inscriptionId, e);
      var eventId := LogMove(height, inscriptionId, e, ticks[tick].decimals, before);
      NoteBalance(height, e.source, tick, 0, amount, eventId);
    }

    // ---- one row of the block

    method CheckAvailableBalance(pkscript: string, tick: string, amount: nat) returns (r: bool)
      requires Working() && HexScript(pkscript) && TickSized(tick)
      modifies this`balanceCache
      ensures r <==> amount <= LastBalance(tables.balances + newBalances, pkscript, tick).available
      ensures Working() && Current() == old(Current())
    {
      hide LastBalance, BalancesAgree, LedgerOk;
      var last := GetLastBalance(pkscript, tick);
      return amount <= last.available;
    }

    /** A `transfer` inscription: inscribed now, or moved. */
    method ProcessTransfer(height: nat, row: TransferRow, js: Content, tick: string)
      requires Working() && HexScript(row.newPkScript) && TickSized(tick) && DecimalsOk(Current().tables)
      requires js.tick.Some? && tick == Lower(js.tick.value)
      requires row.inscriptionId in env.catalog && env.catalog[row.inscriptionId].content == js
      requires Creates(row) !! seen
      modifies this
      ensures Working() && tables == old(tables) && chain == old(chain) && seen == old(seen) + Creates(row)
      ensures var w := old(Current());
              Current() ==
              match TransferEvent(w.tables, js, tick, row)
              case None => w
              case Some(e) =>
                if e.Inscribe? then DoInscribe(w, height, row.inscriptionId, e)
                else DoMove(w, height, row.inscriptionId, e)
    {
      hide Agrees, TransferEvent, DoInscribe, DoMove, Memory.Over, LastBalance, DecimalsOk, ParsePositive, Open,
           BalancesAgree,
           ValidityAgrees, InscribedOk, Unsettled;
      var id := row.inscriptionId;
      WorkingLog(env, tables, Mem(), seen);
      TickKnown(env, tables, Mem(), seen, tick);
      if tick !in ticks || ParsePositive(js.amt, ticks[tick].decimals).None? {
        NoTransfer(env, tables, Mem(), seen, row, js, tick);
        Skip(row);
        return;
      }
      var amount := ParsePositive(js.amt, ticks[tick].decimals).value;
      if row.oldSatpoint == "" {
        InscribeDecision(env, tables, Mem(), seen, row, js, tick, amount);
        InscribeIsOk(env, tables, Mem(), seen, height, id, js, tick, row.newPkScript, amount);
        var enough := CheckAvailableBalance(row.newPkScript, tick, amount);
        if !enough {
          Skip(row);
          return;
        }
        TransferInscribe(height, id, Inscribe(row.newPkScript, tick, js.tick.value, amount));
      } else {
        MoveDecision(env, tables, Mem(), seen, row, js, tick, amount);
        var used := IsUsedOrInvalid(id);
        if used {
          return;
        }
        if row.sentAsFee {
          TransferTransferSpendToFee(height, id, tick, js.tick.value, amount, row.txId);
        } else {
          TransferTransferNormal(height, id, row.newPkScript, tick, js.tick.value, amount, row.txId);
        }
      }
    }

    method ProcessDeploy(height: nat, row: TransferRow, js: Content, originalTick: string, tick: string)
      requires Working() && row.oldSatpoint == "" && Creates(row) !! seen && DecimalsOk(Current().tables)
      modifies this
      ensures Working() && tables == old(tables) && chain == old(chain) && seen == old(seen) + Creates(row)
      ensures var w := old(Current());
              var e := if tick in w.tables.tickers then None
                       else DeployEvent(height, js, tick, originalTick, row.newPkScript);
              Current() == if e.None? then w else DoDeploy(w, height, row.inscriptionId, e.value)
    {
      hide Agrees, DeployEvent, DoDeploy, Memory.Over, DecimalsOk;
      TickKnown(env, tables, Mem(), seen, tick);
      Skip(row);
      if tick in ticks {
        return;
      }
      var e := DeployEvent(height, js, tick, originalTick, row.newPkScript);
      if e.Some? {
        DeployInscribe(height, row.inscriptionId, e.value);
      }
    }

    method ProcessMint(height: nat, row: TransferRow, js: Content, originalTick: string, tick: string, parentId: string)
      requires Working() && row.oldSatpoint == "" && Creates(row) !! seen && DecimalsOk(Current().tables)
      requires HexScript(row.newPkScript) && TickSized(tick)
      modifies this
      ensures Working() && tables == old(tables) && chain == old(chain) && seen == old(seen) + Creates(row)
      ensures var w := old(Current());
              var grant := if tick !in w.tables.tickers then None
                           else MintGrant(InfoOf(w.tables.tickers[tick]), js.amt, parentId);
              Current() == if grant.None? then w
                           else DoMint(w, height, row.inscriptionId,
                                       Mint(row.newPkScript, tick, originalTick, grant.value, parentId))
    {
      hide Agrees, ParsePositive, DoMint, Memory.Over, DecimalsOk;
      TickKnown(env, tables, Mem(), seen, tick);
      Skip(row);
      if tick !in ticks {
        return;
      }
      var grant := MintGrant(ticks[tick], js.amt, parentId);
      if grant.Some? {
        MintInscribe(height, row.inscriptionId, Mint(row.newPkScript, tick, originalTick, grant.value, parentId));
      }
    }

    /** One round of the loop over the block's transfers. */
    method ProcessRow(height: nat, row: TransferRow)
      requires Working() && HexScript(row.newPkScript) && Creates(row) !! seen && DecimalsOk(Current().tables)
      modifies this
      ensures Working() && tables == old(tables) && chain == old(chain) && seen == old(seen) + Creates(row)
      ensures Current() == Process(env, height, old(Current()), row)
    {
      hide Agrees, DeployEvent, MintGrant, TransferEvent, DoDeploy, DoMint, DoInscribe, DoMove, Memory.Over, DecimalsOk;
      var id := row.inscriptionId;
      var genesis := row.oldSatpoint == "";
      if id !in env.catalog || (row.sentAsFee && genesis) || !env.catalog[id].textual {
        Skip(row);
        return;
      }
      var js := env.catalog[id].content;
      if js.tick.None? || js.op.None? {
        Skip(row);
        return;
      }
      var originalTick := js.tick.value;
      var tick := Lower(originalTick);
      if (|originalTick| != 4 && |originalTick| != 5) || js.p != "brc-20" {
        Skip(row);
      } else if js.op.value == "deploy" && genesis {
        ProcessDeploy(height, row, js, originalTick, tick);
      } else if js.op.value == "mint" && genesis {
        ProcessMint(height, row, js, originalTick, tick, env.catalog[id].parentId);
      } else if js.op.value == "transfer" {
        ProcessTransfer(height, row, js, tick);
      } else {
        Skip(row);
      }
    }

    /** Nothing comes of a row; if it creates an inscription, that is now known. */
    method Skip(row: TransferRow)
      requires Working()
      modifies this`seen
      ensures Working() && seen == old(seen) + Creates(row)
    {
      MoreSeen(env, tables, Mem(), seen, seen + Creates(row));
      seen := seen + Creates(row);
    }

    // ---- whole blocks

    /** `update_event_hashes` on the text of the program, which it strips in place. */
    method UpdateEventHashes(height: nat)
      modifies this`tables, this`blockEventsStr
      ensures blockEventsStr == Stripped(old(blockEventsStr))
      ensures tables == old(tables).(hashes := old(tables).hashes[height :=
                          BlockHashes(env, old(tables).hashes, height, old(blockEventsStr))])
    {
      var hashes := tables.hashes[height := BlockHashes(env, tables.hashes, height, blockEventsStr)];
      blockEventsStr := Stripped(blockEventsStr);
      tables := tables.(hashes := hashes);
    }

    /** The statements between BEGIN and COMMIT that write the pending rows. */
    method WritePending()
      modifies this`tables
      ensures tables == old(Current()).tables
    {
      hide Merged, Inserted, Settled;
      ghost var before := tables.tickers;
      tables := tables.(events := tables.events + newEvents, tickers := Inserted(tables.tickers, newTickers));
      var todo := minted.Keys;
      MergedStart(before, newTickers, minted);
      while todo != {}
        invariant todo <= minted.Keys
        invariant tables.tickers == Merged(before, newTickers, Settled(minted, todo))
        invariant tables == old(tables).(events := old(tables).events + newEvents, tickers := tables.tickers)
        decreases todo
      {
        var tick :| tick in todo;
        MergedStep(before, newTickers, minted, todo, tick);
        if tick in tables.tickers {
          var row := tables.tickers[tick];
          tables := tables.(tickers := tables.tickers[tick := row.(remaining := row.remaining - minted[tick])]);
        }
        todo := todo - {tick};
      }
      MergedEnd(minted);
      tables := tables.(balances := tables.balances + newBalances);
    }

    /** Empty pending lists, and the number from which the new events count. */
    method BeginBlock()
      requires Agrees(env, tables, Cleared(Mem()), seen)
      modifies this`blockEventsStr, this`newEvents, this`newTickers, this`minted, this`newBalances,
               this`blockStartMaxEventId
      ensures Working() && Current() == Work(tables, "") && DecimalsOk(tables)
    {
      hide Agrees, LedgerOk, Memory.Over, LogOk;
      ClearedOver(Mem(), tables);
      WorkingLog(env, tables, Cleared(Mem()), seen);
      assert tables.events + [] == tables.events;
      MaxIdIsLast(tables.events);
      blockEventsStr := "";
      blockStartMaxEventId := MaxEventId(tables.events);
      newEvents, newTickers, minted, newBalances := [], [], map[], [];
      assert Mem() == Cleared(old(Mem()));
    }

    /** The loop over the block's transfers; before the first BRC-20 height there is none. */
    method ProcessRows(height: nat, rows: seq<TransferRow>)
      requires Agrees(env, tables, Cleared(Mem()), seen) && CreatedOnce(rows, seen) && DecimalsOk(tables)
      requires forall row | row in rows :: HexScript(row.newPkScript)
      modifies this
      ensures tables == old(tables) && chain == old(chain) && seen == old(seen) + Created(rows)
      ensures Agrees(env, tables, Mem(), seen)
      ensures Current() == ProcessAll(env, height, Work(tables, ""), if height < env.firstBrc20Height then [] else rows)
    {
      hide Agrees, Process, LedgerOk, Memory.Over, LogOk;
      BeginBlock();
      if height < env.firstBrc20Height {
        MoreSeen(env, tables, Mem(), seen, seen + Created(rows));
        seen := seen + Created(rows);
        return;
      }
      RunRows(height, rows);
    }

    method RunRows(height: nat, rows: seq<TransferRow>)
      requires Working() && CreatedOnce(rows, seen) && DecimalsOk(Current().tables)
      requires forall row | row in rows :: HexScript(row.newPkScript)
      modifies this
      ensures Working() && tables == old(tables) && chain == old(chain) && seen == old(seen) + Created(rows)
      ensures Current() == ProcessAll(env, height, old(Current()), rows)
    {
      hide Agrees, Process, LedgerOk, Memory.Over, DecimalsOk;
      ghost var w := Current();
      var i := 0;
      while i < |rows|
        invariant i <= |rows| && Working() && tables == old(tables) && chain == old(chain)
        invariant seen == old(seen) + Created(rows[..i])
        invariant Current() == ProcessAll(env, height, w, rows[..i])
      {
        CreatedOncePrefix(rows, old(seen), i + 1);
        assert rows[..i + 1][..i] == rows[..i];
        ProcessRow(height, rows[i]);
        i := i + 1;
      }
      assert rows[..i] == rows;
    }

    /** The end of `index_block`: pending rows, event hashes and block hash are written. */
    method Commit(height: nat, blockHash: string)
      requires Agrees(env, tables, Mem(), seen)
      modifies this`tables, this`blockEventsStr
      ensures tables == Finish(env, old(Current()), height, blockHash)
      ensures Agrees(env, tables, Cleared(Mem()), seen)
    {
      hide Agrees, BlockHashes, Stripped;
      WritePending();
      UpdateEventHashes(height);
      tables := tables.(blocks := tables.blocks[height := blockHash]);
      WrittenAgrees(env, old(tables), old(Mem()), seen, tables);
    }

    /** `index_block` for the next height of the chain. */
    method IndexBlock(height: nat, blockHash: string, rows: seq<TransferRow>)
      requires Valid() && height == env.firstHeight + |chain|
      requires ChainOk(chain + [Block(blockHash, rows)])
      requires forall row | row in rows :: HexScript(row.newPkScript)
      modifies this
      ensures Valid() && chain == old(chain) + [Block(blockHash, rows)]
    {
      hide Agrees, ProcessAll, Finish, LedgerOk, Memory.Over, DecimalsOk;
      ghost var block := Block(blockHash, rows);
      assert (chain + [block])[..|chain|] == chain;
      ProcessRows(height, rows);
      Commit(height, blockHash);
      chain := chain + [block];
    }

    /** The loop of `reindex_cumulative_hashes`. The text it reads from the log is a variable of its own; what
        is hashed is the text of the program. */
    method ReindexHeights(low: nat, high: nat)
      requires RulesOk(tables) && tables.hashes == map[] && low == env.firstHeight <= high + 1
      modifies this`tables, this`blockEventsStr
      ensures tables == old(tables).(hashes := Reindexed(env, old(blockEventsStr), high + 1 - low))
      ensures blockEventsStr == StaleText(old(blockEventsStr), high + 1 - low)
    {
      hide RulesOk, BlockText, BlockHashes, Stripped;
      var height := low;
      while height <= high
        invariant low <= height <= high + 1
        invariant tables == old(tables).(hashes := Reindexed(env, old(blockEventsStr), height - low))
        invariant blockEventsStr == StaleText(old(blockEventsStr), height - low)
      {
        TextAtIs(old(tables), height);
        var blockEventsStr := BlockText(tables.tickers, EventsAt(tables.events, height));
        UpdateEventHashes(height);
        height := height + 1;
      }
    }

    /** The heights from the first block to the last; there must be one. */
    method ReindexBlocks() returns (ok: bool)
      requires RulesOk(tables) && tables.hashes == map[] && tables.blocks == Replay(env, chain).blocks
      modifies this`tables, this`blockEventsStr
      ensures ok <==> chain != []
      ensures tables == old(tables).(hashes := Reindexed(env, old(blockEventsStr), |chain|))
      ensures blockEventsStr == StaleText(old(blockEventsStr), |chain|)
    {
      hide Replay, RulesOk, DecimalsOk, Stripped;
      BlockHash(env, chain, env.firstHeight);
      if tables.blocks == map[] {
        return false;
      }
      var low := MinHeight(tables.blocks);
      var high := MaxHeight(tables.blocks);
      BlockHash(env, chain, low);
      FirstBlock(env, chain, low);
      LastBlock(env, chain, high);
      ReindexHeights(low, high);
      ok := true;
    }

    /** `reindex_cumulative_hashes`, which fails on an empty block table. */
    method ReindexCumulativeHashes() returns (ok: bool)
      requires Valid()
      modifies this`tables, this`blockEventsStr, this`ticks
      ensures ok <==> chain != []
      ensures tables == old(tables).(hashes := Reindexed(env, old(blockEventsStr), |chain|))
      ensures ticks == old(ticks) && blockEventsStr == StaleText(old(blockEventsStr), |chain|)
      ensures Valid() <==> StaleHashesFit(env, old(tables), old(blockEventsStr), |chain|)
    {
      hide Replay, Agrees, RulesOk, DecimalsOk, StaleHashesFit, TicksOf, StaleText, ChainOk, CreatedBy, Reindexed;
      AgreesTicks(env, tables, Mem(), seen);
      RulesAreKept(env, chain);
      ReindexRestores(env, chain, blockEventsStr);
      HashesAreNoText(tables, tables.(hashes := map[]));
      tables := tables.(hashes := map[]);
      ticks := TicksOf(tables.tickers);
      ok := ReindexBlocks();
      assert Cleared(Mem()) == old(Cleared(Mem()));
      assert tables.hashes == old(tables).hashes ==> tables == old(tables);
    }

    // ---- rollback

    /** `reset_caches` */
    method ResetCaches()
      modifies this`ticks, this`balanceCache, this`transferValidity, this`inscribeEvents
      ensures ticks == TicksOf(tables.tickers)
      ensures balanceCache == map[] && transferValidity == map[] && inscribeEvents == map[]
    {
      balanceCache, transferValidity, inscribeEvents := map[], map[], map[];
      ticks := TicksOf(tables.tickers);
    }

    /** The amounts by tick of the mint events above a height. */
    method MintedSince(height: int) returns (tickChanges: map<string, nat>)
      ensures forall tick ::
                (if tick in tickChanges then tickChanges[tick] else 0) == MintedAbove(tables.events, height, tick)
    {
      tickChanges := map[];
      var i := 0;
      while i < |tables.events|
        invariant i <= |tables.events|
        invariant forall tick ::
                    (if tick in tickChanges then tickChanges[tick] else 0) ==
                      MintedAbove(tables.events[..i], height, tick)
      {
        var row := tables.events[i];
        assert tables.events[..i + 1][..i] == tables.events[..i];
        if row.height > height && row.event.Mint? {
          var tick := row.event.tick;
          tickChanges := tickChanges[tick := (if tick in tickChanges then tickChanges[tick] else 0) + row.event.amount];
        }
        i := i + 1;
      }
      assert tables.events[..i] == tables.events;
    }

    /** The statements of `reorg_fix`. */
    method RollbackTables(height: int)
      modifies this`tables
      ensures tables == IndexSpec.ReorgFix(old(tables), height)
    {
      hide EventsUpTo, BalancesUpTo, MintedAbove;
      var kept := map tick | tick in tables.tickers && tables.tickers[tick].height <= height :: tables.tickers[tick];
      var tickChanges := MintedSince(height);
      var tickers := kept;
      var todo := tickChanges.Keys;
      while todo != {}
        invariant todo <= tickChanges.Keys && tickers.Keys == kept.Keys
        invariant forall tick | tick in kept ::
                    tickers[tick] == kept[tick].(remaining := kept[tick].remaining +
                      if tick in tickChanges && tick !in todo then tickChanges[tick] else 0)
        decreases todo
      {
        var tick :| tick in todo;
        if tick in tickers {
          tickers := tickers[tick := tickers[tick].(remaining := tickers[tick].remaining + tickChanges[tick])];
        }
        todo := todo - {tick};
      }
      tables := Tables(EventsUpTo(tables.events, height), tickers, BalancesUpTo(tables.balances, height),
                       map h | h in tables.hashes && h <= height :: tables.hashes[h],
                       map h | h in tables.blocks && h <= height :: tables.blocks[h]);
      assert tables.tickers == IndexSpec.ReorgFix(old(tables), height).tickers;
    }

    /** `reorg_fix`: whatever the height, what is left is the replay of the blocks up to
        it, with fresh caches. */
    method ReorgFix(height: int)
      requires Valid()
      modifies this
      ensures Valid()
      ensures chain == old(chain)[..KeptBlocks(env, old(chain), height)]
    {
      hide Agrees, LedgerOk, Replay, TicksOf, SourcesAreHex, IndexSpec.ReorgFix;
      AfterRollback(env, chain, tables, height);
      AgreesHex(env, tables, Mem(), seen);
      RollbackKeepsHex(tables.events, height);
      FixedEvents(tables, height);
      RollbackTables(height);
      ResetCaches();
      chain := chain[..KeptBlocks(env, chain, height)];
      seen := CreatedBy(chain);
      ResetAgrees(env, tables, Cleared(Mem()), seen);
    }

    // ---- the main loop

    /** `check_for_reorg` against the blocks of the metaprotocol database: the last
        stored hash, and on a mismatch the last ten, newest first. */
    method CheckForReorg(source: seq<Block>) returns (r: ReorgCheck)
      requires tables.blocks == Replay(env, chain).blocks && |chain| <= |source|
      ensures r.NoReorg? <==> chain == [] || chain[|chain| - 1].hash == source[|chain| - 1].hash
      ensures r.RollBackTo? ==> r.height >= env.firstHeight && NewestMatch(chain, source, r.height - env.firstHeight)
      ensures r.TooDeep? ==> forall k :: !NewestMatch(chain, source, k)
    {
      hide Replay, DecimalsOk;
      if tables.blocks == map[] {
        BlockHash(env, chain, env.firstHeight);
        return NoReorg;
      }
      var top := MaxHeight(tables.blocks);
      LastBlock(env, chain, top);
      BlockHash(env, chain, top);
      if tables.blocks[top] == source[top - env.firstHeight].hash {
        return NoReorg;
      }
      var n := 0;
      while n < 10 && top - n >= env.firstHeight
        invariant 0 <= n <= 10 && n <= |chain|
        invariant forall k :: |chain| - n <= k < |chain| ==> chain[k].hash != source[k].hash
      {
        var h := top - n;
        BlockHash(env, chain, h);
        if tables.blocks[h] == source[h - env.firstHeight].hash {
          return RollBackTo(h);
        }
        n := n + 1;
      }
      return TooDeep;
    }

    /** One round of the main loop; on a reorganisation it only rolls back. */
    method Iterate(source: seq<Block>) returns (r: Outcome)
      requires Valid() && Indexable(source) && HashesBind(chain, source)
      modifies this
      ensures Valid()
      ensures r.Waiting? <==> |source| <= |old(chain)|
      ensures r.Waiting? || r.Critical? ==> chain == old(chain)
      ensures r.Indexed? ==> old(chain) <= source && chain == source[..|old(chain)| + 1]
      ensures r.RolledBack? ==> |chain| < |old(chain)| && chain <= source && !(old(chain) <= source)
      ensures r.RolledBack? ==> NewestMatch(old(chain), source, |chain| - 1)
      ensures r.Critical? ==> !(old(chain) <= source) && forall k :: !NewestMatch(old(chain), source, k)
    {
      hide Agrees, LedgerOk, Replay, DecimalsOk, Memory.Over, ChainOk;
      var next := env.firstHeight;
      BlockHash(env, chain, env.firstHeight);
      if tables.blocks != map[] {
        next := MaxHeight(tables.blocks);
        LastBlock(env, chain, next);
        next := next + 1;
      }
      if next >= env.firstHeight + |source| {
        return Waiting;
      }
      var check := CheckForReorg(source);
      match check {
        case TooDeep =>
          NotPrefix(chain, source);
          return Critical;
        case RollBackTo(h) =>
          PrefixAt(chain, source, h - env.firstHeight);
          ReorgFix(h);
          return RolledBack;
        case NoReorg =>
          NextBlock(chain, source);
          var block := source[next - env.firstHeight];
          IndexBlock(next, block.hash, block.rows);
          return Indexed;
      }
    }

    /** The loop, for as long as the source stays as it is. */
    method CatchUp(source: seq<Block>) returns (r: Outcome)
      requires Valid() && Indexable(source) && HashesBind(chain, source)
      modifies this
      ensures Valid() && (r.Waiting? || r.Critical?)
      ensures |source| <= |old(chain)| ==> r.Waiting? && chain == old(chain)
      ensures |source| > |old(chain)| ==>
                (r.Critical? <==> !(old(chain) <= source) && forall k :: !NewestMatch(old(chain), source, k))
      ensures |source| > |old(chain)| ==> chain == if r.Critical? then old(chain) else source
    {
      hide Agrees, LedgerOk, Replay, DecimalsOk, Memory.Over, ChainOk;
      r := Iterate(source);
      while r.Indexed? || r.RolledBack?
        invariant Valid() && HashesBind(chain, source)
        invariant r.Indexed? || r.RolledBack? ==> |source| > |old(chain)| && chain <= source
        invariant |source| > |old(chain)| && !r.Critical? ==>
                    old(chain) <= source || exists k :: NewestMatch(old(chain), source, k)
        invariant r.Waiting? ==> if |source| <= |old(chain)| then chain == old(chain) else chain == source
        invariant r.Critical? ==> |source| > |old(chain)| && chain == old(chain) && !(old(chain) <= source)
        invariant r.Critical? ==> forall k :: !NewestMatch(old(chain), source, k)
        decreases |source| - |chain|, if r.Indexed? || r.RolledBack? then 1 else 0
      {
        r := Iterate(source);
      }
    }
  }

  lemma FixedEvents(t: Tables, height: int)
    ensures IndexSpec.ReorgFix(t, height).events == EventsUpTo(t.events, height)
  {
  }

  /** How many blocks of a chain a rollback to a height leaves. */
  function KeptBlocks(env: Env, chain: seq<Block>, height: int): (n: nat)
    ensures n <= |chain|
  {
    var keep := height - env.firstHeight + 1;
    if keep < 0 then 0 else if keep > |chain| then |chain| else keep
  }

  lemma AfterRollback(env: Env, chain: seq<Block>, t: Tables, height: int)
    requires ChainOk(chain) && t == Replay(env, chain)
    ensures var left := chain[..KeptBlocks(env, chain, height)];
            && ChainOk(left) && IndexSpec.ReorgFix(t, height) == Replay(env, left)
            && LedgerOk(env, Replay(env, left), CreatedBy(left))
  {
    hide LedgerOk, Replay, IndexSpec.ReorgFix, ChainOk, CreatedBy;
    assert chain[..0] == [];
    var keep := KeptBlocks(env, chain, height);
    ChainOkPrefix(chain, keep);
    LedgerIsSound(env, chain[..keep]);
    if height - env.firstHeight + 1 < 0 {
      FixFarBelow(env, chain, height);
    } else if height - env.firstHeight + 1 > |chain| {
      FixFarAbove(env, chain, height);
      assert chain[..keep] == chain;
    } else {
      RollbackIsReplay(env, chain, keep);
    }
  }

  /** Equal hashes mean equal prefixes. */
  lemma PrefixAt(chain: seq<Block>, source: seq<Block>, k: int)
    requires HashesBind(chain, source) && NewestMatch(chain, source, k)
    ensures chain[..k + 1] == source[..k + 1]
  {
    assert SameUpTo(chain, source, k);
  }

  lemma NotPrefix(chain: seq<Block>, source: seq<Block>)
    requires chain != [] && |chain| <= |source| && chain[|chain| - 1].hash != source[|chain| - 1].hash
    ensures !(chain <= source)
  {
  }

  lemma NextBlock(chain: seq<Block>, source: seq<Block>)
    requires HashesBind(chain, source) && Indexable(source) && |chain| < |source|
    requires chain == [] || chain[|chain| - 1].hash == source[|chain| - 1].hash
    ensures chain <= source && source[..|chain| + 1] == chain + [source[|chain|]]
    ensures ChainOk(source[..|chain| + 1])
    ensures source[|chain|] == Block(source[|chain|].hash, source[|chain|].rows)
    ensures forall row | row in source[|chain|].rows :: HexScript(row.newPkScript)
  {
    hide ChainOk;
    if chain != [] {
      assert SameUpTo(chain, source, |chain| - 1);
      assert chain[..|chain|] == chain;
    }
    ChainOkPrefix(source, |chain| + 1);
    assert source[|chain|] in source;
  }
}
