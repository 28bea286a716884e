/** The accounting of the BRC-20 indexer in every reachable state: nothing is created
    or lost, what is not available is exactly what open transfers hold back, and each
    transfer is settled at most once. */
module IndexLedger {
  import opened Wrappers
  import opened MapSum
  import opened IndexTables
  import opened IndexSpec

  // ---- open transfers

  /** The transfer inscriptions that are still open, with their events. */
  function Open(events: seq<EventRow>): map<string, Event> {
    if events == [] then map[]
    else
      var last := events[|events| - 1];
      var before := Open(events[..|events| - 1]);
      if last.event.Inscribe? then before[last.inscriptionId := last.event]
      else if last.event.Move? then before - {last.inscriptionId}
      else before
  }

  /** An event as the log may have it next: a new inscription id, or the settlement of
      an open transfer with that transfer's own source, tick and amount. */
  predicate Follows(events: seq<EventRow>, r: EventRow) {
    && r.id == |events|
    && (r.event.Inscribe? ==> InscribeCount(events, r.inscriptionId) == 0 && MoveCount(events, r.inscriptionId) == 0)
    && (r.event.Move? ==>
          && r.inscriptionId in Open(events)
          && var inscribed := Open(events)[r.inscriptionId];
          && inscribed.Inscribe? && inscribed.source == r.event.source
          && inscribed.tick == r.event.tick && inscribed.amount == r.event.amount)
  }

  predicate LogOk(events: seq<EventRow>) {
    events == [] ||
    (LogOk(events[..|events| - 1]) && Follows(events[..|events| - 1], events[|events| - 1]))
  }

  /** The open transfers are those that the validity query finds, each with its first
      transfer-inscribe event; and no transfer has more than one event of either kind. */
  lemma {:induction false} OpenIsUnsettled(events: seq<EventRow>, id: string)
    requires LogOk(events)
    ensures id in Open(events) <==> Unsettled(events, id)
    ensures id in Open(events) ==> Open(events)[id] == InscribeEvent(events, id)
    ensures MoveCount(events, id) <= InscribeCount(events, id) <= 1
  {
    if events != [] {
      OpenIsUnsettled(events[..|events| - 1], id);
    }
  }

  /** What the open transfers of an account hold back, by inscription. */
  function HeldOf(open: map<string, Event>, pkscript: string, tick: string): map<string, nat> {
    map id | id in open && open[id].Inscribe? && open[id].source == pkscript && open[id].tick == tick :: open[id].amount
  }

  ghost function Held(events: seq<EventRow>, pkscript: string, tick: string): int {
    Sum(HeldOf(Open(events), pkscript, tick))
  }

  lemma HeldAfter(events: seq<EventRow>, r: EventRow, pkscript: string, tick: string)
    requires LogOk(events) && Follows(events, r)
    ensures Held(events + [r], pkscript, tick) == Held(events, pkscript, tick) +
              (if r.event.Inscribe? && r.event.source == pkscript && r.event.tick == tick then r.event.amount else 0) -
              (if r.event.Move? && r.event.source == pkscript && r.event.tick == tick then r.event.amount else 0)
  {
    var open := Open(events);
    var all := events + [r];
    assert all[..|all| - 1] == events;
    var held := HeldOf(open, pkscript, tick);
    if r.event.Inscribe? {
      OpenIsUnsettled(events, r.inscriptionId);
      if r.event.source == pkscript && r.event.tick == tick {
        SumUpdate(held, r.inscriptionId, r.event.amount);
        assert HeldOf(Open(all), pkscript, tick) == held[r.inscriptionId := r.event.amount];
      } else {
        assert HeldOf(Open(all), pkscript, tick) == held;
      }
    } else if r.event.Move? {
      if r.event.source == pkscript && r.event.tick == tick {
        SumRemove(held, r.inscriptionId);
        assert HeldOf(Open(all), pkscript, tick) == held - {r.inscriptionId};
      } else {
        assert HeldOf(Open(all), pkscript, tick) == held;
      }
    }
  }

  // ---- balances of a tick

  /** The overall balance of every holder of a tick. */
  function OverallOf(rows: seq<BalanceRow>, tick: string): map<string, int> {
    if rows == [] then map[]
    else
      var last := rows[|rows| - 1];
      var before := OverallOf(rows[..|rows| - 1], tick);
      if last.tick == tick then before[last.pkscript := last.balance.overall] else before
  }

  lemma {:induction false} OverallIsLast(rows: seq<BalanceRow>, tick: string, pkscript: string)
    ensures LastBalance(rows, pkscript, tick).overall ==
            if pkscript in OverallOf(rows, tick) then OverallOf(rows, tick)[pkscript] else 0
  {
    if rows != [] {
      OverallIsLast(rows[..|rows| - 1], tick, pkscript);
    }
  }

  ghost function Circulating(rows: seq<BalanceRow>, tick: string): int {
    Sum(OverallOf(rows, tick))
  }

  /** A balance row changes one account of one tick by its two amounts. */
  lemma CreditEffect(t: Tables, height: nat, pkscript: string, tick: string, overall: int, available: int, eventId: int)
    ensures var t' := Credit(t, height, pkscript, tick, overall, available, eventId);
            && t' == t.(balances := t'.balances)
            && (forall k ::
                Circulating(t'.balances, k) == Circulating(t.balances, k) + (if k == tick then overall else 0))
            && (forall p, k :: LastBalance(t'.balances, p, k) ==
                  var b := LastBalance(t.balances, p, k);
                  if p == pkscript && k == tick then Balance(b.overall + overall, b.available + available) else b)
  {
    var rows := Credit(t, height, pkscript, tick, overall, available, eventId).balances;
    assert rows[..|rows| - 1] == t.balances;
    OverallIsLast(t.balances, tick, pkscript);
    SumUpdate(OverallOf(t.balances, tick), pkscript, rows[|rows| - 1].balance.overall);
    forall k
      ensures Circulating(rows, k) == Circulating(t.balances, k) + (if k == tick then overall else 0)
    {
    }
  }

  // ---- the invariant

  /** A transfer-inscribe event records what its inscription's own content says. */
  predicate InscribedOk(env: Env, tickers: map<string, Ticker>, r: EventRow)
    requires forall tick | tick in tickers :: tickers[tick].decimals <= 18
  {
    r.event.Inscribe? ==>
      && r.event.tick in tickers && r.inscriptionId in env.catalog
      && env.catalog[r.inscriptionId].content.tick.Some?
      && r.event.tick == Lower(env.catalog[r.inscriptionId].content.tick.value)
      && ParsePositive(env.catalog[r.inscriptionId].content.amt, tickers[r.event.tick].decimals) == Some(r.event.amount)
  }

  ghost predicate TickerOk(t: Tables, tick: string) {
    if tick in t.tickers then
      && 0 <= t.tickers[tick].remaining <= t.tickers[tick].maxSupply
      && Circulating(t.balances, tick) == t.tickers[tick].maxSupply - t.tickers[tick].remaining
    else Circulating(t.balances, tick) == 0
  }

  ghost predicate AccountOk(t: Tables, pkscript: string, tick: string) {
    var b := LastBalance(t.balances, pkscript, tick);
    0 <= b.available <= b.overall && b.overall - b.available == Held(t.events, pkscript, tick)
  }

  /** `seen` are the inscriptions whose creation has been processed. */
  ghost predicate LedgerOk(env: Env, t: Tables, seen: set<string>) {
    && DecimalsOk(t)
    && LogOk(t.events)
    && (forall r | r in t.events :: r.inscriptionId in seen && InscribedOk(env, t.tickers, r))
    && (forall tick :: TickerOk(t, tick))
    && (forall p, tick :: AccountOk(t, p, tick))
  }

  lemma {:induction false} NoEventNoCount(events: seq<EventRow>, id: string)
    requires forall r | r in events :: r.inscriptionId != id
    ensures InscribeCount(events, id) == 0 && MoveCount(events, id) == 0
  {
    if events != [] {
      NoEventNoCount(events[..|events| - 1], id);
    }
  }

  lemma {:induction false} OpenComesFromLog(events: seq<EventRow>, id: string) returns (r: EventRow)
    requires id in Open(events)
    ensures r in events && r.inscriptionId == id && r.event == Open(events)[id] && r.event.Inscribe?
  {
    var last := events[|events| - 1];
    if last.event.Inscribe? && last.inscriptionId == id {
      r := last;
    } else {
      r := OpenComesFromLog(events[..|events| - 1], id);
    }
  }

  /** The log with one more event that follows it. */
  lemma LoggedEffect(env: Env, t: Tables, height: nat, id: string, e: Event, seen: set<string>)
    requires LedgerOk(env, t, seen)
    requires Follows(t.events, EventRow(|t.events|, height, id, e))
    ensures var t' := Logged(t, height, id, e);
            && t' == t.(events := t'.events) && LogOk(t'.events)
            && (forall p, tick :: Held(t'.events, p, tick) == Held(t.events, p, tick)
                  + (if e.Inscribe? && e.source == p && e.tick == tick then e.amount else 0)
                  - (if e.Move? && e.source == p && e.tick == tick then e.amount else 0))
  {
    var r := EventRow(|t.events|, height, id, e);
    var events := t.events + [r];
    assert events[..|events| - 1] == t.events;
    forall p, tick
      ensures Held(events, p, tick) == Held(t.events, p, tick)
                + (if e.Inscribe? && e.source == p && e.tick == tick then e.amount else 0)
                - (if e.Move? && e.source == p && e.tick == tick then e.amount else 0)
    {
      HeldAfter(t.events, r, p, tick);
    }
  }

  /** Older events keep agreeing with their content when tickers are added or minted. */
  predicate SameDecimals(before: map<string, Ticker>, after: map<string, Ticker>) {
    forall tick | tick in before :: tick in after && after[tick].decimals == before[tick].decimals
  }

  lemma EventsStayOk(env: Env, t: Tables, t': Tables, r: EventRow, seen: set<string>, seen': set<string>)
    requires LedgerOk(env, t, seen) && DecimalsOk(t') && SameDecimals(t.tickers, t'.tickers)
    requires t'.events == t.events + [r] && InscribedOk(env, t'.tickers, r)
    requires seen <= seen' && r.inscriptionId in seen'
    ensures forall q | q in t'.events :: q.inscriptionId in seen' && InscribedOk(env, t'.tickers, q)
  {
  }

  lemma DeployKeeps(env: Env, w: Work, height: nat, id: string, e: Event, seen: set<string>)
    requires LedgerOk(env, w.tables, seen) && id in seen
    requires e.Deploy? && e.decimals <= 18 && e.tick !in w.tables.tickers
    ensures LedgerOk(env, DoDeploy(w, height, id, e).tables, seen)
  {
    hide Noted, LogOk, Held, Circulating;
    var t' := DoDeploy(w, height, id, e).tables;
    LoggedEffect(env, w.tables, height, id, e, seen);
    EventsStayOk(env, w.tables, t', EventRow(|w.tables.events|, height, id, e), seen, seen);
    forall tick
      ensures TickerOk(t', tick)
    {
      assert TickerOk(w.tables, tick);
    }
    forall p, tick
      ensures AccountOk(t', p, tick)
    {
      assert AccountOk(w.tables, p, tick);
    }
  }

  lemma MintKeeps(env: Env, w: Work, height: nat, id: string, e: Event, seen: set<string>)
    requires LedgerOk(env, w.tables, seen) && id in seen
    requires e.Mint? && e.tick in w.tables.tickers && e.amount <= w.tables.tickers[e.tick].remaining
    ensures LedgerOk(env, DoMint(w, height, id, e).tables, seen)
  {
    hide Noted, LogOk, Held, Circulating, Credit;
    var t' := DoMint(w, height, id, e).tables;
    var t1 := Logged(w.tables, height, id, e);
    LoggedEffect(env, w.tables, height, id, e, seen);
    CreditEffect(t1, height, e.minter, e.tick, e.amount, e.amount, |w.tables.events|);
    EventsStayOk(env, w.tables, t', EventRow(|w.tables.events|, height, id, e), seen, seen);
    forall tick
      ensures TickerOk(t', tick)
    {
      assert TickerOk(w.tables, tick);
    }
    forall p, tick
      ensures AccountOk(t', p, tick)
    {
      assert AccountOk(w.tables, p, tick);
    }
  }

  lemma InscribeKeeps(env: Env, w: Work, height: nat, id: string, e: Event, seen: set<string>)
    requires LedgerOk(env, w.tables, seen) && id !in seen
    requires e.Inscribe? && e.tick in w.tables.tickers
    requires e.amount <= LastBalance(w.tables.balances, e.source, e.tick).available
    requires InscribedOk(env, w.tables.tickers, EventRow(|w.tables.events|, height, id, e))
    ensures LedgerOk(env, DoInscribe(w, height, id, e).tables, seen + {id})
  {
    hide Noted, LogOk, Held, Circulating, Credit, InscribedOk;
    var t' := DoInscribe(w, height, id, e).tables;
    var t1 := Logged(w.tables, height, id, e);
    NoEventNoCount(w.tables.events, id);
    LoggedEffect(env, w.tables, height, id, e, seen);
    CreditEffect(t1, height, e.source, e.tick, 0, -(e.amount as int), |w.tables.events|);
    EventsStayOk(env, w.tables, t', EventRow(|w.tables.events|, height, id, e), seen, seen + {id});
    forall tick
      ensures TickerOk(t', tick)
    {
      assert TickerOk(w.tables, tick);
    }
    forall p, tick
      ensures AccountOk(t', p, tick)
    {
      assert AccountOk(w.tables, p, tick);
    }
  }

  /** An open transfer's amount is still part of its owner's overall balance. */
  lemma OpenIsHeld(events: seq<EventRow>, id: string)
    requires id in Open(events) && Open(events)[id].Inscribe?
    ensures var e := Open(events)[id]; e.amount <= Held(events, e.source, e.tick)
  {
    var e := Open(events)[id];
    var held := HeldOf(Open(events), e.source, e.tick);
    SumRemove(held, id);
    SumNonNegative(held - {id});
  }

  lemma MoveKeeps(env: Env, w: Work, height: nat, id: string, e: Event, seen: set<string>)
    requires LedgerOk(env, w.tables, seen) && id in seen
    requires e.Move? && e.tick in w.tables.tickers
    requires Follows(w.tables.events, EventRow(|w.tables.events|, height, id, e))
    ensures LedgerOk(env, DoMove(w, height, id, e).tables, seen)
  {
    hide Noted, LogOk, Held, Circulating, Credit, Open;
    var t' := DoMove(w, height, id, e).tables;
    var t1 := Logged(w.tables, height, id, e);
    var n := |w.tables.events|;
    OpenIsHeld(w.tables.events, id);
    assert AccountOk(w.tables, e.source, e.tick);
    LoggedEffect(env, w.tables, height, id, e, seen);
    match e.spent {
      case None =>
        CreditEffect(t1, height, e.source, e.tick, 0, e.amount, n);
      case Some(spent) =>
        CreditEffect(t1, height, e.source, e.tick, -(e.amount as int), 0, n);
        var t2 := Credit(t1, height, e.source, e.tick, -(e.amount as int), 0, n);
        CreditEffect(t2, height, spent, e.tick, e.amount, e.amount, -n);
    }
    EventsStayOk(env, w.tables, t', EventRow(n, height, id, e), seen, seen);
    forall tick
      ensures TickerOk(t', tick)
    {
      assert TickerOk(w.tables, tick);
    }
    forall p, tick
      ensures AccountOk(t', p, tick)
    {
      assert AccountOk(w.tables, p, tick);
    }
  }

  // ---- one row

  /** The inscription that a row creates, if it is a creation row. */
  function Creates(row: TransferRow): set<string> {
    if row.oldSatpoint == "" then {row.inscriptionId} else {}
  }

  lemma SeenMayGrow(env: Env, t: Tables, seen: set<string>, seen': set<string>)
    requires LedgerOk(env, t, seen) && seen <= seen'
    ensures LedgerOk(env, t, seen')
  {
  }

  /** What the checks of the loop body guarantee of the event that they let through:
      a mint within the remaining supply, an inscribe within the available balance, a
      move of an open transfer with exactly the source and amount it was opened with. */
  lemma TakenIsCovered(env: Env, height: nat, w: Work, row: TransferRow, seen: set<string>)
    requires LedgerOk(env, w.tables, seen) && Creates(row) !! seen
    requires Taken(env, height, w, row).Some?
    ensures var e := Taken(env, height, w, row).value;
            var r := EventRow(|w.tables.events|, height, row.inscriptionId, e);
            && (e.Deploy? || e.Mint? || e.Inscribe? ==> row.oldSatpoint == "")
            && (e.Mint? ==> 0 < e.amount <= w.tables.tickers[e.tick].remaining)
            && (e.Inscribe? ==> 0 < e.amount <= LastBalance(w.tables.balances, e.source, e.tick).available)
            && (e.Inscribe? ==> InscribedOk(env, w.tables.tickers, r))
            && (e.Move? ==> row.inscriptionId in seen && Follows(w.tables.events, r))
  {
    var e := Taken(env, height, w, row).value;
    if e.Move? {
      MoveFollows(env, height, w, row, seen);
    }
  }

  lemma MoveFollows(env: Env, height: nat, w: Work, row: TransferRow, seen: set<string>)
    requires LedgerOk(env, w.tables, seen)
    requires Taken(env, height, w, row).Some? && Taken(env, height, w, row).value.Move?
    ensures row.inscriptionId in seen
    ensures Follows(w.tables.events,
                    EventRow(|w.tables.events|, height, row.inscriptionId, Taken(env, height, w, row).value))
  {
    var id := row.inscriptionId;
    OpenIsUnsettled(w.tables.events, id);
    var r := OpenComesFromLog(w.tables.events, id);
    assert InscribedOk(env, w.tables.tickers, r);
  }

  lemma {:induction false} ProcessKeeps(env: Env, height: nat, w: Work, row: TransferRow, seen: set<string>)
    requires LedgerOk(env, w.tables, seen) && Creates(row) !! seen
    ensures LedgerOk(env, Process(env, height, w, row).tables, seen + Creates(row))
  {
    hide LedgerOk, Taken, Follows, InscribedOk, DoDeploy, DoMint, DoInscribe, DoMove;
    var seen' := seen + Creates(row);
    SeenMayGrow(env, w.tables, seen, seen');
    match Taken(env, height, w, row)
    case None =>
    case Some(e) =>
      TakenIsCovered(env, height, w, row, seen);
      match e
      case Deploy(_, _, _, _, _, _, _) => DeployKeeps(env, w, height, row.inscriptionId, e, seen');
      case Mint(_, _, _, _, _) => MintKeeps(env, w, height, row.inscriptionId, e, seen');
      case Inscribe(_, _, _, _) => InscribeKeeps(env, w, height, row.inscriptionId, e, seen);
      case Move(_, _, _, _, _, _) => MoveKeeps(env, w, height, row.inscriptionId, e, seen');
  }

  // ---- whole chains

  function Created(rows: seq<TransferRow>): set<string> {
    if rows == [] then {} else Created(rows[..|rows| - 1]) + Creates(rows[|rows| - 1])
  }

  /** Every inscription is created at most once, and not before. */
  predicate CreatedOnce(rows: seq<TransferRow>, seen: set<string>) {
    rows == [] ||
    (CreatedOnce(rows[..|rows| - 1], seen) && Creates(rows[|rows| - 1]) !! seen + Created(rows[..|rows| - 1]))
  }

  lemma {:induction false} ProcessAllKeeps(env: Env, height: nat, w: Work, rows: seq<TransferRow>, seen: set<string>)
    requires LedgerOk(env, w.tables, seen) && CreatedOnce(rows, seen)
    ensures LedgerOk(env, ProcessAll(env, height, w, rows).tables, seen + Created(rows))
  {
    hide LedgerOk, Process;
    DecimalsAreOk(env, w.tables, seen);
    if rows == [] {
      assert seen + Created(rows) == seen;
    } else {
      var front := rows[..|rows| - 1];
      ProcessAllKeeps(env, height, w, front, seen);
      ProcessKeeps(env, height, ProcessAll(env, height, w, front), rows[|rows| - 1], seen + Created(front));
      assert seen + Created(rows) == seen + Created(front) + Creates(rows[|rows| - 1]);
    }
  }

  lemma DecimalsAreOk(env: Env, t: Tables, seen: set<string>)
    requires LedgerOk(env, t, seen)
    ensures DecimalsOk(t)
  {
  }

  function CreatedBy(chain: seq<Block>): set<string> {
    if chain == [] then {} else CreatedBy(chain[..|chain| - 1]) + Created(chain[|chain| - 1].rows)
  }

  /** A chain in which no inscription is created twice. */
  predicate ChainOk(chain: seq<Block>) {
    chain == [] ||
    (ChainOk(chain[..|chain| - 1]) && CreatedOnce(chain[|chain| - 1].rows, CreatedBy(chain[..|chain| - 1])))
  }

  lemma EmptyLedgerIsOk(env: Env)
    ensures LedgerOk(env, NoTables, {})
  {
    forall tick
      ensures TickerOk(NoTables, tick)
    {
      assert OverallOf([], tick) == map[];
    }
    forall p, tick
      ensures AccountOk(NoTables, p, tick)
    {
      assert HeldOf(Open([]), p, tick) == map[];
    }
  }

  /** In the tables of any chain: for every tick, the overall balances of all holders
      add up to max supply less remaining supply, which is never negative; for every
      holder and tick, overall less available is the sum of the holder's open transfer
      inscriptions, so 0 <= available <= overall; and the log settles each transfer at
      most once, with the amount, tick and source it was inscribed with. */
  lemma {:induction false} LedgerIsSound(env: Env, chain: seq<Block>)
    requires ChainOk(chain)
    ensures LedgerOk(env, Replay(env, chain), CreatedBy(chain))
  {
    hide LedgerOk, ProcessAll, BlockHashes;
    if chain == [] {
      EmptyLedgerIsOk(env);
    } else {
      var n := |chain| - 1;
      var t := Replay(env, chain[..n]);
      var height := env.firstHeight + n;
      LedgerIsSound(env, chain[..n]);
      if height < env.firstBrc20Height {
        SeenMayGrow(env, t, CreatedBy(chain[..n]), CreatedBy(chain));
        assert ProcessAll(env, height, Work(t, ""), []).tables == t by {
          NothingProcessed(env, height, Work(t, ""));
        }
      } else {
        ProcessAllKeeps(env, height, Work(t, ""), chain[n].rows, CreatedBy(chain[..n]));
      }
      HashesDoNotMatter(env,
                        ProcessAll(env, height, Work(t, ""),
                                   if height < env.firstBrc20Height then [] else chain[n].rows).tables,
                        Replay(env, chain), CreatedBy(chain));
    }
  }

  lemma NothingProcessed(env: Env, height: nat, w: Work)
    requires DecimalsOk(w.tables)
    ensures ProcessAll(env, height, w, []) == w
  {
  }

  lemma HashesDoNotMatter(env: Env, t: Tables, t': Tables, seen: set<string>)
    requires LedgerOk(env, t, seen) && t' == t.(hashes := t'.hashes, blocks := t'.blocks)
    ensures LedgerOk(env, t', seen)
  {
    forall tick
      ensures TickerOk(t', tick)
    {
      assert TickerOk(t, tick);
    }
    forall p, tick
      ensures AccountOk(t', p, tick)
    {
      assert AccountOk(t, p, tick);
    }
  }
}
