/** The derived tables of the BRC-20 indexer: the current balances and the unused
    transfer inscriptions. Rebuilding them from the whole log, extending them block by
    block, and rolling them back all give the same tables. */
module IndexExtra {
  import opened Wrappers
  import opened IndexTables
  import opened IndexSpec
  import opened IndexReorg
  import opened IndexLedger

  datatype CurrentRow = CurrentRow(balance: Balance, height: nat)
  datatype UnusedRow = UnusedRow(tick: string, amount: nat, holder: string, eventId: nat, height: nat)
  datatype Extra = Extra(current: map<(string, string), CurrentRow>, unused: map<string, UnusedRow>,
                         blocks: map<nat, string>)

  // ---- rebuilding

  /** The row with the greatest id of each account. */
  function Latest(rows: seq<BalanceRow>): map<(string, string), CurrentRow> {
    if rows == [] then map[]
    else
      var last := rows[|rows| - 1];
      Latest(rows[..|rows| - 1])[(last.pkscript, last.tick) := CurrentRow(last.balance, last.height)]
  }

  function RowOf(r: EventRow): UnusedRow
    requires r.event.Inscribe?
  {
    UnusedRow(r.event.tick, r.event.amount, r.event.source, r.id, r.height)
  }

  /** The transfer-inscribe rows without a transfer-transfer row in `log`. */
  function LeftJoin(events: seq<EventRow>, log: seq<EventRow>): map<string, UnusedRow> {
    if events == [] then map[]
    else
      var last := events[|events| - 1];
      var before := LeftJoin(events[..|events| - 1], log);
      if last.event.Inscribe? && MoveCount(log, last.inscriptionId) == 0
      then before[last.inscriptionId := RowOf(last)] else before
  }

  /** `initial_index_of_extra_tables`. */
  function Rebuild(t: Tables): Extra {
    Extra(Latest(t.balances), LeftJoin(t.events, t.events), t.blocks)
  }

  // ---- one block at a time

  function BalancesAt(rows: seq<BalanceRow>, height: nat): seq<BalanceRow> {
    if rows == [] then []
    else
      var last := rows[|rows| - 1];
      BalancesAt(rows[..|rows| - 1], height) + (if last.height == height then [last] else [])
  }

  function EventsAt(events: seq<EventRow>, height: nat): seq<EventRow> {
    if events == [] then []
    else
      var last := events[|events| - 1];
      EventsAt(events[..|events| - 1], height) + (if last.height == height then [last] else [])
  }

  /** What one event does to the unused inscriptions; a conflicting insert does nothing. */
  function UnusedStep(unused: map<string, UnusedRow>, r: EventRow): map<string, UnusedRow> {
    if r.event.Inscribe? then
      if r.inscriptionId in unused then unused else unused[r.inscriptionId := RowOf(r)]
    else if r.event.Move? then unused - {r.inscriptionId}
    else unused
  }

  function UnusedAfter(unused: map<string, UnusedRow>, events: seq<EventRow>): map<string, UnusedRow> {
    if events == [] then unused
    else UnusedStep(UnusedAfter(unused, events[..|events| - 1]), events[|events| - 1])
  }

  /** The part of `index_extra_tables` after its rollback. */
  function Extend(x: Extra, t: Tables, height: nat, hash: string): Extra {
    Extra(x.current + Latest(BalancesAt(t.balances, height)), UnusedAfter(x.unused, EventsAt(t.events, height)),
          x.blocks[height := hash])
  }

  // ---- rolling back

  /** The last row of an account at or below a height. */
  function LastRow(rows: seq<BalanceRow>, height: int, pkscript: string, tick: string): Option<CurrentRow> {
    if rows == [] then None
    else
      var last := rows[|rows| - 1];
      if last.height <= height && last.pkscript == pkscript && last.tick == tick
      then Some(CurrentRow(last.balance, last.height))
      else LastRow(rows[..|rows| - 1], height, pkscript, tick)
  }

  function RevertCurrent(current: map<(string, string), CurrentRow>, rows: seq<BalanceRow>, height: int)
    : map<(string, string), CurrentRow>
  {
    map k | k in current && (current[k].height <= height || LastRow(rows, height, k.0, k.1).Some?) ::
      if current[k].height <= height then current[k] else LastRow(rows, height, k.0, k.1).value
  }

  /** `reorg_on_extra_tables`. */
  function RollBack(x: Extra, t: Tables, height: int): Extra {
    var kept := EventsUpTo(t.events, height);
    Extra(RevertCurrent(x.current, t.balances, height), LeftJoin(kept, kept),
          map h | h in x.blocks && h <= height :: x.blocks[h])
  }

  // ---- the log is ordered by height

  predicate EventsAscend(events: seq<EventRow>) {
    events == [] ||
    var before, last := events[..|events| - 1], events[|events| - 1];
    EventsAscend(before) && forall r | r in before :: r.height <= last.height
  }

  predicate BalancesAscend(rows: seq<BalanceRow>) {
    rows == [] ||
    var before, last := rows[..|rows| - 1], rows[|rows| - 1];
    BalancesAscend(before) && forall r | r in before :: r.height <= last.height
  }

  predicate Ascends(t: Tables) {
    EventsAscend(t.events) && BalancesAscend(t.balances)
  }

  lemma CreditAscends(t: Tables, height: nat, pkscript: string, tick: string, overall: int, available: int,
                      eventId: int)
    requires Ascends(t) && UpTo(t, height)
    ensures Ascends(Credit(t, height, pkscript, tick, overall, available, eventId))
    ensures UpTo(Credit(t, height, pkscript, tick, overall, available, eventId), height)
  {
    hide EventsAscend, LastBalance;
    var rows := Credit(t, height, pkscript, tick, overall, available, eventId).balances;
    assert rows[..|rows| - 1] == t.balances;
  }

  lemma LoggedAscends(t: Tables, height: nat, id: string, e: Event)
    requires Ascends(t) && UpTo(t, height)
    ensures Ascends(Logged(t, height, id, e)) && UpTo(Logged(t, height, id, e), height)
  {
    hide BalancesAscend;
    var events := Logged(t, height, id, e).events;
    assert events[..|events| - 1] == t.events;
  }

  lemma {:induction false} ProcessAscends(env: Env, height: nat, w: Work, row: TransferRow)
    requires DecimalsOk(w.tables) && Ascends(w.tables) && UpTo(w.tables, height)
    ensures Ascends(Process(env, height, w, row).tables)
  {
    hide Noted, DecimalsOk, Taken, EventsAscend, BalancesAscend, UpTo, Credit, Logged;
    match Taken(env, height, w, row)
    case None =>
    case Some(e) =>
      var t, n := Logged(w.tables, height, row.inscriptionId, e), |w.tables.events|;
      LoggedAscends(w.tables, height, row.inscriptionId, e);
      match e
      case Deploy(_, _, _, _, _, _, _) =>
      case Mint(minter, tick, _, amount, _) => CreditAscends(t, height, minter, tick, amount, amount, n);
      case Inscribe(source, tick, _, amount) => CreditAscends(t, height, source, tick, 0, -(amount as int), n);
      case Move(source, spent, tick, _, amount, _) =>
        if spent.None? {
          CreditAscends(t, height, source, tick, 0, amount, n);
        } else {
          CreditAscends(t, height, source, tick, -(amount as int), 0, n);
          CreditAscends(Credit(t, height, source, tick, -(amount as int), 0, n), height, spent.value, tick, amount,
                        amount, -n);
        }
  }

  lemma {:induction false} ProcessAllAscends(env: Env, height: nat, w: Work, rows: seq<TransferRow>)
    requires DecimalsOk(w.tables) && Ascends(w.tables) && UpTo(w.tables, height)
    ensures Ascends(ProcessAll(env, height, w, rows).tables)
  {
    hide Process, Ascends, UpTo;
    if rows != [] {
      ProcessAllAscends(env, height, w, rows[..|rows| - 1]);
      ProcessAllUpTo(env, height, w, rows[..|rows| - 1]);
      ProcessAscends(env, height, ProcessAll(env, height, w, rows[..|rows| - 1]), rows[|rows| - 1]);
    }
  }

  /** In every reachable state the log is in order of height. */
  lemma {:induction false} ReplayAscends(env: Env, chain: seq<Block>)
    ensures Ascends(Replay(env, chain))
  {
    hide ProcessAll, EventsAscend, BalancesAscend, DecimalsOk, UpTo;
    if chain == [] {
      NothingAscends();
    } else {
      var n := |chain| - 1;
      var height := env.firstHeight + n;
      ReplayAscends(env, chain[..n]);
      ReplayUpTo(env, chain[..n]);
      UpToMore(Replay(env, chain[..n]), height - 1, height);
      ProcessAllAscends(env, height, Work(Replay(env, chain[..n]), ""),
                        if height < env.firstBrc20Height then [] else chain[n].rows);
    }
  }

  lemma NothingAscends()
    ensures EventsAscend([]) && BalancesAscend([])
  {
  }

  lemma UpToMore(t: Tables, h: int, more: int)
    requires UpTo(t, h) && h <= more
    ensures UpTo(t, more)
  {
  }

  // ---- current balances

  lemma {:induction false} BalancesSplit(rows: seq<BalanceRow>, height: nat)
    requires BalancesAscend(rows)
    ensures BalancesUpTo(rows, height) == BalancesUpTo(rows, height - 1) + BalancesAt(rows, height)
    ensures rows != [] && rows[|rows| - 1].height < height ==> BalancesAt(rows, height) == []
  {
    if rows != [] {
      var before := rows[..|rows| - 1];
      BalancesSplit(before, height);
      if rows[|rows| - 1].height < height && before != [] {
        assert before[|before| - 1].height < height;
      }
    }
  }

  lemma {:induction false} LatestAppend(a: seq<BalanceRow>, b: seq<BalanceRow>)
    ensures Latest(a + b) == Latest(a) + Latest(b)
  {
    if b == [] {
      assert a + b == a;
    } else {
      LatestAppend(a, b[..|b| - 1]);
      assert (a + b)[..|a + b| - 1] == a + b[..|b| - 1];
    }
  }

  /** The rows above a height, which come last. */
  lemma {:induction false} LatestBelow(rows: seq<BalanceRow>, height: int, k: (string, string))
    requires BalancesAscend(rows)
    ensures k in Latest(BalancesUpTo(rows, height)) ==> k in Latest(rows)
    ensures k in Latest(rows) && Latest(rows)[k].height <= height ==>
              k in Latest(BalancesUpTo(rows, height)) && Latest(BalancesUpTo(rows, height))[k] == Latest(rows)[k]
    ensures k in Latest(rows) && Latest(rows)[k].height > height ==>
              exists r :: r in rows && r.height > height
  {
    if rows != [] {
      var before, last := rows[..|rows| - 1], rows[|rows| - 1];
      LatestBelow(before, height, k);
      if last.height <= height {
        BalancesAllKept(rows, height);
      } else {
        assert BalancesUpTo(rows, height) == BalancesUpTo(before, height);
        assert last in rows;
      }
    }
  }

  /** The query of a rollback finds the row that a rebuild up to there keeps. */
  lemma {:induction false} LastRowIsLatest(rows: seq<BalanceRow>, height: int, pkscript: string, tick: string)
    ensures var kept := Latest(BalancesUpTo(rows, height));
            LastRow(rows, height, pkscript, tick) ==
            if (pkscript, tick) in kept then Some(kept[(pkscript, tick)]) else None
  {
    if rows != [] {
      var before, last := rows[..|rows| - 1], rows[|rows| - 1];
      LastRowIsLatest(before, height, pkscript, tick);
      if last.height <= height {
        var kept := BalancesUpTo(rows, height);
        assert kept == BalancesUpTo(before, height) + [last];
        assert kept[..|kept| - 1] == BalancesUpTo(before, height);
      } else {
        assert BalancesUpTo(rows, height) == BalancesUpTo(before, height);
      }
    }
  }

  /** The latest balance is the one the indexer reads. */
  lemma {:induction false} LatestIsLastBalance(rows: seq<BalanceRow>, pkscript: string, tick: string)
    ensures LastBalance(rows, pkscript, tick) ==
            if (pkscript, tick) in Latest(rows) then Latest(rows)[(pkscript, tick)].balance else Balance(0, 0)
  {
    if rows != [] {
      LatestIsLastBalance(rows[..|rows| - 1], pkscript, tick);
    }
  }

  lemma RevertIsRebuild(old': seq<BalanceRow>, rows: seq<BalanceRow>, height: int)
    requires BalancesAscend(old') && BalancesUpTo(old', height) == BalancesUpTo(rows, height)
    ensures RevertCurrent(Latest(old'), rows, height) == Latest(BalancesUpTo(rows, height))
  {
    hide Latest, LastRow, BalancesUpTo, BalancesAscend;
    forall k: (string, string)
      ensures k in RevertCurrent(Latest(old'), rows, height) <==> k in Latest(BalancesUpTo(rows, height))
      ensures k in RevertCurrent(Latest(old'), rows, height) ==>
                RevertCurrent(Latest(old'), rows, height)[k] == Latest(BalancesUpTo(rows, height))[k]
    {
      LatestBelow(old', height, k);
      LastRowIsLatest(rows, height, k.0, k.1);
    }
  }

  // ---- unused inscriptions

  lemma {:induction false} LeftJoinGrows(events: seq<EventRow>, log: seq<EventRow>, r: EventRow)
    ensures LeftJoin(events, log + [r]) ==
            if r.event.Move? then LeftJoin(events, log) - {r.inscriptionId} else LeftJoin(events, log)
  {
    assert (log + [r])[..|log|] == log;
    if events != [] {
      LeftJoinGrows(events[..|events| - 1], log, r);
    }
  }

  lemma {:induction false} LeftJoinCounts(events: seq<EventRow>, log: seq<EventRow>, id: string)
    ensures id in LeftJoin(events, log) ==> InscribeCount(events, id) > 0
  {
    if events != [] {
      LeftJoinCounts(events[..|events| - 1], log, id);
    }
  }

  /** Reading the log once gives what the join gives. */
  lemma {:induction false} RebuildIsReading(events: seq<EventRow>)
    requires LogOk(events)
    ensures LeftJoin(events, events) == UnusedAfter(map[], events)
  {
    hide MoveCount, InscribeCount, Open;
    if events != [] {
      var before, last := events[..|events| - 1], events[|events| - 1];
      assert events == before + [last];
      RebuildIsReading(before);
      LeftJoinGrows(before, before, last);
      LeftJoinCounts(before, before, last.inscriptionId);
      if last.event.Inscribe? {
        NewIsNotMoved(before, last);
      }
    }
  }

  lemma NewIsNotMoved(before: seq<EventRow>, last: EventRow)
    requires LogOk(before + [last]) && last.event.Inscribe?
    ensures MoveCount(before + [last], last.inscriptionId) == 0 && InscribeCount(before, last.inscriptionId) == 0
  {
    assert (before + [last])[..|before|] == before;
  }

  /** What is unused is what is still open, with the amount and the holder it was
      inscribed with. */
  lemma {:induction false} UnusedIsOpen(events: seq<EventRow>, id: string)
    requires LogOk(events)
    ensures id in UnusedAfter(map[], events) <==> id in Open(events)
    ensures id in Open(events) ==>
              var row, e := UnusedAfter(map[], events)[id], Open(events)[id];
              e.Inscribe? && row.tick == e.tick && row.amount == e.amount && row.holder == e.source
  {
    if events != [] {
      var before, last := events[..|events| - 1], events[|events| - 1];
      UnusedIsOpen(before, id);
      if last.event.Inscribe? {
        UnusedIsOpen(before, last.inscriptionId);
        OpenIsUnsettled(before, last.inscriptionId);
      }
    }
  }

  lemma {:induction false} UnusedAppend(unused: map<string, UnusedRow>, a: seq<EventRow>, b: seq<EventRow>)
    ensures UnusedAfter(unused, a + b) == UnusedAfter(UnusedAfter(unused, a), b)
  {
    if b == [] {
      assert a + b == a;
    } else {
      UnusedAppend(unused, a, b[..|b| - 1]);
      assert (a + b)[..|a + b| - 1] == a + b[..|b| - 1];
    }
  }

  lemma {:induction false} EventsSplit(events: seq<EventRow>, height: nat)
    requires EventsAscend(events)
    ensures EventsUpTo(events, height) == EventsUpTo(events, height - 1) + EventsAt(events, height)
    ensures events != [] && events[|events| - 1].height < height ==> EventsAt(events, height) == []
  {
    if events != [] {
      var before := events[..|events| - 1];
      EventsSplit(before, height);
      if events[|events| - 1].height < height && before != [] {
        assert before[|before| - 1].height < height;
      }
    }
  }

  lemma {:induction false} LogStaysOk(events: seq<EventRow>, height: int)
    requires LogOk(events) && EventsAscend(events)
    ensures LogOk(EventsUpTo(events, height))
  {
    if events != [] {
      if events[|events| - 1].height <= height {
        EventsAllKept(events, height);
      } else {
        LogStaysOk(events[..|events| - 1], height);
        assert EventsUpTo(events, height) == EventsUpTo(events[..|events| - 1], height);
      }
    }
  }

  // ---- what the derived rows hold

  /** The row of an unused inscription is made of the event that inscribed it. */
  lemma {:induction false} UnusedRowIs(events: seq<EventRow>, log: seq<EventRow>, id: string) returns (r: EventRow)
    requires id in LeftJoin(events, log)
    ensures r in events && r.inscriptionId == id && r.event.Inscribe?
    ensures LeftJoin(events, log)[id] == UnusedRow(r.event.tick, r.event.amount, r.event.source, r.id, r.height)
  {
    var n := |events| - 1;
    if events[n].event.Inscribe? && MoveCount(log, events[n].inscriptionId) == 0 && events[n].inscriptionId == id {
      r := events[n];
    } else {
      r := UnusedRowIs(events[..n], log, id);
    }
  }

  /** The current row of an account is its last one. */
  lemma {:induction false} LatestRowIs(rows: seq<BalanceRow>, k: (string, string)) returns (i: nat)
    requires k in Latest(rows)
    ensures i < |rows| && (rows[i].pkscript, rows[i].tick) == k
    ensures Latest(rows)[k] == CurrentRow(rows[i].balance, rows[i].height)
    ensures forall j | i < j < |rows| :: (rows[j].pkscript, rows[j].tick) != k
  {
    var n := |rows| - 1;
    if (rows[n].pkscript, rows[n].tick) == k {
      i := n;
    } else {
      i := LatestRowIs(rows[..n], k);
    }
  }

  // ---- the three ways agree

  /** The main tables as they stood at a height. */
  function AsOf(t: Tables, height: int): Tables {
    ReorgFix(t, height)
  }

  ghost predicate LogSound(t: Tables) {
    LogOk(t.events) && Ascends(t)
  }

  /** Extending the extra tables by the next block is rebuilding them one block later. */
  lemma ExtendIsRebuild(t: Tables, height: nat)
    requires LogSound(t) && height in t.blocks
    ensures Extend(Rebuild(AsOf(t, height - 1)), t, height, t.blocks[height]) == Rebuild(AsOf(t, height))
  {
    hide LogOk, Ascends, EventsAscend, BalancesAscend, EventsUpTo, BalancesUpTo, Latest, LeftJoin, UnusedAfter,
         MintedAbove, EventsAt, BalancesAt;
    assert EventsAscend(t.events) && BalancesAscend(t.balances) by {
      AscendsBoth(t);
    }
    BalancesSplit(t.balances, height);
    LatestAppend(BalancesUpTo(t.balances, height - 1), BalancesAt(t.balances, height));
    EventsSplit(t.events, height);
    LogStaysOk(t.events, height - 1);
    LogStaysOk(t.events, height);
    RebuildIsReading(EventsUpTo(t.events, height - 1));
    RebuildIsReading(EventsUpTo(t.events, height));
    UnusedAppend(map[], EventsUpTo(t.events, height - 1), EventsAt(t.events, height));
    assert AsOf(t, height).blocks == AsOf(t, height - 1).blocks[height := t.blocks[height]];
  }

  lemma AscendsBoth(t: Tables)
    requires Ascends(t)
    ensures EventsAscend(t.events) && BalancesAscend(t.balances)
  {
  }

  /** Rolling the extra tables back, from whatever chain they were built, is
      rebuilding them at the height up to which the two chains agree. */
  lemma RollBackIsRebuild(was: Tables, t: Tables, height: int)
    requires Ascends(was) && AsOf(was, height) == AsOf(t, height)
    ensures RollBack(Rebuild(was), t, height) == Rebuild(AsOf(t, height))
  {
    hide EventsAscend, BalancesAscend, EventsUpTo, BalancesUpTo, Latest, LeftJoin, MintedAbove, RevertCurrent;
    RevertIsRebuild(was.balances, t.balances, height);
    assert RollBack(Rebuild(was), t, height).blocks == AsOf(was, height).blocks;
  }

  /** However a state was reached, by blocks and rollbacks in any order, its accounting
      is sound and its log is in order. */
  lemma ReachableIsSound(env: Env, ops: seq<Op>)
    requires ChainOk(Standing(env, [], ops))
    ensures LedgerOk(env, Execute(env, NoTables, ops), CreatedBy(Standing(env, [], ops)))
    ensures LogSound(Execute(env, NoTables, ops))
  {
    hide LedgerOk, Execute, DecimalsOk, Ascends, LogOk;
    var chain := Standing(env, [], ops);
    assert Replay(env, []) == NoTables;
    HistoryDoesNotMatter(env, [], ops);
    LedgerIsSound(env, chain);
    ReplayAscends(env, chain);
    SoundLog(env, Replay(env, chain), CreatedBy(chain));
  }

  lemma SoundLog(env: Env, t: Tables, seen: set<string>)
    requires LedgerOk(env, t, seen) && Ascends(t)
    ensures LogSound(t)
  {
    hide InscribedOk, TickerOk, AccountOk, Ascends;
  }
}
