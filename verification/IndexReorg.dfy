/** History independence of the BRC-20 indexer: what its tables hold depends on the
    chain they stand for, and not on the blocks and rollbacks by which they got there. */
module IndexReorg {
  import opened IndexTables
  import opened IndexSpec

  // ---- one row, one block above the rollback height

  lemma FixLogged(t: Tables, height: nat, id: string, e: Event, h: int)
    requires height > h
    ensures EventsUpTo(Logged(t, height, id, e).events, h) == EventsUpTo(t.events, h)
    ensures forall tick ::
              MintedAbove(Logged(t, height, id, e).events, h, tick) ==
              MintedAbove(t.events, h, tick) + (if e.Mint? && e.tick == tick then e.amount else 0)
  {
    var events := Logged(t, height, id, e).events;
    assert events[..|events| - 1] == t.events;
  }

  lemma FixCredit(t: Tables, height: nat, pkscript: string, tick: string, overall: int, available: int, eventId: int,
                  h: int)
    requires height > h
    ensures ReorgFix(Credit(t, height, pkscript, tick, overall, available, eventId), h) == ReorgFix(t, h)
  {
    var rows := Credit(t, height, pkscript, tick, overall, available, eventId).balances;
    assert rows[..|rows| - 1] == t.balances;
  }

  lemma {:induction false} FixDeploy(w: Work, height: nat, id: string, e: Event, h: int)
    requires e.Deploy? && e.decimals <= 18 && e.tick !in w.tables.tickers && height > h
    ensures ReorgFix(DoDeploy(w, height, id, e).tables, h) == ReorgFix(w.tables, h)
  {
    hide Noted, EventsUpTo, BalancesUpTo, MintedAbove;
    FixLogged(w.tables, height, id, e, h);
    assert ReorgFix(DoDeploy(w, height, id, e).tables, h).tickers == ReorgFix(w.tables, h).tickers;
  }

  lemma {:induction false} FixMint(w: Work, height: nat, id: string, e: Event, h: int)
    requires e.Mint? && e.tick in w.tables.tickers && w.tables.tickers[e.tick].decimals <= 18 && height > h
    ensures ReorgFix(DoMint(w, height, id, e).tables, h) == ReorgFix(w.tables, h)
  {
    hide Noted, EventsUpTo, BalancesUpTo, MintedAbove, Credit;
    var t := Logged(w.tables, height, id, e);
    var t1 := Credit(t, height, e.minter, e.tick, e.amount, e.amount, |w.tables.events|);
    FixLogged(w.tables, height, id, e, h);
    FixCredit(t, height, e.minter, e.tick, e.amount, e.amount, |w.tables.events|, h);
    CreditKeeps(t, height, e.minter, e.tick, e.amount, e.amount, |w.tables.events|);
    assert ReorgFix(DoMint(w, height, id, e).tables, h).tickers == ReorgFix(w.tables, h).tickers;
  }

  lemma CreditKeeps(t: Tables, height: nat, pkscript: string, tick: string, overall: int, available: int, eventId: int)
    ensures var t' := Credit(t, height, pkscript, tick, overall, available, eventId);
            t' == t.(balances := t'.balances)
  {
  }

  lemma FixInscribe(w: Work, height: nat, id: string, e: Event, h: int)
    requires e.Inscribe? && e.tick in w.tables.tickers && w.tables.tickers[e.tick].decimals <= 18 && height > h
    ensures ReorgFix(DoInscribe(w, height, id, e).tables, h) == ReorgFix(w.tables, h)
  {
    hide Noted, Credit, ReorgFix;
    FixLoggedMove(w.tables, height, id, e, h);
    FixCredit(Logged(w.tables, height, id, e), height, e.source, e.tick, 0, -(e.amount as int), |w.tables.events|, h);
  }

  lemma {:induction false} FixMove(w: Work, height: nat, id: string, e: Event, h: int)
    requires e.Move? && e.tick in w.tables.tickers && w.tables.tickers[e.tick].decimals <= 18 && height > h
    ensures ReorgFix(DoMove(w, height, id, e).tables, h) == ReorgFix(w.tables, h)
  {
    hide Noted, EventsUpTo, BalancesUpTo, MintedAbove, Credit, ReorgFix;
    var t := Logged(w.tables, height, id, e);
    var n := |w.tables.events|;
    FixLoggedMove(w.tables, height, id, e, h);
    match e.spent
    case None => FixCredit(t, height, e.source, e.tick, 0, e.amount, n, h);
    case Some(spent) =>
      FixCredit(t, height, e.source, e.tick, -(e.amount as int), 0, n, h);
      FixCredit(Credit(t, height, e.source, e.tick, -(e.amount as int), 0, n), height, spent, e.tick, e.amount,
                e.amount, -n, h);
  }

  lemma FixLoggedMove(t: Tables, height: nat, id: string, e: Event, h: int)
    requires !e.Mint? && height > h
    ensures ReorgFix(Logged(t, height, id, e), h) == ReorgFix(t, h)
  {
    hide EventsUpTo, BalancesUpTo, MintedAbove;
    FixLogged(t, height, id, e, h);
    assert ReorgFix(Logged(t, height, id, e), h).tickers == ReorgFix(t, h).tickers;
  }

  lemma {:induction false} FixProcess(env: Env, height: nat, w: Work, row: TransferRow, h: int)
    requires DecimalsOk(w.tables) && height > h
    ensures ReorgFix(Process(env, height, w, row).tables, h) == ReorgFix(w.tables, h)
  {
    hide ReorgFix, DoDeploy, DoMint, DoInscribe, DoMove;
    match Taken(env, height, w, row)
    case None =>
    case Some(e) =>
      var id := row.inscriptionId;
      match e
      case Deploy(_, _, _, _, _, _, _) => FixDeploy(w, height, id, e, h);
      case Mint(_, _, _, _, _) => FixMint(w, height, id, e, h);
      case Inscribe(_, _, _, _) => FixInscribe(w, height, id, e, h);
      case Move(_, _, _, _, _, _) => FixMove(w, height, id, e, h);
  }

  lemma {:induction false} FixProcessAll(env: Env, height: nat, w: Work, rows: seq<TransferRow>, h: int)
    requires DecimalsOk(w.tables) && height > h
    ensures ReorgFix(ProcessAll(env, height, w, rows).tables, h) == ReorgFix(w.tables, h)
  {
    hide ReorgFix, Process;
    if rows != [] {
      FixProcessAll(env, height, w, rows[..|rows| - 1], h);
      FixProcess(env, height, ProcessAll(env, height, w, rows[..|rows| - 1]), rows[|rows| - 1], h);
    }
  }

  /** Rolling back below a block undoes the block completely. */
  lemma FixIndexBlock(env: Env, t: Tables, height: nat, blockHash: string, rows: seq<TransferRow>, h: int)
    requires DecimalsOk(t) && height > h
    ensures ReorgFix(IndexBlock(env, t, height, blockHash, rows), h) == ReorgFix(t, h)
  {
    hide ProcessAll, BlockHashes, EventsUpTo, BalancesUpTo, MintedAbove;
    FixProcessAll(env, height, Work(t, ""), if height < env.firstBrc20Height then [] else rows, h);
    var w := ProcessAll(env, height, Work(t, ""), if height < env.firstBrc20Height then [] else rows);
    FixKeys(w.tables, IndexBlock(env, t, height, blockHash, rows), height, h);
  }

  lemma FixKeys(t: Tables, t': Tables, height: nat, h: int)
    requires height > h
    requires t' == t.(hashes := t'.hashes, blocks := t'.blocks)
    requires height in t'.hashes && t'.hashes == t.hashes[height := t'.hashes[height]]
    requires height in t'.blocks && t'.blocks == t.blocks[height := t'.blocks[height]]
    ensures ReorgFix(t', h) == ReorgFix(t, h)
  {
    hide EventsUpTo, BalancesUpTo, MintedAbove;
    assert ReorgFix(t', h).hashes == ReorgFix(t, h).hashes;
    assert ReorgFix(t', h).blocks == ReorgFix(t, h).blocks;
  }

  // ---- everything at or below the rollback height stays

  /** Every row belongs to a block at or below `h`. */
  ghost predicate UpTo(t: Tables, h: int) {
    && (forall r | r in t.events :: r.height <= h)
    && (forall tick | tick in t.tickers :: t.tickers[tick].height <= h)
    && (forall r | r in t.balances :: r.height <= h)
    && (forall k | k in t.hashes :: k <= h)
    && (forall k | k in t.blocks :: k <= h)
  }

  lemma {:induction false} EventsAllKept(events: seq<EventRow>, h: int)
    requires forall r | r in events :: r.height <= h
    ensures EventsUpTo(events, h) == events
    ensures forall tick :: MintedAbove(events, h, tick) == 0
  {
    if events != [] {
      EventsAllKept(events[..|events| - 1], h);
    }
  }

  lemma {:induction false} BalancesAllKept(rows: seq<BalanceRow>, h: int)
    requires forall r | r in rows :: r.height <= h
    ensures BalancesUpTo(rows, h) == rows
  {
    if rows != [] {
      var before := rows[..|rows| - 1];
      BalancesAllKept(before, h);
      assert BalancesUpTo(rows, h) == before + [rows[|rows| - 1]];
    }
  }

  lemma FixAbove(t: Tables, h: int)
    requires UpTo(t, h)
    ensures ReorgFix(t, h) == t
  {
    hide EventsUpTo, BalancesUpTo, MintedAbove;
    EventsAllKept(t.events, h);
    BalancesAllKept(t.balances, h);
    assert ReorgFix(t, h).tickers == t.tickers;
    assert ReorgFix(t, h).hashes == t.hashes;
    assert ReorgFix(t, h).blocks == t.blocks;
  }

  lemma ProcessUpTo(env: Env, height: nat, w: Work, row: TransferRow)
    requires DecimalsOk(w.tables) && UpTo(w.tables, height)
    ensures UpTo(Process(env, height, w, row).tables, height)
  {
    hide Noted, DecimalsOk, Taken, LastBalance;
  }

  lemma {:induction false} ProcessAllUpTo(env: Env, height: nat, w: Work, rows: seq<TransferRow>)
    requires DecimalsOk(w.tables) && UpTo(w.tables, height)
    ensures UpTo(ProcessAll(env, height, w, rows).tables, height)
  {
    if rows != [] {
      ProcessAllUpTo(env, height, w, rows[..|rows| - 1]);
      ProcessUpTo(env, height, ProcessAll(env, height, w, rows[..|rows| - 1]), rows[|rows| - 1]);
    }
  }

  /** One more block: every row at or below its height, and one more block hash. */
  lemma IndexBlockUpTo(env: Env, t: Tables, height: nat, blockHash: string, rows: seq<TransferRow>)
    requires DecimalsOk(t) && UpTo(t, height)
    ensures UpTo(IndexBlock(env, t, height, blockHash, rows), height)
    ensures IndexBlock(env, t, height, blockHash, rows).blocks == t.blocks[height := blockHash]
  {
    hide ProcessAll, BlockHashes, DecimalsOk;
    var counted := if height < env.firstBrc20Height then [] else rows;
    ProcessAllUpTo(env, height, Work(t, ""), counted);
    ProcessAllKeepsKeys(env, height, Work(t, ""), counted);
  }

  lemma {:induction false} ReplayUpTo(env: Env, chain: seq<Block>)
    ensures UpTo(Replay(env, chain), env.firstHeight + |chain| - 1)
    ensures forall k :: k in Replay(env, chain).blocks <==> env.firstHeight <= k < env.firstHeight + |chain|
    ensures forall i | 0 <= i < |chain| :: Replay(env, chain).blocks[env.firstHeight + i] == chain[i].hash
  {
    hide IndexBlock, DecimalsOk;
    if chain != [] {
      var n := |chain| - 1;
      ReplayUpTo(env, chain[..n]);
      IndexBlockUpTo(env, Replay(env, chain[..n]), env.firstHeight + n, chain[n].hash, chain[n].rows);
    }
  }

  lemma {:induction false} BlockHash(env: Env, chain: seq<Block>, h: nat)
    ensures h in Replay(env, chain).blocks <==> env.firstHeight <= h < env.firstHeight + |chain|
    ensures h in Replay(env, chain).blocks ==> Replay(env, chain).blocks[h] == chain[h - env.firstHeight].hash
  {
    hide Replay, UpTo, DecimalsOk;
    ReplayUpTo(env, chain);
    if env.firstHeight <= h < env.firstHeight + |chain| {
      assert env.firstHeight + (h - env.firstHeight) == h;
    }
  }

  lemma {:induction false} LastBlock(env: Env, chain: seq<Block>, m: nat)
    requires m in Replay(env, chain).blocks && forall h :: h in Replay(env, chain).blocks ==> h <= m
    ensures m == env.firstHeight + |chain| - 1
  {
    hide Replay, DecimalsOk;
    BlockHash(env, chain, m);
    BlockHash(env, chain, m + 1);
  }

  lemma {:induction false} ProcessAllKeepsKeys(env: Env, height: nat, w: Work, rows: seq<TransferRow>)
    requires DecimalsOk(w.tables)
    ensures ProcessAll(env, height, w, rows).tables.hashes == w.tables.hashes
    ensures ProcessAll(env, height, w, rows).tables.blocks == w.tables.blocks
  {
    hide Noted, DecimalsOk, Taken, LastBalance;
    if rows != [] {
      ProcessAllKeepsKeys(env, height, w, rows[..|rows| - 1]);
    }
  }

  // ---- the theorem

  /** `reorg_fix` returns exactly to the tables that indexing the shorter chain from
      scratch would have built: events, tickers with their remaining supply, balances,
      cumulative hashes and block hashes. */
  lemma {:induction false} RollbackIsReplay(env: Env, chain: seq<Block>, keep: nat)
    requires keep <= |chain|
    ensures ReorgFix(Replay(env, chain), env.firstHeight + keep - 1) == Replay(env, chain[..keep])
    decreases |chain|
  {
    hide ReorgFix, IndexBlock, DecimalsOk;
    var h := env.firstHeight + keep - 1;
    if keep == |chain| {
      assert chain[..keep] == chain;
      ReplayUpTo(env, chain);
      FixAbove(Replay(env, chain), h);
    } else {
      var n := |chain| - 1;
      FixIndexBlock(env, Replay(env, chain[..n]), env.firstHeight + n, chain[n].hash, chain[n].rows, h);
      RollbackIsReplay(env, chain[..n], keep);
      assert chain[..n][..keep] == chain[..keep];
    }
  }

  /** What can happen to a running indexer: the next block, or a rollback to any height
      that it has reached. */
  datatype Op = Next(block: Block) | Rollback(height: int)

  /** `select max(block_height) + 1`, or the first height on an empty table. */
  ghost function NextHeight(env: Env, t: Tables): (h: nat)
  {
    if t.blocks == map[] then env.firstHeight
    else
      MaxKeyExists(t.blocks.Keys);
      var m :| m in t.blocks && forall k | k in t.blocks :: k <= m;
      m + 1
  }

  lemma {:induction false} MaxKeyExists(keys: set<nat>)
    requires keys != {}
    ensures exists m :: m in keys && forall k | k in keys :: k <= m
  {
    var x :| x in keys;
    var rest := keys - {x};
    assert forall k | k in keys :: k == x || k in rest;
    if rest == {} {
      assert forall k | k in keys :: k == x;
    } else {
      MaxKeyExists(rest);
      var m :| m in rest && forall k | k in rest :: k <= m;
      var top := if x > m then x else m;
      assert top in keys && forall k | k in keys :: k <= top;
    }
  }

  ghost function Advance(env: Env, t: Tables, op: Op): Tables
    requires DecimalsOk(t)
  {
    match op
    case Next(b) => IndexBlock(env, t, NextHeight(env, t), b.hash, b.rows)
    case Rollback(h) => ReorgFix(t, h)
  }

  /** The chain that the blocks and rollbacks leave standing. */
  function Standing(env: Env, chain: seq<Block>, ops: seq<Op>): seq<Block>
    decreases |ops|
  {
    if ops == [] then chain
    else
      match ops[0]
      case Next(b) => Standing(env, chain + [b], ops[1..])
      case Rollback(h) =>
        var keep := h - env.firstHeight + 1;
        Standing(env, if keep < 0 then [] else if keep > |chain| then chain else chain[..keep], ops[1..])
  }

  ghost function Execute(env: Env, t: Tables, ops: seq<Op>): Tables
    requires DecimalsOk(t)
    decreases |ops|
  {
    if ops == [] then t else Execute(env, Advance(env, t, ops[0]), ops[1..])
  }

  lemma NextIsChainEnd(env: Env, chain: seq<Block>)
    ensures NextHeight(env, Replay(env, chain)) == env.firstHeight + |chain|
  {
    ReplayUpTo(env, chain);
    if chain != [] {
      assert env.firstHeight + |chain| - 1 in Replay(env, chain).blocks;
    }
  }

  lemma FixFarAbove(env: Env, chain: seq<Block>, h: int)
    requires h >= env.firstHeight + |chain| - 1
    ensures ReorgFix(Replay(env, chain), h) == Replay(env, chain)
  {
    ReplayUpTo(env, chain);
    FixAbove(Replay(env, chain), h);
  }

  lemma {:induction false} FixFarBelow(env: Env, chain: seq<Block>, h: int)
    requires h < env.firstHeight
    ensures ReorgFix(Replay(env, chain), h) == NoTables == Replay(env, [])
  {
    if chain == [] {
      FixFarAbove(env, chain, env.firstHeight - 1);
      FixAbove(NoTables, h);
    } else {
      var n := |chain| - 1;
      FixIndexBlock(env, Replay(env, chain[..n]), env.firstHeight + n, chain[n].hash, chain[n].rows, h);
      FixFarBelow(env, chain[..n], h);
    }
  }

  /** After any interleaving of new blocks and rollbacks, the tables are those of a
      fresh replay of the chain that is left. */
  lemma {:induction false} HistoryDoesNotMatter(env: Env, chain: seq<Block>, ops: seq<Op>)
    ensures Execute(env, Replay(env, chain), ops) == Replay(env, Standing(env, chain, ops))
    decreases |ops|
  {
    hide IndexBlock, ReorgFix, NextHeight, DecimalsOk;
    if ops != [] {
      match ops[0]
      case Next(b) =>
        NextIsChainEnd(env, chain);
        assert (chain + [b])[..|chain|] == chain;
        HistoryDoesNotMatter(env, chain + [b], ops[1..]);
      case Rollback(h) =>
        var keep := h - env.firstHeight + 1;
        if keep < 0 {
          FixFarBelow(env, chain, h);
          HistoryDoesNotMatter(env, [], ops[1..]);
        } else if keep > |chain| {
          FixFarAbove(env, chain, h);
          HistoryDoesNotMatter(env, chain, ops[1..]);
        } else {
          RollbackIsReplay(env, chain, keep);
          HistoryDoesNotMatter(env, chain[..keep], ops[1..]);
        }
    }
  }

  // ---- block hashes

  /** A block hash stands for the block and everything below it. */
  ghost predicate HashesBind(was: seq<Block>, chain: seq<Block>) {
    forall i: nat :: i < |was| && i < |chain| && was[i].hash == chain[i].hash ==> SameUpTo(was, chain, i)
  }

  predicate SameUpTo(was: seq<Block>, chain: seq<Block>, i: nat)
    requires i < |was| && i < |chain|
  {
    was[..i + 1] == chain[..i + 1]
  }

  lemma SameUpToIs(was: seq<Block>, chain: seq<Block>, i: nat)
    requires i < |was| && i < |chain|
    ensures SameUpTo(was, chain, i) ==> was[i] == chain[i]
    ensures chain <= was ==> SameUpTo(was, chain, i)
  {
    if SameUpTo(was, chain, i) {
      assert was[i] == was[..i + 1][i];
    }
  }
}
