/** The derived tables as modules/brc20_index/brc20_index.py keeps them, and the check that brings them in
    line with the main tables after every block. */
module ExtraStore {
  import opened Wrappers
  import opened IndexTables
  import opened IndexSpec
  import opened IndexReorg
  import opened IndexLedger
  import opened IndexExtra

  function Key(pkscript: string, tick: string): string {
    pkscript + "_" + tick
  }

  /** Scripts are hexadecimal, so none contains the separator. */
  predicate KeysAreClear(rows: seq<BalanceRow>) {
    forall r | r in rows :: '_' !in r.pkscript
  }

  lemma FirstSeparator(p: string, tick: string)
    requires '_' !in p
    ensures Key(p, tick)[|p|] == '_' && Key(p, tick)[..|p|] == p && Key(p, tick)[|p| + 1..] == tick
    ensures forall i :: 0 <= i < |p| ==> Key(p, tick)[i] != '_'
  {
  }

  lemma KeyDetermines(p: string, tick: string, p': string, tick': string)
    requires '_' !in p && '_' !in p'
    requires Key(p, tick) == Key(p', tick')
    ensures p == p' && tick == tick'
  {
    hide Key;
    FirstSeparator(p, tick);
    FirstSeparator(p', tick');
  }

  /** The dictionary of a block's balance changes holds the last one of each account. */
  ghost predicate Represents(changes: map<string, BalanceRow>, latest: map<(string, string), CurrentRow>) {
    && (forall k :: k in changes ==>
          var r := changes[k];
          && '_' !in r.pkscript && k == Key(r.pkscript, r.tick) && (r.pkscript, r.tick) in latest
          && latest[(r.pkscript, r.tick)] == CurrentRow(r.balance, r.height))
    && (forall a: (string, string) :: a in latest ==> Key(a.0, a.1) in changes && '_' !in a.0)
  }

  lemma RepresentsStep(changes: map<string, BalanceRow>, rows: seq<BalanceRow>, r: BalanceRow)
    requires Represents(changes, Latest(rows)) && '_' !in r.pkscript
    ensures Represents(changes[Key(r.pkscript, r.tick) := r], Latest(rows + [r]))
  {
    hide Key;
    assert (rows + [r])[..|rows|] == rows;
    forall k | k in changes && k != Key(r.pkscript, r.tick)
      ensures (changes[k].pkscript, changes[k].tick) != (r.pkscript, r.tick)
    {
    }
    forall a: (string, string) | a in Latest(rows) && Key(a.0, a.1) == Key(r.pkscript, r.tick)
      ensures a == (r.pkscript, r.tick)
    {
      KeyDetermines(a.0, a.1, r.pkscript, r.tick);
    }
  }

  lemma BalancesAtClear(rows: seq<BalanceRow>, height: nat)
    requires KeysAreClear(rows)
    ensures KeysAreClear(BalancesAt(rows, height))
    ensures forall r | r in BalancesAt(rows, height) :: r.height == height
  {
    if rows != [] {
      BalancesAtClear(rows[..|rows| - 1], height);
    }
  }

  predicate Differs(a: map<nat, string>, b: map<nat, string>, h: nat) {
    h in a && h in b && a[h] != b[h]
  }

  lemma ReplayIsSound(env: Env, chain: seq<Block>)
    requires ChainOk(chain)
    ensures LogSound(Replay(env, chain))
  {
    hide LogOk, Ascends, InscribedOk, TickerOk, AccountOk, DecimalsOk;
    LedgerIsSound(env, chain);
    ReplayAscends(env, chain);
  }

  /** One round of the catch-up loop, from any chain that agrees so far. */
  lemma {:induction false} StepFrom(env: Env, was: seq<Block>, chain: seq<Block>, k: nat)
    requires ChainOk(chain) && k < |chain| && k <= |was| && was[..k] == chain[..k]
    ensures var t, x, h := Replay(env, chain), Rebuild(Replay(env, was)), env.firstHeight + k;
            && h in t.blocks
            && Extend(if |was| > k then RollBack(x, t, h - 1) else x, t, h, t.blocks[h]) ==
               Rebuild(Replay(env, chain[..k + 1]))
  {
    hide LogSound, Ascends, Rebuild, RollBack, Extend, ReorgFix, DecimalsOk, Replay, ChainOk;
    var t, h := Replay(env, chain), env.firstHeight + k;
    BlockHash(env, chain, h);
    RollbackIsReplay(env, chain, k);
    RollbackIsReplay(env, chain, k + 1);
    RollbackIsReplay(env, was, k);
    ReplayIsSound(env, chain);
    ReplayAscends(env, was);
    if |was| > k {
      RollBackIsRebuild(Replay(env, was), t, h - 1);
    } else {
      assert was[..k] == was;
    }
    ExtendIsRebuild(t, h);
  }

  lemma {:induction false} SameHash(env: Env, was: seq<Block>, chain: seq<Block>, i: nat)
    requires HashesBind(was, chain) && i < |was| && i < |chain|
    ensures Differs(Replay(env, was).blocks, Replay(env, chain).blocks, env.firstHeight + i) <==>
            !SameUpTo(was, chain, i)
  {
    hide Replay, DecimalsOk, SameUpTo;
    BlockHash(env, was, env.firstHeight + i);
    BlockHash(env, chain, env.firstHeight + i);
    SameUpToIs(was, chain, i);
  }

  ghost predicate Agree(env: Env, was: seq<Block>, chain: seq<Block>) {
    forall h :: !Differs(Replay(env, was).blocks, Replay(env, chain).blocks, h)
  }

  /** Below the least difference the two chains agree. */
  lemma {:induction false} CommonPart(env: Env, was: seq<Block>, chain: seq<Block>, h: nat)
    requires HashesBind(was, chain) && Differs(Replay(env, was).blocks, Replay(env, chain).blocks, h)
    requires forall g :: Differs(Replay(env, was).blocks, Replay(env, chain).blocks, g) ==> h <= g
    ensures var k := h - env.firstHeight; 0 <= k < |was| && k < |chain| && was[..k] == chain[..k]
    ensures !(chain <= was)
  {
    hide Replay, DecimalsOk, HashesBind;
    BlockHash(env, was, h);
    BlockHash(env, chain, h);
    var k := h - env.firstHeight;
    SameHash(env, was, chain, k);
    if k > 0 {
      SameHash(env, was, chain, k - 1);
    }
    SameUpToIs(was, chain, k);
  }

  /** Without a difference one chain extends the other. */
  lemma NoDifference(env: Env, was: seq<Block>, chain: seq<Block>)
    requires HashesBind(was, chain) && Agree(env, was, chain)
    ensures |chain| <= |was| ==> chain <= was
    ensures |was| < |chain| ==> was == chain[..|was|]
  {
    hide Replay, DecimalsOk, HashesBind, Differs;
    var n := if |chain| <= |was| then |chain| else |was|;
    if n > 0 {
      SameHash(env, was, chain, n - 1);
    }
    assert was[..n] == chain[..n];
    assert chain[..|chain|] == chain && was[..|was|] == was;
  }

  /** Where a check that begins `k` blocks up must stand: on a common prefix, and past the
      standing chain only when that is where the extra tables came from. */
  ghost predicate StartsWell(was: seq<Block>, chain: seq<Block>, k: nat) {
    && k <= |was|
    && (k <= |chain| ==> was[..k] == chain[..k])
    && ((k < |chain| || k == 0) && chain <= was ==> was == chain)
    && (k >= |chain| ==> chain <= was)
  }

  /** Two chains differ at height 0 exactly when indexing starts there and their first blocks have different
      hashes. */
  lemma {:induction false} DifferAtZero(env: Env, was: seq<Block>, chain: seq<Block>)
    ensures Differs(Replay(env, was).blocks, Replay(env, chain).blocks, 0) <==>
            env.firstHeight == 0 && was != [] && chain != [] && was[0].hash != chain[0].hash
    ensures Differs(Replay(env, was).blocks, Replay(env, chain).blocks, 0) ==> !(chain <= was)
  {
    hide Replay, DecimalsOk;
    BlockHash(env, was, 0);
    BlockHash(env, chain, 0);
  }

  /** Two such chains that meet every assumption of the check. The indexer never replaces its first block, so
      this takes a main database that was built again beside old derived tables. */
  lemma FirstBlocksDiffer(hash: string -> string)
    ensures var env, was, chain := Env(0, 0, map[], hash), [Block("a", [])], [Block("b", [])];
            && ChainOk(was) && ChainOk(chain) && HashesBind(was, chain)
            && KeysAreClear(Replay(env, chain).balances)
            && Differs(Rebuild(Replay(env, was)).blocks, Replay(env, chain).blocks, 0)
  {
    var env, was, chain := Env(0, 0, map[], hash), [Block("a", [])], [Block("b", [])];
    DifferAtZero(env, was, chain);
    assert chain[..0] == [] && was[..0] == [];
  }

  lemma RebuildBlocks(t: Tables)
    ensures Rebuild(t).blocks == t.blocks
  {
  }

  /** A block above the first leaves the first one's hash alone. */
  lemma FirstBlockStays(x: Extra, t: Tables, height: nat, hash: string)
    requires height > 0
    ensures 0 in x.blocks ==>
              && 0 in Extend(x, t, height, hash).blocks && Extend(x, t, height, hash).blocks[0] == x.blocks[0]
              && 0 in Extend(RollBack(x, t, height - 1), t, height, hash).blocks
              && Extend(RollBack(x, t, height - 1), t, height, hash).blocks[0] == x.blocks[0]
  {
  }

  /** The greatest height of a table, or 0 when it is empty, reaches a height. */
  ghost predicate AtOrPast(blocks: map<nat, string>, height: nat) {
    if blocks == map[] then height == 0 else exists h :: h in blocks && h >= height
  }

  class ExtraTables {
    var current: map<(string, string), CurrentRow>
    var unused: map<string, UnusedRow>
    var blocks: map<nat, string>

    function Contents(): Extra
      reads this
    {
      Extra(current, unused, blocks)
    }

    constructor ()
      ensures Contents() == Rebuild(NoTables)
    {
      current, unused, blocks := map[], map[], map[];
    }

    /** Truncates the unused inscriptions and inserts the join of a log. */
    method FillUnused(log: seq<EventRow>)
      modifies this`unused
      ensures unused == LeftJoin(log, log)
    {
      unused := map[];
      var i := 0;
      assert log[..0] == [];
      while i < |log|
        invariant 0 <= i <= |log|
        invariant unused == LeftJoin(log[..i], log)
      {
        var r := log[i];
        assert log[..i + 1][..i] == log[..i];
        if r.event.Inscribe? && MoveCount(log, r.inscriptionId) == 0 {
          unused := unused[r.inscriptionId := RowOf(r)];
        }
        i := i + 1;
      }
      assert log[..i] == log;
    }

    method ReorgOnExtraTables(t: Tables, height: int)
      modifies this
      ensures Contents() == RollBack(old(Contents()), t, height)
    {
      hide LastRow, LeftJoin, EventsUpTo;
      var deleted := map k | k in current && current[k].height > height :: current[k];
      current := map k | k in current && current[k].height <= height :: current[k];
      var todo := deleted.Keys;
      while todo != {}
        invariant todo <= deleted.Keys
        invariant forall k :: k in current ==>
                    k in old(current) && k !in todo &&
                    (if k in deleted then LastRow(t.balances, height, k.0, k.1) == Some(current[k])
                     else current[k] == old(current)[k])
        invariant forall k :: k in old(current) && k !in deleted ==> k in current
        invariant forall k :: k in deleted && k !in todo && LastRow(t.balances, height, k.0, k.1).Some? ==> k in current
        invariant unused == old(unused) && blocks == old(blocks)
      {
        var k :| k in todo;
        var row := LastRow(t.balances, height, k.0, k.1);
        if row.Some? {
          current := current[k := row.value];
        }
        todo := todo - {k};
      }
      assert current == RevertCurrent(old(current), t.balances, height);
      FillUnused(EventsUpTo(t.events, height));
      blocks := map h | h in blocks && h <= height :: blocks[h];
    }

    method InitialIndex(t: Tables)
      modifies this
      ensures Contents() == Rebuild(t)
    {
      hide LeftJoin;
      FillUnused(t.events);
      current := map[];
      var i := 0;
      assert t.balances[..0] == [];
      while i < |t.balances|
        invariant 0 <= i <= |t.balances|
        invariant current == Latest(t.balances[..i])
        invariant unused == LeftJoin(t.events, t.events)
      {
        var r := t.balances[i];
        assert t.balances[..i + 1][..i] == t.balances[..i];
        current := current[(r.pkscript, r.tick) := CurrentRow(r.balance, r.height)];
        i := i + 1;
      }
      assert t.balances[..i] == t.balances;
      blocks := t.blocks;
    }

    /** The balance changes of a block, last one first written out. */
    method UpsertBalances(rows: seq<BalanceRow>)
      requires KeysAreClear(rows)
      modifies this`current
      ensures current == old(current) + Latest(rows)
    {
      hide Key, Latest;
      var changes: map<string, BalanceRow> := map[];
      var i := 0;
      assert rows[..0] == [];
      NothingRepresented();
      while i < |rows|
        invariant 0 <= i <= |rows|
        invariant Represents(changes, Latest(rows[..i]))
        invariant current == old(current)
      {
        RepresentsStep(changes, rows[..i], rows[i]);
        assert rows[..i + 1] == rows[..i] + [rows[i]];
        changes := changes[Key(rows[i].pkscript, rows[i].tick) := rows[i]];
        i := i + 1;
      }
      assert rows[..i] == rows;
      WriteOut(changes, rows);
    }

    method WriteOut(changes: map<string, BalanceRow>, ghost rows: seq<BalanceRow>)
      requires Represents(changes, Latest(rows))
      modifies this`current
      ensures current == old(current) + Latest(rows)
    {
      hide Key, Latest;
      ghost var latest := Latest(rows);
      var todo := changes.Keys;
      while todo != {}
        invariant todo <= changes.Keys
        invariant forall a :: a in current <==>
                    a in old(current) || (a in latest && Key(a.0, a.1) !in todo)
        invariant forall a :: a in current ==>
                    current[a] == if a in latest && Key(a.0, a.1) !in todo then latest[a] else old(current)[a]
      {
        var k :| k in todo;
        var r := changes[k];
        forall a | a in latest && Key(a.0, a.1) == k ensures a == (r.pkscript, r.tick) {
          KeyDetermines(a.0, a.1, r.pkscript, r.tick);
        }
        current := current[(r.pkscript, r.tick) := CurrentRow(r.balance, r.height)];
        todo := todo - {k};
      }
      assert current == old(current) + latest;
    }

    method UpdateUnused(events: seq<EventRow>)
      modifies this`unused
      ensures unused == UnusedAfter(old(unused), events)
    {
      var i := 0;
      assert events[..0] == [];
      while i < |events|
        invariant 0 <= i <= |events|
        invariant unused == UnusedAfter(old(unused), events[..i])
      {
        var r := events[i];
        assert events[..i + 1][..i] == events[..i];
        match r.event {
          case Inscribe(_, _, _, _) =>
            if r.inscriptionId !in unused {
              unused := unused[r.inscriptionId := RowOf(r)];
            }
          case Move(_, _, _, _, _, _) =>
            unused := unused - {r.inscriptionId};
          case _ =>
        }
        i := i + 1;
      }
      assert events[..i] == events;
    }

    method IndexExtraTables(t: Tables, height: nat, hash: string)
      requires KeysAreClear(t.balances)
      modifies this
      ensures Contents() ==
              Extend(if AtOrPast(old(blocks), height) then RollBack(old(Contents()), t, height - 1)
                     else old(Contents()), t, height, hash)
    {
      hide RollBack, Latest, UnusedAfter, BalancesAt, EventsAt;
      var reached := MaxHeight(blocks);
      if reached >= height {
        ReorgOnExtraTables(t, height - 1);
      }
      BalancesAtClear(t.balances, height);
      UpsertBalances(BalancesAt(t.balances, height));
      UpdateUnused(EventsAt(t.events, height));
      blocks := blocks[height := hash];
    }

    /** The least height at which the two tables hold different block hashes. */
    method FirstDifference(main: map<nat, string>) returns (m: Option<nat>)
      ensures m.Some? ==> Differs(blocks, main, m.value)
      ensures forall h :: Differs(blocks, main, h) ==> m.Some? && m.value <= h
    {
      m := None;
      var todo := blocks.Keys;
      while todo != {}
        invariant todo <= blocks.Keys
        invariant m.Some? ==> Differs(blocks, main, m.value)
        invariant forall h :: Differs(blocks, main, h) && h !in todo ==> m.Some? && m.value <= h
      {
        var h :| h in todo;
        if Differs(blocks, main, h) && (m.None? || h < m.value) {
          m := Some(h);
        }
        todo := todo - {h};
      }
    }

    /** The height to start from: the least difference, or the next height after
        the last one, or the first of all. A difference at height 0 reads as none. */
    method HeightToCheck(env: Env, t: Tables, ghost was: seq<Block>, ghost chain: seq<Block>) returns (toCheck: nat)
      requires t == Replay(env, chain) && Contents() == Rebuild(Replay(env, was))
      requires HashesBind(was, chain)
      ensures toCheck >= env.firstHeight
      ensures Differs(blocks, t.blocks, 0) ==> toCheck == |was| > 0
      ensures !Differs(blocks, t.blocks, 0) ==> StartsWell(was, chain, toCheck - env.firstHeight)
    {
      hide Replay, HashesBind, DecimalsOk, Latest, LeftJoin;
      BlockHash(env, was, env.firstHeight);
      BlockHash(env, was, 0);
      var difference := FirstDifference(t.blocks);
      toCheck := difference.GetOr(0);
      if difference.Some? {
        CommonPart(env, was, chain, difference.value);
      } else {
        NoDifference(env, was, chain);
      }
      if toCheck == 0 && blocks != map[] {
        var reached := MaxHeight(blocks);
        toCheck := reached + 1;
        LastBlock(env, was, reached);
      }
      if toCheck == 0 {
        toCheck := env.firstHeight;
      }
    }

    /** The loop of the check. From a common prefix it ends with a rebuild of the standing
        chain; a first block that is out of date is never looked at again. */
    method CatchUp(env: Env, t: Tables, from: nat, to: nat, ghost was: seq<Block>, ghost chain: seq<Block>,
                   ghost stale: bool)
      requires t == Replay(env, chain) && ChainOk(chain) && KeysAreClear(t.balances)
      requires to == if chain == [] then env.firstHeight else env.firstHeight + |chain| - 1
      requires env.firstHeight <= from <= to
      requires !stale ==> Contents() == Rebuild(Replay(env, was)) && StartsWell(was, chain, from - env.firstHeight)
      requires stale ==> env.firstHeight == 0 < from && chain != [] && 0 in blocks
      modifies this
      ensures !stale ==> Contents() == Rebuild(Replay(env, chain))
      ensures stale ==> 0 in blocks && blocks[0] == old(blocks)[0]
    {
      hide Replay, ChainOk, DecimalsOk, Extend, RollBack, KeysAreClear, Rebuild;
      var toCheck := from;
      ghost var w := was;
      while toCheck <= to
        invariant from <= toCheck
        invariant toCheck > env.firstHeight ==> toCheck - env.firstHeight <= |chain|
        invariant !stale ==> Contents() == Rebuild(Replay(env, w)) && toCheck - env.firstHeight <= |w|
        invariant !stale && toCheck > env.firstHeight ==>
                    w[..toCheck - env.firstHeight] == chain[..toCheck - env.firstHeight]
        invariant !stale && toCheck > to ==> w == chain
        invariant stale ==> 0 in blocks && blocks[0] == old(blocks)[0]
      {
        if toCheck == env.firstHeight {
          InitialIndex(t);
          return;
        }
        ghost var k: nat := toCheck - env.firstHeight;
        BlockHash(env, chain, toCheck);
        if !stale {
          StepFrom(env, w, chain, k);
          Reached(env, w, k);
        }
        FirstBlockStays(Contents(), t, toCheck, t.blocks[toCheck]);
        IndexExtraTables(t, toCheck, t.blocks[toCheck]);
        w := chain[..k + 1];
        toCheck := toCheck + 1;
      }
    }

    /** Brings the extra tables in line with the main ones. `was` is the chain they
        were built from, `chain` the one that stands now. They end as a rebuild of the
        standing chain, or stay ahead when they were built from an extension of it, if
        and only if the two chains do not differ at height 0. */
    method CheckExtraTables(env: Env, t: Tables, ghost was: seq<Block>, ghost chain: seq<Block>)
      requires t == Replay(env, chain) && Contents() == Rebuild(Replay(env, was))
      requires ChainOk(chain) && KeysAreClear(t.balances) && HashesBind(was, chain)
      modifies this
      ensures Contents() == Rebuild(Replay(env, if chain <= was then was else chain)) <==>
              !Differs(old(blocks), t.blocks, 0)
    {
      hide Replay, ChainOk, DecimalsOk, HashesBind, Extend, RollBack, KeysAreClear, Rebuild;
      ghost var stale := Differs(blocks, t.blocks, 0);
      RebuildBlocks(Replay(env, was));
      RebuildBlocks(t);
      if stale {
        DifferAtZero(env, was, chain);
      }
      var toCheck := HeightToCheck(env, t, was, chain);
      var mainHeight := env.firstHeight;
      if t.blocks != map[] {
        mainHeight := MaxHeight(t.blocks);
        LastBlock(env, chain, mainHeight);
      }
      BlockHash(env, chain, env.firstHeight);
      if toCheck > mainHeight {
        return;
      }
      CatchUp(env, t, toCheck, mainHeight, was, chain, stale);
    }
  }

  lemma Reached(env: Env, was: seq<Block>, k: nat)
    ensures (exists h :: h in Rebuild(Replay(env, was)).blocks && h >= env.firstHeight + k) <==> |was| > k
  {
    hide Replay, DecimalsOk, Latest, LeftJoin;
    var x := Rebuild(Replay(env, was));
    if |was| > k {
      BlockHash(env, was, env.firstHeight + k);
    } else {
      forall h | h in x.blocks ensures h < env.firstHeight + k {
        BlockHash(env, was, h);
      }
    }
  }

  lemma NothingRepresented()
    ensures Represents(map[], Latest([]))
  {
  }
}
