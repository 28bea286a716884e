/** modules/runes_index/index_runes.js as the running program: queries that complete in
    any order, the delayed updates, and the rollback; and the balance query of
    modules/runes_api/api.js. */
module RunesTables {
  import opened Wrappers
  import opened MapSum
  import opened RunesSpec
  import opened RunesReplay
  import opened RunesHeal

  datatype QueryError = BlockNotIndexedYet

  const PROMISE_LIMIT: nat := 50000

  /** The rune that `check_db` inserts on mainnet, as the line it stands for. */
  const SEED := Line(1, EntryInsert("1:0", 0, 0))

  /** The lines of a batch that are above the current height. */
  function Fresh(batch: seq<Line>, current: int): seq<Line> {
    if batch == [] then []
    else
      var line := batch[|batch| - 1];
      Fresh(batch[..|batch| - 1], current) + if line.height > current then [line] else []
  }

  predicate IsLate(line: Line) {
    line.command.OutpointRemove? || line.command.EntryUpdate?
  }

  /** The delayed queries of a list of lines. */
  function Late(lines: seq<Line>): seq<Line> {
    if lines == [] then []
    else
      var line := lines[|lines| - 1];
      Late(lines[..|lines| - 1]) + if IsLate(line) then [line] else []
  }

  ghost predicate Unique(lines: seq<Line>) {
    forall i, j :: 0 <= i < j < |lines| ==> lines[i] != lines[j]
  }

  lemma NothingRead(current: int)
    ensures Fresh([], current) == [] && Late([]) == [] && LinesOf([]) == {}
  {
  }

  lemma TakeOne(lines: seq<Line>, i: nat)
    requires i < |lines| && Unique(lines)
    ensures LinesOf(lines[..i + 1]) == LinesOf(lines[..i]) + {lines[i]}
    ensures lines[i] in LinesOf(lines) && lines[i] !in LinesOf(lines[..i])
  {
  }

  lemma {:induction false} FreshIn(batch: seq<Line>, current: int)
    ensures forall l :: l in Fresh(batch, current) <==> l in batch && l.height > current
  {
    if batch != [] {
      FreshIn(batch[..|batch| - 1], current);
      assert batch == batch[..|batch| - 1] + [batch[|batch| - 1]];
    }
  }

  lemma FreshIsNew(batch: seq<Line>, current: int, known: set<Line>, maxHeight: int)
    requires forall l :: l in known ==> l.height <= current || l == SEED
    requires current <= maxHeight && forall l :: l in batch ==> l.height <= maxHeight
    requires SEED in known ==> SEED !in batch
    ensures LinesOf(Fresh(batch, current)) !! known
    ensures forall l :: l in known + LinesOf(Fresh(batch, current)) ==> l.height <= maxHeight || l == SEED
  {
    FreshIn(batch, current);
  }

  lemma FreshPrefix(batch: seq<Line>, current: int, n: nat)
    requires n <= |batch|
    ensures Fresh(batch[..n], current) <= Fresh(batch, current)
  {
    if n < |batch| {
      FreshPrefix(batch[..|batch| - 1], current, n);
      assert batch[..|batch| - 1][..n] == batch[..n];
    } else {
      assert batch[..n] == batch;
    }
  }

  /** Reading one more line. */
  lemma FreshStep(batch: seq<Line>, current: int, i: nat)
    requires i < |batch| && Unique(Fresh(batch, current))
    ensures batch[i].height <= current ==> Fresh(batch[..i + 1], current) == Fresh(batch[..i], current)
    ensures batch[i].height > current ==>
              && Fresh(batch[..i + 1], current) == Fresh(batch[..i], current) + [batch[i]]
              && LinesOf(Fresh(batch[..i + 1], current)) == LinesOf(Fresh(batch[..i], current)) + {batch[i]}
              && batch[i] in LinesOf(Fresh(batch, current)) - LinesOf(Fresh(batch[..i], current))
              && Late(Fresh(batch[..i + 1], current)) ==
                 if IsLate(batch[i]) then Late(Fresh(batch[..i], current)) + [batch[i]]
                 else Late(Fresh(batch[..i], current))
  {
    hide Late;
    assert batch[..i + 1][..i] == batch[..i];
    FreshPrefix(batch, current, i + 1);
    if batch[i].height > current {
      var before, after := Fresh(batch[..i], current), Fresh(batch[..i + 1], current);
      assert after == before + [batch[i]] && after[|before|] == batch[i];
      NotEarlier(Fresh(batch, current), before, batch[i]);
      LateStep(before, batch[i]);
    }
  }

  lemma NotEarlier(lines: seq<Line>, before: seq<Line>, line: Line)
    requires before + [line] <= lines && Unique(lines)
    ensures line in LinesOf(lines) - LinesOf(before)
  {
    assert lines[|before|] == (before + [line])[|before|] == line;
    assert forall k :: 0 <= k < |before| ==> lines[k] == (before + [line])[k] == before[k];
  }

  /** `done` have run and `running` are running of what has been seen so far. */
  ghost predicate Progress(done: set<Line>, running: set<Line>, known: set<Line>, seen: seq<Line>, all: set<Line>) {
    done <= all && running <= all - done && done + running == known + LinesOf(seen)
  }

  lemma ProgressStep(done: set<Line>, running: set<Line>, known: set<Line>, seen: seq<Line>, all: set<Line>, line: Line)
    requires Progress(done, running, known, seen, all)
    requires line in all - known - LinesOf(seen)
    ensures line !in done && Progress(done + {line}, running, known, seen + [line], all)
    ensures Progress(done, running + {line}, known, seen + [line], all)
  {
    assert LinesOf(seen + [line]) == LinesOf(seen) + {line};
  }

  lemma RemoveWaits(s: Store, line: Line)
    requires line.command.OutpointRemove?
    ensures FirstQuery(s, line) == s
  {
  }

  lemma LateStep(before: seq<Line>, line: Line)
    ensures Late(before + [line]) == if IsLate(line) then Late(before) + [line] else Late(before)
  {
    assert (before + [line])[..|before|] == before;
  }

  lemma {:induction false} LateLines(lines: seq<Line>)
    ensures forall l :: l in Late(lines) <==> l in lines && IsLate(l)
    ensures LinesOf(Late(lines)) <= LinesOf(lines)
    ensures Unique(lines) ==> Unique(Late(lines))
  {
    if lines != [] {
      LateLines(lines[..|lines| - 1]);
      assert lines == lines[..|lines| - 1] + [lines[|lines| - 1]];
    }
  }

  /** Lines without a delayed query need not be waited for. */
  lemma OnlyLateMatter(s: Store, known: set<Line>, added: seq<Line>)
    requires Agrees(s, known + LinesOf(added), known + LinesOf(Late(added)))
    ensures Agrees(s, known + LinesOf(added), known + LinesOf(added))
  {
    hide Late;
    LateLines(added);
  }

  /** Changes from `height` on do not matter to what a rollback restores. */
  lemma RestoreKept(all: map<(string, nat), Change>, kept: map<(string, nat), Change>, rune: string, e: Entry,
                    height: nat)
    requires kept == map k | k in all && k.1 < height :: all[k]
    ensures RestoreEntry(kept, rune, e, height) == RestoreEntry(all, rune, e, height)
  {
    LastChangeKept(all, kept, rune, height);
    LastChangeIs(all, rune, height);
  }

  function KeptEntries(entries: map<string, Entry>, height: nat): map<string, Entry> {
    map r | r in entries && entries[r].genesis < height :: entries[r]
  }

  function Restored(changes: map<(string, nat), Change>, entries: map<string, Entry>, height: nat): map<string, Entry> {
    map r | r in entries :: RestoreEntry(changes, r, entries[r], height)
  }

  lemma RestoredIsReverted(s: Store, kept: map<(string, nat), Change>, height: nat)
    requires kept == Reverted(s, height).changes
    ensures Restored(kept, KeptEntries(s.entries, height), height) == Reverted(s, height).entries
  {
    hide RestoreEntry;
    forall r | r in s.entries
      ensures RestoreEntry(kept, r, s.entries[r], height) == RestoreEntry(s.changes, r, s.entries[r], height)
    {
      RestoreKept(s.changes, kept, r, s.entries[r], height);
    }
  }

  lemma RestoreNothing(changes: map<(string, nat), Change>, height: nat)
    ensures forall r, e: Entry :: e.updated < height ==> RestoreEntry(changes, r, e, height) == e
  {
  }

  lemma {:induction false} LastChangeKept(all: map<(string, nat), Change>, kept: map<(string, nat), Change>,
                                          rune: string, height: nat)
    requires forall h: nat :: h < height ==> ((rune, h) in kept <==> (rune, h) in all)
    ensures LastChange(kept, rune, height) == LastChange(all, rune, height)
  {
    if height > 0 {
      LastChangeKept(all, kept, rune, height - 1);
    }
  }

  lemma SeedIsNew(s: Store, lines: set<Line>)
    requires ChainOk(lines) && Agrees(s, lines, lines) && SEED.command.rune !in s.entries
    ensures SEED !in lines && ChainOk(lines + {SEED})
  {
    forall l | l in lines
      ensures Sourced(lines + {SEED}, l)
    {
      assert Sourced(lines, l);
    }
  }

  lemma NotLate(s: Store, known: set<Line>, line: Line)
    requires !IsLate(line) && Agrees(s, known + {line}, known)
    ensures Agrees(s, known + {line}, known + {line})
  {
  }

  class RunesStore {
    var outpoints: map<string, Utxo>
    var entries: map<string, Entry>
    var changes: map<(string, nat), Change>
    var current: int
    ghost var lines: set<Line>

    ghost function Tables(): Store
      reads this
    {
      Store(outpoints, entries, changes)
    }

    /** The tables stand for the indexed lines, whatever happened before, up to the entries of some runes. */
    ghost predicate Valid()
      reads this
    {
      && ChainOk(lines)
      && Agrees(Tables(), lines, lines)
      && (forall l :: l in lines ==> l.height <= current || l == SEED)
    }

    /** The runes whose entries are wrong; without them the tables stand for the lines exactly. */
    ghost function WrongRunes(): (wrong: set<string>)
      reads this
      ensures Valid() ==> (wrong == {} <==> Denotes(Tables(), lines))
    {
      Wrong(Tables(), lines)
    }

    constructor ()
      ensures Valid() && WrongRunes() == {} && lines == {} && current == -1
    {
      outpoints, entries, changes := map[], map[], map[];
      current := -1;
      lines := {};
      new;
      EmptyDenotes();
    }

    /** `check_db` on mainnet inserts the seed rune unless it has an entry. */
    method InsertSeed()
      requires Valid()
      modifies this
      ensures Valid() && WrongRunes() == old(WrongRunes()) && current == old(current)
      ensures lines == old(lines) + (if SEED.command.rune in old(entries) then {} else {SEED})
    {
      hide ChainOk, Agrees, Wrong;
      if SEED.command.rune !in entries {
        SeedIsNew(Tables(), lines);
        FirstStep(Tables(), lines + {SEED}, lines, lines, SEED);
        NotLate(FirstQuery(Tables(), SEED), lines, SEED);
        entries := entries[SEED.command.rune := Entry(SEED.height, 0, 0, SEED.height)];
        lines := lines + {SEED};
      }
    }

    method RunFirst(line: Line)
      modifies this
      ensures Tables() == FirstQuery(old(Tables()), line)
      ensures current == old(current) && lines == old(lines)
    {
      match line.command {
        case OutpointInsert(o, pkscript, balances) =>
          outpoints := outpoints[o := Utxo(pkscript, balances, line.height, false, None)];
        case EntryInsert(r, burned, mints) =>
          entries := entries[r := Entry(line.height, burned, mints, line.height)];
        case EntryUpdate(r, burned, mints) =>
          changes := changes[(r, line.height) := Change(burned, mints)];
        case OutpointRemove(_) =>
      }
    }

    method RunDelayed(line: Line)
      modifies this
      ensures Tables() == DelayedQuery(old(Tables()), line)
      ensures current == old(current) && lines == old(lines)
    {
      match line.command {
        case OutpointRemove(o) =>
          if o in outpoints {
            outpoints := outpoints[o := outpoints[o].(spent := true, spentHeight := Some(line.height))];
          }
        case EntryUpdate(r, burned, mints) =>
          if r in entries && entries[r].updated < line.height {
            entries := entries[r := entries[r].(burned := burned, mints := mints, updated := line.height)];
          }
        case _ =>
      }
    }

    /** Waits for running inserts, which complete in any order. */
    method AwaitFirst(running: set<Line>, ghost all: set<Line>, ghost done: set<Line>, ghost late: set<Line>)
      requires ChainOk(all) && done <= all && late <= all && running <= all - done
      requires Agrees(Tables(), done, late)
      modifies this
      ensures Agrees(Tables(), done + running, late)
      ensures Wrong(Tables(), done + running) == Wrong(old(Tables()), done)
      ensures current == old(current) && lines == old(lines)
    {
      hide ChainOk, Agrees, Wrong;
      var todo := running;
      assert done + (running - todo) == done;
      while todo != {}
        invariant todo <= running
        invariant Agrees(Tables(), done + (running - todo), late)
        invariant Wrong(Tables(), done + (running - todo)) == Wrong(old(Tables()), done)
        invariant current == old(current) && lines == old(lines)
      {
        var line :| line in todo;
        FirstStep(Tables(), all, done + (running - todo), late, line);
        assert done + (running - (todo - {line})) == done + (running - todo) + {line};
        RunFirst(line);
        todo := todo - {line};
      }
      assert done + (running - todo) == done + running;
    }

    /** Waits for running updates, which complete in any order. */
    method AwaitDelayed(running: set<Line>, ghost all: set<Line>, ghost late: set<Line>, ghost wrong: set<string>)
      requires ChainOk(all) && late <= all && running <= all - late
      requires Agrees(Tables(), all, late) && Wrong(Tables(), all) == wrong * Unmoved(Tables())
      modifies this
      ensures Agrees(Tables(), all, late + running) && Wrong(Tables(), all) == wrong * Unmoved(Tables())
      ensures current == old(current) && lines == old(lines)
    {
      hide ChainOk, Agrees, Wrong, Unmoved;
      var todo := running;
      assert late + (running - todo) == late;
      while todo != {}
        invariant todo <= running
        invariant Agrees(Tables(), all, late + (running - todo))
        invariant Wrong(Tables(), all) == wrong * Unmoved(Tables())
        invariant current == old(current) && lines == old(lines)
      {
        var line :| line in todo;
        DelayedStep(Tables(), all, late + (running - todo), line, wrong);
        assert late + (running - (todo - {line})) == late + (running - todo) + {line};
        RunDelayed(line);
        todo := todo - {line};
      }
      assert late + (running - todo) == late + running;
    }

    /** The delayed queries of a batch. */
    method RunAllDelayed(delayed: seq<Line>, ghost all: set<Line>, ghost known: set<Line>, ghost wrong: set<string>)
      requires ChainOk(all) && known <= all && Unique(delayed) && LinesOf(delayed) <= all - known
      requires Agrees(Tables(), all, known) && Wrong(Tables(), all) == wrong * Unmoved(Tables())
      modifies this
      ensures Agrees(Tables(), all, known + LinesOf(delayed)) && Wrong(Tables(), all) == wrong * Unmoved(Tables())
      ensures current == old(current) && lines == old(lines)
    {
      hide ChainOk, Agrees, LinesOf, Unique, Wrong, Unmoved;
      ghost var late := known;
      var running: set<Line> := {};
      var i := 0;
      assert LinesOf(delayed[..0]) == {} by {
        NothingRead(0);
      }
      while i < |delayed|
        invariant 0 <= i <= |delayed|
        invariant late <= all && running <= all - late
        invariant late + running == known + LinesOf(delayed[..i])
        invariant Agrees(Tables(), all, late) && Wrong(Tables(), all) == wrong * Unmoved(Tables())
        invariant current == old(current) && lines == old(lines)
      {
        if |running| > PROMISE_LIMIT {
          AwaitDelayed(running, all, late, wrong);
          late := late + running;
          running := {};
        }
        TakeOne(delayed, i);
        running := running + {delayed[i]};
        i := i + 1;
      }
      assert delayed[..i] == delayed;
      AwaitDelayed(running, all, late, wrong);
    }

    /** Reads the lines of a batch: the inserts run, the updates are put off. */
    method ReadLines(batch: seq<Line>, ghost all: set<Line>) returns (delayed: seq<Line>)
      requires Agrees(Tables(), lines, lines) && Unique(Fresh(batch, current)) && ChainOk(all)
      requires all == lines + LinesOf(Fresh(batch, current)) && lines !! LinesOf(Fresh(batch, current))
      modifies this
      ensures Agrees(Tables(), all, lines) && Wrong(Tables(), all) == old(WrongRunes())
      ensures current == old(current) && lines == old(lines)
      ensures delayed == Late(Fresh(batch, current))
    {
      hide ChainOk, Agrees, LinesOf, Unique, Fresh, Late, IsLate, FirstQuery, Wrong;
      ghost var done, seen: seq<Line> := lines, [];
      var running: set<Line> := {};
      delayed := [];
      var i := 0;
      NothingRead(current);
      assert batch[..0] == [];
      while i < |batch|
        invariant 0 <= i <= |batch| && seen == Fresh(batch[..i], current)
        invariant Progress(done, running, lines, seen, all)
        invariant delayed == Late(seen)
        invariant Agrees(Tables(), done, lines) && Wrong(Tables(), done) == old(WrongRunes())
        invariant current == old(current) && lines == old(lines)
      {
        if |running| > PROMISE_LIMIT {
          AwaitFirst(running, all, done, lines);
          done := done + running;
          running := {};
        }
        var line := batch[i];
        FreshStep(batch, current, i);
        if line.height > current {
          ProgressStep(done, running, lines, seen, all, line);
          seen := seen + [line];
          if line.command.OutpointRemove? {
            FirstStep(Tables(), all, done, lines, line);
            RemoveWaits(Tables(), line);
            done := done + {line};
          } else {
            running := running + {line};
          }
          if IsLate(line) {
            delayed := delayed + [line];
          }
        }
        i := i + 1;
      }
      assert batch[..i] == batch;
      AwaitFirst(running, all, done, lines);
    }

    /** One batch: of the lines above the current height the inserts run as they
        are read and the updates after all of them. What was wrong stays wrong exactly
        for runes that still have no update above their etching block. */
    method IndexLines(batch: seq<Line>, maxHeight: int)
      requires Valid() && Unique(Fresh(batch, current)) && (SEED in lines ==> SEED !in batch)
      requires ChainOk(lines + LinesOf(Fresh(batch, current)))
      requires current <= maxHeight && forall l :: l in batch ==> l.height <= maxHeight
      modifies this
      ensures Valid() && current == maxHeight
      ensures lines == old(lines) + LinesOf(Fresh(batch, old(current)))
      ensures WrongRunes() == NotHealed(old(WrongRunes()), lines)
    {
      hide ChainOk, Agrees, LinesOf, Unique, Fresh, Late, Wrong, Unmoved, UpdatedLater;
      ghost var added, wrong := Fresh(batch, current), WrongRunes();
      ghost var all := lines + LinesOf(added);
      WrongIsUnmoved(Tables(), lines);
      FreshIsNew(batch, current, lines, maxHeight);
      var delayed := ReadLines(batch, all);
      WrongIsUnmoved(Tables(), all);
      LateLines(added);
      RunAllDelayed(delayed, all, lines, wrong);
      OnlyLateMatter(Tables(), lines, added);
      lines := all;
      current := maxHeight;
      RunesStay(old(Tables()), old(lines), Tables(), lines);
      WrongIsNotHealed(Tables(), lines, wrong);
    }

    /** The deletions of a rollback, and the spends it takes back. */
    method DeleteFrom(height: nat)
      modifies this
      ensures outpoints == Reverted(old(Tables()), height).outpoints
      ensures changes == Reverted(old(Tables()), height).changes
      ensures entries == KeptEntries(old(entries), height)
      ensures current == old(current) && lines == old(lines)
    {
      hide RestoreEntry, Unspend;
      outpoints := map o | o in outpoints && outpoints[o].height < height :: outpoints[o];
      outpoints := map o | o in outpoints :: Unspend(outpoints[o], height);
      entries := KeptEntries(entries, height);
      changes := map k | k in changes && k.1 < height :: changes[k];
    }

    /** Every entry updated at or above `height` goes back to its last change below. */
    method RestoreEntries(height: nat)
      modifies this
      ensures entries == Restored(changes, old(entries), height)
      ensures outpoints == old(outpoints) && changes == old(changes)
      ensures current == old(current) && lines == old(lines)
    {
      hide RestoreEntry;
      var todo := set r | r in entries && entries[r].updated >= height;
      RestoreNothing(changes, height);
      while todo != {}
        invariant todo <= entries.Keys == old(entries).Keys
        invariant forall r :: r in todo ==> entries[r] == old(entries)[r]
        invariant forall r :: r in entries && r !in todo ==>
                    entries[r] == RestoreEntry(changes, r, old(entries)[r], height)
        invariant outpoints == old(outpoints) && changes == old(changes)
        invariant current == old(current) && lines == old(lines)
      {
        var rune :| rune in todo;
        entries := entries[rune := RestoreEntry(changes, rune, entries[rune], height)];
        todo := todo - {rune};
      }
    }

    /** Rolls back to before `height`. */
    method HandleReorg(height: nat)
      requires Valid()
      modifies this
      ensures Valid() && Tables() == Reverted(old(Tables()), height)
      ensures lines == Below(old(lines), height)
      ensures current == if old(current) < height - 1 then old(current) else height - 1
      ensures WrongRunes() == old(WrongBelow(Tables(), lines, height)) + old(Lost(Tables(), lines, height))
      ensures old(Denotes(Tables(), lines)) ==>
                (Denotes(Tables(), lines) <==>
                 old(StartsAtZero(Tables(), lines, height)) && old(KeepsEtching(Tables(), lines, height)))
    {
      hide ChainOk, Agrees, Denotes, Reverted, Wrong, WrongBelow, Lost, StartsAtZero, KeepsEtching;
      DeleteFrom(height);
      RestoreEntries(height);
      RestoredIsReverted(old(Tables()), changes, height);
      if current > height - 1 {
        current := height - 1;
      }
      lines := Below(lines, height);
      RollbackAgrees(old(Tables()), old(lines), height);
      BelowIsChain(old(lines), height);
      if old(Denotes(Tables(), lines)) {
        RollbackIsShorterChain(old(Tables()), old(lines), height);
      }
    }

    /** What the asked scripts hold of each rune at the start of a block. The height of an empty block table is
        null, which counts as zero in a sum. */
    method BalanceOnBlock(asked: Asked, height: nat) returns (r: Result<map<Group, int>, QueryError>)
      requires Valid()
      ensures r.Err? <==> height > if current == -1 then 1 else current + 1
      ensures r.Ok? ==> IsBalanceList(r.value, RowsAt(Tables(), asked, height), entries.Keys)
      ensures forall past ::
                r.Ok? && OutpointsAgree(past, Below(lines, height), Below(lines, height)) ==>
                  IsBalanceList(r.value, RowsNow(past, asked), entries.Keys)
    {
      hide ChainOk, OutpointsAgree, RowsAt, RowsNow, IsAnswer, IsBalanceList;
      if height > if current == -1 then 1 else current + 1 {
        return Err(BlockNotIndexedYet);
      }
      forall past | OutpointsAgree(past, Below(lines, height), Below(lines, height))
        ensures RowsAt(Tables(), asked, height) == RowsNow(past, asked)
      {
        PastIsReplay(Tables(), past, lines, height, asked);
      }
      var selected := RowsAt(Store(outpoints, entries, changes), asked, height);
      var groups := SumGroups(selected, entries.Keys);
      AnswerIsBalanceList(groups, selected, entries.Keys);
      return Ok(groups);
    }
  }

  lemma WrongIsUnmoved(s: Store, lines: set<Line>)
    ensures Wrong(s, lines) * Unmoved(s) == Wrong(s, lines) <= s.entries.Keys
  {
  }

  /** With more lines there are more runes. */
  lemma RunesStay(s: Store, lines: set<Line>, t: Store, more: set<Line>)
    requires Agrees(s, lines, lines) && Agrees(t, more, more) && lines <= more
    ensures s.entries.Keys <= t.entries.Keys && EntriesAgree(t, more, more)
  {
    hide OutpointsAgree, ChangesAgree;
    forall r | r in s.entries
      ensures r in t.entries
    {
      assert Etched(lines, r, s.entries[r].genesis);
    }
  }

  ghost predicate Listed(rows: map<string, Held>, known: set<string>, g: Group) {
    exists o :: o in rows && InGroup(rows[o], known, g)
  }

  /** Each group of the rows is listed, and with its sum. */
  ghost predicate IsAnswer(groups: map<Group, int>, rows: map<string, Held>, known: set<string>) {
    && (forall g :: g in groups <==> Listed(rows, known, g))
    && (forall g :: g in groups ==> groups[g] == Sum(HeldIn(rows, known, g)))
  }

  /** Some row of the script lists the rune. */
  ghost predicate ListsRune(rows: map<string, Held>, script: string, rune: string) {
    exists o, i :: o in rows && rows[o].pkscript == script && 0 <= i < |rows[o].balances| &&
                   rows[o].balances[i].0 == rune
  }

  /** Some row of the script lists a rune without an entry. */
  ghost predicate ListsOthers(rows: map<string, Held>, known: set<string>, script: string) {
    exists o, i :: o in rows && rows[o].pkscript == script && 0 <= i < |rows[o].balances| &&
                   rows[o].balances[i].0 !in known
  }

  /** A line for each script and each rune with an entry that some row of the script lists, with what all rows
      of the script hold of it, and one line for all other runes. */
  ghost predicate IsBalanceList(groups: map<Group, int>, rows: map<string, Held>, known: set<string>) {
    && (forall g | g in groups && g.rune.Some? :: g.rune.value in known)
    && (forall script, rune | rune in known ::
          Group(script, Some(rune)) in groups <==> ListsRune(rows, script, rune))
    && (forall script, rune | rune in known && Group(script, Some(rune)) in groups ::
          groups[Group(script, Some(rune))] == Sum(OfRune(rows, script, rune)))
    && (forall script :: Group(script, None) in groups <==> ListsOthers(rows, known, script))
    && (forall script | Group(script, None) in groups ::
          groups[Group(script, None)] == Sum(OfOthers(rows, known, script)))
  }

  function OfRune(rows: map<string, Held>, script: string, rune: string): map<string, int> {
    map o | o in rows && rows[o].pkscript == script :: AmountOf(rows[o].balances, rune)
  }

  function OfOthers(rows: map<string, Held>, known: set<string>, script: string): map<string, int> {
    map o | o in rows && rows[o].pkscript == script :: AmountElsewhere(rows[o].balances, known)
  }

  lemma {:induction false} GroupOfRune(balances: seq<(string, nat)>, known: set<string>, rune: string)
    requires rune in known
    ensures GroupAmount(balances, known, Some(rune)) == AmountOf(balances, rune)
  {
    if balances != [] {
      GroupOfRune(balances[..|balances| - 1], known, rune);
    }
  }

  lemma {:induction false} GroupOfOthers(balances: seq<(string, nat)>, known: set<string>)
    ensures GroupAmount(balances, known, None) == AmountElsewhere(balances, known)
  {
    if balances != [] {
      GroupOfOthers(balances[..|balances| - 1], known);
    }
  }

  lemma {:induction false} GroupsOfRune(rows: map<string, Held>, known: set<string>, script: string, rune: string)
    requires rune in known
    ensures HeldIn(rows, known, Group(script, Some(rune))) == OfRune(rows, script, rune)
    ensures Listed(rows, known, Group(script, Some(rune))) <==> ListsRune(rows, script, rune)
  {
    hide GroupAmount, AmountOf;
    forall o | o in rows
      ensures GroupAmount(rows[o].balances, known, Some(rune)) == AmountOf(rows[o].balances, rune)
    {
      GroupOfRune(rows[o].balances, known, rune);
    }
  }

  lemma {:induction false} GroupsOfOthers(rows: map<string, Held>, known: set<string>, script: string)
    ensures HeldIn(rows, known, Group(script, None)) == OfOthers(rows, known, script)
    ensures Listed(rows, known, Group(script, None)) <==> ListsOthers(rows, known, script)
  {
    hide GroupAmount, AmountElsewhere;
    forall o | o in rows
      ensures GroupAmount(rows[o].balances, known, None) == AmountElsewhere(rows[o].balances, known)
    {
      GroupOfOthers(rows[o].balances, known);
    }
  }

  /** Grouping as the query does gives that list. */
  lemma {:induction false} AnswerIsBalanceList(groups: map<Group, int>, rows: map<string, Held>, known: set<string>)
    requires IsAnswer(groups, rows, known)
    ensures IsBalanceList(groups, rows, known)
  {
    hide HeldIn, OfRune, OfOthers, ListsRune, ListsOthers, InGroup;
    forall script, rune | rune in known
      ensures HeldIn(rows, known, Group(script, Some(rune))) == OfRune(rows, script, rune)
      ensures Listed(rows, known, Group(script, Some(rune))) <==> ListsRune(rows, script, rune)
    {
      GroupsOfRune(rows, known, script, rune);
    }
    forall script
      ensures HeldIn(rows, known, Group(script, None)) == OfOthers(rows, known, script)
      ensures Listed(rows, known, Group(script, None)) <==> ListsOthers(rows, known, script)
    {
      GroupsOfOthers(rows, known, script);
    }
    forall g | g in groups && g.rune.Some?
      ensures g.rune.value in known
    {
      OnlyKnownRunes(rows, known, g);
    }
  }

  lemma OnlyKnownRunes(rows: map<string, Held>, known: set<string>, g: Group)
    requires Listed(rows, known, g) && g.rune.Some?
    ensures g.rune.value in known
  {
  }

  ghost function TotalOf(groups: map<Group, int>, g: Group): int {
    if g in groups then groups[g] else 0
  }

  /** The balances of one row, added to the groups so far. */
  method AddRow(groups: map<Group, int>, row: Held, known: set<string>) returns (more: map<Group, int>)
    ensures forall g :: g in more <==> g in groups || InGroup(row, known, g)
    ensures forall g :: TotalOf(more, g) == TotalOf(groups, g) +
                          if row.pkscript == g.pkscript then GroupAmount(row.balances, known, g.rune) else 0
  {
    hide InGroup, GroupAmount, Named;
    more := groups;
    var i := 0;
    NoBalances(row, known);
    while i < |row.balances|
      invariant 0 <= i <= |row.balances|
      invariant forall g :: g in more <==> g in groups || InGroup(Held(row.pkscript, row.balances[..i]), known, g)
      invariant forall g :: TotalOf(more, g) == TotalOf(groups, g) +
                  if row.pkscript == g.pkscript then GroupAmount(row.balances[..i], known, g.rune) else 0
    {
      var (rune, amount) := row.balances[i];
      var group := Group(row.pkscript, Named(known, rune));
      OneMoreBalance(row, known, i);
      more := more[group := (if group in more then more[group] else 0) + amount];
      i := i + 1;
    }
    assert row.balances[..i] == row.balances;
  }

  lemma NoBalances(row: Held, known: set<string>)
    ensures forall g :: !InGroup(Held(row.pkscript, row.balances[..0]), known, g)
    ensures forall rune :: GroupAmount(row.balances[..0], known, rune) == 0
  {
  }

  lemma OneMoreBalance(row: Held, known: set<string>, i: nat)
    requires i < |row.balances|
    ensures forall g :: InGroup(Held(row.pkscript, row.balances[..i + 1]), known, g) <==>
              || InGroup(Held(row.pkscript, row.balances[..i]), known, g)
              || g == Group(row.pkscript, Named(known, row.balances[i].0))
    ensures forall rune :: GroupAmount(row.balances[..i + 1], known, rune) ==
              GroupAmount(row.balances[..i], known, rune) +
              if Named(known, row.balances[i].0) == rune then row.balances[i].1 else 0
  {
    var before, after := row.balances[..i], row.balances[..i + 1];
    assert after == before + [row.balances[i]];
    assert after[..i] == before;
    forall g
      ensures InGroup(Held(row.pkscript, after), known, g) <==>
              || InGroup(Held(row.pkscript, before), known, g)
              || g == Group(row.pkscript, Named(known, row.balances[i].0))
    {
      OneMoreInGroup(row.pkscript, before, row.balances[i], known, g);
    }
  }

  lemma OneMoreInGroup(pkscript: string, before: seq<(string, nat)>, last: (string, nat), known: set<string>, g: Group)
    ensures InGroup(Held(pkscript, before + [last]), known, g) <==>
            InGroup(Held(pkscript, before), known, g) || g == Group(pkscript, Named(known, last.0))
  {
    hide Named;
    var after := before + [last];
    assert after[|before|] == last;
    if InGroup(Held(pkscript, before), known, g) {
      var i :| 0 <= i < |before| && Named(known, before[i].0) == g.rune;
      assert after[i] == before[i];
    }
  }

  method SumGroups(rows: map<string, Held>, known: set<string>) returns (groups: map<Group, int>)
    ensures IsAnswer(groups, rows, known)
  {
    hide InGroup, HeldIn, Listed;
    groups := map[];
    var todo := rows.Keys;
    ghost var done: map<string, Held> := map[];
    NoRows(known);
    while todo != {}
      invariant todo <= rows.Keys && done == map o | o in rows && o !in todo :: rows[o]
      invariant forall g :: g in groups <==> Listed(done, known, g)
      invariant forall g :: TotalOf(groups, g) == Sum(HeldIn(done, known, g))
    {
      var o :| o in todo;
      groups := AddRow(groups, rows[o], known);
      OneMoreRow(done, o, rows[o], known);
      done := done[o := rows[o]];
      todo := todo - {o};
    }
    assert done == rows;
  }

  lemma NoRows(known: set<string>)
    ensures forall g :: Sum(HeldIn(map[], known, g)) == 0 && !Listed(map[], known, g)
  {
    forall g ensures HeldIn(map[], known, g) == map[] {
    }
  }

  lemma OneMoreRow(done: map<string, Held>, o: string, row: Held, known: set<string>)
    requires o !in done
    ensures forall g :: Listed(done[o := row], known, g) <==> Listed(done, known, g) || InGroup(row, known, g)
    ensures forall g :: Sum(HeldIn(done[o := row], known, g)) == Sum(HeldIn(done, known, g)) +
              if row.pkscript == g.pkscript then GroupAmount(row.balances, known, g.rune) else 0
  {
    forall g
      ensures Listed(done[o := row], known, g) <==> Listed(done, known, g) || InGroup(row, known, g)
    {
      assert done[o := row][o] == row;
      assert forall p :: p in done ==> p in done[o := row] && done[o := row][p] == done[p];
    }
    forall g
      ensures Sum(HeldIn(done[o := row], known, g)) == Sum(HeldIn(done, known, g)) +
                if row.pkscript == g.pkscript then GroupAmount(row.balances, known, g.rune) else 0
    {
      var held := HeldIn(done, known, g);
      if row.pkscript == g.pkscript {
        assert HeldIn(done[o := row], known, g) == held[o := GroupAmount(row.balances, known, g.rune)];
        SumUpdate(held, o, GroupAmount(row.balances, known, g.rune));
      } else {
        assert HeldIn(done[o := row], known, g) == held;
      }
    }
  }
}
