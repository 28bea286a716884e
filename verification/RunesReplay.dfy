/** Queries of a batch may run in any order, a rollback is a shorter replay, and
    the past can be read off the present tables. */
module RunesReplay {
  import opened Wrappers
  import opened RunesSpec

  /** A row for the output of an insert line is the row that line made. */
  lemma InsertedAlready(s: Store, all: set<Line>, done: set<Line>, late: set<Line>, line: Line)
    requires ChainOk(all) && done <= all && line in all && OutpointsAgree(s, done, late)
    requires line.command.OutpointInsert? && line.command.outpoint in s.outpoints
    ensures line in done
  {
    hide Sourced;
    var row := s.outpoints[line.command.outpoint];
    assert Clash(Line(row.height, OutpointInsert(line.command.outpoint, row.pkscript, row.balances)), line);
  }

  lemma FirstOutpoint(s: Store, all: set<Line>, done: set<Line>, late: set<Line>, line: Line)
    requires ChainOk(all) && done <= all && late <= all && line in all - done
    requires OutpointsAgree(s, done, late)
    ensures OutpointsAgree(FirstQuery(s, line), done + {line}, late)
  {
    if line.command.OutpointInsert? && line.command.outpoint in s.outpoints {
      hide ChainOk, OutpointsAgree;
      InsertedAlready(s, all, done, late, line);
    }
  }

  lemma FirstChange(s: Store, all: set<Line>, done: set<Line>, late: set<Line>, line: Line)
    requires ChainOk(all) && done <= all && line in all - done
    requires ChangesAgree(s, done)
    ensures ChangesAgree(FirstQuery(s, line), done + {line})
  {
    hide Sourced;
  }

  lemma EtchedAlready(s: Store, all: set<Line>, done: set<Line>, late: set<Line>, line: Line)
    requires ChainOk(all) && done <= all && line in all && EntriesAgree(s, done, late)
    requires line.command.EntryInsert? && line.command.rune in s.entries
    ensures line in done && line.height == s.entries[line.command.rune].genesis
  {
    hide Sourced;
    var l :| l in done && l.command.EntryInsert? && l.command.rune == line.command.rune &&
             l.height == s.entries[line.command.rune].genesis;
    assert Clash(l, line);
  }

  lemma {:induction false} FirstEntry(s: Store, all: set<Line>, done: set<Line>, late: set<Line>, line: Line)
    requires ChainOk(all) && done <= all && late <= all && line in all - done
    requires EntriesAgree(s, done, late)
    ensures EntriesAgree(FirstQuery(s, line), done + {line}, late)
  {
    hide Sourced, ChainOk, Etched;
    if line.command.EntryInsert? && line.command.rune in s.entries {
      hide EntriesAgree;
      EtchedAlready(s, all, done, late, line);
    }
    EtchedGrows(done, line);
  }

  lemma EtchedGrows(done: set<Line>, line: Line)
    ensures forall r, h :: Etched(done, r, h) ==> Etched(done + {line}, r, h)
    ensures line.command.EntryInsert? ==> Etched(done + {line}, line.command.rune, line.height)
  {
  }

  lemma {:induction false} FirstWrong(s: Store, all: set<Line>, done: set<Line>, late: set<Line>, line: Line)
    requires ChainOk(all) && done <= all && line in all - done
    requires EntriesAgree(s, done, late)
    ensures Wrong(FirstQuery(s, line), done + {line}) == Wrong(s, done)
  {
    hide ChainOk, EntriesAgree;
    if line.command.EntryInsert? && line.command.rune in s.entries {
      EtchedAlready(s, all, done, late, line);
    }
    forall r | r in s.entries
      ensures Misshown(s.entries[r], r, done + {line}) <==> Misshown(s.entries[r], r, done)
    {
    }
  }

  /** Inserts may run in any order: each one extends what the tables stand for, and makes no entry wrong or
      right. */
  lemma {:induction false} FirstStep(s: Store, all: set<Line>, done: set<Line>, late: set<Line>, line: Line)
    requires ChainOk(all) && done <= all && late <= all && line in all - done
    requires Agrees(s, done, late)
    ensures Agrees(FirstQuery(s, line), done + {line}, late)
    ensures Wrong(FirstQuery(s, line), done + {line}) == Wrong(s, done)
  {
    hide ChangesAgree, OutpointsAgree, EntriesAgree, ChainOk, FirstQuery, Wrong;
    FirstOutpoint(s, all, done, late, line);
    FirstChange(s, all, done, late, line);
    FirstEntry(s, all, done, late, line);
    FirstWrong(s, all, done, late, line);
  }

  lemma DelayedOutpoint(s: Store, all: set<Line>, late: set<Line>, line: Line)
    requires ChainOk(all) && late <= all && line in all - late
    requires OutpointsAgree(s, all, late)
    ensures OutpointsAgree(DelayedQuery(s, line), all, late + {line})
  {
    if line.command.OutpointRemove? {
      assert Sourced(all, line);
      var row := s.outpoints[line.command.outpoint];
      if row.spent {
        assert Clash(Line(row.spentHeight.value, OutpointRemove(line.command.outpoint)), line);
      }
    }
  }

  lemma UpdatedFromGenesis(s: Store, all: set<Line>, late: set<Line>, line: Line)
    requires ChainOk(all) && line in all && line.command.EntryUpdate?
    requires EntriesAgree(s, all, late)
    ensures line.command.rune in s.entries && s.entries[line.command.rune].genesis <= line.height
  {
    assert Sourced(all, line);
    var l :| l in all && l.command.EntryInsert? && l.command.rune == line.command.rune && l.height <= line.height;
    EtchedAlready(s, all, all, late, l);
  }

  lemma {:induction false} DelayedEntry(s: Store, all: set<Line>, late: set<Line>, line: Line)
    requires ChainOk(all) && late <= all && line in all - late
    requires EntriesAgree(s, all, late)
    ensures EntriesAgree(DelayedQuery(s, line), all, late + {line})
  {
    hide ChainOk, Sourced, Etched;
    if line.command.EntryUpdate? {
      UpdatedFromGenesis(s, all, late, line);
    }
  }

  /** The runes that show their etching. */
  function Unmoved(s: Store): set<string> {
    set r | r in s.entries && s.entries[r].updated == s.entries[r].genesis
  }

  lemma {:induction false} DelayedWrong(s: Store, all: set<Line>, late: set<Line>, line: Line, wrong: set<string>)
    requires ChainOk(all) && line in all && EntriesAgree(s, all, late)
    requires Wrong(s, all) == wrong * Unmoved(s)
    ensures Wrong(DelayedQuery(s, line), all) == wrong * Unmoved(DelayedQuery(s, line))
  {
    hide ChainOk, Etched;
    var t := DelayedQuery(s, line);
    forall r | r in t.entries
      ensures r in Wrong(t, all) <==> r in wrong * Unmoved(t)
    {
      assert t.entries[r] == s.entries[r] || r !in Unmoved(t);
      assert r in Wrong(s, all) <==> r in wrong * Unmoved(s);
    }
  }

  /** So may the guarded updates and the spend marks, once the inserts are in: a wrong entry becomes right
      when an update above its etching block runs, and no other way. */
  lemma {:induction false} DelayedStep(s: Store, all: set<Line>, late: set<Line>, line: Line, wrong: set<string>)
    requires ChainOk(all) && late <= all && line in all - late
    requires Agrees(s, all, late) && Wrong(s, all) == wrong * Unmoved(s)
    ensures Agrees(DelayedQuery(s, line), all, late + {line})
    ensures Wrong(DelayedQuery(s, line), all) == wrong * Unmoved(DelayedQuery(s, line))
  {
    hide OutpointsAgree, EntriesAgree, ChainOk, Wrong, Unmoved;
    DelayedOutpoint(s, all, late, line);
    DelayedEntry(s, all, late, line);
    DelayedWrong(s, all, late, line, wrong);
  }

  /** The lines determine the tables. */
  lemma {:induction false} DenotesOnce(a: Store, b: Store, lines: set<Line>)
    requires ChainOk(lines) && Denotes(a, lines) && Denotes(b, lines)
    ensures a == b
  {
    SameOutpoints(a, b, lines);
    SameChanges(a, b, lines);
    SameEntries(a, b, lines);
  }

  lemma SameOutpoints(a: Store, b: Store, lines: set<Line>)
    requires ChainOk(lines) && OutpointsAgree(a, lines, lines) && OutpointsAgree(b, lines, lines)
    ensures a.outpoints == b.outpoints
  {
    hide Sourced;
    forall o | o in a.outpoints ensures o in b.outpoints && a.outpoints[o] == b.outpoints[o] {
      var p, q := a.outpoints[o], b.outpoints[o];
      assert Clash(Line(p.height, OutpointInsert(o, p.pkscript, p.balances)),
                   Line(q.height, OutpointInsert(o, q.pkscript, q.balances)));
      if p.spent && q.spent {
        assert Clash(Line(p.spentHeight.value, OutpointRemove(o)), Line(q.spentHeight.value, OutpointRemove(o)));
      }
    }
  }

  lemma {:induction false} SameChanges(a: Store, b: Store, lines: set<Line>)
    requires ChainOk(lines) && ChangesAgree(a, lines) && ChangesAgree(b, lines)
    ensures a.changes == b.changes
  {
    hide Sourced;
    forall k | k in a.changes ensures k in b.changes && a.changes[k] == b.changes[k] {
      assert Clash(Line(k.1, EntryUpdate(k.0, a.changes[k].burned, a.changes[k].mints)),
                   Line(k.1, EntryUpdate(k.0, b.changes[k].burned, b.changes[k].mints)));
    }
  }

  lemma {:induction false} SameEntries(a: Store, b: Store, lines: set<Line>)
    requires ChainOk(lines) && EntriesAgree(a, lines, lines) && EntriesAgree(b, lines, lines)
    requires Wrong(a, lines) == Wrong(b, lines) == {}
    ensures a.entries == b.entries
  {
    hide Sourced;
    forall r | r in a.entries ensures r in b.entries && a.entries[r] == b.entries[r] {
      assert r !in Wrong(a, lines) && r !in Wrong(b, lines);
      SameEntry(a, b, lines, r);
    }
  }

  lemma {:induction false} SameEntry(a: Store, b: Store, lines: set<Line>, rune: string)
    requires ChainOk(lines) && EntriesAgree(a, lines, lines) && EntriesAgree(b, lines, lines)
    requires rune in a.entries && !Misshown(a.entries[rune], rune, lines)
    requires rune in b.entries && !Misshown(b.entries[rune], rune, lines)
    ensures a.entries[rune] == b.entries[rune]
  {
    hide Sourced, Etched;
    var e, f := a.entries[rune], b.entries[rune];
    SameGenesis(a, b, lines, rune);
    if e.updated > e.genesis {
      LaterThan(b, lines, Line(e.updated, EntryUpdate(rune, e.burned, e.mints)));
    }
    if f.updated > f.genesis {
      LaterThan(a, lines, Line(f.updated, EntryUpdate(rune, f.burned, f.mints)));
    }
    SameValues(lines, Line(e.updated, EntryUpdate(rune, e.burned, e.mints)),
               Line(f.updated, EntryUpdate(rune, f.burned, f.mints)));
    SameValues(lines, Line(e.genesis, EntryInsert(rune, e.burned, e.mints)),
               Line(f.genesis, EntryInsert(rune, f.burned, f.mints)));
  }

  lemma SameValues(lines: set<Line>, a: Line, b: Line)
    requires ChainOk(lines)
    ensures a in lines && b in lines && Clash(a, b) ==> a == b
  {
  }

  lemma LaterThan(s: Store, lines: set<Line>, line: Line)
    requires EntriesAgree(s, lines, lines) && line in lines && line.command.EntryUpdate?
    ensures line.command.rune in s.entries && line.height <= s.entries[line.command.rune].updated
  {
  }

  lemma {:induction false} SameGenesis(a: Store, b: Store, lines: set<Line>, rune: string)
    requires ChainOk(lines) && EntriesAgree(a, lines, lines) && EntriesAgree(b, lines, lines)
    requires rune in a.entries && rune in b.entries
    ensures a.entries[rune].genesis == b.entries[rune].genesis
  {
    assert Etched(lines, rune, a.entries[rune].genesis);
    var l :| l in lines && l.command.EntryInsert? && l.command.rune == rune && l.height == a.entries[rune].genesis;
    EtchedAlready(b, lines, lines, lines, l);
  }

  ghost function LinesOf(lines: seq<Line>): set<Line> {
    set l | l in lines
  }

  /** A chain of lines in order: each line comes after what it refers to. */
  ghost predicate InOrder(lines: seq<Line>) {
    lines == [] ||
    var before, last := lines[..|lines| - 1], lines[|lines| - 1];
    && InOrder(before)
    && last !in before
    && (forall l :: l in before ==> l.height <= last.height)
    && ChainOk(LinesOf(lines))
  }

  lemma {:induction false} FirstUnmoved(s: Store, all: set<Line>, done: set<Line>, line: Line, wrong: set<string>)
    requires ChainOk(all) && done <= all && line in all - done && EntriesAgree(s, done, done)
    requires wrong <= s.entries.Keys
    ensures wrong * Unmoved(FirstQuery(s, line)) == wrong * Unmoved(s)
    ensures s.entries.Keys <= DelayedQuery(FirstQuery(s, line), line).entries.Keys
  {
    hide ChainOk, EntriesAgree;
    if line.command.EntryInsert? && line.command.rune in s.entries {
      EtchedAlready(s, all, done, done, line);
    }
  }

  /** Running further lines of a chain, one by one, from tables that may show wrong etchings: each of them
      stays until an update above the etching block runs. */
  lemma {:induction false} RunFromAgrees(s: Store, prefix: seq<Line>, more: seq<Line>)
    requires InOrder(prefix + more) && Agrees(s, LinesOf(prefix), LinesOf(prefix))
    ensures var t, lines := RunFrom(s, more), LinesOf(prefix + more);
            && Agrees(t, lines, lines)
            && s.entries.Keys <= t.entries.Keys
            && Wrong(t, lines) == Wrong(s, LinesOf(prefix)) * Unmoved(t)
  {
    hide ChainOk, OutpointsAgree, ChangesAgree, EntriesAgree, FirstQuery, DelayedQuery;
    var wrong := Wrong(s, LinesOf(prefix));
    if more == [] {
      assert prefix + more == prefix;
    } else {
      var n := |more| - 1;
      var before, last := prefix + more[..n], more[n];
      assert prefix + more == before + [last] && (prefix + more)[..|before|] == before;
      RunFromAgrees(s, prefix, more[..n]);
      var t, done, all := RunFrom(s, more[..n]), LinesOf(before), LinesOf(prefix + more);
      assert all == done + {last};
      FirstStep(t, all, done, done, last);
      FirstUnmoved(t, all, done, last, wrong);
      DelayedStep(FirstQuery(t, last), all, done, last, wrong);
    }
  }

  /** Running a chain line by line gives the tables its lines stand for. */
  lemma {:induction false} RunDenotes(lines: seq<Line>)
    requires InOrder(lines)
    ensures Denotes(Run(lines), LinesOf(lines))
  {
    hide ChainOk, OutpointsAgree, ChangesAgree, EntriesAgree, RunFrom;
    EmptyDenotes();
    assert [] + lines == lines;
    RunFromAgrees(EMPTY, [], lines);
  }

  lemma EmptyDenotes()
    ensures Denotes(EMPTY, LinesOf([])) && LinesOf([]) == {} && ChainOk({})
  {
  }

  /** So however the queries of the batches interleaved, the tables are those of
      running the lines one after the other. */
  lemma {:induction false} AnyOrderIsRun(s: Store, lines: seq<Line>)
    requires InOrder(lines) && Denotes(s, LinesOf(lines))
    ensures s == Run(lines)
  {
    hide Run, Denotes;
    RunDenotes(lines);
    InOrderIsChain(lines);
    DenotesOnce(s, Run(lines), LinesOf(lines));
  }

  // What the guard costs.

  ghost predicate HasUpdate(lines: set<Line>, rune: string) {
    exists l :: l in lines && l.command.EntryUpdate? && l.command.rune == rune
  }

  /** Without the guard an entry shows its latest update, or its etching when there is
      none at all. */
  ghost predicate ShowsLatest(e: Entry, rune: string, lines: set<Line>) {
    && Etched(lines, rune, e.genesis) && e.genesis <= e.updated
    && (forall l :: l in lines && l.command.EntryUpdate? && l.command.rune == rune ==> l.height <= e.updated)
    && if HasUpdate(lines, rune) then Line(e.updated, EntryUpdate(rune, e.burned, e.mints)) in lines
       else e.updated == e.genesis && Line(e.genesis, EntryInsert(rune, e.burned, e.mints)) in lines
  }

  ghost predicate AllShowLatest(s: Store, lines: set<Line>) {
    && (forall r :: r in s.entries ==> ShowsLatest(s.entries[r], r, lines))
    && (forall l :: l in lines && l.command.EntryInsert? ==> l.command.rune in s.entries)
  }

  /** The reference differs from the program in its entries only. */
  lemma {:induction false} ReplayOtherTables(lines: seq<Line>)
    ensures Replay(lines).outpoints == Run(lines).outpoints && Replay(lines).changes == Run(lines).changes
  {
    hide ApplyLine, RunLine;
    if lines != [] {
      ReplayOtherTables(lines[..|lines| - 1]);
      SameOtherTables(Replay(lines[..|lines| - 1]), Run(lines[..|lines| - 1]), lines[|lines| - 1]);
    }
  }

  lemma SameOtherTables(s: Store, t: Store, line: Line)
    requires s.outpoints == t.outpoints && s.changes == t.changes
    ensures ApplyLine(s, line).outpoints == RunLine(t, line).outpoints
    ensures ApplyLine(s, line).changes == RunLine(t, line).changes
  {
    match line.command
    case OutpointInsert(_, _, _) =>
    case OutpointRemove(_) =>
    case EntryInsert(_, _, _) =>
    case EntryUpdate(_, _, _) =>
  }

  lemma ShowsStays(e: Entry, rune: string, before: set<Line>, last: Line)
    requires ShowsLatest(e, rune, before)
    requires !(last.command.EntryUpdate? && last.command.rune == rune)
    ensures ShowsLatest(e, rune, before + {last})
  {
    EtchedGrows(before, last);
  }

  /** A rune has no update before its etching. */
  lemma NoEarlierUpdate(before: set<Line>, last: Line)
    requires ChainOk(before) && ChainOk(before + {last}) && last !in before && last.command.EntryInsert?
    ensures !HasUpdate(before, last.command.rune) && !HasUpdate(before + {last}, last.command.rune)
  {
    forall l | l in before && l.command.EntryUpdate?
      ensures l.command.rune != last.command.rune
    {
      assert Sourced(before, l);
      var k :| k in before && k.command.EntryInsert? && k.command.rune == l.command.rune && k.height <= l.height;
      assert Clash(k, last) ==> k == last;
    }
  }

  lemma {:induction false} InsertShows(s: Store, before: set<Line>, last: Line)
    requires ChainOk(before) && ChainOk(before + {last}) && last !in before && last.command.EntryInsert?
    requires AllShowLatest(s, before)
    ensures AllShowLatest(ApplyLine(s, last), before + {last})
  {
    hide ChainOk, ShowsLatest, HasUpdate, Etched;
    NoEarlierUpdate(before, last);
    EtchedGrows(before, last);
    NewShows(before + {last}, last);
    forall r | r in s.entries
      ensures ShowsLatest(s.entries[r], r, before + {last})
    {
      ShowsStays(s.entries[r], r, before, last);
    }
  }

  lemma NewShows(all: set<Line>, last: Line)
    requires last in all && last.command.EntryInsert? && !HasUpdate(all, last.command.rune)
    ensures ShowsLatest(Entry(last.height, last.command.burned, last.command.mints, last.height),
                        last.command.rune, all)
  {
    assert Etched(all, last.command.rune, last.height);
  }

  lemma {:induction false} UpdateShows(s: Store, before: set<Line>, last: Line)
    requires ChainOk(before + {last}) && last.command.EntryUpdate?
    requires AllShowLatest(s, before) && forall l :: l in before ==> l.height <= last.height
    ensures AllShowLatest(ApplyLine(s, last), before + {last})
  {
    hide ChainOk, ShowsLatest, HasUpdate, Etched;
    var rune := last.command.rune;
    EtchedBefore(before, last);
    LatestShows(s.entries[rune], before, last);
    forall r | r in s.entries && r != rune
      ensures ShowsLatest(s.entries[r], r, before + {last})
    {
      ShowsStays(s.entries[r], r, before, last);
    }
  }

  lemma EtchedBefore(before: set<Line>, last: Line)
    requires ChainOk(before + {last}) && last.command.EntryUpdate?
    ensures exists l :: l in before && l.command.EntryInsert? && l.command.rune == last.command.rune
  {
    assert Sourced(before + {last}, last);
  }

  lemma LatestShows(e: Entry, before: set<Line>, last: Line)
    requires last.command.EntryUpdate? && ShowsLatest(e, last.command.rune, before)
    requires forall l :: l in before ==> l.height <= last.height
    ensures ShowsLatest(e.(burned := last.command.burned, mints := last.command.mints, updated := last.height),
                        last.command.rune, before + {last})
  {
    EtchedGrows(before, last);
    assert last in before + {last};
  }

  lemma {:induction false} OtherShows(s: Store, before: set<Line>, last: Line)
    requires !last.command.EntryUpdate? && !last.command.EntryInsert?
    requires AllShowLatest(s, before)
    ensures AllShowLatest(ApplyLine(s, last), before + {last})
  {
    hide ShowsLatest;
    forall r | r in s.entries
      ensures ShowsLatest(s.entries[r], r, before + {last})
    {
      ShowsStays(s.entries[r], r, before, last);
    }
  }

  lemma {:induction false} ReplayShowsLatest(lines: seq<Line>)
    requires InOrder(lines)
    ensures AllShowLatest(Replay(lines), LinesOf(lines))
  {
    hide ChainOk, AllShowLatest, ApplyLine;
    if lines == [] {
      NothingShows();
    } else {
      var before, last := lines[..|lines| - 1], lines[|lines| - 1];
      ReplayShowsLatest(before);
      InOrderIsChain(before);
      assert LinesOf(lines) == LinesOf(before) + {last};
      if last.command.EntryInsert? {
        InsertShows(Replay(before), LinesOf(before), last);
      } else if last.command.EntryUpdate? {
        UpdateShows(Replay(before), LinesOf(before), last);
      } else {
        OtherShows(Replay(before), LinesOf(before), last);
      }
    }
  }

  lemma NothingShows()
    ensures AllShowLatest(EMPTY, LinesOf([]))
  {
  }

  /** A later update of the same rune. */
  ghost predicate Overtaken(lines: set<Line>, update: Line)
    requires update.command.EntryUpdate?
  {
    exists l ::
      l in lines && l.command.EntryUpdate? && l.command.rune == update.command.rune && l.height > update.height
  }

  lemma LatestIsNotOvertaken(f: Entry, rune: string, lines: set<Line>)
    requires ShowsLatest(f, rune, lines)
    ensures !Overtaken(lines, Line(f.updated, EntryUpdate(rune, f.burned, f.mints)))
  {
  }

  /** Every update of an etching block is overtaken, or repeats what was etched. */
  ghost predicate GuardIsHarmless(lines: set<Line>) {
    forall u :: u in lines && u.command.EntryUpdate? && Etched(lines, u.command.rune, u.height) ==>
      || Overtaken(lines, u)
      || Line(u.height, EntryInsert(u.command.rune, u.command.burned, u.command.mints)) in lines
  }

  /** Two etchings of a rune in a chain are one. */
  lemma OneEtching(lines: set<Line>, rune: string, g: nat, h: nat)
    requires ChainOk(lines) && Etched(lines, rune, g) && Etched(lines, rune, h)
    ensures g == h
  {
    hide Sourced;
    var k :| k in lines && k.command.EntryInsert? && k.command.rune == rune && k.height == g;
    var l :| l in lines && l.command.EntryInsert? && l.command.rune == rune && l.height == h;
    SameValues(lines, k, l);
  }

  /** With the guard an entry differs from the reference exactly when its latest update
      is one of the etching block that changes it. */
  lemma {:induction false} EntryWithAndWithoutGuard(s: Store, f: Entry, rune: string, lines: set<Line>)
    requires ChainOk(lines) && EntriesAgree(s, lines, lines) && rune in s.entries && rune !in Wrong(s, lines)
    requires ShowsLatest(f, rune, lines)
    ensures s.entries[rune] == f <==>
            || f.updated > f.genesis || !HasUpdate(lines, rune)
            || Line(f.genesis, EntryInsert(rune, f.burned, f.mints)) in lines
  {
    hide Sourced, Etched;
    var e := s.entries[rune];
    OneEtching(lines, rune, e.genesis, f.genesis);
    if HasUpdate(lines, rune) {
      LaterThan(s, lines, Line(f.updated, EntryUpdate(rune, f.burned, f.mints)));
    }
    SameValues(lines, Line(e.updated, EntryUpdate(rune, e.burned, e.mints)),
               Line(f.updated, EntryUpdate(rune, f.burned, f.mints)));
    SameValues(lines, Line(e.genesis, EntryInsert(rune, e.burned, e.mints)),
               Line(f.genesis, EntryInsert(rune, f.burned, f.mints)));
  }

  /** For every chain, the guarded queries give the tables of the unguarded reference if
      and only if each update of an etching block is overtaken or repeats the etching. */
  lemma {:induction false} GuardCost(lines: seq<Line>)
    requires InOrder(lines)
    ensures Run(lines) == Replay(lines) <==> GuardIsHarmless(LinesOf(lines))
  {
    hide ChainOk, ShowsLatest, InOrder, Run, Replay, HasUpdate, Etched, EntriesAgree, GuardIsHarmless;
    InOrderIsChain(lines);
    RunDenotes(lines);
    ReplayShowsLatest(lines);
    ReplayOtherTables(lines);
    SameRunes(Run(lines), Replay(lines), LinesOf(lines));
    if GuardIsHarmless(LinesOf(lines)) {
      HarmlessIsSame(Run(lines), Replay(lines), LinesOf(lines));
    }
    if Run(lines) == Replay(lines) {
      SameIsHarmless(Run(lines), LinesOf(lines));
    }
  }

  lemma SameRunes(s: Store, t: Store, lines: set<Line>)
    requires EntriesAgree(s, lines, lines) && AllShowLatest(t, lines)
    ensures s.entries.Keys == t.entries.Keys
  {
    forall r | r in s.entries
      ensures r in t.entries
    {
      assert Etched(lines, r, s.entries[r].genesis);
    }
    forall r | r in t.entries
      ensures r in s.entries
    {
      assert ShowsLatest(t.entries[r], r, lines);
    }
  }

  lemma {:induction false} HarmlessIsSame(s: Store, t: Store, lines: set<Line>)
    requires ChainOk(lines) && EntriesAgree(s, lines, lines) && Wrong(s, lines) == {} && AllShowLatest(t, lines)
    requires s.entries.Keys == t.entries.Keys && GuardIsHarmless(lines)
    ensures s.entries == t.entries
  {
    hide ChainOk, EntriesAgree, Etched;
    forall r | r in s.entries
      ensures s.entries[r] == t.entries[r]
    {
      var f := t.entries[r];
      assert ShowsLatest(f, r, lines);
      EntryWithAndWithoutGuard(s, f, r, lines);
      LatestIsNotOvertaken(f, r, lines);
    }
  }

  lemma {:induction false} SameIsHarmless(s: Store, lines: set<Line>)
    requires ChainOk(lines) && EntriesAgree(s, lines, lines) && Wrong(s, lines) == {} && AllShowLatest(s, lines)
    ensures GuardIsHarmless(lines)
  {
    hide ChainOk, EntriesAgree, Etched;
    forall u | u in lines && u.command.EntryUpdate? && Etched(lines, u.command.rune, u.height) && !Overtaken(lines, u)
      ensures Line(u.height, EntryInsert(u.command.rune, u.command.burned, u.command.mints)) in lines
    {
      LaterThan(s, lines, u);
      var f := s.entries[u.command.rune];
      assert ShowsLatest(f, u.command.rune, lines) && HasUpdate(lines, u.command.rune);
      EntryWithAndWithoutGuard(s, f, u.command.rune, lines);
      OneEtching(lines, u.command.rune, u.height, f.genesis);
      SameValues(lines, u, Line(f.updated, EntryUpdate(u.command.rune, f.burned, f.mints)));
    }
  }

  // Rolling back.

  lemma BelowIsChain(lines: set<Line>, height: nat)
    requires ChainOk(lines)
    ensures ChainOk(Below(lines, height))
  {
    forall line | line in Below(lines, height) ensures Sourced(Below(lines, height), line) {
      assert Sourced(lines, line);
    }
  }

  lemma RevertedOutpoints(s: Store, lines: set<Line>, height: nat)
    requires ChainOk(lines) && OutpointsAgree(s, lines, lines)
    ensures OutpointsAgree(Reverted(s, height), Below(lines, height), Below(lines, height))
  {
    var t, kept := Reverted(s, height), Below(lines, height);
    forall l | l in kept && l.command.OutpointRemove?
      ensures l.command.outpoint in t.outpoints && t.outpoints[l.command.outpoint].spent
    {
      SpentBy(s, lines, l);
    }
    forall l | l in kept && l.command.OutpointInsert? ensures l.command.outpoint in t.outpoints {
      InsertedAt(s, lines, l);
    }
  }

  lemma SpentBy(s: Store, lines: set<Line>, line: Line)
    requires ChainOk(lines) && OutpointsAgree(s, lines, lines) && line in lines && line.command.OutpointRemove?
    ensures line.command.outpoint in s.outpoints
    ensures s.outpoints[line.command.outpoint].spentHeight == Some(line.height)
    ensures s.outpoints[line.command.outpoint].height <= line.height
  {
    var o := line.command.outpoint;
    var row := s.outpoints[o];
    SameValues(lines, Line(row.spentHeight.value, OutpointRemove(o)), line);
    assert Sourced(lines, line);
    var l :| l in lines && l.command.OutpointInsert? && l.command.outpoint == o && l.height <= line.height;
    InsertedAt(s, lines, l);
  }

  lemma InsertedAt(s: Store, lines: set<Line>, line: Line)
    requires ChainOk(lines) && OutpointsAgree(s, lines, lines) && line in lines && line.command.OutpointInsert?
    ensures line.command.outpoint in s.outpoints
    ensures s.outpoints[line.command.outpoint].height == line.height
  {
    hide Sourced;
    var o := line.command.outpoint;
    var row := s.outpoints[o];
    SameValues(lines, Line(row.height, OutpointInsert(o, row.pkscript, row.balances)), line);
  }

  lemma {:induction false} LastChangeIs(changes: map<(string, nat), Change>, rune: string, height: nat)
    ensures LastChange(changes, rune, height).Some? ==>
              && LastChange(changes, rune, height).value < height
              && (rune, LastChange(changes, rune, height).value) in changes
    ensures forall h: nat :: h < height && (rune, h) in changes ==>
              LastChange(changes, rune, height).Some? && h <= LastChange(changes, rune, height).value
  {
    if height > 0 {
      LastChangeIs(changes, rune, height - 1);
    }
  }

  /** A rune that has changed, but not below `height`, started with nothing
      burned or minted: the rollback writes zeros for it. */
  ghost predicate StartsAtZero(s: Store, lines: set<Line>, height: nat) {
    forall r :: r in s.entries && s.entries[r].genesis < height <= s.entries[r].updated ==> ZeroAt(s, lines, height, r)
  }

  ghost predicate ZeroAt(s: Store, lines: set<Line>, height: nat, rune: string)
    requires rune in s.entries
  {
    LastChange(s.changes, rune, height).None? ==> Line(s.entries[rune].genesis, EntryInsert(rune, 0, 0)) in lines
  }

  /** A rune whose last kept change is of its etching block was etched with the values
      of that change: the rollback writes them over what the guard had kept. */
  ghost predicate KeepsEtching(s: Store, lines: set<Line>, height: nat) {
    forall r :: r in s.entries && s.entries[r].genesis < height <= s.entries[r].updated ==>
      EtchedAt(s, lines, height, r)
  }

  ghost predicate EtchedAt(s: Store, lines: set<Line>, height: nat, rune: string)
    requires rune in s.entries
  {
    var genesis := s.entries[rune].genesis;
    LastChange(s.changes, rune, height) == Some(genesis) && (rune, genesis) in s.changes ==>
      var change := s.changes[(rune, genesis)];
      Line(genesis, EntryInsert(rune, change.burned, change.mints)) in lines
  }

  lemma {:induction false} RevertedEntry(s: Store, lines: set<Line>, height: nat, rune: string)
    requires ChainOk(lines) && ChangesAgree(s, lines) && EntriesAgree(s, lines, lines)
    requires rune in s.entries && s.entries[rune].genesis < height
    ensures var e := RestoreEntry(s.changes, rune, s.entries[rune], height);
            && e.genesis == s.entries[rune].genesis <= e.updated < height
            && (e.updated > e.genesis ==> Line(e.updated, EntryUpdate(rune, e.burned, e.mints)) in lines)
            && (forall l :: l in lines && l.command.EntryUpdate? && l.command.rune == rune && l.height < height ==>
                  l.height <= e.updated)
  {
    hide Etched, ChainOk, Sourced;
    LastChangeIs(s.changes, rune, height);
    if s.entries[rune].updated >= height && LastChange(s.changes, rune, height).Some? {
      var last := LastChange(s.changes, rune, height).value;
      var change := s.changes[(rune, last)];
      UpdatedFromGenesis(s, lines, lines, Line(last, EntryUpdate(rune, change.burned, change.mints)));
    }
  }

  lemma {:induction false} RevertedEntries(s: Store, lines: set<Line>, height: nat)
    requires ChainOk(lines) && ChangesAgree(s, lines) && EntriesAgree(s, lines, lines)
    ensures EntriesAgree(Reverted(s, height), Below(lines, height), Below(lines, height))
  {
    hide Etched, ChainOk, Sourced, RestoreEntry, ChangesAgree;
    var t, kept := Reverted(s, height), Below(lines, height);
    forall r | r in t.entries
      ensures Etched(kept, r, t.entries[r].genesis) && t.entries[r].genesis <= t.entries[r].updated
      ensures var e := t.entries[r]; e.updated > e.genesis ==>
                Line(e.updated, EntryUpdate(r, e.burned, e.mints)) in kept
    {
      RevertedEntry(s, lines, height, r);
      EtchedBelow(lines, r, t.entries[r].genesis, height);
    }
    forall l | l in kept && l.command.EntryInsert? ensures l.command.rune in t.entries {
      EtchedAlready(s, lines, lines, lines, l);
    }
    forall l | l in kept && l.command.EntryUpdate?
      ensures l.command.rune in t.entries && l.height <= t.entries[l.command.rune].updated
    {
      UpdatedFromGenesis(s, lines, lines, l);
      RevertedEntry(s, lines, height, l.command.rune);
    }
  }

  lemma EtchedBelow(lines: set<Line>, rune: string, genesis: nat, height: nat)
    requires Etched(lines, rune, genesis) && genesis < height
    ensures Etched(Below(lines, height), rune, genesis)
  {
    var l :| l in lines && l.command.EntryInsert? && l.command.rune == rune && l.height == genesis;
    assert l in Below(lines, height);
  }

  lemma RevertedChanges(s: Store, lines: set<Line>, height: nat)
    requires ChangesAgree(s, lines)
    ensures ChangesAgree(Reverted(s, height), Below(lines, height))
  {
  }

  /** The runes for which a rollback writes something else than what was etched. */
  function Lost(s: Store, lines: set<Line>, height: nat): set<string> {
    set r | r in s.entries && s.entries[r].genesis < height <= s.entries[r].updated &&
            Misshown(RestoreEntry(s.changes, r, s.entries[r], height), r, lines)
  }

  /** The wrong runes whose etching is kept. */
  function WrongBelow(s: Store, lines: set<Line>, height: nat): set<string> {
    set r | r in Wrong(s, lines) && s.entries[r].genesis < height
  }

  lemma {:induction false} RevertedWrong(s: Store, lines: set<Line>, height: nat)
    ensures Wrong(Reverted(s, height), Below(lines, height)) == WrongBelow(s, lines, height) + Lost(s, lines, height)
  {
    hide RestoreEntry;
    var t, kept := Reverted(s, height), Below(lines, height);
    forall r | r in t.entries
      ensures Misshown(t.entries[r], r, kept) <==> r in WrongBelow(s, lines, height) + Lost(s, lines, height)
    {
      RestoredGenesis(s.changes, r, s.entries[r], height);
    }
  }

  lemma RestoredGenesis(changes: map<(string, nat), Change>, rune: string, e: Entry, height: nat)
    ensures RestoreEntry(changes, rune, e, height).genesis == e.genesis
    ensures e.updated < height ==> RestoreEntry(changes, rune, e, height) == e
  {
  }

  /** Whatever a rollback loses, all else it leaves stands for the shorter chain; and it loses exactly the runes
      it resets to other values than the etched ones. */
  lemma {:induction false} RollbackAgrees(s: Store, lines: set<Line>, height: nat)
    requires ChainOk(lines) && Agrees(s, lines, lines)
    ensures Agrees(Reverted(s, height), Below(lines, height), Below(lines, height))
    ensures Wrong(Reverted(s, height), Below(lines, height)) == WrongBelow(s, lines, height) + Lost(s, lines, height)
  {
    hide ChainOk, OutpointsAgree, ChangesAgree, EntriesAgree, Reverted, Wrong, Lost, WrongBelow;
    RevertedOutpoints(s, lines, height);
    RevertedChanges(s, lines, height);
    RevertedEntries(s, lines, height);
    RevertedWrong(s, lines, height);
  }

  /** Nothing is lost exactly when what the rollback writes for a rune without a later kept change is what the
      rune was etched with. */
  lemma {:induction false} NothingIsLost(s: Store, lines: set<Line>, height: nat)
    requires ChainOk(lines) && ChangesAgree(s, lines) && EntriesAgree(s, lines, lines)
    ensures Lost(s, lines, height) == {} <==> StartsAtZero(s, lines, height) && KeepsEtching(s, lines, height)
  {
    hide ChainOk, ChangesAgree, EntriesAgree, LastChange;
    forall r | r in s.entries && s.entries[r].genesis < height <= s.entries[r].updated
      ensures r !in Lost(s, lines, height) <==> ZeroAt(s, lines, height, r) && EtchedAt(s, lines, height, r)
    {
      LastChangeIs(s.changes, r, height);
    }
  }

  /** A rollback leaves the tables of the shorter chain exactly when what it writes for
      a rune without a later kept change is what the rune was etched with. */
  lemma {:induction false} RollbackIsShorterChain(s: Store, lines: set<Line>, height: nat)
    requires ChainOk(lines) && Denotes(s, lines)
    ensures Denotes(Reverted(s, height), Below(lines, height)) <==>
            StartsAtZero(s, lines, height) && KeepsEtching(s, lines, height)
  {
    hide ChainOk, OutpointsAgree, ChangesAgree, EntriesAgree, Reverted, StartsAtZero, KeepsEtching, Lost;
    RollbackAgrees(s, lines, height);
    NothingIsLost(s, lines, height);
  }

  /** So rolling back a chain is running its prefix, exactly under that condition. */
  lemma {:induction false} RollbackIsRun(lines: seq<Line>, prefix: seq<Line>, height: nat)
    requires InOrder(lines) && InOrder(prefix) && LinesOf(prefix) == Below(LinesOf(lines), height)
    ensures Reverted(Run(lines), height) == Run(prefix) <==>
            StartsAtZero(Run(lines), LinesOf(lines), height) && KeepsEtching(Run(lines), LinesOf(lines), height)
  {
    hide Run, Reverted, StartsAtZero, KeepsEtching, OutpointsAgree, ChangesAgree, EntriesAgree;
    RunDenotes(lines);
    RunDenotes(prefix);
    InOrderIsChain(lines);
    InOrderIsChain(prefix);
    RollbackIsShorterChain(Run(lines), LinesOf(lines), height);
    if Denotes(Reverted(Run(lines), height), LinesOf(prefix)) {
      DenotesOnce(Reverted(Run(lines), height), Run(prefix), LinesOf(prefix));
    }
  }

  lemma InOrderIsChain(lines: seq<Line>)
    requires InOrder(lines)
    ensures ChainOk(LinesOf(lines))
  {
    EmptyDenotes();
  }

  // Looking back.

  /** The rows a query at `height` selects are those of the outputs that are unspent
      once exactly the blocks below `height` have been indexed. */
  lemma {:induction false} PastIsReplay(s: Store, past: Store, lines: set<Line>, height: nat, asked: Asked)
    requires ChainOk(lines) && OutpointsAgree(s, lines, lines)
    requires OutpointsAgree(past, Below(lines, height), Below(lines, height))
    ensures RowsAt(s, asked, height) == RowsNow(past, asked)
  {
    hide ChainOk, OutpointsAgree;
    RevertedOutpoints(s, lines, height);
    BelowIsChain(lines, height);
    SameOutpoints(past, Reverted(s, height), Below(lines, height));
    SelectedIsUnspent(s, lines, height);
  }

  lemma SelectedIsUnspent(s: Store, lines: set<Line>, height: nat)
    requires OutpointsAgree(s, lines, lines)
    ensures forall o :: o in s.outpoints && Selected(s.outpoints[o], height) <==>
                        o in Reverted(s, height).outpoints && !Reverted(s, height).outpoints[o].spent
    ensures forall o :: o in Reverted(s, height).outpoints ==>
                        && o in s.outpoints
                        && Reverted(s, height).outpoints[o].pkscript == s.outpoints[o].pkscript
                        && Reverted(s, height).outpoints[o].balances == s.outpoints[o].balances
  {
  }

  // A premine burned where it is etched.

  const ETCHING := Line(10, EntryInsert("r", 0, 0))
  const PREMINE_BURN := Line(10, EntryUpdate("r", 5, 0))
  const LATER_BURN := Line(12, EntryUpdate("r", 6, 0))

  lemma WitnessIsChain()
    ensures InOrder([ETCHING, PREMINE_BURN]) && InOrder([ETCHING, PREMINE_BURN, LATER_BURN])
  {
    var short, long := [ETCHING, PREMINE_BURN], [ETCHING, PREMINE_BURN, LATER_BURN];
    assert [ETCHING][..0] == [] && short[..1] == [ETCHING] && long[..2] == short;
    assert LinesOf([ETCHING]) == {ETCHING} && LinesOf(short) == {ETCHING, PREMINE_BURN};
    assert LinesOf(long) == {ETCHING, PREMINE_BURN, LATER_BURN};
    assert ETCHING in LinesOf(short) && ETCHING in LinesOf(long);
    assert InOrder([]);
    assert ChainOk(LinesOf([ETCHING])) && ChainOk(LinesOf(short)) && ChainOk(LinesOf(long));
    assert InOrder([ETCHING]);
    assert InOrder(short);
  }

  const ETCHED := map["r" := Entry(10, 0, 0, 10)]
  const BURNED := map["r" := Entry(10, 5, 0, 10)]
  const REPAIRED := map["r" := Entry(10, 6, 0, 12)]
  const ONE_CHANGE := map[("r", 10) := Change(5, 0)]
  const TWO_CHANGES := map[("r", 10) := Change(5, 0), ("r", 12) := Change(6, 0)]

  lemma WitnessTables()
    ensures var short, long := [ETCHING, PREMINE_BURN], [ETCHING, PREMINE_BURN, LATER_BURN];
            && Run(short) == Store(map[], ETCHED, ONE_CHANGE)
            && Replay(short) == Store(map[], BURNED, ONE_CHANGE)
            && Run(long) == Replay(long) == Store(map[], REPAIRED, TWO_CHANGES)
  {
    var short, long := [ETCHING, PREMINE_BURN], [ETCHING, PREMINE_BURN, LATER_BURN];
    assert short[..1] == [ETCHING] && [ETCHING][..0] == [] && long[..2] == short;
    assert RunFrom(EMPTY, [ETCHING][..0]) == EMPTY;
    assert Run([ETCHING]) == RunLine(EMPTY, ETCHING) == Replay([ETCHING]);
    assert Run(short) == RunLine(Run([ETCHING]), PREMINE_BURN) && Run(long) == RunLine(Run(short), LATER_BURN);
  }

  lemma WitnessReverted()
    ensures Reverted(Store(map[], REPAIRED, TWO_CHANGES), 12) == Store(map[], BURNED, ONE_CHANGE)
  {
    assert LastChange(TWO_CHANGES, "r", 11) == Some(10);
    assert LastChange(TWO_CHANGES, "r", 12) == Some(10);
  }

  /** The program loses the burn of the etching block until a later one repairs the
      entry, and a rollback to before the later one does not bring back its tables:
      the later burn, indexed again, repairs them once more. */
  lemma PremineBurnedAtEtching()
    ensures var short, long := [ETCHING, PREMINE_BURN], [ETCHING, PREMINE_BURN, LATER_BURN];
            && InOrder(short) && InOrder(long)
            && Run(short) != Replay(short)
            && Run(long) == Replay(long)
            && Reverted(Run(long), 12) != Run(short)
            && Reverted(Run(long), 12) == Replay(short)
            && RunFrom(Reverted(Run(long), 12), [LATER_BURN]) == Run(long)
  {
    hide InOrder, Run, Replay, Reverted;
    WitnessIsChain();
    WitnessTables();
    WitnessReverted();
    var s := Store(map[], BURNED, ONE_CHANGE);
    assert RunFrom(s, [LATER_BURN][..0]) == s;
    assert RunFrom(s, [LATER_BURN]) == RunLine(s, LATER_BURN);
    assert ETCHED["r"] != BURNED["r"];
  }
}
