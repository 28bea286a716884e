/** What a rollback loses, and when going on indexing repairs it. */
module RunesHeal {
  import opened RunesSpec
  import opened RunesReplay

  /** An update of the rune in a later block than its etching. */
  ghost predicate UpdatedLater(lines: set<Line>, rune: string) {
    exists l :: l in lines && l.command.EntryUpdate? && l.command.rune == rune && !Etched(lines, rune, l.height)
  }

  /** An entry shows its etching exactly when the rune has no later update. */
  lemma {:induction false} UnmovedIs(s: Store, lines: set<Line>, rune: string)
    requires ChainOk(lines) && EntriesAgree(s, lines, lines) && rune in s.entries
    ensures rune in Unmoved(s) <==> !UpdatedLater(lines, rune)
  {
    hide ChainOk, Etched;
    var e := s.entries[rune];
    if e.updated > e.genesis {
      if Etched(lines, rune, e.updated) {
        OneEtching(lines, rune, e.updated, e.genesis);
      }
      assert Line(e.updated, EntryUpdate(rune, e.burned, e.mints)) in lines;
    }
    forall l | l in lines && l.command.EntryUpdate? && l.command.rune == rune && !Etched(lines, rune, l.height)
      ensures e.updated > e.genesis
    {
      UpdatedFromGenesis(s, lines, lines, l);
    }
  }

  /** The runes of a set without an update above their etching block. */
  ghost function NotHealed(wrong: set<string>, lines: set<Line>): set<string> {
    set r | r in wrong && !UpdatedLater(lines, r)
  }

  lemma {:induction false} WrongIsNotHealed(s: Store, lines: set<Line>, wrong: set<string>)
    requires ChainOk(lines) && EntriesAgree(s, lines, lines) && wrong <= s.entries.Keys
    ensures wrong * Unmoved(s) == NotHealed(wrong, lines)
  {
    hide ChainOk, EntriesAgree, UpdatedLater, Unmoved;
    forall r | r in wrong
      ensures r in Unmoved(s) <==> !UpdatedLater(lines, r)
    {
      UnmovedIs(s, lines, r);
    }
  }

  lemma {:induction false} PrefixInOrder(prefix: seq<Line>, more: seq<Line>)
    requires InOrder(prefix + more)
    ensures InOrder(prefix)
  {
    if more == [] {
      assert prefix + more == prefix;
    } else {
      var n := |more| - 1;
      assert (prefix + more)[..|prefix + more| - 1] == prefix + more[..n];
      PrefixInOrder(prefix, more[..n]);
    }
  }

  /** A chain is indexed, rolled back to a height, and a new continuation is indexed. Of the runes that the
      rollback lost, exactly those are still wrong that the standing chain never updates above their etching
      block; so the tables are those of the standing chain if and only if there are none. */
  lemma {:induction false} RollbackHeals(lines: seq<Line>, prefix: seq<Line>, more: seq<Line>, height: nat)
    requires InOrder(lines) && InOrder(prefix + more) && LinesOf(prefix) == Below(LinesOf(lines), height)
    ensures var t := RunFrom(Reverted(Run(lines), height), more);
            var lost := Lost(Run(lines), LinesOf(lines), height);
            && Wrong(t, LinesOf(prefix + more)) == NotHealed(lost, LinesOf(prefix + more))
            && (t == Run(prefix + more) <==> forall r | r in lost :: UpdatedLater(LinesOf(prefix + more), r))
  {
    hide Run, RunFrom, Reverted, ChainOk, OutpointsAgree, ChangesAgree, EntriesAgree, Lost, UpdatedLater, InOrder,
         Unmoved;
    var s, all := Reverted(Run(lines), height), LinesOf(prefix + more);
    var t, lost := RunFrom(s, more), Lost(Run(lines), LinesOf(lines), height);
    RunDenotes(lines);
    InOrderIsChain(lines);
    RollbackAgrees(Run(lines), LinesOf(lines), height);
    assert Wrong(s, LinesOf(prefix)) == lost;
    RunFromAgrees(s, prefix, more);
    InOrderIsChain(prefix + more);
    WrongIsNotHealed(t, all, lost);
    RunDenotes(prefix + more);
    if NotHealed(lost, all) == {} {
      DenotesOnce(t, Run(prefix + more), all);
    }
  }
}
