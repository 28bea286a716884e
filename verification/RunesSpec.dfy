/** The tables of modules/runes_index/index_runes.js as a function of the indexed lines: what the concurrent
    queries of a batch, a rollback and a look into the past must give. */
module RunesSpec {
  import opened Wrappers

  datatype Command =
    | OutpointInsert(outpoint: string, pkscript: string, balances: seq<(string, nat)>)
    | OutpointRemove(outpoint: string)
    | EntryInsert(rune: string, burned: nat, mints: nat)
    | EntryUpdate(rune: string, burned: nat, mints: nat)

  datatype Line = Line(height: nat, command: Command)

  datatype Utxo = Utxo(pkscript: string, balances: seq<(string, nat)>, height: nat,
                       spent: bool, spentHeight: Option<nat>)
  datatype Entry = Entry(genesis: nat, burned: nat, mints: nat, updated: nat)
  datatype Change = Change(burned: nat, mints: nat)
  datatype Store = Store(outpoints: map<string, Utxo>, entries: map<string, Entry>,
                         changes: map<(string, nat), Change>)

  const EMPTY := Store(map[], map[], map[])

  // The queries of a batch. Inserts run first, the delayed updates afterwards.

  function FirstQuery(s: Store, line: Line): Store {
    match line.command
    case OutpointInsert(o, pkscript, balances) =>
      s.(outpoints := s.outpoints[o := Utxo(pkscript, balances, line.height, false, None)])
    case EntryInsert(r, burned, mints) =>
      s.(entries := s.entries[r := Entry(line.height, burned, mints, line.height)])
    case EntryUpdate(r, burned, mints) =>
      s.(changes := s.changes[(r, line.height) := Change(burned, mints)])
    case OutpointRemove(_) => s
  }

  /** The spend mark, and the update guarded by the height it was last updated at. */
  function DelayedQuery(s: Store, line: Line): Store {
    match line.command
    case OutpointRemove(o) =>
      if o in s.outpoints
      then s.(outpoints := s.outpoints[o := s.outpoints[o].(spent := true, spentHeight := Some(line.height))])
      else s
    case EntryUpdate(r, burned, mints) =>
      if r in s.entries && s.entries[r].updated < line.height
      then s.(entries := s.entries[r := s.entries[r].(burned := burned, mints := mints, updated := line.height)])
      else s
    case _ => s
  }

  /** The queries of the program, one line after the other. */
  function RunLine(s: Store, line: Line): Store {
    DelayedQuery(FirstQuery(s, line), line)
  }

  function RunFrom(s: Store, lines: seq<Line>): Store {
    if lines == [] then s
    else RunLine(RunFrom(s, lines[..|lines| - 1]), lines[|lines| - 1])
  }

  function Run(lines: seq<Line>): Store {
    RunFrom(EMPTY, lines)
  }

  /** The reference: one line after the other, in chain order, with no guard. */
  function ApplyLine(s: Store, line: Line): Store {
    match line.command
    case EntryUpdate(r, burned, mints) =>
      var t := FirstQuery(s, line);
      if r in t.entries
      then t.(entries := t.entries[r := t.entries[r].(burned := burned, mints := mints, updated := line.height)])
      else t
    case OutpointRemove(_) => DelayedQuery(s, line)
    case _ => FirstQuery(s, line)
  }

  function Replay(lines: seq<Line>): Store {
    if lines == [] then EMPTY
    else ApplyLine(Replay(lines[..|lines| - 1]), lines[|lines| - 1])
  }

  // What the lines of a chain satisfy.

  ghost predicate Sourced(lines: set<Line>, line: Line) {
    match line.command
    case OutpointRemove(o) =>
      exists l :: l in lines && l.command.OutpointInsert? && l.command.outpoint == o && l.height <= line.height
    case EntryUpdate(r, _, _) =>
      exists l :: l in lines && l.command.EntryInsert? && l.command.rune == r && l.height <= line.height
    case _ => true
  }

  /** Two lines that could not both be in a chain. */
  predicate Clash(a: Line, b: Line) {
    match (a.command, b.command)
    case (OutpointInsert(o, _, _), OutpointInsert(p, _, _)) => o == p
    case (OutpointRemove(o), OutpointRemove(p)) => o == p
    case (EntryInsert(r, _, _), EntryInsert(q, _, _)) => r == q
    case (EntryUpdate(r, _, _), EntryUpdate(q, _, _)) => r == q && a.height == b.height
    case _ => false
  }

  /** Outputs are created once and spent once, runes are etched once, and a rune has
      one update per height, from its etching block on: a premine that is burned where
      it is etched updates the entry in that very block. */
  ghost predicate ChainOk(lines: set<Line>) {
    && (forall a, b :: a in lines && b in lines && Clash(a, b) ==> a == b)
    && (forall l :: l in lines ==> Sourced(lines, l))
  }

  function Below(lines: set<Line>, height: nat): set<Line> {
    set l | l in lines && l.height < height
  }

  // The tables a set of lines stands for, when `done` have run their first
  // queries and `late` their delayed ones.

  ghost predicate OutpointsAgree(s: Store, done: set<Line>, late: set<Line>) {
    && (forall o :: o in s.outpoints ==>
          var row := s.outpoints[o];
          && Line(row.height, OutpointInsert(o, row.pkscript, row.balances)) in done
          && row.spent == row.spentHeight.Some?
          && (row.spentHeight.Some? ==> Line(row.spentHeight.value, OutpointRemove(o)) in late))
    && (forall l :: l in done && l.command.OutpointInsert? ==> l.command.outpoint in s.outpoints)
    && (forall l :: l in late && l.command.OutpointRemove? ==>
          l.command.outpoint in s.outpoints && s.outpoints[l.command.outpoint].spent)
  }

  ghost predicate ChangesAgree(s: Store, done: set<Line>) {
    && (forall k :: k in s.changes ==> Line(k.1, EntryUpdate(k.0, s.changes[k].burned, s.changes[k].mints)) in done)
    && (forall l :: l in done && l.command.EntryUpdate? ==> (l.command.rune, l.height) in s.changes)
  }

  ghost predicate Etched(done: set<Line>, rune: string, height: nat) {
    exists l :: l in done && l.command.EntryInsert? && l.command.rune == rune && l.height == height
  }

  /** An entry is as old as its etching and as new as its latest update above it, whose values it shows: the
      guard refuses an update of the etching block itself. */
  ghost predicate EntriesAgree(s: Store, done: set<Line>, late: set<Line>) {
    && (forall r :: r in s.entries ==>
          var e := s.entries[r];
          && Etched(done, r, e.genesis)
          && e.genesis <= e.updated
          && (e.updated > e.genesis ==> Line(e.updated, EntryUpdate(r, e.burned, e.mints)) in late))
    && (forall l :: l in done && l.command.EntryInsert? ==> l.command.rune in s.entries)
    && (forall l :: l in late && l.command.EntryUpdate? ==>
          l.command.rune in s.entries && l.height <= s.entries[l.command.rune].updated)
  }

  ghost predicate Agrees(s: Store, done: set<Line>, late: set<Line>) {
    OutpointsAgree(s, done, late) && ChangesAgree(s, done) && EntriesAgree(s, done, late)
  }

  /** An entry without a later update that does not show what was etched. */
  predicate Misshown(e: Entry, rune: string, done: set<Line>) {
    e.updated == e.genesis && Line(e.genesis, EntryInsert(rune, e.burned, e.mints)) !in done
  }

  /** The runes with such an entry. Indexing alone leaves none, a rollback may. */
  function Wrong(s: Store, done: set<Line>): set<string> {
    set r | r in s.entries && Misshown(s.entries[r], r, done)
  }

  ghost predicate Denotes(s: Store, lines: set<Line>) {
    Agrees(s, lines, lines) && Wrong(s, lines) == {}
  }

  // Rolling back, and looking back.

  /** The greatest height below `height` at which a change of the rune is kept. */
  function LastChange(changes: map<(string, nat), Change>, rune: string, height: nat): Option<nat> {
    if height == 0 then None
    else if (rune, height - 1) in changes then Some(height - 1)
    else LastChange(changes, rune, height - 1)
  }

  function Unspend(row: Utxo, height: nat): Utxo {
    if row.spentHeight.Some? && row.spentHeight.value >= height then row.(spent := false, spentHeight := None)
    else row
  }

  function RestoreEntry(changes: map<(string, nat), Change>, rune: string, e: Entry, height: nat): Entry {
    if e.updated < height then e
    else
      match LastChange(changes, rune, height)
      case None => e.(burned := 0, mints := 0, updated := e.genesis)
      case Some(last) =>
        var change := if (rune, last) in changes then changes[(rune, last)] else Change(0, 0);
        e.(burned := change.burned, mints := change.mints, updated := last)
  }

  /** What a rollback to before `height` leaves. */
  function Reverted(s: Store, height: nat): Store {
    Store(
      map o | o in s.outpoints && s.outpoints[o].height < height :: Unspend(s.outpoints[o], height),
      map r | r in s.entries && s.entries[r].genesis < height :: RestoreEntry(s.changes, r, s.entries[r], height),
      map k | k in s.changes && k.1 < height :: s.changes[k])
  }

  /** The selection of a balance query at a height. */
  predicate Selected(row: Utxo, height: nat) {
    row.height < height && (row.spentHeight.None? || row.spentHeight.value >= height)
  }

  /** Who is asked about: one script, or all scripts of an address. */
  datatype Asked = Asked(pkscript: string, address: string, walletOf: string -> Option<string>)

  predicate Concerns(asked: Asked, pkscript: string) {
    if asked.address != "" then asked.walletOf(pkscript) == Some(asked.address) else asked.pkscript == pkscript
  }

  /** What a row contributes to the query: its script, and its runes with amounts. */
  datatype Held = Held(pkscript: string, balances: seq<(string, nat)>)

  /** The rows that the query at a height selects. */
  function RowsAt(s: Store, asked: Asked, height: nat): map<string, Held> {
    map o | o in s.outpoints && Concerns(asked, s.outpoints[o].pkscript) && Selected(s.outpoints[o], height) ::
      Held(s.outpoints[o].pkscript, s.outpoints[o].balances)
  }

  /** The rows that are unspent now, of the wallet of the address when there is one, and else of the script. */
  function RowsNow(s: Store, asked: Asked): map<string, Held> {
    map o | o in s.outpoints && !s.outpoints[o].spent &&
            (asked.address == "" ==> s.outpoints[o].pkscript == asked.pkscript) &&
            (asked.address != "" ==> asked.walletOf(s.outpoints[o].pkscript) == Some(asked.address)) ::
      Held(s.outpoints[o].pkscript, s.outpoints[o].balances)
  }

  /** A line of the answer; all runes without an entry are one group, as in a left join. */
  datatype Group = Group(pkscript: string, rune: Option<string>)

  function Named(known: set<string>, rune: string): Option<string> {
    if rune in known then Some(rune) else None
  }

  /** What some balances hold in a group of runes. */
  function GroupAmount(balances: seq<(string, nat)>, known: set<string>, rune: Option<string>): nat {
    if balances == [] then 0
    else
      var last := balances[|balances| - 1];
      GroupAmount(balances[..|balances| - 1], known, rune) + if Named(known, last.0) == rune then last.1 else 0
  }

  /** What some balances hold of one rune, and of all runes without an entry. */
  function AmountOf(balances: seq<(string, nat)>, rune: string): nat {
    if balances == [] then 0
    else
      var last := balances[|balances| - 1];
      AmountOf(balances[..|balances| - 1], rune) + if last.0 == rune then last.1 else 0
  }

  function AmountElsewhere(balances: seq<(string, nat)>, known: set<string>): nat {
    if balances == [] then 0
    else
      var last := balances[|balances| - 1];
      AmountElsewhere(balances[..|balances| - 1], known) + if last.0 in known then 0 else last.1
  }

  ghost predicate InGroup(row: Held, known: set<string>, g: Group) {
    row.pkscript == g.pkscript && exists i :: 0 <= i < |row.balances| && Named(known, row.balances[i].0) == g.rune
  }

  /** What each row of a script holds of a group. */
  function HeldIn(rows: map<string, Held>, known: set<string>, g: Group): map<string, int> {
    map o | o in rows && rows[o].pkscript == g.pkscript :: GroupAmount(rows[o].balances, known, g.rune)
  }
}
