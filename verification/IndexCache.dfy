/** When the in-memory caches of the BRC-20 indexer agree with its tables: each says
    what a scan of the committed rows and of the block's pending rows would say. */
module IndexCache {
  import opened IndexTables
  import opened IndexLedger

  // ---- balances

  /** The cache key `pkscript + tick`. */
  function Key(pkscript: string, tick: string): string {
    pkscript + tick
  }

  /** A script is the hex of some bytes, so it has an even number of digits. */
  predicate HexScript(pkscript: string) {
    |pkscript| % 2 == 0
  }

  predicate TickSized(tick: string) {
    |tick| == 4 || |tick| == 5
  }

  /** The concatenated key determines the account: the parity of its length tells a
      4-character tick from a 5-character one. */
  lemma KeyInjective(p: string, k: string, p': string, k': string)
    requires HexScript(p) && HexScript(p') && TickSized(k) && TickSized(k')
    requires Key(p, k) == Key(p', k')
    ensures p == p' && k == k'
  {
    assert |p| + |k| == |p'| + |k'|;
    assert p == Key(p, k)[..|p|] && p' == Key(p', k')[..|p'|];
    assert k == Key(p, k)[|p|..] && k' == Key(p', k')[|p'|..];
  }

  /** Two accounts with one key, on ticks of `m` and `n` bytes. */
  predicate SharedKey(m: nat, n: nat, p: string, k: string, p': string, k': string) {
    HexScript(p) && HexScript(p') && |k| == m && |k'| == n && Key(p, k) == Key(p', k') && (p, k) != (p', k')
  }

  ghost predicate KeysCollide(m: nat, n: nat) {
    exists p, k, p', k' :: SharedKey(m, n, p, k, p', k')
  }

  /** Two accounts can share a key exactly when their lowered ticks have different
      lengths of one parity. Ticks are admitted by their length before lowering, which
      a character such as the Kelvin sign shortens. */
  lemma KeyCollisionsExactly(m: nat, n: nat)
    ensures KeysCollide(m, n) <==> m != n && m % 2 == n % 2
  {
    if m != n && m % 2 == n % 2 {
      if m < n {
        LongerTickCollides(m, n);
      } else {
        LongerTickCollides(n, m);
        var p, k, p', k' :| SharedKey(n, m, p, k, p', k');
        assert SharedKey(m, n, p', k', p, k);
      }
    }
    forall p, k, p', k' | SharedKey(m, n, p, k, p', k')
      ensures m != n && m % 2 == n % 2
    {
      assert |p| + m == |p'| + n;
      assert p == Key(p, k)[..|p|] && p' == Key(p', k')[..|p'|];
      assert k == Key(p, k)[|p|..] && k' == Key(p', k')[|p'|..];
    }
  }

  lemma LongerTickCollides(m: nat, n: nat)
    requires m < n && m % 2 == n % 2
    ensures KeysCollide(m, n)
  {
    var p, k, k' := seq(n - m, _ => '0'), seq(m, _ => '0'), seq(n, _ => '0');
    assert Key(p, k) == Key("", k');
    assert SharedKey(m, n, p, k, "", k');
  }

  predicate HasRow(rows: seq<BalanceRow>, p: string, k: string) {
    exists r | r in rows :: r.pkscript == p && r.tick == k
  }

  ghost predicate BalancesAgree(cache: map<string, Balance>, rows: seq<BalanceRow>, pending: seq<BalanceRow>) {
    forall p, k | HexScript(p) && TickSized(k) ::
      if Key(p, k) in cache then cache[Key(p, k)] == LastBalance(rows + pending, p, k) else !HasRow(pending, p, k)
  }

  lemma {:induction false} NoPendingRow(rows: seq<BalanceRow>, pending: seq<BalanceRow>, p: string, k: string)
    requires !HasRow(pending, p, k)
    ensures LastBalance(rows + pending, p, k) == LastBalance(rows, p, k)
  {
    if pending == [] {
      assert rows + pending == rows;
    } else {
      var front := pending[..|pending| - 1];
      assert pending[|pending| - 1] in pending;
      assert (rows + pending)[..|rows + pending| - 1] == rows + front;
      NoPendingRow(rows, front, p, k);
    }
  }

  lemma {:induction false} LoadBalance(cache: map<string, Balance>, rows: seq<BalanceRow>, pending: seq<BalanceRow>,
                                       p: string, k: string)
    requires BalancesAgree(cache, rows, pending) && HexScript(p) && TickSized(k)
    requires Key(p, k) !in cache
    ensures LastBalance(rows, p, k) == LastBalance(rows + pending, p, k)
    ensures BalancesAgree(cache[Key(p, k) := LastBalance(rows, p, k)], rows, pending)
  {
    NoPendingRow(rows, pending, p, k);
    forall p', k' | HexScript(p') && TickSized(k') && Key(p', k') == Key(p, k)
      ensures p' == p && k' == k
    {
      KeyInjective(p, k, p', k');
    }
  }

  lemma StoreBalance(cache: map<string, Balance>, rows: seq<BalanceRow>, pending: seq<BalanceRow>, r: BalanceRow)
    requires BalancesAgree(cache, rows, pending) && HexScript(r.pkscript) && TickSized(r.tick)
    ensures BalancesAgree(cache[Key(r.pkscript, r.tick) := r.balance], rows, pending + [r])
  {
    var all := rows + (pending + [r]);
    assert all[..|all| - 1] == rows + pending;
    forall p', k' | HexScript(p') && TickSized(k')
      ensures Key(p', k') == Key(r.pkscript, r.tick) ==> p' == r.pkscript && k' == r.tick
      ensures HasRow(pending + [r], p', k') ==> HasRow(pending, p', k') || (p' == r.pkscript && k' == r.tick)
    {
      if Key(p', k') == Key(r.pkscript, r.tick) {
        KeyInjective(p', k', r.pkscript, r.tick);
      }
    }
  }

  // ---- transfer validity: 1 open, -1 used, 0 never valid

  function ValidityOf(events: seq<EventRow>, id: string): int {
    if InscribeCount(events, id) != 1 then 0 else if MoveCount(events, id) != 0 then -1 else 1
  }

  predicate HasTransfer(events: seq<EventRow>, id: string) {
    exists r | r in events :: r.inscriptionId == id && (r.event.Inscribe? || r.event.Move?)
  }

  ghost predicate ValidityAgrees(cache: map<string, int>, events: seq<EventRow>, pending: seq<EventRow>) {
    forall id :: if id in cache then cache[id] == ValidityOf(events + pending, id) else !HasTransfer(pending, id)
  }

  lemma {:induction false} NoPendingTransfer(events: seq<EventRow>, pending: seq<EventRow>, id: string)
    requires !HasTransfer(pending, id)
    ensures InscribeCount(events + pending, id) == InscribeCount(events, id)
    ensures MoveCount(events + pending, id) == MoveCount(events, id)
  {
    if pending == [] {
      assert events + pending == events;
    } else {
      var front := pending[..|pending| - 1];
      assert pending[|pending| - 1] in pending;
      assert (events + pending)[..|events + pending| - 1] == events + front;
      NoPendingTransfer(events, front, id);
    }
  }

  lemma LoadValidity(cache: map<string, int>, events: seq<EventRow>, pending: seq<EventRow>, id: string)
    requires ValidityAgrees(cache, events, pending) && id !in cache
    ensures ValidityOf(events, id) == ValidityOf(events + pending, id)
    ensures ValidityAgrees(cache[id := ValidityOf(events, id)], events, pending)
  {
    NoPendingTransfer(events, pending, id);
  }

  lemma ValidityAfter(events: seq<EventRow>, r: EventRow, id: string)
    requires LogOk(events) && Follows(events, r)
    ensures ValidityOf(events + [r], id) ==
            if id == r.inscriptionId && r.event.Inscribe? then 1
            else if id == r.inscriptionId && r.event.Move? then -1
            else ValidityOf(events, id)
  {
    var all := events + [r];
    assert all[..|all| - 1] == events;
    OpenIsUnsettled(events, r.inscriptionId);
  }

  /** What the handlers leave in the validity cache for the event they log. */
  function ValidityStored(cache: map<string, int>, r: EventRow): map<string, int> {
    if r.event.Inscribe? then cache[r.inscriptionId := 1]
    else if r.event.Move? then cache[r.inscriptionId := -1]
    else cache
  }

  lemma StoreValidity(cache: map<string, int>, events: seq<EventRow>, pending: seq<EventRow>, r: EventRow)
    requires ValidityAgrees(cache, events, pending)
    requires LogOk(events + pending) && Follows(events + pending, r)
    ensures ValidityAgrees(ValidityStored(cache, r), events, pending + [r])
  {
    hide ValidityOf, LogOk, Follows;
    assert events + (pending + [r]) == (events + pending) + [r];
    var after := ValidityStored(cache, r);
    forall id
      ensures if id in after then after[id] == ValidityOf(events + (pending + [r]), id)
              else !HasTransfer(pending + [r], id)
    {
      ValidityAfter(events + pending, r, id);
    }
  }

  // ---- the single-use cache of transfer-inscribe events

  ghost predicate EventsAgree(cache: map<string, Event>, events: seq<EventRow>, pending: seq<EventRow>) {
    && (forall id | id in cache :: id in Open(events + pending) && cache[id] == Open(events + pending)[id])
    && (forall r | r in pending && r.event.Inscribe? ::
          r.inscriptionId in Open(events + pending) ==> r.inscriptionId in cache)
  }

  lemma {:induction false} InscribedBefore(events: seq<EventRow>, pending: seq<EventRow>, id: string)
    requires forall r | r in pending && r.event.Inscribe? :: r.inscriptionId != id
    ensures InscribeCount(events + pending, id) == InscribeCount(events, id)
    ensures InscribeCount(events, id) > 0 ==> InscribeEvent(events + pending, id) == InscribeEvent(events, id)
  {
    if pending == [] {
      assert events + pending == events;
    } else {
      var front := pending[..|pending| - 1];
      assert pending[|pending| - 1] in pending;
      assert (events + pending)[..|events + pending| - 1] == events + front;
      InscribedBefore(events, front, id);
    }
  }

  /** An open transfer that is not cached was inscribed in an earlier block, so the
      query on the committed events finds the right event. */
  lemma EventIsCommitted(cache: map<string, Event>, events: seq<EventRow>, pending: seq<EventRow>, id: string)
    requires EventsAgree(cache, events, pending) && LogOk(events + pending)
    requires id in Open(events + pending) && id !in cache
    ensures InscribeCount(events, id) > 0
    ensures InscribeEvent(events, id) == Open(events + pending)[id]
  {
    OpenIsUnsettled(events + pending, id);
    InscribedBefore(events, pending, id);
  }

  /** What the handlers leave in the event cache for the event they log. */
  function EventStored(cache: map<string, Event>, r: EventRow): map<string, Event> {
    if r.event.Inscribe? then cache[r.inscriptionId := r.event]
    else if r.event.Move? then cache - {r.inscriptionId}
    else cache
  }

  lemma StoreEvent(cache: map<string, Event>, events: seq<EventRow>, pending: seq<EventRow>, r: EventRow)
    requires EventsAgree(cache, events, pending)
    requires LogOk(events + pending) && Follows(events + pending, r)
    ensures EventsAgree(EventStored(cache, r), events, pending + [r])
  {
    hide LogOk;
    var all := events + (pending + [r]);
    assert all[..|all| - 1] == events + pending;
  }

  // ---- tickers

  function TicksOf(tickers: map<string, Ticker>): map<string, TickInfo> {
    map tick | tick in tickers :: InfoOf(tickers[tick])
  }

  datatype NewTicker = NewTicker(tick: string, ticker: Ticker)

  /** The tickers table after the pending inserts. */
  function Inserted(tickers: map<string, Ticker>, added: seq<NewTicker>): map<string, Ticker> {
    if added == [] then tickers
    else
      var last := added[|added| - 1];
      Inserted(tickers, added[..|added| - 1])[last.tick := last.ticker]
  }

  /** The tickers table after the pending inserts and then the pending updates of the
      remaining supply. */
  function Merged(tickers: map<string, Ticker>, added: seq<NewTicker>, minted: map<string, nat>): map<string, Ticker> {
    var all := Inserted(tickers, added);
    map tick | tick in all ::
      all[tick].(remaining := all[tick].remaining - (if tick in minted then minted[tick] else 0))
  }

  lemma MergedNothing(tickers: map<string, Ticker>)
    ensures Merged(tickers, [], map[]) == tickers
  {
  }

  lemma MergedInsert(tickers: map<string, Ticker>, added: seq<NewTicker>, minted: map<string, nat>, n: NewTicker)
    requires n.tick !in minted
    ensures Merged(tickers, added + [n], minted) == Merged(tickers, added, minted)[n.tick := n.ticker]
  {
    assert (added + [n])[..|added|] == added;
  }

  lemma MergedMint(tickers: map<string, Ticker>, added: seq<NewTicker>, minted: map<string, nat>, tick: string,
                   amount: nat)
    requires tick in Merged(tickers, added, minted)
    ensures var before := Merged(tickers, added, minted);
            Merged(tickers, added, minted[tick := (if tick in minted then minted[tick] else 0) + amount]) ==
            before[tick := before[tick].(remaining := before[tick].remaining - amount)]
  {
  }

  /** An update of a tick that is not in the table changes nothing. */
  lemma MergedMissing(tickers: map<string, Ticker>, added: seq<NewTicker>, minted: map<string, nat>, tick: string,
                      amount: nat)
    requires tick !in Merged(tickers, added, minted)
    ensures Merged(tickers, added, minted[tick := amount]) == Merged(tickers, added, minted)
  {
  }

  /** The part of the minted amounts that has been written when `todo` is left. */
  function Settled(minted: map<string, nat>, todo: set<string>): map<string, nat> {
    map tick | tick in minted && tick !in todo :: minted[tick]
  }

  lemma MergedStart(tickers: map<string, Ticker>, added: seq<NewTicker>, minted: map<string, nat>)
    ensures Merged(tickers, added, Settled(minted, minted.Keys)) == Inserted(tickers, added)
  {
    assert Settled(minted, minted.Keys) == map[];
  }

  /** Writing one tick's amount: an update of a ticker, or of no row at all. */
  lemma MergedStep(tickers: map<string, Ticker>, added: seq<NewTicker>, minted: map<string, nat>, todo: set<string>,
                   tick: string)
    requires tick in todo && todo <= minted.Keys
    ensures var before := Merged(tickers, added, Settled(minted, todo));
            Merged(tickers, added, Settled(minted, todo - {tick})) ==
            if tick in before then before[tick := before[tick].(remaining := before[tick].remaining - minted[tick])]
            else before
  {
    var done := Settled(minted, todo);
    assert Settled(minted, todo - {tick}) == done[tick := minted[tick]];
    if tick in Merged(tickers, added, done) {
      MergedMint(tickers, added, done, tick, minted[tick]);
    } else {
      MergedMissing(tickers, added, done, tick, minted[tick]);
    }
  }

  lemma MergedEnd(minted: map<string, nat>)
    ensures Settled(minted, {}) == minted
  {
  }
}
