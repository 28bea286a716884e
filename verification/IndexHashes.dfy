/** What the event hashes of the BRC-20 indexer say: each block's hash is that of the log
    at its height, and the cumulative hash of two chains of one length agrees exactly when
    all their block texts do. */
module IndexHashes {
  import opened IndexTables
  import opened IndexSpec
  import opened IndexReorg
  import opened IndexRules
  import opened IndexExtra

  // ---- the text of a block

  predicate Printable(tickers: map<string, Ticker>, r: EventRow) {
    && r.event.tick in tickers && tickers[r.event.tick].decimals <= 18
    && (r.event.Deploy? ==> r.event.decimals == tickers[r.event.tick].decimals)
  }

  predicate AllPrintable(tickers: map<string, Ticker>, events: seq<EventRow>) {
    forall r | r in events :: Printable(tickers, r)
  }

  /** The event strings of some rows of the log, each with its separator. */
  function BlockText(tickers: map<string, Ticker>, events: seq<EventRow>): string
    requires AllPrintable(tickers, events)
  {
    if events == [] then ""
    else
      var last := events[|events| - 1];
      assert Printable(tickers, last);
      BlockText(tickers, events[..|events| - 1]) +
      EventStr(last.event, last.inscriptionId, tickers[last.event.tick].decimals) + SEPARATOR
  }

  lemma RulesPrint(t: Tables)
    requires RulesOk(t)
    ensures AllPrintable(t.tickers, t.events)
  {
    forall r | r in t.events
      ensures Printable(t.tickers, r)
    {
      assert EventFollowsRules(t.tickers, r);
      assert TickerFollowsRules(r.event.tick, t.tickers[r.event.tick]);
    }
  }

  lemma {:induction false} EventsAtIn(events: seq<EventRow>, height: nat)
    ensures forall r | r in EventsAt(events, height) :: r in events && r.height == height
  {
    if events != [] {
      EventsAtIn(events[..|events| - 1], height);
    }
  }

  /** What `reindex_cumulative_hashes` reads for one height. */
  ghost function TextAt(t: Tables, height: nat): string {
    var events := EventsAt(t.events, height);
    if AllPrintable(t.tickers, events) then BlockText(t.tickers, events) else ""
  }

  /** In a lawful log every row can be printed. */
  lemma TextAtIs(t: Tables, height: nat)
    requires RulesOk(t)
    ensures AllPrintable(t.tickers, EventsAt(t.events, height))
    ensures TextAt(t, height) == BlockText(t.tickers, EventsAt(t.events, height))
  {
    hide RulesOk, BlockText;
    RulesPrint(t);
    EventsAtIn(t.events, height);
  }

  lemma {:induction false} TextStays(before: map<string, Ticker>, after: map<string, Ticker>, events: seq<EventRow>)
    requires TermsStay(before, after) && AllPrintable(before, events)
    ensures AllPrintable(after, events) && BlockText(after, events) == BlockText(before, events)
  {
    if events != [] {
      var last := events[|events| - 1];
      assert last in events && after[last.event.tick].decimals == before[last.event.tick].decimals;
      TextStays(before, after, events[..|events| - 1]);
    }
  }

  lemma EventsAtAppend(events: seq<EventRow>, r: EventRow, height: nat)
    ensures EventsAt(events + [r], height) == EventsAt(events, height) + if r.height == height then [r] else []
  {
    assert (events + [r])[..|events|] == events;
  }

  lemma BlockTextAppend(tickers: map<string, Ticker>, events: seq<EventRow>, r: EventRow)
    requires AllPrintable(tickers, events + [r])
    ensures AllPrintable(tickers, events) && Printable(tickers, r)
    ensures BlockText(tickers, events + [r]) ==
            BlockText(tickers, events) + EventStr(r.event, r.inscriptionId, tickers[r.event.tick].decimals) + SEPARATOR
  {
    assert r in events + [r];
    assert forall q | q in events :: q in events + [r];
    assert (events + [r])[..|events|] == events;
  }

  /** One more row of the log: the text of its height grows by its string, every other
      text stays. */
  lemma {:induction false} TextGrows(t: Tables, t': Tables, r: EventRow, height: nat)
    requires RulesOk(t) && RulesOk(t') && t'.events == t.events + [r] && TermsStay(t.tickers, t'.tickers)
    ensures Printable(t'.tickers, r)
    ensures TextAt(t', height) == TextAt(t, height) +
            if r.height == height
            then EventStr(r.event, r.inscriptionId, t'.tickers[r.event.tick].decimals) + SEPARATOR
            else ""
  {
    hide RulesOk, TermsStay, EventsAt, EventStr, BlockText, Printable, TextAt;
    RulesPrint(t');
    TextAtIs(t, height);
    TextAtIs(t', height);
    EventsAtAppend(t.events, r, height);
    assert r in t'.events;
    TextStays(t.tickers, t'.tickers, EventsAt(t.events, height));
    if r.height == height {
      BlockTextAppend(t'.tickers, EventsAt(t.events, height), r);
    } else {
      assert EventsAt(t'.events, height) == EventsAt(t.events, height);
    }
  }

  // ---- the text that indexing builds

  /** The running text of a block is that of the log at its height. */
  ghost predicate TextFollowsLog(w: Work, height: nat) {
    RulesOk(w.tables) && w.text == TextAt(w.tables, height)
  }

  lemma {:induction false} ProcessText(env: Env, height: nat, w: Work, row: TransferRow)
    requires DecimalsOk(w.tables) && TextFollowsLog(w, height)
    ensures TextFollowsLog(Process(env, height, w, row), height)
    ensures forall h: nat :: h != height ==> TextAt(Process(env, height, w, row).tables, h) == TextAt(w.tables, h)
  {
    hide RulesOk, Taken, LastBalance, TextAt, EventStr, DecimalsOk, Printable;
    ProcessKeepsRules(env, height, w, row);
    match Taken(env, height, w, row)
    case None =>
    case Some(e) =>
      var w' := Process(env, height, w, row);
      var r := EventRow(|w.tables.events|, height, row.inscriptionId, e);
      Appended(env, height, w, row);
      forall h: nat
        ensures TextAt(w'.tables, h) == TextAt(w.tables, h) + if h == height then TextOf(w'.tables.tickers, r) else ""
      {
        TextGrows(w.tables, w'.tables, r, h);
      }
  }

  /** A row's string, with its separator. */
  ghost function TextOf(tickers: map<string, Ticker>, r: EventRow): string {
    if Printable(tickers, r) then EventStr(r.event, r.inscriptionId, tickers[r.event.tick].decimals) + SEPARATOR else ""
  }

  /** An accepted row appends one event, keeps all terms, and notes the event's string. */
  lemma {:induction false} Appended(env: Env, height: nat, w: Work, row: TransferRow)
    requires DecimalsOk(w.tables) && Taken(env, height, w, row).Some?
    ensures var w' := Process(env, height, w, row);
            var r := EventRow(|w.tables.events|, height, row.inscriptionId, Taken(env, height, w, row).value);
            && w'.tables.events == w.tables.events + [r]
            && TermsStay(w.tables.tickers, w'.tables.tickers)
            && Printable(w'.tables.tickers, r)
            && w'.text == w.text + TextOf(w'.tables.tickers, r)
  {
    hide Taken, LastBalance, EventStr;
    var e := Taken(env, height, w, row).value;
    if !e.Deploy? {
      assert w.tables.tickers[e.tick].decimals <= 18;
    }
  }

  lemma {:induction false} ProcessAllText(env: Env, height: nat, w: Work, rows: seq<TransferRow>)
    requires DecimalsOk(w.tables) && TextFollowsLog(w, height)
    ensures TextFollowsLog(ProcessAll(env, height, w, rows), height)
    ensures forall h: nat :: h != height ==> TextAt(ProcessAll(env, height, w, rows).tables, h) == TextAt(w.tables, h)
  {
    hide Process, RulesOk, TextAt;
    if rows != [] {
      ProcessAllText(env, height, w, rows[..|rows| - 1]);
      ProcessText(env, height, ProcessAll(env, height, w, rows[..|rows| - 1]), rows[|rows| - 1]);
    }
  }

  // ---- the hashes of a chain

  /** Every stored hash is the one the log gives. */
  ghost predicate HashesFollowLog(env: Env, t: Tables) {
    forall h | h in t.hashes :: t.hashes[h] == BlockHashes(env, t.hashes, h, TextAt(t, h))
  }

  lemma {:induction false} NoEventsYet(events: seq<EventRow>, height: nat)
    requires forall r | r in events :: r.height < height
    ensures EventsAt(events, height) == []
  {
    if events != [] {
      NoEventsYet(events[..|events| - 1], height);
    }
  }

  lemma NoTextYet(t: Tables, height: nat)
    requires UpTo(t, height - 1)
    ensures TextAt(t, height) == ""
  {
    NoEventsYet(t.events, height);
  }

  lemma HashesAreNoText(t: Tables, t': Tables)
    requires t'.events == t.events && t'.tickers == t.tickers
    ensures RulesOk(t') <==> RulesOk(t)
    ensures forall h: nat :: TextAt(t', h) == TextAt(t, h)
  {
    hide BlockText, EventsAt, EventFollowsRules, TickerFollowsRules;
  }

  /** A new block's hashes do not disturb the earlier ones. */
  lemma {:induction false} FinishFollows(env: Env, t: Tables, w: Work, height: nat, blockHash: string)
    requires RulesOk(t) && HashesFollowLog(env, t) && UpTo(t, height - 1)
    requires TextFollowsLog(w, height) && w.tables.hashes == t.hashes
    requires forall h: nat :: h != height ==> TextAt(w.tables, h) == TextAt(t, h)
    ensures RulesOk(Finish(env, w, height, blockHash))
    ensures HashesFollowLog(env, Finish(env, w, height, blockHash))
  {
    hide TextAt, RulesOk, Stripped;
    var t' := Finish(env, w, height, blockHash);
    HashesAreNoText(w.tables, t');
    forall h | h in t'.hashes
      ensures t'.hashes[h] == BlockHashes(env, t'.hashes, h, TextAt(t', h))
    {
      assert h <= height;
    }
  }

  /** In every reachable state each block hash is the hash of the log's own text at that
      height, and each cumulative hash chains it to the one below. */
  lemma {:induction false} HashesAreOfLog(env: Env, chain: seq<Block>)
    ensures RulesOk(Replay(env, chain)) && HashesFollowLog(env, Replay(env, chain))
    ensures forall h :: h in Replay(env, chain).hashes <==> env.firstHeight <= h < env.firstHeight + |chain|
  {
    hide RulesOk, HashesFollowLog, ProcessAll, Finish, DecimalsOk, UpTo, TextAt;
    RulesAreKept(env, chain);
    if chain == [] {
      EmptyFollows(env);
    } else {
      var n := |chain| - 1;
      var t, height := Replay(env, chain[..n]), env.firstHeight + n;
      HashesAreOfLog(env, chain[..n]);
      ReplayUpTo(env, chain[..n]);
      NoTextYet(t, height);
      var rows := if height < env.firstBrc20Height then [] else chain[n].rows;
      var w := ProcessAll(env, height, Work(t, ""), rows);
      ProcessAllText(env, height, Work(t, ""), rows);
      ProcessAllKeepsKeys(env, height, Work(t, ""), rows);
      FinishFollows(env, t, w, height, chain[n].hash);
      FinishKeys(env, w, height, chain[n].hash);
    }
  }

  lemma EmptyFollows(env: Env)
    ensures HashesFollowLog(env, NoTables)
  {
  }

  lemma FinishKeys(env: Env, w: Work, height: nat, blockHash: string)
    ensures Finish(env, w, height, blockHash).hashes.Keys == w.tables.hashes.Keys + {height}
  {
  }

  // ---- what a cumulative hash commits to

  /** The cumulative hash of some block texts. */
  function Chained(hash: string -> string, texts: seq<string>): string
    requires texts != []
  {
    var n := |texts| - 1;
    if n == 0 then hash(texts[0]) else hash(Chained(hash, texts[..n]) + hash(texts[n]))
  }

  /** The last two inputs that chaining a text hashes are not a collision with those of
      another text list. */
  ghost predicate Distinguished(hash: string -> string, a: seq<string>, b: seq<string>)
    requires |a| == |b| > 0
  {
    var n := |a| - 1;
    && (hash(a[n]) == hash(b[n]) ==> a[n] == b[n])
    && (n > 0 ==>
          var x, y := Chained(hash, a[..n]) + hash(a[n]), Chained(hash, b[..n]) + hash(b[n]);
          hash(x) == hash(y) ==> x == y)
  }

  /** The same at every prefix. */
  ghost predicate AllDistinguished(hash: string -> string, a: seq<string>, b: seq<string>)
    requires |a| == |b| > 0
  {
    Distinguished(hash, a, b) && (|a| > 1 ==> AllDistinguished(hash, a[..|a| - 1], b[..|a| - 1]))
  }

  /** Hashes have one length, as hexadecimal digests do. */
  ghost predicate FixedLength(hash: string -> string) {
    forall s :: |hash(s)| == 64
  }

  /** As long as the hash does not collide on the texts at hand, equal cumulative hashes
      are exactly equal texts, at every height. */
  lemma {:induction false} ChainedCommits(hash: string -> string, a: seq<string>, b: seq<string>)
    requires |a| == |b| > 0 && FixedLength(hash) && AllDistinguished(hash, a, b)
    ensures Chained(hash, a) == Chained(hash, b) <==> a == b
  {
    hide Distinguished, FixedLength, Chained;
    var n := |a| - 1;
    if Chained(hash, a) == Chained(hash, b) {
      LastTwo(hash, a, b);
    }
    assert a == a[..n] + [a[n]] && b == b[..n] + [b[n]];
    if n > 0 {
      ChainedCommits(hash, a[..n], b[..n]);
    }
  }

  /** Equal cumulative hashes have equal last texts and equal cumulative hashes below. */
  lemma LastTwo(hash: string -> string, a: seq<string>, b: seq<string>)
    requires |a| == |b| > 0 && FixedLength(hash) && Distinguished(hash, a, b)
    requires Chained(hash, a) == Chained(hash, b)
    ensures a[|a| - 1] == b[|a| - 1]
    ensures |a| > 1 ==> Chained(hash, a[..|a| - 1]) == Chained(hash, b[..|a| - 1])
  {
    var n := |a| - 1;
    if n > 0 {
      var p, q := Chained(hash, a[..n]), Chained(hash, b[..n]);
      assert p + hash(a[n]) == q + hash(b[n]);
      ChainedLength(hash, a[..n]);
      ChainedLength(hash, b[..n]);
      SplitAt64(p, hash(a[n]), q, hash(b[n]));
    }
  }

  lemma ChainedLength(hash: string -> string, texts: seq<string>)
    requires texts != [] && FixedLength(hash)
    ensures |Chained(hash, texts)| == 64
  {
  }

  lemma SplitAt64(p: string, x: string, q: string, y: string)
    requires |p| == |q| == 64 && p + x == q + y
    ensures p == q && x == y
  {
    assert p == (p + x)[..64] && q == (q + y)[..64];
    assert x == (p + x)[64..] && y == (q + y)[64..];
  }

  /** The stripped texts of the first `n` heights. */
  ghost function Texts(env: Env, t: Tables, n: nat): (texts: seq<string>)
    ensures |texts| == n
  {
    seq(n, i requires 0 <= i < n => Stripped(TextAt(t, env.firstHeight + i)))
  }

  lemma {:induction false} CumulativeIsChained(env: Env, chain: seq<Block>, n: nat)
    requires 0 < n <= |chain|
    ensures env.firstHeight + n - 1 in Replay(env, chain).hashes
    ensures Replay(env, chain).hashes[env.firstHeight + n - 1].cumulative ==
            Chained(env.hash, Texts(env, Replay(env, chain), n))
  {
    hide Replay, RulesOk, TextAt, DecimalsOk, Stripped, Chained, HashesFollowLog;
    var t := Replay(env, chain);
    HashesAreOfLog(env, chain);
    if n > 1 {
      CumulativeIsChained(env, chain, n - 1);
    }
    OneMoreText(env, t, n);
  }

  lemma OneMoreText(env: Env, t: Tables, n: nat)
    requires HashesFollowLog(env, t) && n > 0 && env.firstHeight + n - 1 in t.hashes
    requires n == 1 ==> env.firstHeight == 0 || env.firstHeight - 1 !in t.hashes
    requires n > 1 ==> env.firstHeight + n - 2 in t.hashes
    requires n > 1 ==> t.hashes[env.firstHeight + n - 2].cumulative == Chained(env.hash, Texts(env, t, n - 1))
    ensures t.hashes[env.firstHeight + n - 1].cumulative == Chained(env.hash, Texts(env, t, n))
  {
    hide TextAt, Stripped;
    var texts := Texts(env, t, n);
    assert texts[n - 1] == Stripped(TextAt(t, env.firstHeight + n - 1));
    assert texts[..n - 1] == Texts(env, t, n - 1);
  }

  /** Two chains of one length end in the same cumulative hash exactly when the logs give
      the same text at every height. */
  lemma {:induction false} CumulativeHashCommits(env: Env, a: seq<Block>, b: seq<Block>)
    requires |a| == |b| > 0 && FixedLength(env.hash)
    requires AllDistinguished(env.hash, Texts(env, Replay(env, a), |a|), Texts(env, Replay(env, b), |a|))
    ensures var top := env.firstHeight + |a| - 1;
            && top in Replay(env, a).hashes && top in Replay(env, b).hashes
            && (Replay(env, a).hashes[top].cumulative == Replay(env, b).hashes[top].cumulative <==>
                Texts(env, Replay(env, a), |a|) == Texts(env, Replay(env, b), |a|))
  {
    hide Replay, RulesOk, DecimalsOk, Chained, AllDistinguished, FixedLength, TextAt;
    CumulativeIsChained(env, a, |a|);
    CumulativeIsChained(env, b, |b|);
    ChainedCommits(env.hash, Texts(env, Replay(env, a), |a|), Texts(env, Replay(env, b), |a|));
  }
}
