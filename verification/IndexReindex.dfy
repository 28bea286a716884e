/** `reindex_cumulative_hashes` of modules/brc20_index/brc20_index.py. It builds the text of each height in a
    variable of its own, and then calls `update_event_hashes`, which hashes the text of the module: the one
    left by the last indexed block, or the empty one of a fresh process. Which logs survive that is stated
    exactly. */
module IndexReindex {
  import opened Wrappers
  import opened Numbers
  import opened IndexTables
  import opened IndexSpec
  import opened IndexReorg
  import opened IndexRules
  import opened IndexExtra
  import opened IndexHashes

  /** The module's text after some calls of `update_event_hashes`, each of which strips it in place. */
  function StaleText(stale: string, calls: nat): string {
    if calls == 0 then stale else Stripped(StaleText(stale, calls - 1))
  }

  /** The hashes that reindexing some heights writes. */
  function Reindexed(env: Env, stale: string, n: nat): map<nat, Hashes> {
    if n == 0 then map[]
    else
      var below := Reindexed(env, stale, n - 1);
      var height := env.firstHeight + n - 1;
      below[height := BlockHashes(env, below, height, StaleText(stale, n - 1))]
  }

  /** At each of the first heights the stale text hashes like the text of the log. */
  ghost predicate StaleHashesFit(env: Env, t: Tables, stale: string, n: nat) {
    forall i | 0 <= i < n :: StaleFits(env, t, stale, i)
  }

  ghost predicate StaleFits(env: Env, t: Tables, stale: string, i: nat) {
    env.hash(Stripped(StaleText(stale, i))) == env.hash(Stripped(TextAt(t, env.firstHeight + i)))
  }

  /** Each height gets the hash of the text that is left by then. */
  lemma {:induction false} ReindexedBlocks(env: Env, stale: string, n: nat)
    ensures forall h :: h in Reindexed(env, stale, n) <==> env.firstHeight <= h < env.firstHeight + n
    ensures forall h | h in Reindexed(env, stale, n) ::
              Reindexed(env, stale, n)[h].block == env.hash(Stripped(StaleText(stale, h - env.firstHeight)))
  {
    hide Stripped, StaleText;
    if n > 0 {
      ReindexedBlocks(env, stale, n - 1);
    }
  }

  function HashesBelow(hashes: map<nat, Hashes>, height: nat): map<nat, Hashes> {
    map h | h in hashes && h < height :: hashes[h]
  }

  lemma OneMoreHash(hashes: map<nat, Hashes>, height: nat)
    requires height in hashes
    ensures HashesBelow(hashes, height + 1) == HashesBelow(hashes, height)[height := hashes[height]]
  {
  }

  lemma FollowsAt(env: Env, t: Tables, height: nat)
    requires height in t.hashes && HashesFollowLog(env, t)
    ensures t.hashes[height] == BlockHashes(env, t.hashes, height, TextAt(t, height))
  {
    hide BlockHashes, TextAt;
  }

  /** Texts with one hash give one entry, whatever is above the height. */
  lemma SameHashes(env: Env, hashes: map<nat, Hashes>, height: nat, text: string, text': string)
    requires env.hash(Stripped(text)) == env.hash(Stripped(text'))
    ensures BlockHashes(env, HashesBelow(hashes, height), height, text) == BlockHashes(env, hashes, height, text')
  {
    hide Stripped;
  }

  lemma StaleFitsAt(env: Env, t: Tables, stale: string, n: nat)
    requires n > 0 && StaleHashesFit(env, t, stale, n)
    ensures StaleHashesFit(env, t, stale, n - 1)
    ensures env.hash(Stripped(StaleText(stale, n - 1))) == env.hash(Stripped(TextAt(t, env.firstHeight + n - 1)))
  {
    hide Stripped, StaleText, TextAt;
    assert StaleFits(env, t, stale, n - 1);
  }

  /** As long as the stale text fits, the recomputed hashes are the stored ones. */
  lemma {:induction false} ReindexedSoFar(env: Env, t: Tables, stale: string, n: nat)
    requires HashesFollowLog(env, t) && StaleHashesFit(env, t, stale, n)
    requires forall h | h in t.hashes :: h >= env.firstHeight
    requires forall h | env.firstHeight <= h < env.firstHeight + n :: h in t.hashes
    ensures Reindexed(env, stale, n) == HashesBelow(t.hashes, env.firstHeight + n)
  {
    hide HashesFollowLog, StaleHashesFit, BlockHashes, StaleText, TextAt, Stripped;
    if n > 0 {
      var height := env.firstHeight + n - 1;
      StaleFitsAt(env, t, stale, n);
      ReindexedSoFar(env, t, stale, n - 1);
      FollowsAt(env, t, height);
      SameHashes(env, t.hashes, height, StaleText(stale, n - 1), TextAt(t, height));
      OneMoreHash(t.hashes, height);
    }
  }

  lemma {:induction false} ReindexedFits(env: Env, t: Tables, stale: string, n: nat)
    requires HashesFollowLog(env, t) && Reindexed(env, stale, n) == t.hashes
    ensures StaleHashesFit(env, t, stale, n)
  {
    hide Stripped, StaleText, TextAt, Reindexed, HashesFollowLog;
    ReindexedBlocks(env, stale, n);
    forall i | 0 <= i < n
      ensures StaleFits(env, t, stale, i)
    {
      FollowsAt(env, t, env.firstHeight + i);
    }
  }

  /** Reindexing gives the stored hashes back exactly when the stale text hashes like the log's own text at
      every height. */
  lemma {:induction false} ReindexRestores(env: Env, chain: seq<Block>, stale: string)
    ensures Reindexed(env, stale, |chain|) == Replay(env, chain).hashes <==>
            StaleHashesFit(env, Replay(env, chain), stale, |chain|)
  {
    hide Replay, RulesOk, DecimalsOk, Reindexed, StaleHashesFit, HashesFollowLog;
    var t := Replay(env, chain);
    HashesAreOfLog(env, chain);
    if StaleHashesFit(env, t, stale, |chain|) {
      ReindexedSoFar(env, t, stale, |chain|);
      assert t.hashes == HashesBelow(t.hashes, env.firstHeight + |chain|);
    }
    if Reindexed(env, stale, |chain|) == t.hashes {
      ReindexedFits(env, t, stale, |chain|);
    }
  }

  /** Heights are reindexed from the first block on. */
  lemma FirstBlock(env: Env, chain: seq<Block>, m: nat)
    requires m in Replay(env, chain).blocks && forall h :: h in Replay(env, chain).blocks ==> m <= h
    ensures m == env.firstHeight
  {
    hide Replay, DecimalsOk;
    BlockHash(env, chain, m);
    BlockHash(env, chain, env.firstHeight);
  }

  // ---- a fresh process

  lemma {:induction false} EmptyStaysEmpty(calls: nat)
    ensures StaleText("", calls) == ""
  {
    if calls > 0 {
      EmptyStaysEmpty(calls - 1);
    }
  }

  lemma {:induction false} SomeEventAt(events: seq<EventRow>, r: EventRow)
    requires r in events
    ensures EventsAt(events, r.height) != []
  {
    var n := |events| - 1;
    if r != events[n] {
      SomeEventAt(events[..n], r);
    }
  }

  lemma {:induction false} KeptUpTo(events: seq<EventRow>, r: EventRow, height: int)
    requires r in events && r.height <= height
    ensures EventsUpTo(events, height) != []
  {
    var n := |events| - 1;
    if r != events[n] {
      KeptUpTo(events[..n], r, height);
    }
  }

  /** Every event is at the height of a block of the chain. */
  lemma EventsAreInChain(env: Env, chain: seq<Block>, r: EventRow)
    requires r in Replay(env, chain).events
    ensures env.firstHeight <= r.height < env.firstHeight + |chain|
  {
    hide Replay, DecimalsOk;
    ReplayUpTo(env, chain);
    RollbackIsReplay(env, chain, 0);
    if r.height < env.firstHeight {
      KeptUpTo(Replay(env, chain).events, r, env.firstHeight - 1);
      NothingReplayed(env, chain);
    }
  }

  lemma NothingReplayed(env: Env, chain: seq<Block>)
    ensures Replay(env, chain[..0]).events == []
  {
  }

  /** The text of a height is empty exactly when no event is logged there. */
  lemma EmptyText(t: Tables, height: nat)
    requires RulesOk(t)
    ensures Stripped(TextAt(t, height)) == "" <==> EventsAt(t.events, height) == []
  {
    hide RulesOk, EventStr, EventsAt;
    TextAtIs(t, height);
    var events := EventsAt(t.events, height);
    if events != [] {
      var last := events[|events| - 1];
      assert Printable(t.tickers, last);
      assert |EventStr(last.event, last.inscriptionId, t.tickers[last.event.tick].decimals)| > 0 by {
        StringIsNotEmpty(last.event, last.inscriptionId, t.tickers[last.event.tick].decimals);
      }
    }
  }

  lemma StringIsNotEmpty(e: Event, id: string, decimals: nat)
    requires decimals <= 18 && (e.Deploy? ==> e.decimals == decimals)
    ensures EventStr(e, id, decimals) != ""
  {
    hide Fixed, Dec;
  }

  ghost predicate NotLikeEmpty(env: Env, text: string) {
    env.hash(text) == env.hash("") ==> text == ""
  }

  /** No text of the log collides with the empty one. */
  ghost predicate NothingLikeEmpty(env: Env, chain: seq<Block>) {
    forall h: nat | env.firstHeight <= h < env.firstHeight + |chain| ::
      NotLikeEmpty(env, Stripped(TextAt(Replay(env, chain), h)))
  }

  /** In a fresh process reindexing restores the hashes exactly when nothing has been logged: every event is
      lost from them. */
  lemma {:induction false} FreshReindexRestores(env: Env, chain: seq<Block>)
    requires NothingLikeEmpty(env, chain)
    ensures Reindexed(env, "", |chain|) == Replay(env, chain).hashes <==> Replay(env, chain).events == []
  {
    hide Replay, RulesOk, TextAt, DecimalsOk, Stripped, EventsAt, HashesFollowLog;
    var t := Replay(env, chain);
    HashesAreOfLog(env, chain);
    ReindexRestores(env, chain, "");
    assert Stripped("") == "" by {
      EmptyStaysEmpty(1);
    }
    forall i | 0 <= i < |chain|
      ensures StaleFits(env, t, "", i) <==> EventsAt(t.events, env.firstHeight + i) == []
    {
      EmptyStaysEmpty(i);
      assert NotLikeEmpty(env, Stripped(TextAt(t, env.firstHeight + i)));
      EmptyText(t, env.firstHeight + i);
    }
    if t.events == [] {
      NoEvents();
    } else {
      var r := t.events[0];
      EventsAreInChain(env, chain, r);
      SomeEventAt(t.events, r);
      assert !StaleFits(env, t, "", r.height - env.firstHeight);
    }
  }

  lemma NoEvents()
    ensures forall h: nat :: EventsAt([], h) == []
  {
  }

  // ---- one deployment

  const ONE_DEPLOY := Content("brc-20", Some("deploy"), Some("ordi"), None, Some("1"), None, None, None)

  function OneDeployEnv(): Env {
    Env(0, 0, map["i0" := Inscription(ONE_DEPLOY, true, "")], Unhashed)
  }

  /** A hash without collisions. */
  function Unhashed(s: string): string {
    s
  }

  function OneDeploy(): seq<Block> {
    [Block("b", [TransferRow(0, "i0", "", "51", false)])]
  }

  lemma OneIsParsed()
    ensures ParseAmount(Some("1"), 18) == Some(UNIT)
  {
    assert "1"[..1] == "1" && "1"[..0] == "";
    assert AllDigits("1") && DotIndex("1") == 1 && ParseInt("1") == 1;
    assert Pow10(9) == 1_000_000_000;
    Pow10Sum(9, 9);
  }

  lemma OneDeployIsLogged()
    ensures Replay(OneDeployEnv(), OneDeploy()).events ==
            [EventRow(0, 0, "i0", Deploy("51", "ordi", "ordi", UNIT, 18, UNIT, false))]
  {
    var env, row := OneDeployEnv(), OneDeploy()[0].rows[0];
    OneIsParsed();
    assert Lower("ordi") == "ordi";
    assert Taken(env, 0, Work(NoTables, ""), row) == Some(Deploy("51", "ordi", "ordi", UNIT, 18, UNIT, false));
    assert OneDeploy()[0].rows[..0] == [];
    assert OneDeploy()[..0] == [];
  }

  /** A chain of one deployment, with a hash that never collides: reindexing changes its hashes. */
  lemma OneDeployIsLost()
    ensures Reindexed(OneDeployEnv(), "", 1) != Replay(OneDeployEnv(), OneDeploy()).hashes
  {
    OneDeployIsLogged();
    assert NothingLikeEmpty(OneDeployEnv(), OneDeploy());
    FreshReindexRestores(OneDeployEnv(), OneDeploy());
  }
}
