/** What the BRC-20 indexer computes, without its caches: every transfer row reads the
    tables and extends them at once. A chain of blocks is indexed by a fold. */
module IndexSpec {
  import opened Wrappers
  import opened Numbers
  import opened IndexTables

  const SELF_MINT_ENABLE_HEIGHT: nat := 837090
  const UNIT: nat := 1_000_000_000_000_000_000
  const MAX_AMOUNT: nat := 18446744073709551615 * UNIT

  /** The deployment: where indexing and BRC-20 start, the inscriptions, and the hash. */
  datatype Env = Env(firstHeight: nat, firstBrc20Height: nat, catalog: map<string, Inscription>, hash: string -> string)

  /** The tables in the middle of a block, and `block_events_str` so far. */
  datatype Work = Work(tables: Tables, text: string)

  /** `tick.lower()` on one-byte characters. */
  function Lower(s: string): (l: string)
    ensures |l| == |s|
  {
    seq(|s|, i requires 0 <= i < |s| => if 'A' <= s[i] <= 'Z' then s[i] - 'A' + 'a' else s[i])
  }

  /** An amount field: present, well-formed, expressible, and within the bounds. */
  function ParseAmount(field: Option<string>, decimals: nat): Option<nat>
    requires decimals <= 18
  {
    if field.None? || !IsPositiveNumberWithDot(field.value) then None
    else
      match Extended(field.value, decimals)
      case None => None
      case Some(n) => if n > MAX_AMOUNT then None else Some(n)
  }

  function ParsePositive(field: Option<string>, decimals: nat): Option<nat>
    requires decimals <= 18
  {
    match ParseAmount(field, decimals)
    case None => None
    case Some(n) => if n == 0 then None else Some(n)
  }

  function ParseDecimals(field: Option<string>): Option<nat> {
    if field.None? then Some(18)
    else if !IsPositiveNumber(field.value) then None
    else if ParseInt(field.value) > 18 then None
    else Some(ParseInt(field.value))
  }

  /** The supply and limit of a deployment once the self-mint rules are applied. */
  function SelfMintTerms(height: nat, tickLength: nat, selfMint: Option<string>, supply: nat, limit: nat)
    : Option<(nat, nat, bool)>
  {
    if tickLength != 5 then (if supply == 0 then None else Some((supply, limit, false)))
    else if height < SELF_MINT_ENABLE_HEIGHT || selfMint != Some("true") then None
    else if supply == 0 then Some((MAX_AMOUNT, if limit == 0 then MAX_AMOUNT else limit, true))
    else Some((supply, limit, true))
  }

  /** The deploy event of a valid deployment. */
  function DeployEvent(height: nat, js: Content, tick: string, originalTick: string,
                       deployer: string): (e: Option<Event>)
    ensures e.Some? ==> e.value.Deploy? && e.value.decimals <= 18 && e.value.tick == tick
  {
    if js.maxSupply.None? then None
    else
      match ParseDecimals(js.decimals)
      case None => None
      case Some(decimals) =>
        match ParseAmount(js.maxSupply, decimals)
        case None => None
        case Some(supply) =>
          match (if js.lim.None? then Some(supply) else ParsePositive(js.lim, decimals))
          case None => None
          case Some(limit) =>
            match SelfMintTerms(height, |originalTick|, js.selfMint, supply, limit)
            case None => None
            case Some((maxSupply, limit, selfMint)) =>
              Some(Deploy(deployer, tick, originalTick, maxSupply, decimals, limit, selfMint))
  }

  predicate DecimalsOk(t: Tables) {
    forall tick | tick in t.tickers :: t.tickers[tick].decimals <= 18
  }

  /** The amount that a mint grants: nothing, the amount asked for, or what remains. */
  function MintGrant(ticker: TickInfo, amt: Option<string>, parentId: string): Option<nat>
    requires ticker.decimals <= 18
  {
    match ParsePositive(amt, ticker.decimals)
    case None => None
    case Some(amount) =>
      if ticker.remaining <= 0 || amount > ticker.limit then None
      else if ticker.selfMint && ticker.deployId != parentId then None
      else if amount > ticker.remaining then Some(ticker.remaining)
      else Some(amount)
  }

  // ---- what each kind of event does to the tables

  function Logged(t: Tables, height: nat, id: string, event: Event): Tables {
    t.(events := t.events + [EventRow(|t.events|, height, id, event)])
  }

  function Noted(w: Work, id: string, event: Event, decimals: nat): string
    requires decimals <= 18 && (event.Deploy? ==> event.decimals == decimals)
  {
    w.text + EventStr(event, id, decimals) + SEPARATOR
  }

  function Credit(t: Tables, height: nat, pkscript: string, tick: string, overall: int, available: int,
                  eventId: int): Tables {
    var b := LastBalance(t.balances, pkscript, tick);
    var balance := Balance(b.overall + overall, b.available + available);
    t.(balances := t.balances + [BalanceRow(pkscript, tick, balance, height, eventId)])
  }

  function DoDeploy(w: Work, height: nat, id: string, e: Event): Work
    requires e.Deploy? && e.decimals <= 18
  {
    var ticker := Ticker(e.originalTick, e.maxSupply, e.decimals, e.limit, e.maxSupply, height, e.selfMint, id);
    Work(Logged(w.tables, height, id, e).(tickers := w.tables.tickers[e.tick := ticker]), Noted(w, id, e, e.decimals))
  }

  function DoMint(w: Work, height: nat, id: string, e: Event): Work
    requires e.Mint? && e.tick in w.tables.tickers && w.tables.tickers[e.tick].decimals <= 18
  {
    var ticker := w.tables.tickers[e.tick];
    var t := Logged(w.tables, height, id, e);
    var t1 := Credit(t, height, e.minter, e.tick, e.amount, e.amount, |w.tables.events|);
    Work(t1.(tickers := t1.tickers[e.tick := ticker.(remaining := ticker.remaining - e.amount)]),
         Noted(w, id, e, ticker.decimals))
  }

  function DoInscribe(w: Work, height: nat, id: string, e: Event): Work
    requires e.Inscribe? && e.tick in w.tables.tickers && w.tables.tickers[e.tick].decimals <= 18
  {
    var t := Logged(w.tables, height, id, e);
    Work(Credit(t, height, e.source, e.tick, 0, -(e.amount as int), |w.tables.events|),
         Noted(w, id, e, w.tables.tickers[e.tick].decimals))
  }

  /** A settled transfer; without a receiver it was spent as a fee, and the amount
      becomes available to its owner again. */
  function DoMove(w: Work, height: nat, id: string, e: Event): Work
    requires e.Move? && e.tick in w.tables.tickers && w.tables.tickers[e.tick].decimals <= 18
  {
    var t := Logged(w.tables, height, id, e);
    var eventId := |w.tables.events|;
    var t' :=
      match e.spent
      case None => Credit(t, height, e.source, e.tick, 0, e.amount, eventId)
      case Some(spent) =>
        Credit(Credit(t, height, e.source, e.tick, -(e.amount as int), 0, eventId), height, spent, e.tick, e.amount,
               e.amount, -eventId);
    Work(t', Noted(w, id, e, w.tables.tickers[e.tick].decimals))
  }

  /** The event of a row whose inscription is a `transfer`. */
  function TransferEvent(t: Tables, js: Content, tick: string, row: TransferRow): (e: Option<Event>)
    requires js.tick.Some? && DecimalsOk(t)
    ensures e.Some? ==> e.value.tick == tick && tick in t.tickers
    ensures e.Some? ==> (e.value.Inscribe? && row.oldSatpoint == "") || (e.value.Move? && row.oldSatpoint != "")
  {
    if tick !in t.tickers then None
    else
      match ParsePositive(js.amt, t.tickers[tick].decimals)
      case None => None
      case Some(amount) =>
        if row.oldSatpoint == "" then
          if LastBalance(t.balances, row.newPkScript, tick).available < amount then None
          else Some(Inscribe(row.newPkScript, tick, js.tick.value, amount))
        else if !Unsettled(t.events, row.inscriptionId) then None
        else
          var inscribed := InscribeEvent(t.events, row.inscriptionId);
          Some(Move(inscribed.source, if row.sentAsFee then None else Some(row.newPkScript), tick, js.tick.value,
                    amount, row.txId))
  }

  /** The event that a row of a block's transfers amounts to, if any: the checks of the
      loop body, read off the tables so far. */
  function Taken(env: Env, height: nat, w: Work, row: TransferRow): (e: Option<Event>)
    requires DecimalsOk(w.tables)
    ensures e.Some? && e.value.Deploy? ==> e.value.tick !in w.tables.tickers && e.value.decimals <= 18
    ensures e.Some? && !e.value.Deploy? ==> e.value.tick in w.tables.tickers
  {
    var id := row.inscriptionId;
    var genesis := row.oldSatpoint == "";
    if id !in env.catalog || (row.sentAsFee && genesis) || !env.catalog[id].textual then None
    else
      var js := env.catalog[id].content;
      if js.tick.None? || js.op.None? then None
      else
        var originalTick := js.tick.value;
        var tick := Lower(originalTick);
        if (|originalTick| != 4 && |originalTick| != 5) || js.p != "brc-20" then None
        else if js.op.value == "deploy" && genesis then
          if tick in w.tables.tickers then None
          else DeployEvent(height, js, tick, originalTick, row.newPkScript)
        else if js.op.value == "mint" && genesis then
          if tick !in w.tables.tickers then None
          else
            match MintGrant(InfoOf(w.tables.tickers[tick]), js.amt, env.catalog[id].parentId)
            case None => None
            case Some(amount) => Some(Mint(row.newPkScript, tick, originalTick, amount, env.catalog[id].parentId))
        else if js.op.value == "transfer" then TransferEvent(w.tables, js, tick, row)
        else None
  }

  /** One round of the loop over a block's transfers. */
  function Process(env: Env, height: nat, w: Work, row: TransferRow): (w': Work)
    requires DecimalsOk(w.tables)
    ensures DecimalsOk(w'.tables)
  {
    match Taken(env, height, w, row)
    case None => w
    case Some(e) =>
      match e
      case Deploy(_, _, _, _, _, _, _) => DoDeploy(w, height, row.inscriptionId, e)
      case Mint(_, _, _, _, _) => DoMint(w, height, row.inscriptionId, e)
      case Inscribe(_, _, _, _) => DoInscribe(w, height, row.inscriptionId, e)
      case Move(_, _, _, _, _, _) => DoMove(w, height, row.inscriptionId, e)
  }

  function ProcessAll(env: Env, height: nat, w: Work, rows: seq<TransferRow>): (w': Work)
    requires DecimalsOk(w.tables)
    ensures DecimalsOk(w'.tables)
  {
    if rows == [] then w
    else Process(env, height, ProcessAll(env, height, w, rows[..|rows| - 1]), rows[|rows| - 1])
  }

  /** A block's text without its last separator. */
  function Stripped(text: string): string {
    if text != "" && text[|text| - 1] == SEPARATOR[0] then text[..|text| - 1] else text
  }

  /** `update_event_hashes` on the text of a block. */
  function BlockHashes(env: Env, hashes: map<nat, Hashes>, height: nat, text: string): Hashes {
    var block := env.hash(Stripped(text));
    if height > 0 && height - 1 in hashes
    then Hashes(block, env.hash(hashes[height - 1].cumulative + block))
    else Hashes(block, block)
  }

  /** The end of a block: its event hashes and its own hash. */
  function Finish(env: Env, w: Work, height: nat, blockHash: string): Tables {
    w.tables.(hashes := w.tables.hashes[height := BlockHashes(env, w.tables.hashes, height, w.text)],
              blocks := w.tables.blocks[height := blockHash])
  }

  /** `index_block`: the rows count only from the first BRC-20 height on. */
  function IndexBlock(env: Env, t: Tables, height: nat, blockHash: string, rows: seq<TransferRow>): (t': Tables)
    requires DecimalsOk(t)
    ensures DecimalsOk(t')
  {
    var w := ProcessAll(env, height, Work(t, ""), if height < env.firstBrc20Height then [] else rows);
    Finish(env, w, height, blockHash)
  }

  datatype Block = Block(hash: string, rows: seq<TransferRow>)

  /** The tables after indexing a whole chain from scratch. */
  function Replay(env: Env, chain: seq<Block>): (t: Tables)
    ensures DecimalsOk(t)
  {
    if chain == [] then NoTables
    else
      var n := |chain| - 1;
      IndexBlock(env, Replay(env, chain[..n]), env.firstHeight + n, chain[n].hash, chain[n].rows)
  }

  // ---- rollback

  /** The rows of the log up to a height. */
  function EventsUpTo(events: seq<EventRow>, height: int): seq<EventRow> {
    if events == [] then []
    else
      var last := events[|events| - 1];
      EventsUpTo(events[..|events| - 1], height) + (if last.height > height then [] else [last])
  }

  function BalancesUpTo(rows: seq<BalanceRow>, height: int): seq<BalanceRow> {
    if rows == [] then []
    else
      var last := rows[|rows| - 1];
      BalancesUpTo(rows[..|rows| - 1], height) + (if last.height > height then [] else [last])
  }

  /** What the mint events above a height granted of a tick. */
  function MintedAbove(events: seq<EventRow>, height: int, tick: string): nat {
    if events == [] then 0
    else
      var last := events[|events| - 1];
      MintedAbove(events[..|events| - 1], height, tick) +
      (if last.height > height && last.event.Mint? && last.event.tick == tick then last.event.amount else 0)
  }

  /** `reorg_fix`: rows above the height go, and what their mints took from older
      tickers is given back. */
  function ReorgFix(t: Tables, height: int): Tables {
    Tables(EventsUpTo(t.events, height),
           map tick | tick in t.tickers && t.tickers[tick].height <= height ::
             t.tickers[tick].(remaining := t.tickers[tick].remaining + MintedAbove(t.events, height, tick)),
           BalancesUpTo(t.balances, height),
           map h | h in t.hashes && h <= height :: t.hashes[h],
           map h | h in t.blocks && h <= height :: t.blocks[h])
  }
}
