/** The database of the BRC-20 indexer (modules/brc20_index/db_init.sql) and the
    queries that modules/brc20_index/brc20_index.py makes on it. Rows that are read in
    order are sequences; tables with a unique key are maps. Wallet columns and the
    burned_supply column are not modelled. */
module IndexTables {
  import opened Wrappers
  import opened Numbers

  /** The fields of an inscription's JSON that the indexer reads. */
  datatype Content = Content(p: string, op: Option<string>, tick: Option<string>, amt: Option<string>,
                             maxSupply: Option<string>, lim: Option<string>, decimals: Option<string>,
                             selfMint: Option<string>)

  /** An inscription that the transfer query joins: its content, whether the content
      type is one of the two accepted, and its parent. */
  datatype Inscription = Inscription(content: Content, textual: bool, parentId: string)

  /** A row of ord_transfers; `oldSatpoint == ""` marks the inscription's creation. */
  datatype TransferRow = TransferRow(txId: nat, inscriptionId: string, oldSatpoint: string, newPkScript: string,
                                     sentAsFee: bool)

  datatype Event =
    | Deploy(deployer: string, tick: string, originalTick: string, maxSupply: nat, decimals: nat, limit: nat,
             selfMint: bool)
    | Mint(minter: string, tick: string, originalTick: string, amount: nat, parentId: string)
    | Inscribe(source: string, tick: string, originalTick: string, amount: nat)
    | Move(source: string, spent: Option<string>, tick: string, originalTick: string, amount: nat, usingTxId: nat)

  datatype EventRow = EventRow(id: nat, height: nat, inscriptionId: string, event: Event)

  datatype Ticker = Ticker(originalTick: string, maxSupply: int, decimals: nat, limit: int, remaining: int,
                           height: nat, selfMint: bool, deployId: string)

  /** What is kept of a ticker in memory. */
  datatype TickInfo = TickInfo(remaining: int, limit: int, decimals: nat, selfMint: bool, deployId: string)

  function InfoOf(t: Ticker): TickInfo {
    TickInfo(t.remaining, t.limit, t.decimals, t.selfMint, t.deployId)
  }

  datatype Balance = Balance(overall: int, available: int)

  datatype BalanceRow = BalanceRow(pkscript: string, tick: string, balance: Balance, height: nat, eventId: int)

  datatype Hashes = Hashes(block: string, cumulative: string)

  datatype Tables = Tables(events: seq<EventRow>, tickers: map<string, Ticker>, balances: seq<BalanceRow>,
                           hashes: map<nat, Hashes>, blocks: map<nat, string>)

  const NoTables := Tables([], map[], [], map[], map[])

  // ---- queries

  /** `select max(id)`, with -1 for an empty table. */
  function MaxEventId(events: seq<EventRow>): (m: int)
    ensures m >= -1
  {
    if events == [] then -1
    else
      var rest := MaxEventId(events[..|events| - 1]);
      var last := events[|events| - 1].id;
      if last > rest then last else rest
  }

  /** The last row of an account, or zeros when there is none. */
  function LastBalance(rows: seq<BalanceRow>, pkscript: string, tick: string): Balance {
    if rows == [] then Balance(0, 0)
    else
      var last := rows[|rows| - 1];
      if last.pkscript == pkscript && last.tick == tick then last.balance
      else LastBalance(rows[..|rows| - 1], pkscript, tick)
  }

  /** How many transfer-inscribe events an inscription has. */
  function InscribeCount(events: seq<EventRow>, id: string): nat {
    if events == [] then 0
    else
      var last := events[|events| - 1];
      InscribeCount(events[..|events| - 1], id) + (if last.inscriptionId == id && last.event.Inscribe? then 1 else 0)
  }

  /** How many transfer-transfer events an inscription has. */
  function MoveCount(events: seq<EventRow>, id: string): nat {
    if events == [] then 0
    else
      var last := events[|events| - 1];
      MoveCount(events[..|events| - 1], id) + (if last.inscriptionId == id && last.event.Move? then 1 else 0)
  }

  /** A transfer inscription that may still be settled. */
  predicate Unsettled(events: seq<EventRow>, id: string) {
    InscribeCount(events, id) == 1 && MoveCount(events, id) == 0
  }

  /** The transfer-inscribe event of an inscription: the first in the log. */
  function InscribeEvent(events: seq<EventRow>, id: string): (e: Event)
    requires InscribeCount(events, id) > 0
    ensures e.Inscribe?
  {
    var front := events[..|events| - 1];
    if InscribeCount(front, id) > 0 then InscribeEvent(front, id) else events[|events| - 1].event
  }

  /** The greatest height with a block, 0 when there is none. */
  method MaxHeight(blocks: map<nat, string>) returns (m: nat)
    ensures blocks == map[] ==> m == 0
    ensures blocks != map[] ==> m in blocks && forall h :: h in blocks ==> h <= m
  {
    m := 0;
    var todo := blocks.Keys;
    while todo != {}
      invariant todo <= blocks.Keys
      invariant forall h :: h in blocks && h !in todo ==> h <= m
      invariant m in blocks || (m == 0 && todo == blocks.Keys)
    {
      var h :| h in todo;
      if h >= m {
        m := h;
      }
      todo := todo - {h};
    }
  }

  /** The least height with a block, 0 when there is none. */
  method MinHeight(blocks: map<nat, string>) returns (m: nat)
    ensures blocks == map[] ==> m == 0
    ensures blocks != map[] ==> m in blocks && forall h :: h in blocks ==> m <= h
  {
    m := 0;
    var todo := blocks.Keys;
    while todo != {}
      invariant todo <= blocks.Keys
      invariant todo == blocks.Keys ==> m == 0
      invariant todo != blocks.Keys ==> m in blocks && forall h :: h in blocks && h !in todo ==> m <= h
    {
      var h :| h in todo;
      if todo == blocks.Keys || h < m {
        m := h;
      }
      todo := todo - {h};
    }
  }

  // ---- event strings

  function Flag(b: bool): string {
    if b then "true" else "false"
  }

  /** `get_event_str`, with the decimals of the event's ticker. */
  function EventStr(event: Event, inscriptionId: string, decimals: nat): string
    requires decimals <= 18 && (event.Deploy? ==> event.decimals == decimals)
  {
    match event
    case Deploy(deployer, tick, originalTick, maxSupply, _, limit, selfMint) =>
      "deploy-inscribe;" + inscriptionId + ";" + deployer + ";" + tick + ";" + originalTick + ";" +
      Fixed(Dec(maxSupply), decimals) + ";" + Dec(decimals) + ";" + Fixed(Dec(limit), decimals) + ";" + Flag(selfMint)
    case Mint(minter, tick, originalTick, amount, parentId) =>
      "mint-inscribe;" + inscriptionId + ";" + minter + ";" + tick + ";" + originalTick + ";" +
      Fixed(Dec(amount), decimals) + ";" + parentId
    case Inscribe(source, tick, originalTick, amount) =>
      "transfer-inscribe;" + inscriptionId + ";" + source + ";" + tick + ";" + originalTick + ";" +
      Fixed(Dec(amount), decimals)
    case Move(source, spent, tick, originalTick, amount, _) =>
      "transfer-transfer;" + inscriptionId + ";" + source + ";" + spent.GetOr("") + ";" + tick + ";" + originalTick +
      ";" + Fixed(Dec(amount), decimals)
  }

  const SEPARATOR := "|"
}
