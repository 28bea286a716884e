/** What each row of a block's transfers does, stated on the fields of the inscription and the tables before it:
    exactly when a deployment, a mint, a transfer inscription or its settlement is logged, with which event, and
    which balances and supplies change by how much. */
module IndexRows {
  import opened Wrappers
  import opened Arithmetic
  import opened Numbers
  import opened IndexTables
  import opened IndexSpec

  // ---- amounts

  const LARGEST: nat := 18446744073709551615_000000000000000000

  /** The amount, in units of ten to the minus eighteenth, that a number stands for on a ticker. */
  ghost predicate StandsFor(s: string, decimals: nat, amount: nat) {
    || (s != "" && AllDigits(s) && amount == ParseInt(s) * Pow10(18))
    || exists d: nat :: DotAt(s, d) && StandsForDotted(s, d, decimals, amount)
  }

  predicate StandsForDotted(s: string, d: nat, decimals: nat, amount: nat)
    requires DotAt(s, d)
  {
    && |s| - d - 1 <= decimals
    && AllDigits(s[..d] + s[d + 1..])
    && amount * Pow10(|s| - d - 1) == ParseInt(s[..d] + s[d + 1..]) * Pow10(18)
  }

  /** A field is present and stands for an amount of at most 2^64 - 1 whole units. */
  ghost predicate Reads(field: Option<string>, decimals: nat, amount: nat) {
    field.Some? && StandsFor(field.value, decimals, amount) && amount <= LARGEST
  }

  lemma {:induction false} ExtendedStandsFor(s: string, decimals: nat, amount: nat)
    requires decimals <= 18
    ensures StandsFor(s, decimals, amount) <==>
            IsPositiveNumberWithDot(s) && Extended(s, decimals) == Some(amount)
  {
    hide Extended, IsPositiveNumberWithDot, ParseInt, Pow10, AllDigits;
    AcceptedNumbers(s);
    if s != "" && AllDigits(s) {
      WholeNumberIs(s, decimals);
      NoDotInDigits(s);
    }
    forall d: nat | DotAt(s, d)
      ensures StandsForDotted(s, d, decimals, amount) <==> Extended(s, decimals) == Some(amount)
      ensures IsPositiveNumberWithDot(s) && !AllDigits(s)
    {
      DottedStandsFor(s, d, decimals, amount);
    }
  }

  lemma NoDotInDigits(s: string)
    requires AllDigits(s)
    ensures forall d: nat :: !DotAt(s, d)
  {
  }

  lemma {:induction false} DottedStandsFor(s: string, d: nat, decimals: nat, amount: nat)
    requires decimals <= 18 && DotAt(s, d)
    ensures IsPositiveNumberWithDot(s) && !AllDigits(s)
    ensures StandsForDotted(s, d, decimals, amount) <==> Extended(s, decimals) == Some(amount)
  {
    hide Extended, IsPositiveNumberWithDot, ParseInt, Pow10;
    var whole, fraction := s[..d], s[d + 1..];
    assert s == whole + "." + fraction;
    DottedNumberIs(whole, fraction, decimals);
    var n := Extended(s, decimals);
    if n.Some? && amount * Pow10(|fraction|) == n.value * Pow10(|fraction|) {
      MulCancel(amount, n.value, Pow10(|fraction|));
      MulCancel(n.value, amount, Pow10(|fraction|));
    }
  }

  lemma {:induction false} AmountIsRead(field: Option<string>, decimals: nat, amount: nat)
    requires decimals <= 18
    ensures Reads(field, decimals, amount) <==> ParseAmount(field, decimals) == Some(amount)
    ensures Reads(field, decimals, amount) && amount > 0 <==> ParsePositive(field, decimals) == Some(amount)
  {
    hide StandsFor, Extended;
    if field.Some? {
      ExtendedStandsFor(field.value, decimals, amount);
    }
  }

  // ---- rows

  const CAPITALS := "ABCDEFGHIJKLMNOPQRSTUVWXYZ"
  const SMALL := "abcdefghijklmnopqrstuvwxyz"

  /** Lower case is letter by letter, and changes the capitals only. */
  lemma LowerIs(s: string, i: nat)
    requires i < |s|
    ensures forall k | 0 <= k < 26 && s[i] == CAPITALS[k] :: Lower(s)[i] == SMALL[k]
    ensures s[i] !in CAPITALS ==> Lower(s)[i] == s[i]
  {
    if 'A' <= s[i] <= 'Z' {
      assert CAPITALS[s[i] as int - 'A' as int] == s[i];
    }
  }

  /** The row's inscription is BRC-20 content of the given operation, with a tick of four or five characters, and
      was not inscribed as a fee. */
  predicate Asks(env: Env, row: TransferRow, op: string) {
    && row.inscriptionId in env.catalog && env.catalog[row.inscriptionId].textual
    && !(row.sentAsFee && row.oldSatpoint == "")
    && var js := env.catalog[row.inscriptionId].content;
    && js.p == "brc-20" && js.op == Some(op)
    && js.tick.Some? && (|js.tick.value| == 4 || |js.tick.value| == 5)
  }

  function ContentOf(env: Env, row: TransferRow): Content
    requires row.inscriptionId in env.catalog
  {
    env.catalog[row.inscriptionId].content
  }

  function TickOf(env: Env, row: TransferRow): string
    requires row.inscriptionId in env.catalog && ContentOf(env, row).tick.Some?
  {
    Lower(ContentOf(env, row).tick.value)
  }

  /** The row logged the event, and nothing but the balances and the tickers may have changed besides. */
  predicate LoggedOnly(w: Work, w': Work, height: nat, id: string, e: Event) {
    && w'.tables.events == w.tables.events + [EventRow(|w.tables.events|, height, id, e)]
    && w'.tables.hashes == w.tables.hashes && w'.tables.blocks == w.tables.blocks
    && e.tick in w'.tables.tickers && w'.tables.tickers[e.tick].decimals <= 18
    && (e.Deploy? ==> e.decimals == w'.tables.tickers[e.tick].decimals)
    && w'.text == w.text + EventStr(e, id, w'.tables.tickers[e.tick].decimals) + "|"
  }

  /** One new row, for the height and the event, changes the balance of one account, and no other balance. */
  ghost predicate OneAccount(before: seq<BalanceRow>, after: seq<BalanceRow>, height: nat, eventId: int, p: string,
                             tick: string, overall: int, available: int)
  {
    && |after| == |before| + 1 && before <= after
    && after[|before|].height == height && after[|before|].eventId == eventId
    && forall q, k ::
         LastBalance(after, q, k) ==
         var b := LastBalance(before, q, k);
         if q == p && k == tick then Balance(b.overall + overall, b.available + available) else b
  }

  lemma CreditIs(t: Tables, height: nat, p: string, tick: string, overall: int, available: int, eventId: int)
    ensures var t' := Credit(t, height, p, tick, overall, available, eventId);
            && t' == t.(balances := t'.balances)
            && OneAccount(t.balances, t'.balances, height, eventId, p, tick, overall, available)
  {
    var t' := Credit(t, height, p, tick, overall, available, eventId);
    assert t'.balances[..|t.balances|] == t.balances;
  }

  /** The row's event is the one its operation asks for. */
  lemma TakenIs(env: Env, height: nat, w: Work, row: TransferRow)
    requires DecimalsOk(w.tables) && row.inscriptionId in env.catalog && ContentOf(env, row).tick.Some?
    ensures Asks(env, row, "transfer") ==>
              Taken(env, height, w, row) == TransferEvent(w.tables, ContentOf(env, row), TickOf(env, row), row)
    ensures Asks(env, row, "mint") && row.oldSatpoint == "" ==>
              Taken(env, height, w, row) == MintOf(env, w, row)
    ensures Asks(env, row, "deploy") && row.oldSatpoint == "" ==>
              Taken(env, height, w, row) ==
              if TickOf(env, row) in w.tables.tickers then None
              else DeployEvent(height, ContentOf(env, row), TickOf(env, row), ContentOf(env, row).tick.value,
                               row.newPkScript)
  {
    hide DeployEvent, MintGrant, TransferEvent, Lower;
  }

  function MintOf(env: Env, w: Work, row: TransferRow): Option<Event>
    requires DecimalsOk(w.tables) && row.inscriptionId in env.catalog && ContentOf(env, row).tick.Some?
  {
    var tick, parent := TickOf(env, row), env.catalog[row.inscriptionId].parentId;
    if tick !in w.tables.tickers then None
    else
      match MintGrant(InfoOf(w.tables.tickers[tick]), ContentOf(env, row).amt, parent)
      case None => None
      case Some(n) => Some(Mint(row.newPkScript, tick, ContentOf(env, row).tick.value, n, parent))
  }

  lemma ProcessIs(env: Env, height: nat, w: Work, row: TransferRow)
    requires DecimalsOk(w.tables)
    ensures match Taken(env, height, w, row)
            case None => Process(env, height, w, row) == w
            case Some(e) =>
              && (e.Deploy? ==> Process(env, height, w, row) == DoDeploy(w, height, row.inscriptionId, e))
              && (e.Mint? ==> Process(env, height, w, row) == DoMint(w, height, row.inscriptionId, e))
              && (e.Inscribe? ==> Process(env, height, w, row) == DoInscribe(w, height, row.inscriptionId, e))
              && (e.Move? ==> Process(env, height, w, row) == DoMove(w, height, row.inscriptionId, e))
  {
    hide Taken, DoDeploy, DoMint, DoInscribe, DoMove;
  }

  lemma MintDone(w: Work, height: nat, id: string, e: Event)
    requires e.Mint? && e.tick in w.tables.tickers && w.tables.tickers[e.tick].decimals <= 18
    ensures var w', t := DoMint(w, height, id, e), w.tables.tickers[e.tick];
            && LoggedOnly(w, w', height, id, e)
            && w'.tables.tickers == w.tables.tickers[e.tick := t.(remaining := t.remaining - e.amount)]
            && OneAccount(w.tables.balances, w'.tables.balances, height, |w.tables.events|, e.minter, e.tick,
                          e.amount, e.amount)
  {
    hide Credit, EventStr, OneAccount;
    CreditIs(Logged(w.tables, height, id, e), height, e.minter, e.tick, e.amount, e.amount, |w.tables.events|);
  }

  lemma InscribeDone(w: Work, height: nat, id: string, e: Event)
    requires e.Inscribe? && e.tick in w.tables.tickers && w.tables.tickers[e.tick].decimals <= 18
    ensures var w' := DoInscribe(w, height, id, e);
            && LoggedOnly(w, w', height, id, e) && w'.tables.tickers == w.tables.tickers
            && OneAccount(w.tables.balances, w'.tables.balances, height, |w.tables.events|, e.source, e.tick,
                          0, -(e.amount as int))
  {
    hide Credit, EventStr, OneAccount;
    CreditIs(Logged(w.tables, height, id, e), height, e.source, e.tick, 0, -(e.amount as int), |w.tables.events|);
  }

  /** Spent as a fee, the amount becomes available to its owner again. Else its owner loses it, and it becomes
      available to the receiver, who may be the owner. */
  ghost predicate MoveBalances(before: seq<BalanceRow>, after: seq<BalanceRow>, height: nat, n: int, e: Event)
    requires e.Move?
  {
    match e.spent
    case None => OneAccount(before, after, height, n, e.source, e.tick, 0, e.amount)
    case Some(receiver) =>
      && |after| == |before| + 2
      && OneAccount(before, after[..|before| + 1], height, n, e.source, e.tick, -(e.amount as int), 0)
      && OneAccount(after[..|before| + 1], after, height, -n, receiver, e.tick, e.amount, e.amount)
  }

  lemma MoveDone(w: Work, height: nat, id: string, e: Event)
    requires e.Move? && e.tick in w.tables.tickers && w.tables.tickers[e.tick].decimals <= 18
    ensures var w' := DoMove(w, height, id, e);
            && LoggedOnly(w, w', height, id, e) && w'.tables.tickers == w.tables.tickers
            && MoveBalances(w.tables.balances, w'.tables.balances, height, |w.tables.events|, e)
  {
    hide Credit, EventStr, OneAccount;
    var t, n := Logged(w.tables, height, id, e), |w.tables.events|;
    match e.spent
    case None => CreditIs(t, height, e.source, e.tick, 0, e.amount, n);
    case Some(receiver) =>
      CreditIs(t, height, e.source, e.tick, -(e.amount as int), 0, n);
      var t1 := Credit(t, height, e.source, e.tick, -(e.amount as int), 0, n);
      CreditIs(t1, height, receiver, e.tick, e.amount, e.amount, -n);
      var after := DoMove(w, height, id, e).tables.balances;
      OneRowMore(w.tables.balances, t1.balances, after, height, n, e.source, e.tick, -(e.amount as int), 0);
      OneRowMore(t1.balances, after, after, height, -n, receiver, e.tick, e.amount, e.amount);
  }

  lemma OneRowMore(before: seq<BalanceRow>, after: seq<BalanceRow>, all: seq<BalanceRow>, height: nat, eventId: int,
                   p: string, tick: string, overall: int, available: int)
    requires OneAccount(before, after, height, eventId, p, tick, overall, available)
    ensures |after| == |before| + 1 && before <= after
    ensures after <= all ==> all[..|before| + 1] == after
  {
  }

  // ---- mints

  /** The mint of a known ticker asks for a positive amount within the limit, something remains, and a self-mint
      belongs to the deployment. */
  ghost predicate Mintable(env: Env, w: Work, row: TransferRow, asked: nat)
    requires Asks(env, row, "mint")
  {
    var tick := TickOf(env, row);
    && tick in w.tables.tickers
    && var t := w.tables.tickers[tick];
    && Reads(ContentOf(env, row).amt, t.decimals, asked) && 0 < asked <= t.limit && t.remaining > 0
    && (t.selfMint ==> env.catalog[row.inscriptionId].parentId == t.deployId)
  }

  /** It is granted what it asks for, or what remains when that is less; the minter gains exactly that, and the
      ticker's remaining supply falls by it. */
  ghost predicate Minted(env: Env, height: nat, w: Work, row: TransferRow, w': Work, asked: nat)
    requires Asks(env, row, "mint") && Mintable(env, w, row, asked)
  {
    var js, tick := ContentOf(env, row), TickOf(env, row);
    var t := w.tables.tickers[tick];
    var granted := if asked <= t.remaining then asked else t.remaining;
    && w'.tables.tickers == w.tables.tickers[tick := t.(remaining := t.remaining - granted)]
    && LoggedOnly(w, w', height, row.inscriptionId,
                  Mint(row.newPkScript, tick, js.tick.value, granted, env.catalog[row.inscriptionId].parentId))
    && OneAccount(w.tables.balances, w'.tables.balances, height, |w.tables.events|, row.newPkScript, tick,
                  granted, granted)
  }

  /** A mint row is granted exactly when it is mintable, and otherwise ignored. */
  lemma {:induction false} MintRow(env: Env, height: nat, w: Work, row: TransferRow)
    requires DecimalsOk(w.tables) && Asks(env, row, "mint") && row.oldSatpoint == ""
    ensures forall asked | Mintable(env, w, row, asked) ::
              Minted(env, height, w, row, Process(env, height, w, row), asked)
    ensures (forall asked :: !Mintable(env, w, row, asked)) ==> Process(env, height, w, row) == w
  {
    hide Reads, OneAccount, Lower, ParsePositive, Process, Taken, DoMint, LoggedOnly;
    var tick, id := TickOf(env, row), row.inscriptionId;
    TakenIs(env, height, w, row);
    ProcessIs(env, height, w, row);
    if tick in w.tables.tickers {
      var t := w.tables.tickers[tick];
      AmountReads(ContentOf(env, row).amt, t.decimals);
      var read := ParsePositive(ContentOf(env, row).amt, t.decimals);
      assert read.Some? ==> Reads(ContentOf(env, row).amt, t.decimals, read.value) && read.value > 0;
      var e := MintOf(env, w, row);
      if e.Some? {
        assert Mintable(env, w, row, read.value);
        MintDone(w, height, id, e.value);
      }
    }
  }

  lemma AmountReads(field: Option<string>, decimals: nat)
    requires decimals <= 18
    ensures forall amount: nat ::
              Reads(field, decimals, amount) && amount > 0 <==> ParsePositive(field, decimals) == Some(amount)
  {
    hide Reads, ParsePositive;
    forall amount: nat
      ensures Reads(field, decimals, amount) && amount > 0 <==> ParsePositive(field, decimals) == Some(amount)
    {
      AmountIsRead(field, decimals, amount);
    }
  }

  // ---- transfer inscriptions and their settlement

  /** An account inscribes a positive amount that is available to it. */
  ghost predicate Inscribable(env: Env, w: Work, row: TransferRow, amount: nat)
    requires Asks(env, row, "transfer")
  {
    var tick := TickOf(env, row);
    && tick in w.tables.tickers
    && Reads(ContentOf(env, row).amt, w.tables.tickers[tick].decimals, amount) && amount > 0
    && amount <= LastBalance(w.tables.balances, row.newPkScript, tick).available
  }

  /** It stays in the account's overall balance, and is no longer available. */
  ghost predicate Inscribed(env: Env, height: nat, w: Work, row: TransferRow, w': Work, amount: nat)
    requires Asks(env, row, "transfer") && Inscribable(env, w, row, amount)
  {
    var tick := TickOf(env, row);
    && w'.tables.tickers == w.tables.tickers
    && LoggedOnly(w, w', height, row.inscriptionId,
                  Inscribe(row.newPkScript, tick, ContentOf(env, row).tick.value, amount))
    && OneAccount(w.tables.balances, w'.tables.balances, height, |w.tables.events|, row.newPkScript, tick,
                  0, -(amount as int))
  }

  /** A new transfer inscription is logged exactly when it is inscribable, and otherwise ignored. */
  lemma {:induction false} InscribeRow(env: Env, height: nat, w: Work, row: TransferRow)
    requires DecimalsOk(w.tables) && Asks(env, row, "transfer") && row.oldSatpoint == ""
    ensures forall amount | Inscribable(env, w, row, amount) ::
              Inscribed(env, height, w, row, Process(env, height, w, row), amount)
    ensures (forall amount :: !Inscribable(env, w, row, amount)) ==> Process(env, height, w, row) == w
  {
    hide Reads, OneAccount, Lower, ParsePositive, Process, Taken, DoInscribe, LoggedOnly, LastBalance;
    var tick, id := TickOf(env, row), row.inscriptionId;
    TakenIs(env, height, w, row);
    ProcessIs(env, height, w, row);
    if tick in w.tables.tickers {
      AmountReads(ContentOf(env, row).amt, w.tables.tickers[tick].decimals);
      var read := ParsePositive(ContentOf(env, row).amt, w.tables.tickers[tick].decimals);
      if read.Some? && read.value <= LastBalance(w.tables.balances, row.newPkScript, tick).available {
        assert Inscribable(env, w, row, read.value);
        InscribeDone(w, height, id, Inscribe(row.newPkScript, tick, ContentOf(env, row).tick.value, read.value));
      }
    }
  }

  predicate Inscribes(r: EventRow, id: string) {
    r.inscriptionId == id && r.event.Inscribe?
  }

  predicate Moves(r: EventRow, id: string) {
    r.inscriptionId == id && r.event.Move?
  }

  /** The inscription was inscribed as a transfer by the event at `i` and no other, and has not been settled. */
  ghost predicate Pending(events: seq<EventRow>, id: string, i: nat) {
    && i < |events| && Inscribes(events[i], id)
    && (forall j | 0 <= j < |events| && Inscribes(events[j], id) :: j == i)
    && (forall j | 0 <= j < |events| :: !Moves(events[j], id))
  }

  lemma {:induction false} NoneCounted(events: seq<EventRow>, id: string)
    ensures InscribeCount(events, id) == 0 <==> forall j | 0 <= j < |events| :: !Inscribes(events[j], id)
    ensures MoveCount(events, id) == 0 <==> forall j | 0 <= j < |events| :: !Moves(events[j], id)
  {
    if events != [] {
      var front := events[..|events| - 1];
      NoneCounted(front, id);
      assert forall j | 0 <= j < |front| :: events[j] == front[j];
    }
  }

  lemma {:induction false} PendingIs(events: seq<EventRow>, id: string, i: nat)
    requires Pending(events, id, i)
    ensures InscribeCount(events, id) == 1 && MoveCount(events, id) == 0
    ensures InscribeEvent(events, id) == events[i].event
  {
    var n := |events| - 1;
    NoneCounted(events, id);
    NoneCounted(events[..n], id);
    if i < n {
      PendingIs(events[..n], id, i);
    }
  }

  lemma PendingIsUnsettled(events: seq<EventRow>, id: string)
    ensures forall i: nat | Pending(events, id, i) ::
              Unsettled(events, id) && i < |events| && InscribeEvent(events, id) == events[i].event
  {
    forall i: nat | Pending(events, id, i)
      ensures Unsettled(events, id) && i < |events| && InscribeEvent(events, id) == events[i].event
    {
      PendingIs(events, id, i);
    }
  }

  /** The validity query finds exactly the pending transfers. */
  lemma {:induction false} UnsettledIsPending(events: seq<EventRow>, id: string) returns (i: nat)
    requires Unsettled(events, id)
    ensures Pending(events, id, i)
  {
    var n := |events| - 1;
    NoneCounted(events, id);
    NoneCounted(events[..n], id);
    if InscribeCount(events[..n], id) == 0 {
      i := n;
    } else {
      i := UnsettledIsPending(events[..n], id);
    }
  }

  /** A pending transfer settles for the amount in its content. */
  ghost predicate Settleable(env: Env, w: Work, row: TransferRow, i: nat, amount: nat)
    requires Asks(env, row, "transfer")
  {
    var tick := TickOf(env, row);
    && tick in w.tables.tickers
    && Reads(ContentOf(env, row).amt, w.tables.tickers[tick].decimals, amount) && amount > 0
    && Pending(w.tables.events, row.inscriptionId, i)
  }

  ghost predicate Settled(env: Env, height: nat, w: Work, row: TransferRow, w': Work, i: nat, amount: nat)
    requires Asks(env, row, "transfer") && Settleable(env, w, row, i, amount)
  {
    var tick := TickOf(env, row);
    var receiver := if row.sentAsFee then None else Some(row.newPkScript);
    var e := Move(w.tables.events[i].event.source, receiver, tick, ContentOf(env, row).tick.value, amount, row.txId);
    && w'.tables.tickers == w.tables.tickers
    && LoggedOnly(w, w', height, row.inscriptionId, e)
    && MoveBalances(w.tables.balances, w'.tables.balances, height, |w.tables.events|, e)
  }

  /** A moved transfer inscription settles exactly when it is pending, and is otherwise ignored. */
  lemma {:induction false} SettleRow(env: Env, height: nat, w: Work, row: TransferRow)
    requires DecimalsOk(w.tables) && Asks(env, row, "transfer") && row.oldSatpoint != ""
    ensures forall i, amount | Settleable(env, w, row, i, amount) ::
              Settled(env, height, w, row, Process(env, height, w, row), i, amount)
    ensures (forall i, amount :: !Settleable(env, w, row, i, amount)) ==> Process(env, height, w, row) == w
  {
    hide Reads, OneAccount, Lower, ParsePositive, Process, Taken, DoMove, LoggedOnly, LastBalance, MoveBalances,
         Pending, InscribeEvent, InscribeCount, MoveCount;
    var tick, id := TickOf(env, row), row.inscriptionId;
    TakenIs(env, height, w, row);
    ProcessIs(env, height, w, row);
    if tick in w.tables.tickers {
      AmountReads(ContentOf(env, row).amt, w.tables.tickers[tick].decimals);
      PendingIsUnsettled(w.tables.events, id);
      var e := TransferEvent(w.tables, ContentOf(env, row), tick, row);
      if e.Some? {
        var i := UnsettledIsPending(w.tables.events, id);
        assert Settleable(env, w, row, i, e.value.amount);
        MoveDone(w, height, id, e.value);
      }
    }
  }

  // ---- deployments, and rows that mean nothing

  /** The decimals of a deployment: 18 unless the inscription names fewer. */
  predicate DecimalsAre(field: Option<string>, decimals: nat) {
    && decimals <= 18
    && match field
       case None => decimals == 18
       case Some(s) => s != "" && AllDigits(s) && ParseInt(s) == decimals
  }

  /** A new ticker with a supply and a limit that can be read. Without a limit the supply is the limit. A ticker
      of four characters needs a supply; one of five is a self-mint and needs the enabling height. */
  ghost predicate Deployable(env: Env, height: nat, w: Work, row: TransferRow, decimals: nat, supply: nat, limit: nat)
    requires Asks(env, row, "deploy")
  {
    var js := ContentOf(env, row);
    && TickOf(env, row) !in w.tables.tickers
    && DecimalsAre(js.decimals, decimals) && Reads(js.maxSupply, decimals, supply)
    && (if js.lim.None? then limit == supply else Reads(js.lim, decimals, limit) && limit > 0)
    && (|js.tick.value| == 4 ==> supply > 0)
    && (|js.tick.value| == 5 ==> height >= 837090 && js.selfMint == Some("true"))
  }

  /** The ticker stands with all of its supply remaining. A self-mint without a supply may mint the largest one. */
  ghost predicate Deployed(env: Env, height: nat, w: Work, row: TransferRow, w': Work, decimals: nat, supply: nat,
                           limit: nat)
    requires Asks(env, row, "deploy") && Deployable(env, height, w, row, decimals, supply, limit)
  {
    var tick, originalTick := TickOf(env, row), ContentOf(env, row).tick.value;
    var maxSupply := if supply == 0 then LARGEST else supply;
    var perMint := if limit == 0 then LARGEST else limit;
    var selfMint := |originalTick| == 5;
    && w'.tables.tickers == w.tables.tickers[tick :=
         Ticker(originalTick, maxSupply, decimals, perMint, maxSupply, height, selfMint, row.inscriptionId)]
    && w'.tables.balances == w.tables.balances
    && LoggedOnly(w, w', height, row.inscriptionId,
                  Deploy(row.newPkScript, tick, originalTick, maxSupply, decimals, perMint, selfMint))
  }

  lemma {:induction false} DecimalsRead(field: Option<string>, decimals: nat)
    ensures DecimalsAre(field, decimals) <==> ParseDecimals(field) == Some(decimals)
  {
  }

  /** A deployment is logged exactly when it is deployable, and otherwise ignored. */
  lemma {:induction false} DeployRow(env: Env, height: nat, w: Work, row: TransferRow)
    requires DecimalsOk(w.tables) && Asks(env, row, "deploy") && row.oldSatpoint == ""
    ensures forall decimals, supply, limit | Deployable(env, height, w, row, decimals, supply, limit) ::
              Deployed(env, height, w, row, Process(env, height, w, row), decimals, supply, limit)
    ensures (forall decimals, supply, limit :: !Deployable(env, height, w, row, decimals, supply, limit)) ==>
              Process(env, height, w, row) == w
  {
    hide Lower, DeployEvent, Process, Taken;
    TakenIs(env, height, w, row);
    ProcessIs(env, height, w, row);
    var js, tick := ContentOf(env, row), TickOf(env, row);
    var e := DeployEvent(height, js, tick, js.tick.value, row.newPkScript);
    forall decimals, supply, limit | Deployable(env, height, w, row, decimals, supply, limit)
      ensures e == Some(DeploymentOf(row, js, tick, decimals, supply, limit))
    {
      DeployAccepts(height, js, tick, row.newPkScript, decimals, supply, limit);
    }
    if tick !in w.tables.tickers && e.Some? {
      var decimals, supply, limit := DeployReads(height, js, tick, row.newPkScript);
      assert Deployable(env, height, w, row, decimals, supply, limit);
    }
  }

  function DeploymentOf(row: TransferRow, js: Content, tick: string, decimals: nat, supply: nat, limit: nat): Event
    requires js.tick.Some?
  {
    Deploy(row.newPkScript, tick, js.tick.value, if supply == 0 then LARGEST else supply, decimals,
           if limit == 0 then LARGEST else limit, |js.tick.value| == 5)
  }

  /** What `DeployEvent` accepts. */
  ghost predicate Acceptable(height: nat, js: Content, decimals: nat, supply: nat, limit: nat)
    requires js.tick.Some?
  {
    && DecimalsAre(js.decimals, decimals) && Reads(js.maxSupply, decimals, supply)
    && (if js.lim.None? then limit == supply else Reads(js.lim, decimals, limit) && limit > 0)
    && (|js.tick.value| != 5 ==> supply > 0)
    && (|js.tick.value| == 5 ==> height >= 837090 && js.selfMint == Some("true"))
  }

  lemma {:induction false} DeployAccepts(height: nat, js: Content, tick: string, deployer: string, decimals: nat,
                                         supply: nat, limit: nat)
    requires js.tick.Some? && Acceptable(height, js, decimals, supply, limit)
    ensures var e := DeployEvent(height, js, tick, js.tick.value, deployer);
            e == Some(Deploy(deployer, tick, js.tick.value, if supply == 0 then LARGEST else supply, decimals,
                             if limit == 0 then LARGEST else limit, |js.tick.value| == 5))
  {
    hide StandsFor, ParseAmount, ParsePositive, ParseDecimals;
    DecimalsRead(js.decimals, decimals);
    AmountIsRead(js.maxSupply, decimals, supply);
    AmountIsRead(js.lim, decimals, limit);
    assert js.lim.Some? ==> ParsePositive(js.lim, decimals) == Some(limit);
    assert SelfMintTerms(height, |js.tick.value|, js.selfMint, supply, limit) ==
           Some((if supply == 0 then LARGEST else supply, if limit == 0 then LARGEST else limit, |js.tick.value| == 5));
  }

  lemma {:induction false} DeployReads(height: nat, js: Content, tick: string, deployer: string)
    returns (decimals: nat, supply: nat, limit: nat)
    requires js.tick.Some? && DeployEvent(height, js, tick, js.tick.value, deployer).Some?
    ensures Acceptable(height, js, decimals, supply, limit)
  {
    hide Reads, ParseAmount, ParsePositive, ParseDecimals, DecimalsAre;
    decimals := ParseDecimals(js.decimals).value;
    DecimalsRead(js.decimals, decimals);
    supply := ParseAmount(js.maxSupply, decimals).value;
    limit := if js.lim.None? then supply else ParsePositive(js.lim, decimals).value;
    AmountIsRead(js.maxSupply, decimals, supply);
    AmountIsRead(js.lim, decimals, limit);
  }

  /** Every other row is ignored. */
  lemma {:induction false} OtherRow(env: Env, height: nat, w: Work, row: TransferRow)
    requires DecimalsOk(w.tables)
    requires !Asks(env, row, "transfer")
    requires row.oldSatpoint == "" ==> !Asks(env, row, "deploy") && !Asks(env, row, "mint")
    ensures Process(env, height, w, row) == w
  {
    hide DeployEvent, MintGrant, TransferEvent, Lower;
  }

  // ---- the rows of a block

  /** The rows are processed one after the other. */
  lemma InOrder(env: Env, height: nat, w: Work, rows: seq<TransferRow>, last: TransferRow)
    requires DecimalsOk(w.tables)
    ensures ProcessAll(env, height, w, []) == w
    ensures ProcessAll(env, height, w, rows + [last]) == Process(env, height, ProcessAll(env, height, w, rows), last)
  {
    assert (rows + [last])[..|rows|] == rows;
  }

  /** From the first BRC-20 height on a block changes the log, the tickers and the balances as its rows do;
      before it nothing but the hashes is written. The block's own hash is stored either way. */
  lemma BlockIs(env: Env, t: Tables, height: nat, blockHash: string, rows: seq<TransferRow>)
    requires DecimalsOk(t)
    ensures var t' := IndexBlock(env, t, height, blockHash, rows);
            var after := if height >= env.firstBrc20Height then ProcessAll(env, height, Work(t, ""), rows).tables
                         else t;
            && t'.events == after.events && t'.tickers == after.tickers && t'.balances == after.balances
            && height in t'.blocks && t'.blocks[height] == blockHash
            && height in t'.hashes
  {
    hide ProcessAll, BlockHashes;
    NothingProcessed(env, height, Work(t, ""));
  }

  lemma NothingProcessed(env: Env, height: nat, w: Work)
    requires DecimalsOk(w.tables)
    ensures ProcessAll(env, height, w, []) == w
  {
  }
}
