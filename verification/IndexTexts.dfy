/** When the event hashes of the BRC-20 indexer commit to the events themselves: the strings of a block can be
    read back one by one, whatever characters the ticks hold, as long as ids and scripts hold no ';' and
    parent ids no '|'. */
module IndexTexts {
  import opened Wrappers
  import opened Numbers
  import opened IndexTables
  import opened IndexSpec
  import opened IndexRules
  import opened IndexGrain
  import opened IndexExtra
  import opened IndexHashes
  import opened IndexReindex

  // ---- cutting a string

  /** The first separator ends the first field. */
  lemma Cut(p: string, x: string, q: string, y: string, c: char)
    requires c !in p && c !in q && p + ([c] + x) == q + ([c] + y)
    ensures p == q && x == y
  {
    var s := p + ([c] + x);
    assert s[|p|] == c && s[|q|] == c;
    assert forall i | 0 <= i < |p| :: s[i] == p[i];
    assert forall i | 0 <= i < |q| :: s[i] == q[i];
    assert |p| == |q|;
    assert p == s[..|p|] && q == s[..|p|];
    assert x == s[|p| + 1..] && y == s[|p| + 1..];
  }

  /** Two ticks in a row can be told from what follows, even when they hold separators: they are equally long,
      equal up to case, and what follows does not start with a separator. */
  lemma CutTicks(t: string, o: string, x: string, t': string, o': string, y: string)
    requires t == Lower(o) && (|o| == 4 || |o| == 5) && x != "" && x[0] != ';'
    requires t' == Lower(o') && (|o'| == 4 || |o'| == 5) && y != "" && y[0] != ';'
    requires t + (";" + (o + (";" + x))) == t' + (";" + (o' + (";" + y)))
    ensures t == t' && o == o' && x == y
  {
    var s := t + (";" + (o + (";" + x)));
    if |t| == |t'| {
      assert t == s[..|t|] && t' == s[..|t|];
      assert o == s[|t| + 1..][..|o|] && o' == s[|t| + 1..][..|o|];
      assert x == s[2 * |t| + 2..] && y == s[2 * |t| + 2..];
    } else if |t| == 4 {
      ShorterTick(t, o, x, t', o', y);
    } else {
      ShorterTick(t', o', y, t, o, x);
    }
  }

  /** Read with five characters, the tick would end in the separator, and so would the original tick: but that
      is where the next field starts. */
  lemma ShorterTick(t: string, o: string, x: string, t': string, o': string, y: string)
    requires t == Lower(o) && |o| == 4 && x != "" && t' == Lower(o') && |o'| == 5
    requires t + (";" + (o + (";" + x))) == t' + (";" + (o' + (";" + y)))
    ensures x[0] == ';'
  {
    var s := t + (";" + (o + (";" + x)));
    assert s[4] == ';' && s[10] == x[0];
    assert s[4] == t'[4] && s[10] == o'[4];
  }

  // ---- amounts

  lemma AmountIsClear(n: nat, decimals: nat)
    requires decimals <= 18 && PrintsExactly(n, decimals)
    ensures var s := Fixed(Dec(n), decimals); s != "" && s[0] != ';' && ';' !in s && '|' !in s
  {
    hide Extended, Dec, Fixed;
    var s := Fixed(Dec(n), decimals);
    var d := DotIndex(s);
    forall i | 0 <= i < |s|
      ensures IsDigit(s[i]) || s[i] == '.'
    {
      if i < d {
        assert s[i] == s[..d][i];
      } else if i > d {
        assert s[i] == s[d + 1..][i - d - 1];
      }
    }
  }

  /** A printed amount shows with how many decimals it was printed. */
  lemma DecimalsAreShown(n: nat, decimals: nat)
    requires decimals <= 18
    ensures var s := Fixed(Dec(n), decimals);
            decimals == if DotIndex(s) == |s| then 0 else |s| - DotIndex(s) - 1
  {
    hide Dec, Fixed, Padded;
    var p := Padded(n);
    var whole := p[..|p| - 18];
    FixedForm(n, decimals);
    var s := Fixed(Dec(n), decimals);
    assert s[..|whole|] == whole;
    DotIs(s, |whole|);
  }

  /** Equal printed amounts are equal amounts, printed with equal decimals. */
  lemma AmountIsShown(n: nat, d: nat, m: nat, e: nat)
    requires d <= 18 && e <= 18 && PrintsExactly(n, d) && PrintsExactly(m, e)
    requires Fixed(Dec(n), d) == Fixed(Dec(m), e)
    ensures n == m && d == e
  {
    hide Dec, Fixed, Extended;
    DecimalsAreShown(n, d);
    DecimalsAreShown(m, e);
  }

  lemma DecIsClear(n: nat)
    ensures ';' !in Dec(n)
  {
    hide Dec;
    assert forall i | 0 <= i < |Dec(n)| :: IsDigit(Dec(n)[i]);
  }

  // ---- reading an event string

  /** The event as its string shows it: of a settlement neither the transaction, nor whether an empty script
      is one. */
  function Unmarked(e: Event): Event {
    if e.Move? then e.(spent := Some(e.spent.GetOr("")), usingTxId := 0) else e
  }

  /** The tick is the original one in lower case. */
  predicate Folded(e: Event) {
    e.tick == Lower(e.originalTick) && (|e.originalTick| == 4 || |e.originalTick| == 5)
  }

  function Owner(e: Event): string {
    match e
    case Deploy(deployer, _, _, _, _, _, _) => deployer
    case Mint(minter, _, _, _, _) => minter
    case Inscribe(source, _, _, _) => source
    case Move(source, _, _, _, _, _) => source
  }

  /** Ids and scripts hold no ';', parent ids no '|'; nothing is asked of the ticks. */
  predicate Separable(e: Event, id: string) {
    && ';' !in id && ';' !in Owner(e)
    && (e.Move? ==> ';' !in e.spent.GetOr(""))
    && (e.Mint? ==> '|' !in e.parentId)
  }

  predicate Readable(e: Event, id: string, decimals: nat) {
    && decimals <= 18 && (e.Deploy? ==> e.decimals == decimals)
    && Folded(e) && Separable(e, id) && AmountsPrintExactly(e, decimals)
  }

  function Kind(e: Event): (s: string)
    ensures ';' !in s
  {
    match e
    case Deploy(_, _, _, _, _, _, _) => "deploy-inscribe"
    case Mint(_, _, _, _, _) => "mint-inscribe"
    case Inscribe(_, _, _, _) => "transfer-inscribe"
    case Move(_, _, _, _, _, _) => "transfer-transfer"
  }

  /** The amount that follows the ticks. */
  function Amount(e: Event): nat {
    match e
    case Deploy(_, _, _, maxSupply, _, _, _) => maxSupply
    case Mint(_, _, _, amount, _) => amount
    case Inscribe(_, _, _, amount) => amount
    case Move(_, _, _, _, amount, _) => amount
  }

  /** From the amount on, with what follows the string. */
  function Tail(e: Event, decimals: nat, next: string): string
    requires decimals <= 18
  {
    var amount := Fixed(Dec(Amount(e)), decimals);
    match e
    case Deploy(_, _, _, _, _, limit, selfMint) =>
      amount + (";" + (Dec(decimals) + (";" + (Fixed(Dec(limit), decimals) + (";" + (Flag(selfMint) + ("|" + next)))))))
    case Mint(_, _, _, _, parentId) => amount + (";" + (parentId + ("|" + next)))
    case Inscribe(_, _, _, _) => amount + ("|" + next)
    case Move(_, _, _, _, _, _) => amount + ("|" + next)
  }

  function Ticks(e: Event, decimals: nat, next: string): string
    requires decimals <= 18
  {
    e.tick + (";" + (e.originalTick + (";" + Tail(e, decimals, next))))
  }

  function Middle(e: Event, decimals: nat, next: string): string
    requires decimals <= 18
  {
    if e.Move? then e.spent.GetOr("") + (";" + Ticks(e, decimals, next)) else Ticks(e, decimals, next)
  }

  lemma Regroup(front: string, field: string, rest: string)
    ensures front + ";" + field + rest == front + (";" + (field + rest))
  {
  }

  lemma RegroupTicks(front: string, e: Event, rest: string)
    ensures front + ";" + e.tick + ";" + e.originalTick + ";" + rest ==
            front + (";" + (e.tick + (";" + (e.originalTick + (";" + rest)))))
  {
    Regroup(front + ";" + e.tick, e.originalTick, ";" + rest);
    Regroup(front, e.tick, ";" + (e.originalTick + (";" + rest)));
  }

  lemma StringForm(e: Event, id: string, decimals: nat, next: string)
    requires decimals <= 18 && (e.Deploy? ==> e.decimals == decimals)
    ensures EventStr(e, id, decimals) + SEPARATOR + next ==
            Kind(e) + (";" + (id + (";" + (Owner(e) + (";" + Middle(e, decimals, next))))))
  {
    hide Fixed, Dec, Flag;
    var front := Kind(e) + ";" + id + ";" + Owner(e);
    TailForm(e, id, decimals, next);
    KindStarts(e, id);
    if e.Move? {
      RegroupTicks(front + ";" + e.spent.GetOr(""), e, Tail(e, decimals, next));
      Regroup(front, e.spent.GetOr(""), ";" + Ticks(e, decimals, next));
    } else {
      RegroupTicks(front, e, Tail(e, decimals, next));
    }
    Regroup(Kind(e) + ";" + id, Owner(e), ";" + Middle(e, decimals, next));
    Regroup(Kind(e), id, ";" + (Owner(e) + (";" + Middle(e, decimals, next))));
  }

  /** Up to the amount, as `get_event_str` writes it. */
  function Start(e: Event, id: string): string {
    match e
    case Deploy(deployer, tick, originalTick, _, _, _, _) =>
      "deploy-inscribe;" + id + ";" + deployer + ";" + tick + ";" + originalTick + ";"
    case Mint(minter, tick, originalTick, _, _) =>
      "mint-inscribe;" + id + ";" + minter + ";" + tick + ";" + originalTick + ";"
    case Inscribe(source, tick, originalTick, _) =>
      "transfer-inscribe;" + id + ";" + source + ";" + tick + ";" + originalTick + ";"
    case Move(source, spent, tick, originalTick, _, _) =>
      "transfer-transfer;" + id + ";" + source + ";" + spent.GetOr("") + ";" + tick + ";" + originalTick + ";"
  }

  lemma KindStarts(e: Event, id: string)
    ensures var front := Kind(e) + ";" + id + ";" + Owner(e);
            Start(e, id) ==
            (if e.Move? then front + ";" + e.spent.GetOr("") else front) + ";" + e.tick + ";" + e.originalTick + ";"
  {
    assert Kind(e) + ";" == match e
                            case Deploy(_, _, _, _, _, _, _) => "deploy-inscribe;"
                            case Mint(_, _, _, _, _) => "mint-inscribe;"
                            case Inscribe(_, _, _, _) => "transfer-inscribe;"
                            case Move(_, _, _, _, _, _) => "transfer-transfer;";
  }

  lemma RegroupTerms(start: string, a: string, d: string, l: string, f: string, rest: string)
    ensures start + a + ";" + d + ";" + l + ";" + f + rest ==
            start + (a + (";" + (d + (";" + (l + (";" + (f + rest)))))))
  {
    Regroup(start + a + ";" + d + ";" + l, f, rest);
    Regroup(start + a + ";" + d, l, ";" + (f + rest));
    Regroup(start + a, d, ";" + (l + (";" + (f + rest))));
  }

  lemma DeployForm(e: Event, id: string, next: string)
    requires e.Deploy? && e.decimals <= 18
    ensures EventStr(e, id, e.decimals) + SEPARATOR + next == Start(e, id) + Tail(e, e.decimals, next)
  {
    hide Fixed, Dec, Flag;
    RegroupTerms(Start(e, id), Fixed(Dec(e.maxSupply), e.decimals), Dec(e.decimals), Fixed(Dec(e.limit), e.decimals),
                 Flag(e.selfMint), "|" + next);
  }

  lemma MintForm(e: Event, id: string, decimals: nat, next: string)
    requires e.Mint? && decimals <= 18
    ensures EventStr(e, id, decimals) + SEPARATOR + next == Start(e, id) + Tail(e, decimals, next)
  {
    hide Fixed, Dec;
    Regroup(Start(e, id) + Fixed(Dec(e.amount), decimals), e.parentId, "|" + next);
  }

  lemma TransferForm(e: Event, id: string, decimals: nat, next: string)
    requires (e.Inscribe? || e.Move?) && decimals <= 18
    ensures EventStr(e, id, decimals) + SEPARATOR + next == Start(e, id) + Tail(e, decimals, next)
  {
    hide Fixed, Dec;
  }

  lemma TailForm(e: Event, id: string, decimals: nat, next: string)
    requires decimals <= 18 && (e.Deploy? ==> e.decimals == decimals)
    ensures EventStr(e, id, decimals) + SEPARATOR + next == Start(e, id) + Tail(e, decimals, next)
  {
    hide EventStr, Start, Tail;
    match e
    case Deploy(_, _, _, _, _, _, _) => DeployForm(e, id, next);
    case Mint(_, _, _, _, _) => MintForm(e, id, decimals, next);
    case _ => TransferForm(e, id, decimals, next);
  }

  lemma CutDeploy(a: string, d: nat, limit: string, flag: bool, u: string,
                  a': string, d': nat, limit': string, flag': bool, v: string)
    requires ';' !in a && ';' !in a' && ';' !in limit && ';' !in limit'
    requires a + (";" + (Dec(d) + (";" + (limit + (";" + (Flag(flag) + ("|" + u))))))) ==
             a' + (";" + (Dec(d') + (";" + (limit' + (";" + (Flag(flag') + ("|" + v)))))))
    ensures a == a' && limit == limit' && flag == flag' && u == v
  {
    hide Dec, Flag;
    var z, z' := Flag(flag) + ("|" + u), Flag(flag') + ("|" + v);
    var y, y' := limit + (";" + z), limit' + (";" + z');
    DecIsClear(d);
    DecIsClear(d');
    FlagIsClear();
    Cut(a, Dec(d) + (";" + y), a', Dec(d') + (";" + y'), ';');
    Cut(Dec(d), y, Dec(d'), y', ';');
    Cut(limit, z, limit', z', ';');
    Cut(Flag(flag), u, Flag(flag'), v, '|');
  }

  lemma FlagIsClear()
    ensures forall b :: '|' !in Flag(b)
    ensures Flag(true) != Flag(false)
  {
    assert |Flag(true)| == 4 && |Flag(false)| == 5;
  }

  lemma CutTail(e: Event, d: nat, u: string, e': Event, d': nat, v: string)
    requires d <= 18 && (e.Deploy? ==> e.decimals == d) && AmountsPrintExactly(e, d)
    requires d' <= 18 && (e'.Deploy? ==> e'.decimals == d') && AmountsPrintExactly(e', d')
    requires Kind(e) == Kind(e') && Tail(e, d, u) == Tail(e', d', v)
    requires e.Mint? ==> '|' !in e.parentId && '|' !in e'.parentId
    ensures Amount(e) == Amount(e') && d == d' && u == v
    ensures e.Deploy? ==> e.limit == e'.limit && e.selfMint == e'.selfMint
    ensures e.Mint? ==> e.parentId == e'.parentId
  {
    hide Fixed, Dec, PrintsExactly;
    AmountIsClear(Amount(e), d);
    AmountIsClear(Amount(e'), d');
    var a, a' := Fixed(Dec(Amount(e)), d), Fixed(Dec(Amount(e')), d');
    match e
    case Deploy(_, _, _, _, _, limit, selfMint) =>
      var l, l' := Fixed(Dec(limit), d), Fixed(Dec(e'.limit), d');
      AmountIsClear(limit, d);
      AmountIsClear(e'.limit, d');
      CutDeploy(a, d, l, selfMint, u, a', d', l', e'.selfMint, v);
      AmountIsShown(Amount(e), d, Amount(e'), d');
      AmountIsShown(limit, d, e'.limit, d');
    case Mint(_, _, _, _, parentId) =>
      Cut(a, parentId + ("|" + u), a', e'.parentId + ("|" + v), ';');
      Cut(parentId, u, e'.parentId, v, '|');
      AmountIsShown(Amount(e), d, Amount(e'), d');
    case _ =>
      Cut(a, u, a', v, '|');
      AmountIsShown(Amount(e), d, Amount(e'), d');
  }

  lemma KindsDiffer(e: Event, e': Event)
    requires Kind(e) == Kind(e')
    ensures (e.Deploy? <==> e'.Deploy?) && (e.Mint? <==> e'.Mint?) && (e.Move? <==> e'.Move?)
  {
    assert |"deploy-inscribe"| == 15 && |"mint-inscribe"| == 13;
    assert "transfer-inscribe"[9] == 'i' && "transfer-transfer"[9] == 't';
  }

  /** The text after an event string begins where the string ends, and the string determines its event up to
      what it does not show, and the decimals it was printed with. */
  lemma {:induction false} StringIsReadable(e: Event, id: string, d: nat, u: string,
                                            e': Event, id': string, d': nat, v: string)
    requires Readable(e, id, d) && Readable(e', id', d')
    requires EventStr(e, id, d) + SEPARATOR + u == EventStr(e', id', d') + SEPARATOR + v
    ensures id == id' && Unmarked(e) == Unmarked(e') && d == d' && u == v
  {
    hide EventStr, Tail, PrintsExactly, Lower, Kind;
    StringForm(e, id, d, u);
    StringForm(e', id', d', v);
    var m, m' := Middle(e, d, u), Middle(e', d', v);
    Cut(Kind(e), id + (";" + (Owner(e) + (";" + m))), Kind(e'), id' + (";" + (Owner(e') + (";" + m'))), ';');
    Cut(id, Owner(e) + (";" + m), id', Owner(e') + (";" + m'), ';');
    Cut(Owner(e), m, Owner(e'), m', ';');
    KindsDiffer(e, e');
    if e.Move? {
      Cut(e.spent.GetOr(""), Ticks(e, d, u), e'.spent.GetOr(""), Ticks(e', d', v), ';');
    }
    TailStart(e, d, u);
    TailStart(e', d', v);
    CutTicks(e.tick, e.originalTick, Tail(e, d, u), e'.tick, e'.originalTick, Tail(e', d', v));
    CutTail(e, d, u, e', d', v);
    SameParts(e, e');
  }

  lemma TailStart(e: Event, d: nat, u: string)
    requires d <= 18 && AmountsPrintExactly(e, d)
    ensures Tail(e, d, u) != "" && Tail(e, d, u)[0] != ';'
  {
    hide Fixed, Dec, PrintsExactly;
    AmountIsClear(Amount(e), d);
  }

  lemma SameParts(e: Event, e': Event)
    requires (e.Deploy? <==> e'.Deploy?) && (e.Mint? <==> e'.Mint?) && (e.Move? <==> e'.Move?)
    requires Owner(e) == Owner(e') && e.tick == e'.tick && e.originalTick == e'.originalTick && Amount(e) == Amount(e')
    requires e.Deploy? ==> e.decimals == e'.decimals && e.limit == e'.limit && e.selfMint == e'.selfMint
    requires e.Mint? ==> e.parentId == e'.parentId
    requires e.Move? ==> e.spent.GetOr("") == e'.spent.GetOr("")
    ensures Unmarked(e) == Unmarked(e')
  {
  }

  // ---- what is hashed

  function Join(parts: seq<string>, separator: string): string {
    if parts == [] then ""
    else if |parts| == 1 then parts[0]
    else Join(parts[..|parts| - 1], separator) + separator + parts[|parts| - 1]
  }

  lemma JoinMore(parts: seq<string>, separator: string, last: string)
    requires parts != []
    ensures Join(parts + [last], separator) == Join(parts, separator) + separator + last
  {
    assert (parts + [last])[..|parts|] == parts;
  }

  /** The fields of an event string: its label, the inscription, the scripts, the ticks, and what was deployed,
      minted or moved. */
  function Fields(e: Event, id: string, decimals: nat): seq<string>
    requires decimals <= 18
  {
    match e
    case Deploy(deployer, tick, originalTick, maxSupply, d, limit, selfMint) =>
      ["deploy-inscribe", id, deployer, tick, originalTick, Fixed(Dec(maxSupply), decimals), Dec(d),
       Fixed(Dec(limit), decimals), if selfMint then "true" else "false"]
    case Mint(minter, tick, originalTick, amount, parentId) =>
      ["mint-inscribe", id, minter, tick, originalTick, Fixed(Dec(amount), decimals), parentId]
    case Inscribe(source, tick, originalTick, amount) =>
      ["transfer-inscribe", id, source, tick, originalTick, Fixed(Dec(amount), decimals)]
    case Move(source, spent, tick, originalTick, amount, _) =>
      ["transfer-transfer", id, source, spent.GetOr(""), tick, originalTick, Fixed(Dec(amount), decimals)]
  }

  lemma JoinSix(a: string, b: string, c: string, d: string, e: string, f: string)
    ensures Join([a, b, c, d, e, f], ";") == a + ";" + b + ";" + c + ";" + d + ";" + e + ";" + f
  {
    hide Join;
    JoinOne(a);
    JoinMore([a], ";", b);
    JoinMore([a, b], ";", c);
    JoinMore([a, b, c], ";", d);
    JoinMore([a, b, c, d], ";", e);
    JoinMore([a, b, c, d, e], ";", f);
    assert [a] + [b] == [a, b] && [a, b] + [c] == [a, b, c] && [a, b, c] + [d] == [a, b, c, d];
    assert [a, b, c, d] + [e] == [a, b, c, d, e] && [a, b, c, d, e] + [f] == [a, b, c, d, e, f];
  }

  lemma JoinOne(a: string)
    ensures Join([a], ";") == a
  {
  }

  lemma JoinSeven(a: string, b: string, c: string, d: string, e: string, f: string, g: string)
    ensures Join([a, b, c, d, e, f, g], ";") == a + ";" + b + ";" + c + ";" + d + ";" + e + ";" + f + ";" + g
  {
    hide Join;
    JoinSix(a, b, c, d, e, f);
    JoinMore([a, b, c, d, e, f], ";", g);
    assert [a, b, c, d, e, f] + [g] == [a, b, c, d, e, f, g];
  }

  lemma JoinNine(a: string, b: string, c: string, d: string, e: string, f: string, g: string, h: string, i: string)
    ensures Join([a, b, c, d, e, f, g, h, i], ";") ==
            a + ";" + b + ";" + c + ";" + d + ";" + e + ";" + f + ";" + g + ";" + h + ";" + i
  {
    hide Join;
    JoinSeven(a, b, c, d, e, f, g);
    JoinMore([a, b, c, d, e, f, g], ";", h);
    JoinMore([a, b, c, d, e, f, g, h], ";", i);
    assert [a, b, c, d, e, f, g] + [h] == [a, b, c, d, e, f, g, h];
    assert [a, b, c, d, e, f, g, h] + [i] == [a, b, c, d, e, f, g, h, i];
  }

  /** An event string is its fields with semicolons between them. */
  lemma EventStringIs(e: Event, id: string, decimals: nat)
    requires decimals <= 18 && (e.Deploy? ==> e.decimals == decimals)
    ensures EventStr(e, id, decimals) == Join(Fields(e, id, decimals), ";")
  {
    hide EventStr, Fields, Join;
    match e
    case Deploy(_, _, _, _, _, _, _) => DeployStringIs(e, id);
    case Mint(_, _, _, _, _) => MintStringIs(e, id, decimals);
    case Inscribe(_, _, _, _) => InscribeStringIs(e, id, decimals);
    case Move(_, _, _, _, _, _) => MoveStringIs(e, id, decimals);
  }

  lemma DeployStringIs(e: Event, id: string)
    requires e.Deploy? && e.decimals <= 18
    ensures EventStr(e, id, e.decimals) == Join(Fields(e, id, e.decimals), ";")
  {
    hide Fixed, Dec, Join;
    JoinNine("deploy-inscribe", id, e.deployer, e.tick, e.originalTick, Fixed(Dec(e.maxSupply), e.decimals),
             Dec(e.decimals), Fixed(Dec(e.limit), e.decimals), if e.selfMint then "true" else "false");
    assert "deploy-inscribe" + ";" == "deploy-inscribe;";
  }

  lemma MintStringIs(e: Event, id: string, decimals: nat)
    requires e.Mint? && decimals <= 18
    ensures EventStr(e, id, decimals) == Join(Fields(e, id, decimals), ";")
  {
    hide Fixed, Dec, Join;
    JoinSeven("mint-inscribe", id, e.minter, e.tick, e.originalTick, Fixed(Dec(e.amount), decimals), e.parentId);
    assert "mint-inscribe" + ";" == "mint-inscribe;";
  }

  lemma InscribeStringIs(e: Event, id: string, decimals: nat)
    requires e.Inscribe? && decimals <= 18
    ensures EventStr(e, id, decimals) == Join(Fields(e, id, decimals), ";")
  {
    hide Fixed, Dec, Join;
    JoinSix("transfer-inscribe", id, e.source, e.tick, e.originalTick, Fixed(Dec(e.amount), decimals));
    assert "transfer-inscribe" + ";" == "transfer-inscribe;";
  }

  lemma MoveStringIs(e: Event, id: string, decimals: nat)
    requires e.Move? && decimals <= 18
    ensures EventStr(e, id, decimals) == Join(Fields(e, id, decimals), ";")
  {
    hide Fixed, Dec, Join;
    JoinSeven("transfer-transfer", id, e.source, e.spent.GetOr(""), e.tick, e.originalTick,
              Fixed(Dec(e.amount), decimals));
    assert "transfer-transfer" + ";" == "transfer-transfer;";
  }

  function StringOf(tickers: map<string, Ticker>, r: EventRow): string
    requires Printable(tickers, r)
  {
    Join(Fields(r.event, r.inscriptionId, tickers[r.event.tick].decimals), ";")
  }

  /** The strings of some rows of the log. */
  function StringsOf(tickers: map<string, Ticker>, events: seq<EventRow>): seq<string>
    requires AllPrintable(tickers, events)
  {
    if events == [] then []
    else
      var last := events[|events| - 1];
      assert Printable(tickers, last);
      StringsOf(tickers, events[..|events| - 1]) + [StringOf(tickers, last)]
  }

  lemma TextOfIs(tickers: map<string, Ticker>, r: EventRow)
    requires Printable(tickers, r)
    ensures TextOf(tickers, r) == StringOf(tickers, r) + "|"
  {
    hide EventStr, Join, Fields;
    EventStringIs(r.event, r.inscriptionId, tickers[r.event.tick].decimals);
  }

  lemma {:induction false} BlockTextIs(tickers: map<string, Ticker>, events: seq<EventRow>)
    requires AllPrintable(tickers, events)
    ensures BlockText(tickers, events) ==
            if events == [] then "" else Join(StringsOf(tickers, events), "|") + "|"
  {
    hide BlockText, TextOf, StringOf, Join, Printable;
    if events == [] {
      NoRows(tickers);
    } else {
      var n := |events| - 1;
      TextBack(tickers, events);
      TextOfIs(tickers, events[n]);
      BlockTextIs(tickers, events[..n]);
      if n > 0 {
        JoinMore(StringsOf(tickers, events[..n]), "|", StringOf(tickers, events[n]));
      } else {
        JoinedOne(StringOf(tickers, events[n]));
      }
    }
  }

  lemma JoinedOne(a: string)
    ensures Join([a], "|") == a && [] + [a] == [a]
  {
  }

  /** What is hashed for a height is its event strings, in order, with bars between them. */
  lemma {:induction false} HashedTextIs(t: Tables, height: nat)
    requires RulesOk(t)
    ensures AllPrintable(t.tickers, EventsAt(t.events, height))
    ensures Stripped(TextAt(t, height)) == Join(StringsOf(t.tickers, EventsAt(t.events, height)), "|")
  {
    hide RulesOk, EventsAt, BlockText;
    TextAtIs(t, height);
    BlockTextIs(t.tickers, EventsAt(t.events, height));
    var joined := Join(StringsOf(t.tickers, EventsAt(t.events, height)), "|");
    assert (joined + "|")[..|joined|] == joined;
  }

  /** The hashes that indexing stores: of the event strings of the height, and of the cumulative hash below
      followed by that one; the first height has one hash. */
  lemma {:induction false} StoredHashesAre(env: Env, chain: seq<Block>, height: nat)
    requires env.firstHeight <= height < env.firstHeight + |chain|
    ensures var t := Replay(env, chain);
            && height in t.hashes && AllPrintable(t.tickers, EventsAt(t.events, height))
            && t.hashes[height].block == env.hash(Join(StringsOf(t.tickers, EventsAt(t.events, height)), "|"))
            && (height == env.firstHeight ==> t.hashes[height].cumulative == t.hashes[height].block)
            && (height > env.firstHeight ==>
                  height - 1 in t.hashes && t.hashes[height].cumulative ==
                                            env.hash(t.hashes[height - 1].cumulative + t.hashes[height].block))
  {
    hide Replay, RulesOk, DecimalsOk, HashesFollowLog, TextAt, Stripped, Join, StringsOf, EventsAt;
    var t := Replay(env, chain);
    HashesAreOfLog(env, chain);
    FollowsAt(env, t, height);
    HashedTextIs(t, height);
  }

  // ---- reading the text of a block

  /** What the text shows of a row of the log. */
  datatype Printed = Printed(inscriptionId: string, event: Event, decimals: nat)

  function PrintedOf(tickers: map<string, Ticker>, r: EventRow): Printed
    requires Printable(tickers, r)
  {
    Printed(r.inscriptionId, Unmarked(r.event), tickers[r.event.tick].decimals)
  }

  function PrintedRows(tickers: map<string, Ticker>, events: seq<EventRow>): (rows: seq<Printed>)
    requires AllPrintable(tickers, events)
    ensures |rows| == |events|
  {
    seq(|events|, i requires 0 <= i < |events| => PrintedOf(tickers, events[i]))
  }

  ghost predicate AllReadable(tickers: map<string, Ticker>, events: seq<EventRow>) {
    forall r | r in events ::
      Printable(tickers, r) && Readable(r.event, r.inscriptionId, tickers[r.event.tick].decimals)
  }

  lemma TextBack(tickers: map<string, Ticker>, events: seq<EventRow>)
    requires AllPrintable(tickers, events) && events != []
    ensures var last := events[|events| - 1];
            Printable(tickers, last) &&
            BlockText(tickers, events) == BlockText(tickers, events[..|events| - 1]) + TextOf(tickers, last)
  {
    hide EventStr;
    assert Printable(tickers, events[|events| - 1]);
  }

  /** The text also grows at its front. */
  lemma {:induction false} TextFront(tickers: map<string, Ticker>, events: seq<EventRow>)
    requires AllPrintable(tickers, events) && events != []
    ensures Printable(tickers, events[0]) && AllPrintable(tickers, events[1..])
    ensures BlockText(tickers, events) == TextOf(tickers, events[0]) + BlockText(tickers, events[1..])
  {
    hide TextOf, Printable, BlockText;
    var n := |events| - 1;
    assert Printable(tickers, events[0]) && AllPrintable(tickers, events[1..]);
    TextBack(tickers, events);
    if n > 0 {
      TextBack(tickers, events[1..]);
      TextFront(tickers, events[..n]);
      assert events[1..][..n - 1] == events[..n][1..] && events[1..][n - 1] == events[n];
    } else {
      NoRows(tickers);
      assert events[..0] == events[1..] == [];
    }
  }

  lemma NoRows(tickers: map<string, Ticker>)
    ensures BlockText(tickers, []) == ""
  {
  }

  /** Equal texts have equal rows, in order, up to what the strings do not show. */
  lemma {:induction false} TextIsReadable(ta: map<string, Ticker>, a: seq<EventRow>,
                                          tb: map<string, Ticker>, b: seq<EventRow>)
    requires AllReadable(ta, a) && AllReadable(tb, b)
    requires BlockText(ta, a) == BlockText(tb, b)
    ensures PrintedRows(ta, a) == PrintedRows(tb, b)
  {
    hide EventStr, Readable, BlockText, Unmarked;
    if a == [] || b == [] {
      OnlyEmpty(ta, a);
      OnlyEmpty(tb, b);
    } else {
      TextFront(ta, a);
      TextFront(tb, b);
      assert a[0] in a && b[0] in b;
      StringIsReadable(a[0].event, a[0].inscriptionId, ta[a[0].event.tick].decimals, BlockText(ta, a[1..]),
                       b[0].event, b[0].inscriptionId, tb[b[0].event.tick].decimals, BlockText(tb, b[1..]));
      TextIsReadable(ta, a[1..], tb, b[1..]);
      assert PrintedRows(ta, a) == [PrintedOf(ta, a[0])] + PrintedRows(ta, a[1..]);
      assert PrintedRows(tb, b) == [PrintedOf(tb, b[0])] + PrintedRows(tb, b[1..]);
    }
  }

  lemma OnlyEmpty(tickers: map<string, Ticker>, events: seq<EventRow>)
    requires AllPrintable(tickers, events)
    ensures BlockText(tickers, events) == "" <==> events == []
    ensures events != [] ==>
              |BlockText(tickers, events)| > 1 && BlockText(tickers, events)[|BlockText(tickers, events)| - 1] == '|'
  {
    hide EventStr;
    if events != [] {
      var last := events[|events| - 1];
      assert Printable(tickers, last);
      StringIsNotEmpty(last.event, last.inscriptionId, tickers[last.event.tick].decimals);
    }
  }

  lemma UnmarkedString(e: Event, id: string, d: nat)
    requires d <= 18 && (e.Deploy? ==> e.decimals == d)
    ensures EventStr(Unmarked(e), id, d) == EventStr(e, id, d)
  {
    hide Fixed, Dec;
  }

  /** And equal rows have equal texts. */
  lemma {:induction false} RowsMakeText(ta: map<string, Ticker>, a: seq<EventRow>,
                                        tb: map<string, Ticker>, b: seq<EventRow>)
    requires AllPrintable(ta, a) && AllPrintable(tb, b)
    requires PrintedRows(ta, a) == PrintedRows(tb, b)
    ensures BlockText(ta, a) == BlockText(tb, b)
  {
    hide EventStr, Unmarked;
    var n := |a| - 1;
    assert |PrintedRows(tb, b)| == |a|;
    if a != [] {
      assert Printable(ta, a[n]) && Printable(tb, b[n]);
      assert PrintedOf(ta, a[n]) == PrintedRows(ta, a)[n] == PrintedRows(tb, b)[n] == PrintedOf(tb, b[n]);
      UnmarkedString(a[n].event, a[n].inscriptionId, ta[a[n].event.tick].decimals);
      UnmarkedString(b[n].event, b[n].inscriptionId, tb[b[n].event.tick].decimals);
      assert PrintedRows(ta, a[..n]) == PrintedRows(ta, a)[..n];
      assert PrintedRows(tb, b[..n]) == PrintedRows(tb, b)[..n];
      RowsMakeText(ta, a[..n], tb, b[..n]);
    }
  }

  // ---- every log

  lemma TakenIsFolded(env: Env, height: nat, w: Work, row: TransferRow)
    requires DecimalsOk(w.tables) && Taken(env, height, w, row).Some?
    ensures Folded(Taken(env, height, w, row).value)
  {
    hide Lower, ParseAmount, ParsePositive, ParseDecimals, SelfMintTerms, MintGrant, Unsettled, LastBalance,
         InscribeEvent;
  }

  ghost predicate AllFolded(events: seq<EventRow>) {
    forall r | r in events :: Folded(r.event)
  }

  lemma {:induction false} ProcessAllFolds(env: Env, height: nat, w: Work, rows: seq<TransferRow>)
    requires DecimalsOk(w.tables) && AllFolded(w.tables.events)
    ensures AllFolded(ProcessAll(env, height, w, rows).tables.events)
  {
    hide Taken, Process, Folded, DecimalsOk;
    if rows != [] {
      var n := |rows| - 1;
      ProcessAllFolds(env, height, w, rows[..n]);
      var w' := ProcessAll(env, height, w, rows[..n]);
      ProcessAppends(env, height, w', rows[n]);
      if Taken(env, height, w', rows[n]).Some? {
        TakenIsFolded(env, height, w', rows[n]);
      }
    }
  }

  lemma ProcessAppends(env: Env, height: nat, w: Work, row: TransferRow)
    requires DecimalsOk(w.tables)
    ensures match Taken(env, height, w, row)
            case None => Process(env, height, w, row).tables.events == w.tables.events
            case Some(e) =>
              Process(env, height, w, row).tables.events ==
              w.tables.events + [EventRow(|w.tables.events|, height, row.inscriptionId, e)]
  {
    hide Taken, Noted, LastBalance;
  }

  lemma {:induction false} LogIsFolded(env: Env, chain: seq<Block>)
    ensures AllFolded(Replay(env, chain).events)
  {
    hide ProcessAll, BlockHashes, DecimalsOk, Folded;
    if chain != [] {
      var n := |chain| - 1;
      LogIsFolded(env, chain[..n]);
      ProcessAllFolds(env, env.firstHeight + n, Work(Replay(env, chain[..n]), ""),
                      if env.firstHeight + n < env.firstBrc20Height then [] else chain[n].rows);
    }
  }

  /** What is asked of a log: of its ids, scripts and parents, not of its ticks. */
  ghost predicate SeparableLog(t: Tables) {
    forall r | r in t.events :: Separable(r.event, r.inscriptionId)
  }

  /** Ids and scripts as the indexer is given them. */
  predicate SeparableRow(env: Env, row: TransferRow) {
    && ';' !in row.inscriptionId && ';' !in row.newPkScript
    && (row.inscriptionId in env.catalog ==> '|' !in env.catalog[row.inscriptionId].parentId)
  }

  lemma {:induction false} InscribedBefore(events: seq<EventRow>, id: string)
    requires InscribeCount(events, id) > 0
    ensures exists r :: r in events && r.event == InscribeEvent(events, id)
  {
    var n := |events| - 1;
    if InscribeCount(events[..n], id) > 0 {
      InscribedBefore(events[..n], id);
    } else {
      assert events[n] in events;
    }
  }

  lemma TakenIsSeparable(env: Env, height: nat, w: Work, row: TransferRow)
    requires DecimalsOk(w.tables) && Taken(env, height, w, row).Some?
    requires SeparableLog(w.tables) && SeparableRow(env, row)
    ensures Separable(Taken(env, height, w, row).value, row.inscriptionId)
  {
    hide Lower, ParseAmount, ParsePositive, ParseDecimals, SelfMintTerms, MintGrant, LastBalance, InscribeEvent;
    if Taken(env, height, w, row).value.Move? {
      InscribedBefore(w.tables.events, row.inscriptionId);
    }
  }

  lemma {:induction false} ProcessAllSeparates(env: Env, height: nat, w: Work, rows: seq<TransferRow>)
    requires DecimalsOk(w.tables) && SeparableLog(w.tables) && forall row | row in rows :: SeparableRow(env, row)
    ensures SeparableLog(ProcessAll(env, height, w, rows).tables)
  {
    hide Taken, Process, Separable, SeparableRow, DecimalsOk;
    if rows != [] {
      var n := |rows| - 1;
      ProcessAllSeparates(env, height, w, rows[..n]);
      var w' := ProcessAll(env, height, w, rows[..n]);
      ProcessAppends(env, height, w', rows[n]);
      if Taken(env, height, w', rows[n]).Some? {
        TakenIsSeparable(env, height, w', rows[n]);
      }
    }
  }

  /** The log is separable when the rows it was read from are. */
  lemma {:induction false} LogIsSeparable(env: Env, chain: seq<Block>)
    requires forall b, row | b in chain && row in b.rows :: SeparableRow(env, row)
    ensures SeparableLog(Replay(env, chain))
  {
    hide ProcessAll, BlockHashes, DecimalsOk, Separable, SeparableRow;
    if chain != [] {
      var n := |chain| - 1;
      assert chain[n] in chain;
      LogIsSeparable(env, chain[..n]);
      ProcessAllSeparates(env, env.firstHeight + n, Work(Replay(env, chain[..n]), ""),
                          if env.firstHeight + n < env.firstBrc20Height then [] else chain[n].rows);
    }
  }

  lemma LogIsReadable(env: Env, chain: seq<Block>)
    requires SeparableLog(Replay(env, chain))
    ensures RulesOk(Replay(env, chain))
    ensures AllReadable(Replay(env, chain).tickers, Replay(env, chain).events)
  {
    hide Replay, RulesOk, DecimalsOk, Separable, Folded, AmountsPrintExactly;
    var t := Replay(env, chain);
    RulesAreKept(env, chain);
    RulesPrint(t);
    LogIsFolded(env, chain);
    EventStringsLoseNothing(env, chain);
    forall r | r in t.events
      ensures Printable(t.tickers, r) && Readable(r.event, r.inscriptionId, t.tickers[r.event.tick].decimals)
    {
      assert Printable(t.tickers, r) && Separable(r.event, r.inscriptionId) && Folded(r.event);
    }
  }

  /** What the log shows of a height. */
  ghost function PrintedAt(t: Tables, height: nat): seq<Printed> {
    var events := EventsAt(t.events, height);
    if AllPrintable(t.tickers, events) then PrintedRows(t.tickers, events) else []
  }

  /** Two texts, stripped or not, agree at a height exactly when the printed rows do. */
  lemma {:induction false} TextShowsEvents(t: Tables, t': Tables, height: nat)
    requires RulesOk(t) && AllReadable(t.tickers, t.events)
    requires RulesOk(t') && AllReadable(t'.tickers, t'.events)
    ensures Stripped(TextAt(t, height)) == Stripped(TextAt(t', height)) <==>
              PrintedAt(t, height) == PrintedAt(t', height)
  {
    hide RulesOk, BlockText, Readable, PrintedRows, EventsAt;
    var a, b := EventsAt(t.events, height), EventsAt(t'.events, height);
    TextAtIs(t, height);
    TextAtIs(t', height);
    EventsAtIn(t.events, height);
    EventsAtIn(t'.events, height);
    OnlyEmpty(t.tickers, a);
    OnlyEmpty(t'.tickers, b);
    StrippedIsInjective(TextAt(t, height), TextAt(t', height));
    if TextAt(t, height) == TextAt(t', height) {
      TextIsReadable(t.tickers, a, t'.tickers, b);
    }
    if PrintedAt(t, height) == PrintedAt(t', height) {
      RowsMakeText(t.tickers, a, t'.tickers, b);
    }
  }

  lemma StrippedIsInjective(a: string, b: string)
    requires a != "" ==> |a| > 1 && a[|a| - 1] == '|'
    requires b != "" ==> |b| > 1 && b[|b| - 1] == '|'
    ensures Stripped(a) == Stripped(b) <==> a == b
  {
    if a != "" {
      assert a == a[..|a| - 1] + "|";
    }
    if b != "" {
      assert b == b[..|b| - 1] + "|";
    }
  }

  /** Two chains of one length end in the same cumulative hash exactly when their logs show the same events at
      every height: kind, inscription, scripts, ticks, amounts, terms and parents, in order. */
  lemma {:induction false} CumulativeHashCommitsToEvents(env: Env, a: seq<Block>, b: seq<Block>)
    requires |a| == |b| > 0 && FixedLength(env.hash)
    requires AllDistinguished(env.hash, Texts(env, Replay(env, a), |a|), Texts(env, Replay(env, b), |a|))
    requires SeparableLog(Replay(env, a)) && SeparableLog(Replay(env, b))
    ensures var top := env.firstHeight + |a| - 1;
            && top in Replay(env, a).hashes && top in Replay(env, b).hashes
            && (Replay(env, a).hashes[top].cumulative == Replay(env, b).hashes[top].cumulative <==>
                forall h: nat :: PrintedAt(Replay(env, a), h) == PrintedAt(Replay(env, b), h))
  {
    hide Replay, RulesOk, DecimalsOk, AllDistinguished, FixedLength, TextAt, Stripped, PrintedAt, AllReadable,
         SeparableLog;
    var s, t := Replay(env, a), Replay(env, b);
    CumulativeHashCommits(env, a, b);
    LogIsReadable(env, a);
    LogIsReadable(env, b);
    forall h: nat
      ensures Stripped(TextAt(s, h)) == Stripped(TextAt(t, h)) <==> PrintedAt(s, h) == PrintedAt(t, h)
    {
      TextShowsEvents(s, t, h);
    }
    if Texts(env, s, |a|) == Texts(env, t, |a|) {
      forall h: nat
        ensures PrintedAt(s, h) == PrintedAt(t, h)
      {
        if env.firstHeight <= h < env.firstHeight + |a| {
          assert Texts(env, s, |a|)[h - env.firstHeight] == Texts(env, t, |a|)[h - env.firstHeight];
        } else {
          NothingPrinted(env, a, h);
          NothingPrinted(env, b, h);
        }
      }
    }
  }

  lemma NothingPrinted(env: Env, chain: seq<Block>, height: nat)
    requires !(env.firstHeight <= height < env.firstHeight + |chain|)
    ensures PrintedAt(Replay(env, chain), height) == []
  {
    hide Replay, DecimalsOk;
    var t := Replay(env, chain);
    EventsAtIn(t.events, height);
    if EventsAt(t.events, height) != [] {
      EventsAreInChain(env, chain, EventsAt(t.events, height)[0]);
    }
  }
}
