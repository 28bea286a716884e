# Verified model of brc20-swap, the BRC-20 and runes indexers, and sat numbering

A Dafny model of the parts of the repository where arithmetic, caches and history matter,
with proofs that hold for all inputs and all runs. `dafny verify dfyconfig.toml` checks it.

**The swap contract** (`src/`). The integer calculator, the token ledgers, the table of
ledgers and the contract are objects updated in place (`BigNum`, `Ledgers`, `AssetTable`,
`SwapContract`); each method is proved to leave the state, the result or the error of a
specification on values (`Books`, `ContractSpec`). `PoolCalls`, `PoolEffects` and `PoolTerms`
state exactly when each call goes through and what it changes, `PoolMath`, `PoolSafety` and
`PoolRuns` what the pool promises over arbitrary runs of calls.

**The BRC-20 indexer** (`modules/brc20_index/`). `IndexSpec` processes a chain without any
cache; `Indexer` is the running program with its caches, pending rows, rollback and main
loop, proved to leave the same tables. `IndexRows` states what each kind of row does, on the
fields of its inscription and the tables before it; `IndexRules`, `IndexLedger` and
`IndexGrain` are the invariants of every reachable log, `IndexReorg` the independence from
history, `IndexHashes` the meaning of the event hashes, `IndexTexts` how much of the events
they commit to, `IndexReindex` what recomputing them does, and `IndexExtra` and `ExtraStore`
the derived tables. `Numbers` is the decimal arithmetic.

**The runes store** (`modules/runes_index/`, `modules/runes_api/`). `RunesSpec` says what a
set of log lines means, `RunesReplay` that concurrent queries, rollbacks and past balances
respect it, `RunesHeal` when going on indexing repairs what a rollback lost, and
`RunesTables` is the store itself, with queries that complete in any order.

**Sat numbering** (`ord/src/`). `SatEpochs`, `SatDegrees` and `SatNames` are the block
starts, degrees, rarities and names of sats, `SatSearch` the lookups in the sat ranges.

## Conventions

- Amounts are natural numbers, division and square root round down, and an abort of the
  calculator or a failed `need` is an error value.
- A contract call that throws has no effect: the run model discards its state, as a host
  that works on a copy does. What the objects are left with is stated exactly as well.
- Callers are neither pool accounts (strings of the shape of a pair) nor the lock address
  "0". Ticks are plain: four one-byte characters, as `getPairStruct` assumes; `PairCollision`
  shows why.
- The indexer reads blocks of ordered transfer rows. An inscription has one content and at
  most one creating row (an empty old satpoint). Scripts are even-length hexadecimal. Hashes
  are an arbitrary function, and equal block hashes are taken to mean equal chains below.
- The runes log creates and spends each output once, etches each rune once, and has at most
  one update per rune and height, from the etching block on. The seed rune "1:0" of mainnet,
  which `check_db` inserts itself, counts as the line `Line(1, EntryInsert("1:0", 0, 0))`.
- Where code and documentation differ, the code is followed. The repository's README.md:3 bases
  the contract on Uniswap V2; unlike there, the reserves are the balances themselves, so a
  transfer to a pool account counts in the next price.

## Results that need a condition

- Sat degrees: a parsed degree need not be the degree of its sat. `AcceptedDegree` gives the
  exact condition and `WrappedHour` an input that fails.
- Runes: the strict height guard drops an update of the etching block, such as a premine
  burned where it is etched. The tables are those of the unguarded reference exactly when
  every such update is overtaken or changes nothing (`GuardCost`).
- Runes: for a rune whose later changes are all undone, a rollback writes the change of its
  etching block, or zeros. It restores the shorter chain exactly when those are the values
  the rune was etched with (`RollbackIsShorterChain`); `PremineBurnedAtEtching` is a chain
  where they are not. Going on indexing repairs exactly the runes that the standing chain
  updates above their etching block (`RollbackHeals`, `IndexLines`).
- Event hashes: `reindex_cumulative_hashes` (modules/brc20_index/brc20_index.py:891-918),
  which nothing calls, collects the text of each height in a local variable, but
  `update_event_hashes` hashes the text of the module. It restores the stored hashes exactly when that text hashes like the
  log's at every height (`ReindexRestores`), in a fresh process exactly when nothing has been
  logged (`FreshReindexRestores`); `OneDeployIsLost` is a chain where it does not.
- The reorganisation check stops for good exactly when none of the last ten blocks is still
  in the source, also for a chain shorter than ten (`CatchUp`).
- The derived tables are brought in line exactly when the chains do not differ at height
  zero, since zero stands for "no difference" there; they stay ahead when they were built
  from an extension of the standing chain (`CheckExtraTables`). `FirstBlocksDiffer` gives
  chains that do differ there. The indexer stops rather than replace its first block, so
  this takes a main database that was built again beside old derived tables.
- Two accounts can share a key of the balance cache exactly when lowering leaves their ticks
  with different byte lengths of one parity (`KeyCollisionsExactly`).

## Model

| member | source | states |
|---|---|---|
| PoolRuns.SharesNeverLoseValue | src/contract.ts:61-304 | over any sequence of calls, failed ones included, every initialised pool keeps supply² ≤ kLast ≤ reserve0·reserve1 and its 1000 locked shares, and kLast/supply² never falls, exactly, through first mint, later mints, burns, protocol fees, swaps and gifts |
| PoolRuns.ReservesCoverShares | src/contract.ts:61-304 | from deployment on, the current reserves always cover the value per share recorded at any earlier liquidity event |
| PoolRuns.KNeverFalls | src/contract.ts:239-353 | between two liquidity events of a pool its supply and kLast stand still and reserve0·reserve1 never falls, whatever swaps, sends, deposits and calls to other pools happen |
| PoolRuns.NoFreeTrade | src/contract.ts:239-346 | no run without liquidity events takes from one reserve without leaving the other at least as large: value cannot be traded out |
| PoolRuns.StepKeeps | src/contract.ts:51-353 | one call of any kind, successful or not, keeps the invariant of every pool and loses no share value |
| PoolRuns.InitialIsOk | src/contract.ts:45-49 | a state before any pool was deployed satisfies the invariant, whatever its token balances |
| PoolRuns.NoDegeneratePool | src/contract.ts:51-59 | addLiq and removeLiq never succeed on a pair of equal ticks, although only deployPool checks for it |
| PoolRuns.PoolStaysAlive | src/contract.ts:79-146 | an initialised pool has at least 1000 shares and both reserves positive, so no division of addLiq, removeLiq or getFeeLp can abort on it |
| PoolRuns.FeeDueIsBounded | src/contract.ts:355-382 | the fee L obeys 6·rootK·L ≤ (supply+L)·(rootK−rootKLast), keeps supply+L ≤ rootK, and is zero when the floored roots differ by at most one |
| PoolRuns.ProtocolFeeIsBounded | src/contract.ts:355-395 | in every reachable state mintFee issues such a fee and nothing else to the supply |
| PoolRuns.AddThenRemove | src/contract.ts:113-236 | an addLiq into an initialised pool takes at most what was offered of each token, and removing the minted shares at once returns at most what was put in of both |
| PoolRuns.PricesAreAdjoint | src/contract.ts:306-346 | getAmountOut(getAmountIn(y)) ≥ y, and an input suffices for y exactly when it is at least getAmountIn(y), less one when its division is exact; both prices stay on the fee-weighted curve |
| PoolRuns.SplitTradesStayOnCurve | src/contract.ts:239-304 | any list of swaps in one direction, by any users, together stays on the curve of the reserves it started from |
| PoolRuns.SplittingATradeNeverHelps | src/contract.ts:263-301 | splitting an exact-in trade into any list of consecutive trades never yields more in total than one trade of the summed input, floors included |
| PoolRuns.BaseTicksAreConserved | src/contract.ts:51-353 | over any run the total of a base tick, over all addresses and asset types, changes only by what deposits and withdrawals issue |
| PoolRuns.CallConserves | src/assets.ts:84-137 | each successful call conserves every base tick, self-transfers and conversions included |
| PoolTerms.SwapSucceeds | src/contract.ts:239-346 | a swap goes through if and only if it is well-formed, both ledgers exist, both reserves are positive, the price is within the slippage and positive, and the caller holds the cost |
| PoolTerms.AmountsWhenAffordable | src/contract.ts:263-299 | the price of a swap, both kinds, exists and is affordable exactly under those conditions, stated without the rounded bounds |
| PoolTerms.AddLiqSucceeds | src/contract.ts:61-174 | an addLiq goes through if and only if it is well-formed, the pool and both tokens exist, the caller holds what the trimmed deposits take, and the shares minted, first or later, are positive and within the slippage |
| PoolTerms.RemoveLiqSucceeds | src/contract.ts:176-237 | a removeLiq goes through if and only if the pool and both tokens exist, the caller holds the shares once the fee is minted, both floored payments are positive, and both are within the slippage |
| PoolTerms.ThrownAddLiqConserves | src/contract.ts:61-174 | an addLiq that throws halfway has still conserved the total of every base tick |
| PoolTerms.ThrownRemoveLiqConserves | src/contract.ts:176-237 | so has a removeLiq |
| PoolTerms.ThrownSwapConserves | src/contract.ts:239-304 | and a swap |
| PoolTerms.AddLiqWithinSlippage | src/contract.ts:90-102 | an addLiq that returns has minted at least expect·(1000−slippage)/1000 shares, up to rounding by less than one |
| PoolTerms.RemoveLiqWithinSlippage | src/contract.ts:203-226 | a removeLiq that returns has paid at least that much of both tokens |
| PoolTerms.AddLiqNamesEitherWay | src/contract-utils.ts:7-24 | addLiq is the same call whichever way round the pool and its amounts are named |
| PoolTerms.RemoveLiqNamesEitherWay | src/contract-utils.ts:7-24 | the same for removeLiq |
| PoolTerms.FeeIsLargest | src/contract.ts:362-377 | an amount of shares is at most the fee if and only if it is at most one sixth of the growth of the supply enlarged by it |
| PoolTerms.DepositIsLargest | src/contract.ts:113-143 | of a later deposit one amount is taken in full and of the other the most that keeps to the ratio of the reserves, and it is worth the most shares that dilute neither reserve |
| PoolCalls.DeployPoolEffect | src/contract.ts:51-59 | deployPool goes through if and only if the ticks differ and the pair has no pool, with the right error otherwise; then the pool exists, its ledgers are empty in every kind that had none, and no other ledger and no kLast has changed |
| PoolCalls.DeployPoolOnce | src/contract.ts:51-59 | a second deployPool of the same two ticks, in either order, finds the pool existing |
| PoolCalls.SendEffect | src/contract.ts:348-353 | send goes through if and only if the sender holds the positive amount of the swap asset; the receiver gains exactly what the sender loses, and each failure has its error |
| PoolCalls.SwapErrors | src/contract.ts:239-262 | which error a swap throws for a zero amount, a slippage above 1000, a missing token and an empty reserve, in this order |
| PoolCalls.SwapSlips | src/contract.ts:275-299 | of two swaps that differ only in what they expect, if one goes through the other does or exceeds its slippage |
| PoolCalls.AddLiqErrors | src/contract.ts:61-72 | which error addLiq throws for a zero amount, a slippage above 1000 and a missing pool, in this order |
| PoolCalls.AddLiqSlips | src/contract.ts:90-102 | an addLiq that only expects more than one that goes through exceeds its slippage |
| PoolCalls.RemoveLiqErrors | src/contract.ts:176-191 | which error removeLiq throws for no shares, a slippage above 1000 and, when no k is recorded, a missing pool |
| PoolCalls.RemoveLiqSlips | src/contract.ts:203-226 | a removeLiq that only expects more than one that goes through exceeds its slippage |
| PoolCalls.NextThrown | src/contract.ts:113-160 | what a later addLiq that throws has done: minted its shares, and made as many of the two transfers as the caller could pay |
| PoolCalls.FirstThrown | src/contract.ts:79-102 | what a first addLiq that throws has done: nothing when the root is at most 1000, else minted both shares and made as many transfers as the caller could pay |
| PoolCalls.PayOutThrown | src/contract.ts:199-201 | what a removeLiq that throws has done after its fee: burnt the shares the caller holds, and made the first payment when it is positive |
| PoolCalls.SwapThrown | src/contract.ts:263-301 | a swap that throws has changed nothing, unless it was priced and the caller could pay |
| PoolCalls.DepositEffect | src/assets.ts:84-92 | a deposit goes through for every positive amount, and credits exactly one account of the given kind and tick |
| PoolCalls.MoveSucceeds | src/assets.ts:103-124 | convert and transfer go through if and only if the first account holds the positive amount and the second ledger exists |
| PoolCalls.StrLessIs | src/contract-utils.ts:7-24 | ticks are ordered by their first differing character, a proper prefix first |
| PoolCalls.PairStructIs | src/contract-utils.ts:45-50 | a pair string of plain ticks is decoded if and only if its ticks are in order |
| PoolCalls.OperationErrors | src/brc20.ts:26-67 | which error a transfer, mint or burn on a ledger throws: a missing ledger, no amount, too little held |
| PoolCalls.PairStrIs | src/contract-utils.ts:32-35 | a pool is named by the lesser tick, a slash and the greater one |
| PoolEffects.AddLiqEffect | src/contract.ts:61-174 | everything a successful addLiq changes: the fee to feeTo, the locked and minted shares, the two deposits, kLast, and no other balance; the first mint is the floored geometric mean less 1000, a later one the smaller proportional share of the deposits trimmed to the ratio |
| PoolEffects.RemoveLiqEffect | src/contract.ts:176-237 | everything a successful removeLiq changes, with both payments the floored share of the reserves after the fee, reported under the sorted ticks in which the caller gained them |
| PoolEffects.SwapEffect | src/contract.ts:239-304 | everything a successful swap changes: four balances, no supply, no kLast, at amounts on the curve |
| PoolEffects.MintFeeEffect | src/contract.ts:384-395 | mintFee issues exactly the fee due to feeTo and touches nothing else |
| PoolEffects.AdjustBounds | src/contract.ts:121-139 | the trimmed deposits never exceed the offers, and one of them is taken in full |
| PoolEffects.PricesAreOnCurve | src/contract.ts:263-299 | the amounts of a swap lie on the curve (1000·Rin+(1000−f)·in)·(Rout−out) ≥ 1000·Rin·Rout and are the two price formulas |
| PoolSafety.FeeEvent | src/contract.ts:362-377 | the protocol fee dilutes shares only by growth since the last event |
| PoolSafety.AddKeepsPool | src/contract.ts:117-170 | a later mint, after its fee, keeps the pool invariant and the value of a share |
| PoolSafety.RemoveKeepsPool | src/contract.ts:193-234 | a removal, after its fee, does the same |
| PoolSafety.FirstDepositIsOk | src/contract.ts:79-112 | the first mint establishes the pool invariant |
| PoolSafety.SwappedStep | src/contract.ts:301-301 | a swap keeps every pool: its own grows in k, the others only receive |
| PoolSafety.OtherCallsAreQuiet | src/contract.ts:348-353 | send, deployPool, deposits, withdrawals and asset moves never take from a pool account or its locked shares |
| PoolMath.FeeKeepsShare | src/contract.ts:362-377 | for all supplies, k and kLast with supply² ≤ kLast ≤ k, minting the fee keeps k/supply² at least kLast/supply², although both roots are floored |
| PoolMath.FeeBound | src/contract.ts:366-376 | the one-sixth bound and the root bound of the fee formula, for all numbers |
| PoolMath.NoFeeForGapOne | src/contract.ts:366-376 | a gap of one between the floored roots mints nothing |
| PoolMath.OutIsLargest | src/contract.ts:306-327 | getAmountOut is below the reserve, and an output is on the curve if and only if it is at most getAmountOut |
| PoolMath.InIsLeast | src/contract.ts:329-346 | getAmountIn is the least sufficient input, or one more exactly when its division leaves no remainder |
| PoolMath.CurveComposes | src/contract.ts:306-327 | two consecutive trades on the curve make one trade on the curve |
| PoolMath.CurveKeepsProduct | src/contract.ts:306-327 | a trade on the curve never lowers the product of the reserves |
| PoolMath.MintKeepsShare | src/contract.ts:141-143 | the smaller floored share never dilutes either reserve |
| PoolMath.BurnKeepsShare | src/contract.ts:196-197 | a floored payment never dilutes the remaining shares |
| PoolMath.MintThenBurn | src/contract.ts:141-197 | a share bought by floor division and sold back by floor division returns at most its price |
| SwapContract.Contract.constructor | src/contract.ts:45-49 | the contract starts from the given assets, kLast and configuration |
| SwapContract.Contract.DeployPool | src/contract.ts:51-59 | leaves exactly the specified state, or throws the specified error, duplicate tick before existing pool, and changes nothing |
| SwapContract.Contract.AddLiq | src/contract.ts:61-174 | leaves exactly the specified state and result, or throws the specified error with exactly the specified ledgers and kLast untouched; branches on an empty and an initialised pool |
| SwapContract.Contract.AddLiqFirst | src/contract.ts:79-112 | the first-deposit branch, step by step, and the ledgers where it stops when it throws |
| SwapContract.Contract.AddLiqNext | src/contract.ts:113-173 | the later-deposit branch, step by step, and the ledgers where it stops when it throws |
| SwapContract.Contract.Adjust | src/contract.ts:121-139 | the trimming of the two deposits |
| SwapContract.Contract.RemoveLiq | src/contract.ts:176-237 | leaves exactly the specified state and result, or throws the specified error with exactly the specified ledgers and kLast untouched |
| SwapContract.Contract.SwapTokens | src/contract.ts:239-304 | leaves exactly the specified state and result, or throws the specified error, at most its first transfer done |
| SwapContract.Contract.SwapAmounts | src/contract.ts:263-299 | the two price branches with their slippage tests |
| SwapContract.Contract.GetAmountOut | src/contract.ts:306-327 | the exact-in price or its error |
| SwapContract.Contract.GetAmountIn | src/contract.ts:329-346 | the exact-out price or its error, an output above the reserve included |
| SwapContract.Contract.GetFeeLp | src/contract.ts:355-382 | the liquidity owed to the protocol, computed with the integer calculator |
| SwapContract.Contract.MintFee | src/contract.ts:384-395 | mints that liquidity when it is positive, or throws and changes nothing |
| SwapContract.Contract.RecordK | src/contract.ts:104-110 | kLast becomes the product of the two reserves, or the call throws and changes nothing |
| SwapContract.Contract.Send | src/contract.ts:348-353 | a transfer of shares or tokens, or its error with nothing changed |
| AssetTable.Assets.constructor | src/assets.ts:21-34 | builds the table, each ledger with the sum of its balances as supply |
| AssetTable.Assets.TryCreate | src/assets.ts:43-49 | adds an empty ledger of every kind that lacks the tick and leaves the others |
| AssetTable.Assets.TransferAt | src/assets.ts:55-57 | a transfer on one ledger is the change of one entry of the book, also when it throws |
| AssetTable.Assets.Mint | src/assets.ts:84-92 | creates the tick, then mints; when the mint throws the ledgers have been created |
| AssetTable.Assets.BurnAt | src/assets.ts:94-101 | burns on one ledger, or throws and leaves all as it was |
| AssetTable.Assets.Convert | src/assets.ts:103-112 | moves an amount between two kinds of one address; when the mint throws the burn has been done |
| AssetTable.Assets.Transfer | src/assets.ts:114-124 | moves an amount between two addresses and kinds; when the mint throws the burn has been done |
| AssetTable.Assets.SwapTicks | src/assets.ts:126-137 | both transfers of a swap, in order; when the second throws the first has been done |
| Books.TransferMoves | src/assets.ts:55-57 | a transfer changes two balances, or none when sender and receiver are one, and no supply |
| Books.MoveConserves | src/assets.ts:103-124 | convert and transfer conserve the total of every tick and change two balances only |
| Books.TryCreateKeeps | src/assets.ts:43-49 | creating ledgers changes no balance, no supply and no total |
| Books.IssueChangesTotal | src/assets.ts:84-101 | a mint or burn changes the total of its own tick by its amount, and no other |
| Ledgers.Brc20.constructor | src/brc20.ts:9-16 | the cached supply is the sum of the given balances |
| Ledgers.Brc20.Transfer | src/brc20.ts:26-33 | updates the balances in place as the ledger value prescribes, or throws and changes nothing |
| Ledgers.Brc20.Mint | src/brc20.ts:35-44 | the same for minting, supply included |
| Ledgers.Brc20.Burn | src/brc20.ts:46-56 | the same for burning |
| Ledgers.TransferEffect | src/brc20.ts:26-33 | a transfer keeps supply = sum of balances, moves exactly the amount, and a self-transfer changes nothing |
| Ledgers.MintEffect | src/brc20.ts:35-44 | a mint keeps supply = sum of balances and raises both by the amount |
| Ledgers.BurnEffect | src/brc20.ts:46-56 | a burn succeeds if and only if the holder has the positive amount, and lowers balance and supply by it |
| Ledgers.TwoHolders | src/brc20.ts:4-20 | two different holders never hold more than the supply |
| BigNum.UintCal | src/bn.ts:42-94 | the interpreter loop computes left to right with floors at every division and root, aborting where the source aborts |
| BigNum.ContractExpressions | src/bn.ts:42-94 | what each expression of the contract means: a·b/c floored, a−b or an abort, and so on |
| BigNum.Sqrt | src/bn.ts:78-79 | the integer square root, rounded down |
| ContractUtils.PairRoundTrip | src/contract-utils.ts:32-50 | decoding a pair string of plain ticks gives its two ticks, sorted |
| ContractUtils.PairInjective | src/contract-utils.ts:32-35 | two pools of plain ticks share a pair string if and only if they are the same pool |
| ContractUtils.PairCollision | src/contract-utils.ts:32-35 | without plain ticks two different pools can share a pair string |
| ContractUtils.PairStrSymmetric | src/contract-utils.ts:7-35 | the order in which the ticks are given does not matter |
| Numbers.PrintThenParse | modules/brc20_index/brc20_index.py:181-206 | for all n and 0 ≤ decimals ≤ 18, printing and parsing back gives n rounded down to a multiple of 10^(18−decimals) |
| Numbers.ParsedIsGranular | modules/brc20_index/brc20_index.py:181-193 | whatever the parser accepts is such a multiple |
| Numbers.EventAmountRoundTrip | modules/brc20_index/brc20_index.py:181-206 | printing loses nothing of an amount that is such a multiple |
| Numbers.AcceptedNumbers | modules/brc20_index/brc20_index.py:159-179 | accepted are exactly the digit strings, and two non-empty digit strings around a dot |
| Numbers.WholeNumberIs | modules/brc20_index/brc20_index.py:181-193 | a number without a dot reads as that many whole units, whatever the decimals |
| Numbers.DottedNumberIs | modules/brc20_index/brc20_index.py:181-193 | a number with a dot is refused if and only if more digits follow the dot than the ticker has decimals; otherwise it reads as the number without the dot, shifted by eighteen places less the digits behind it |
| Numbers.PrintedNumberIs | modules/brc20_index/brc20_index.py:195-206 | a printed amount is its whole units without leading zeros and its first decimals behind a dot |
| IndexRows.AmountIsRead | modules/brc20_index/brc20_index.py:639-691 | an amount field reads as a number if and only if it is present, stands for that number on the ticker, and is at most 2^64 − 1 whole units |
| IndexRows.LowerIs | modules/brc20_index/brc20_index.py:629-631 | lower case changes the capitals, letter by letter, and nothing else |
| IndexRows.DeployRow | modules/brc20_index/brc20_index.py:638-672 | a deploy row is logged if and only if the ticker is new, the decimals, the supply and the limit can be read, four characters come with a supply and five with the enabling height and the self-mint flag; the ticker then has these terms, the largest supply and limit replacing zeros, and all of it remaining; every other deploy row is ignored |
| IndexRows.MintRow | modules/brc20_index/brc20_index.py:674-691 | a mint row is granted if and only if the ticker is known, the amount positive and within the limit, something remains and a self-mint has the deployment as parent; it is granted the smaller of the amount and the remaining supply, the minter gains exactly that and the remaining supply falls by it; every other mint row is ignored |
| IndexRows.InscribeRow | modules/brc20_index/brc20_index.py:693-706 | a new transfer inscription is logged if and only if its positive amount is available to the account; it then is no longer available, and nothing else changes; every other one is ignored |
| IndexRows.SettleRow | modules/brc20_index/brc20_index.py:693-712 | a moved transfer inscription is settled if and only if exactly one event inscribed it and none settled it; the owner loses the amount and the receiver gains it, or as a fee it becomes available to the owner again; every other one is ignored |
| IndexRows.OtherRow | modules/brc20_index/brc20_index.py:614-712 | every row of another operation, or of content without a fitting tick, is ignored |
| IndexRows.BlockIs | modules/brc20_index/brc20_index.py:573-582 | from the first BRC-20 height on a block changes the log, the tickers and the balances as its rows do, before it not at all, and its hash is stored either way |
| IndexRows.InOrder | modules/brc20_index/brc20_index.py:609-736 | the rows of a block are processed one after the other |
| IndexRows.UnsettledIsPending | modules/brc20_index/brc20_index.py:335-351 | the validity query holds only for an inscription with exactly one inscribe event and no settlement |
| IndexGrain.EverythingIsGranular | modules/brc20_index/brc20_index.py:638-712 | in every reachable state every amount, supply, limit and balance is a multiple its ticker can express |
| IndexGrain.EventStringsLoseNothing | modules/brc20_index/brc20_index.py:208-253 | the amounts in every event string parse back to the logged amounts |
| IndexRules.RulesAreKept | modules/brc20_index/brc20_index.py:638-712 | in every reachable state each tick was deployed once and keeps its terms, supply and limit are positive and bounded, self-mint tickers are the 5-character ones after the enabling height, and each mint is positive, within the limit and by the deployer where it must be |
| IndexRules.DeployIsLawful | modules/brc20_index/brc20_index.py:639-672 | an accepted deployment has lawful terms in every branch of the supply, limit and self-mint rules |
| IndexRules.MintIsLawful | modules/brc20_index/brc20_index.py:675-691 | an accepted mint is positive, within the limit, and respects the self-mint parent |
| IndexLedger.LedgerIsSound | modules/brc20_index/brc20_index.py:404-526 | in every reachable state 0 ≤ available ≤ overall for every account, overall − available is the sum of its open transfers, circulating = max − remaining for every tick, and 0 ≤ remaining |
| IndexLedger.OpenIsUnsettled | modules/brc20_index/brc20_index.py:335-351 | a transfer is open if and only if the validity query says so, and no inscription is inscribed or settled twice |
| IndexLedger.ProcessKeeps | modules/brc20_index/brc20_index.py:609-736 | each transfer row, whatever it is, keeps that accounting |
| IndexLedger.HeldAfter | modules/brc20_index/brc20_index.py:448-526 | inscribing adds its amount to what its account holds back, settling takes exactly it away |
| IndexLedger.MintKeeps | modules/brc20_index/brc20_index.py:425-446 | a mint moves the granted amount from remaining to circulating |
| IndexLedger.InscribeKeeps | modules/brc20_index/brc20_index.py:448-467 | an inscribed transfer moves its amount from available to held back |
| IndexLedger.MoveKeeps | modules/brc20_index/brc20_index.py:469-526 | a settlement, to another account, to the sender itself or to fees, keeps the accounting of every account |
| IndexLedger.MoveFollows | modules/brc20_index/brc20_index.py:693-712 | a settlement re-parses the amount, tick and source under which the transfer was inscribed |
| IndexReorg.RollbackIsReplay | modules/brc20_index/brc20_index.py:795-822 | rolling back any chain to any height gives exactly the tables a fresh replay of the shorter chain gives, remaining supplies rebuilt from mint events included |
| IndexReorg.HistoryDoesNotMatter | modules/brc20_index/brc20_index.py:573-822 | after any interleaving of blocks and rollbacks the tables are those of a fresh replay of the chain left standing |
| IndexReorg.FixIndexBlock | modules/brc20_index/brc20_index.py:795-822 | rolling back below a block undoes that block completely, whatever its rows |
| IndexReorg.ReplayUpTo | modules/brc20_index/brc20_index.py:573-592 | a replayed chain has exactly its own heights and block hashes |
| IndexCache.KeyInjective | modules/brc20_index/brc20_index.py:306-310 | the cache key pkscript+tick determines both, for hex scripts and ticks of 4 or 5 characters |
| IndexCache.KeyCollisionsExactly | modules/brc20_index/brc20_index.py:306-310 | for even-length scripts, two accounts on lowered ticks of m and n bytes can share a key if and only if m and n differ and have one parity, as when lowering shortens a tick |
| IndexCache.StoreBalance | modules/brc20_index/brc20_index.py:441-444 | writing a balance through the cache keeps every cached balance equal to a scan of committed and pending rows |
| IndexCache.StoreValidity | modules/brc20_index/brc20_index.py:335-359 | the validity cache stays equal to the validity query on committed and pending rows |
| IndexCache.StoreEvent | modules/brc20_index/brc20_index.py:292-303 | the single-use event cache and the log agree on every open transfer |
| IndexMemory.DeployAgrees | modules/brc20_index/brc20_index.py:404-423 | the deploy handler keeps every cache in agreement |
| IndexMemory.MintAgrees | modules/brc20_index/brc20_index.py:425-446 | the mint handler keeps every cache in agreement |
| IndexMemory.InscribeAgrees | modules/brc20_index/brc20_index.py:448-467 | the inscribe handler keeps every cache in agreement |
| IndexMemory.MoveAgrees | modules/brc20_index/brc20_index.py:469-526 | both settlement handlers keep every cache in agreement |
| IndexMemory.WrittenAgrees | modules/brc20_index/brc20_index.py:738-758 | after the commit the caches agree with the written tables |
| IndexMemory.ResetAgrees | modules/brc20_index/brc20_index.py:379-390 | after a rollback the reset caches agree with the tables |
| Indexer.Indexer.constructor | modules/brc20_index/brc20_index.py:291-402 | empty tables and caches, the replay of the empty chain |
| Indexer.Indexer.GetLastBalance | modules/brc20_index/brc20_index.py:306-325 | the balance a scan of committed and pending rows gives, and the cache entry it leaves |
| Indexer.Indexer.CheckAvailableBalance | modules/brc20_index/brc20_index.py:327-331 | true exactly when the scanned available balance covers the amount |
| Indexer.Indexer.IsUsedOrInvalid | modules/brc20_index/brc20_index.py:335-351 | false exactly when the log has one inscribe and no settlement of the inscription |
| Indexer.Indexer.GetTransferInscribeEvent | modules/brc20_index/brc20_index.py:293-300 | the inscribe event of an open transfer, from the cache or the log |
| Indexer.Indexer.DeployInscribe | modules/brc20_index/brc20_index.py:404-423 | has exactly the effect of a deployment on the tables to be |
| Indexer.Indexer.MintInscribe | modules/brc20_index/brc20_index.py:425-446 | has exactly the effect of a mint |
| Indexer.Indexer.TransferInscribe | modules/brc20_index/brc20_index.py:448-467 | has exactly the effect of inscribing a transfer |
| Indexer.Indexer.TransferTransferNormal | modules/brc20_index/brc20_index.py:469-501 | has exactly the effect of settling it, a sender equal to the receiver included |
| Indexer.Indexer.TransferTransferSpendToFee | modules/brc20_index/brc20_index.py:503-526 | has exactly the effect of returning it to its owner |
| Indexer.Indexer.ProcessRow | modules/brc20_index/brc20_index.py:609-712 | one row through all checks has exactly the effect of the reference on the tables to be |
| Indexer.Indexer.ProcessRows | modules/brc20_index/brc20_index.py:573-736 | all rows of a block together |
| Indexer.Indexer.WritePending | modules/brc20_index/brc20_index.py:738-751 | the batched writes leave the tables that row-by-row writing would |
| Indexer.Indexer.IndexBlock | modules/brc20_index/brc20_index.py:573-759 | after a block the tables are the replay of the chain with that block, and every cache agrees |
| Indexer.Indexer.MintedSince | modules/brc20_index/brc20_index.py:799-809 | the amounts to give back, by tick, are the sums of the mint events above the height |
| Indexer.Indexer.ReorgFix | modules/brc20_index/brc20_index.py:795-822 | whatever the height, the tables are the replay of the blocks up to it, and every cache agrees |
| Indexer.Indexer.CheckForReorg | modules/brc20_index/brc20_index.py:772-793 | no reorganisation exactly when the last hashes match; otherwise the newest match among the last ten, or the fatal error exactly when there is none |
| Indexer.Indexer.Iterate | modules/brc20_index/brc20_index.py:1239-1285 | one round waits, indexes the next block, rolls back to a common prefix, or stops |
| Indexer.Indexer.CatchUp | modules/brc20_index/brc20_index.py:1239-1285 | against a longer source that stands still the loop ends with exactly the replay of the source, unless none of the last ten blocks is in it, which is exactly when it stops; a source that is not longer leaves it waiting, unchanged |
| IndexHashes.HashesAreOfLog | modules/brc20_index/brc20_index.py:561-571 | in every reachable state the hash stored for a height is that of the log's own event strings at that height, and the cumulative hash chains it to the one below |
| IndexHashes.ProcessText | modules/brc20_index/brc20_index.py:417-519 | the running event text of a block is at every row the text of the log at that height, and no earlier text changes |
| IndexReindex.ReindexRestores | modules/brc20_index/brc20_index.py:891-918 | for every chain, recomputing the event hashes as the code does, from the text of the module instead of the text read from the log, gives back the stored hashes if and only if at every height that stale text, stripped once more per height, hashes like the text of the log |
| IndexReindex.FreshReindexRestores | modules/brc20_index/brc20_index.py:891-918 | in a fresh process, for a hash that takes no text of the log to the hash of the empty text, it gives them back if and only if nothing has been logged |
| IndexReindex.OneDeployIsLost | modules/brc20_index/brc20_index.py:891-918 | a chain of one accepted deployment, with a hash that never collides, whose hashes it changes |
| Indexer.Indexer.ReindexCumulativeHashes | modules/brc20_index/brc20_index.py:891-918 | the function in the running program: it fails on an empty block table, changes nothing but the hashes and the stale text, and leaves the program in a state that indexing could have reached if and only if the stale text fits |
| Indexer.Indexer.UpdateEventHashes | modules/brc20_index/brc20_index.py:561-571 | one height gets the hashes of the text of the program, which is stripped in place |
| IndexHashes.CumulativeHashCommits | modules/brc20_index/brc20_index.py:561-571 | two chains of one length end in the same cumulative hash if and only if their stripped block texts agree at every height, for a fixed-length hash that does not collide on those texts |
| IndexTexts.EventStringIs | modules/brc20_index/brc20_index.py:208-253 | an event string is its label, the inscription, the scripts, the ticks and its further fields, with semicolons between them |
| IndexTexts.HashedTextIs | modules/brc20_index/brc20_index.py:561-564 | what is hashed for a height is its event strings in order, with bars between them |
| IndexTexts.StoredHashesAre | modules/brc20_index/brc20_index.py:561-571 | the stored block hash is the hash of that text, and the cumulative hash the hash of the one below followed by it, or the block hash itself at the first height |
| IndexTexts.CumulativeHashCommitsToEvents | modules/brc20_index/brc20_index.py:561-571 | for such a hash, and when no id or script holds a semicolon and no parent id a bar, two chains of one length end in the same cumulative hash if and only if their logs show the same events at every height, in order: kind, inscription, scripts, both ticks, amounts, terms and parent, and the decimals they were printed with |
| IndexTexts.TextIsReadable | modules/brc20_index/brc20_index.py:417-519 | two block texts are equal only when their rows are, although the texts are plain concatenations |
| IndexTexts.StringIsReadable | modules/brc20_index/brc20_index.py:208-253 | an event string, with anything behind its separator, determines where it ends and the event it was made from, up to the transaction of a settlement and the difference of a missing and an empty script |
| IndexTexts.CutTicks | modules/brc20_index/brc20_index.py:215-216 | two ticks in a row can be told from what follows even when they hold semicolons, being equal up to case and four or five characters long |
| IndexTexts.AmountIsShown | modules/brc20_index/brc20_index.py:195-206 | equal printed amounts are equal amounts printed with equal decimals |
| IndexTexts.LogIsSeparable | modules/brc20_index/brc20_index.py:404-526 | that condition holds of every log whose transfer rows and inscriptions have such ids, scripts and parents; nothing is asked of ticks |
| IndexExtra.RebuildIsReading | modules/brc20_index/brc20_index.py:1038-1064 | the left join of the rebuild gives the same unused inscriptions as reading the log once |
| IndexExtra.ExtendIsRebuild | modules/brc20_index/brc20_index.py:1112-1177 | extending the derived tables by one block gives what a rebuild one block later gives |
| IndexExtra.RollBackIsRebuild | modules/brc20_index/brc20_index.py:992-1034 | rolling the derived tables back, from whatever chain they were built, gives a rebuild at the common height |
| IndexExtra.UnusedIsOpen | modules/brc20_index/brc20_index.py:1041-1071 | the unused inscriptions are the open transfers, with their tick, amount and holder |
| IndexExtra.LatestIsLastBalance | modules/brc20_index/brc20_index.py:1077-1087 | a current balance is the balance the indexer reads, and accounts without one read as zero |
| IndexExtra.LastRowIsLatest | modules/brc20_index/brc20_index.py:1001-1006 | the query of a rollback finds the row a rebuild up to that height keeps |
| IndexExtra.UnusedRowIs | modules/brc20_index/brc20_index.py:1041-1064 | the row of an unused inscription holds the tick, amount, holder, id and height of the event that inscribed it |
| IndexExtra.LatestRowIs | modules/brc20_index/brc20_index.py:1077-1087 | the current row of an account holds the balance and height of its last row |
| IndexExtra.ReplayAscends | modules/brc20_index/brc20_index.py:573-759 | in every reachable state the log is ordered by height |
| IndexExtra.ReachableIsSound | modules/brc20_index/brc20_index.py:573-822 | the accounting holds in every state reached by any interleaving of blocks and rollbacks |
| ExtraStore.ExtraTables.ReorgOnExtraTables | modules/brc20_index/brc20_index.py:992-1036 | deletes, restores and truncates to exactly the specified tables |
| ExtraStore.ExtraTables.InitialIndex | modules/brc20_index/brc20_index.py:1038-1110 | rebuilds both tables from the whole log |
| ExtraStore.ExtraTables.UpsertBalances | modules/brc20_index/brc20_index.py:1125-1151 | through the dictionary keyed by pkscript_tick the last change of each account is written, and only those |
| ExtraStore.ExtraTables.UpdateUnused | modules/brc20_index/brc20_index.py:1153-1175 | the events of a block, in order, with conflicting inserts ignored |
| ExtraStore.ExtraTables.IndexExtraTables | modules/brc20_index/brc20_index.py:1112-1178 | one block, after a rollback exactly when the tables already reach its height, an empty table reading as height zero |
| ExtraStore.ExtraTables.CheckExtraTables | modules/brc20_index/brc20_index.py:1180-1228 | from tables built on any earlier chain, the check ends with a rebuild of the chain that stands now, or leaves them alone when they were built from an extension of it, if and only if the two chains do not differ at height zero |
| ExtraStore.KeyDetermines | modules/brc20_index/brc20_index.py:1129-1133 | the key pkscript_tick determines both when scripts contain no underscore, whatever the tick |
| ExtraStore.DifferAtZero | modules/brc20_index/brc20_index.py:1180-1200 | they differ there if and only if indexing starts at height zero and the first blocks have different hashes |
| ExtraStore.FirstBlocksDiffer | modules/brc20_index/brc20_index.py:1180-1228 | two chains that meet all assumptions of the check and differ at height zero |
| RunesReplay.RunDenotes | modules/runes_index/index_runes.js:346-533 | running the queries of a chain line by line gives the tables its lines stand for, updates in the etching block included |
| RunesReplay.FirstStep | modules/runes_index/index_runes.js:300-301 | an insert may run at any point among the inserts: it adds exactly its own line to what the tables stand for, and makes no entry wrong or right |
| RunesReplay.DelayedStep | modules/runes_index/index_runes.js:302-305 | a guarded update or a spend mark may run at any point among the delayed queries, and an entry that was wrong becomes right exactly when an update above its etching block runs |
| RunesReplay.AnyOrderIsRun | modules/runes_index/index_runes.js:517-533 | however the queries of the batches interleaved, the tables are those of the line-by-line run |
| RunesReplay.DenotesOnce | modules/runes_index/index_runes.js:300-305 | the lines determine the tables |
| RunesReplay.GuardCost | modules/runes_index/index_runes.js:302-304 | for every chain, the guarded queries give the tables of the unguarded line-by-line reference if and only if each update of an etching block is overtaken by a later one or repeats what was etched |
| RunesReplay.EntryWithAndWithoutGuard | modules/runes_index/index_runes.js:302-304 | the same for one rune: with the guard its entry differs exactly when its latest update is one of the etching block that changes it |
| RunesReplay.RollbackIsShorterChain | modules/runes_index/index_runes.js:754-770 | a rollback leaves the tables of the lines below the height if and only if every rune it resets to zeros was etched with zeros, and every rune it resets to a change of its etching block was etched with the values of that change |
| RunesReplay.RollbackAgrees | modules/runes_index/index_runes.js:754-770 | whatever state it starts from, a rollback leaves tables that stand for the shorter chain except for the wrong entries it keeps and the runes it resets to other values than the etched ones |
| RunesReplay.NothingIsLost | modules/runes_index/index_runes.js:760-770 | it loses no rune exactly under that condition |
| RunesHeal.RollbackHeals | modules/runes_index/index_runes.js:346-533 | when a chain is indexed, rolled back and continued, exactly those of the lost runes are still wrong that the standing chain never updates above their etching block; so the tables are those of the standing chain if and only if each of them gets such an update |
| RunesHeal.UnmovedIs | modules/runes_index/index_runes.js:302-304 | an entry still shows its etching height if and only if the chain has no update of the rune in a later block |
| RunesReplay.RollbackIsRun | modules/runes_index/index_runes.js:754-770 | so rolling back the tables of a chain gives the tables of its prefix exactly under that condition |
| RunesReplay.PremineBurnedAtEtching | modules/runes_index/index_runes.js:302-304 | a chain that etches a rune, burns of its premine in the same block and again later: the guard loses the first burn, the later update repairs the entry, and a rollback to before it does not give the tables the program had there, until the later update is indexed again |
| RunesReplay.PastIsReplay | modules/runes_api/api.js:83-88 | the rows selected at a height, for a script or a wallet address, are those of the outputs unspent once exactly the blocks below it have been indexed |
| RunesTables.AnswerIsBalanceList | modules/runes_api/api.js:83-87 | the groups of the query are one line for each script and each rune with an entry that some selected row of the script lists, with the sum of the balances paired with exactly that rune, and one line for all runes without an entry |
| RunesTables.RunesStore.AwaitFirst | modules/runes_index/index_runes.js:347-350 | running inserts complete in any order with the same outcome |
| RunesTables.RunesStore.AwaitDelayed | modules/runes_index/index_runes.js:521-524 | running updates complete in any order with the same outcome |
| RunesTables.RunesStore.ReadLines | modules/runes_index/index_runes.js:336-515 | the lines above the current height: inserts run, updates are put off |
| RunesTables.RunesStore.IndexLines | modules/runes_index/index_runes.js:336-533 | after a batch the tables stand for all lines indexed so far, whatever order the queries completed in, except for the entries that were wrong before and whose runes still have no update above their etching block |
| RunesTables.RunesStore.HandleReorg | modules/runes_index/index_runes.js:754-773 | leaves exactly the reverted tables; wrong are then the wrong entries it keeps and the runes it resets to other values than the etched ones, so exact tables stay exact if and only if what it writes for each rune without a later kept change is what was etched |
| RunesTables.RunesStore.InsertSeed | modules/runes_index/index_runes.js:847-868 | adds the seed rune as one more line exactly when it has no entry |
| RunesTables.RunesStore.BalanceOnBlock | modules/runes_api/api.js:62-97 | an error for heights above the next one, above 1 when no block is indexed; otherwise, also while entries are wrong, the full list by script and rune, for a script or a wallet address, each with the sum of what was held once exactly the blocks below had been indexed |
| SatEpochs.StartingSatIsMined | ord/src/height.rs:15-20 | the closed form for the first sat of a block is the sum of all earlier subsidies |
| SatEpochs.TableStep | ord/src/epoch.rs:7-54 | the table of epoch starts is the running total of 210000 halving subsidies, all 33 of them |
| SatEpochs.EpochHolds | ord/src/epoch.rs:70-142 | the comparison chain finds the epoch whose span holds the sat, and the last one exactly at or above the supply |
| SatDegrees.BlocksTile | ord/src/sat.rs:19-22 | a sat lies in the interval of a block if and only if the block is its height: the intervals tile the supply |
| SatDegrees.MinedBelow | ord/src/height.rs:15-20 | a sat is below the first sat of a height if and only if its block is below the height |
| SatDegrees.BlockHolds | ord/src/sat.rs:19-50 | a sat is the first sat of its block plus its third, and its block is in its epoch |
| SatDegrees.DegreeCounts | ord/src/degree.rs:21-31 | the degree of a sat counts whole cycles of six halvings, blocks since the last halving, blocks since the last difficulty adjustment, and sats since the block began |
| SatDegrees.DegreeErrors | ord/src/sat.rs:104-158 | which error the parser gives for each check a degree fails |
| SatDegrees.DegreeRoundTrip | ord/src/sat.rs:104-158 | parsing the degree of a sat gives the sat back |
| SatDegrees.DegreeIsUnique | ord/src/degree.rs:21-31 | two sats have the same degree if and only if they are the same sat |
| SatDegrees.AcceptedDegree | ord/src/sat.rs:104-158 | an accepted degree is the degree of the sat it parses to if and only if its hour is below six |
| SatDegrees.WrappedHour | ord/src/sat.rs:122-136 | a larger hour that 32-bit wrap-around lets through |
| SatDegrees.Remainders | ord/src/sat.rs:124-134 | the remainders modulo 210000 and 2016 determine the epoch within a cycle, both ways |
| SatDegrees.RarityMeans | ord/src/rarity.rs:52-80 | the rarities are exactly the first sats of a block, of a difficulty period, of a halving epoch and of all |
| SatNames.Name | ord/src/sat.rs:73-86 | the loop writes the distance from the end of the supply in 26 letters without a zero |
| SatNames.FromName | ord/src/sat.rs:88-102 | the loop reads it back or stops at the first bad character or overflow |
| SatNames.ReadAccepts | ord/src/sat.rs:88-102 | a name is accepted if and only if it is letters only and stands for at most the supply |
| SatNames.ReadRejects | ord/src/sat.rs:88-102 | a rejected name fails at its first bad character, or at the first letter that leads beyond the supply |
| SatNames.NameRoundTrip | ord/src/sat.rs:73-102 | reading the name of a sat gives the sat back |
| SatNames.AcceptedName | ord/src/sat.rs:73-102 | an accepted name is the name of the sat it stands for |
| SatSearch.Find | ord/src/index.rs:1510-1536 | returns a place that holds the sat, and none exactly when the height is not indexed or no range holds it |
| SatSearch.PointIsPosition | ord/src/index.rs:1518-1531 | the offset of a point is the position of the sat among the sats that the output holds, in order |
| SatSearch.FindRange | ord/src/index.rs:1538-1589 | the height check, the error for a reversed range, and otherwise the clips of all overlapping ranges in table order |
| SatSearch.Collect | ord/src/index.rs:1555-1586 | leaving only the inner loop when nothing remains loses no piece, and the remaining count never goes below zero |
| SatSearch.RangeIsCovered | ord/src/index.rs:1555-1586 | the pieces are disjoint, stand for exactly the sats of the asked range that the table holds, and their sizes add up to the range if and only if the table holds all of it |
| SatSearch.MinedRangeIsFull | ord/src/index.rs:1546-1548 | when every mined sat is recorded, a range that passes the height check is answered in full |
| SatSearch.FindAgrees | ord/src/index.rs:1510-1589 | every sat of every piece of an answered range is at exactly the point that the lookup of that sat returns, and at no other, its height check included |

## Left out

- Amounts that are not plain integers in strings, exponents, and the last test of `checkSlippage` on the spelling of a number; `bnUint` and `bnDecimal`.
- The source nests assets by kind and tick; the model keys one table by both. `getAggregateBalance` and `traverseTick` are not modelled.
- A missing ledger is one error, where the source throws a TypeError; error texts carry no tick.
- Ticks of more than one byte per character: `tick.lower()` is modelled on one-byte characters, and lengths are counted in them, so characters whose lower case has another length are outside the indexer model; `KeyCollisionsExactly` says what they would do to the balance cache.
- `burned_supply` (the rollback does not revert it), wallet columns, the `brc20-module` branch with its withdrawals, and the content-type decoding, which becomes a flag of the inscription.
- JSON fields that are not strings, strings that Python's `int` or `ord` treat differently, and digits beyond ASCII.
- The database: SQL is modelled by what each query returns; batch sizes, sequences, transactions that fail midway and the exception path of the main loop, which rolls back without resetting the caches.
- Indexer.Indexer.CatchUp: the source stands still while the loop runs; a source that changes during a round is a new call.
- The residue checks at start-up, reporting of hashes and version migrations.
- Runes events, their hashes and their rollback; entry columns that never change, such as the rune names a balance query lists; the block-hash comparison that calls `handle_reorg`, and the log-splicing checks before indexing.
- The removal loop over delayed queries compares a block height with a rune id and never removes anything, so the model has no removal.
- IndexTexts.CumulativeHashCommitsToEvents: of a settlement the string shows neither the transaction nor whether an empty receiving script is one; the hash is taken not to collide on the texts at hand.
- SatSearch.FindRange: needs a table whose ranges are not empty and record no sat twice; the updater that would keep the table so is commented out in the source.
- SatDegrees.AcceptedDegree: degrees are taken after their numbers are read; the splitting at the degree, minute, second and third signs is not modelled. Overflow wraps around, as in a release build.
- Percentiles and decimals of sats, which involve floating point and a lossy parser.
- The pow20, bitmap and sns indexers, the servers, RPC and file handling, the Go wiring, and the inscription and runes updaters of ord.
