/** ord/src/sat.rs, degree.rs and rarity.rs: which block a sat belongs to, its degree
    notation and its rarity. */
module SatDegrees {
  import opened Wrappers
  import opened Arithmetic
  import opened SatEpochs

  const DIFFCHANGE_INTERVAL: nat := 2016
  const CYCLE_EPOCHS: nat := 6
  const U32: nat := 0x1_0000_0000

  datatype Degree = Degree(hour: nat, minute: nat, second: nat, third: nat)

  datatype DegreeError = InvalidEpochOffset | InvalidPeriodOffset | InvalidRelationship | InvalidBlockOffset

  datatype Rarity = Common | Uncommon | Rare | Epic | Legendary | Mythic

  lemma SubsidyIsPositive(sat: nat)
    requires sat < SUPPLY
    ensures EpochSubsidy(EpochOfSat(sat)) > 0
    ensures EpochPosition(sat) >= 0
  {
    hide ShiftRight, EpochStart, EpochSubsidy;
    EpochHolds(sat);
    TableStep(EpochOfSat(sat));
  }

  function HeightOfSat(sat: nat): nat
    requires sat < SUPPLY
  {
    SubsidyIsPositive(sat);
    EpochOfSat(sat) * SUBSIDY_HALVING_INTERVAL + Quotient(EpochPosition(sat), EpochSubsidy(EpochOfSat(sat)))
  }

  function Third(sat: nat): nat
    requires sat < SUPPLY
  {
    SubsidyIsPositive(sat);
    EpochPosition(sat) - RoundDown(EpochPosition(sat), EpochSubsidy(EpochOfSat(sat)))
  }

  function DegreeOf(sat: nat): Degree
    requires sat < SUPPLY
  {
    var height := HeightOfSat(sat);
    Degree(height / (CYCLE_EPOCHS * SUBSIDY_HALVING_INTERVAL), height % SUBSIDY_HALVING_INTERVAL,
           height % DIFFCHANGE_INTERVAL, Third(sat))
  }

  function RarityOf(sat: nat): Rarity
    requires sat < SUPPLY
  {
    var d := DegreeOf(sat);
    if d == Degree(0, 0, 0, 0) then Mythic
    else if d.minute == 0 && d.second == 0 && d.third == 0 then Legendary
    else if d.minute == 0 && d.third == 0 then Epic
    else if d.second == 0 && d.third == 0 then Rare
    else if d.third == 0 then Uncommon
    else Common
  }

  /** What the minute and the second must agree on. */
  function Relationship(minute: nat, second: nat): nat
    requires minute < SUBSIDY_HALVING_INTERVAL
  {
    second + SUBSIDY_HALVING_INTERVAL * CYCLE_EPOCHS - minute
  }

  function EpochInCycle(relationship: nat): Option<nat> {
    var increment := SUBSIDY_HALVING_INTERVAL % DIFFCHANGE_INTERVAL;
    if relationship % increment != 0 then None
    else Some(relationship % DIFFCHANGE_INTERVAL / increment)
  }

  function WrapAdd(a: nat, b: nat): nat {
    (a + b) % U32
  }

  function WrapMul(a: nat, b: nat): nat {
    a * b % U32
  }

  /** The height a degree names; every product and sum is on 32-bit numbers. */
  function DegreeHeight(d: Degree): Result<nat, DegreeError> {
    if d.minute >= SUBSIDY_HALVING_INTERVAL then Err(InvalidEpochOffset)
    else if d.second >= DIFFCHANGE_INTERVAL then Err(InvalidPeriodOffset)
    else
      match EpochInCycle(Relationship(d.minute, d.second))
      case None => Err(InvalidRelationship)
      case Some(sinceCycleStart) =>
        var epoch := WrapAdd(WrapMul(d.hour, CYCLE_EPOCHS), sinceCycleStart);
        Ok(WrapAdd(WrapMul(epoch, SUBSIDY_HALVING_INTERVAL), d.minute))
  }

  function FromDegree(d: Degree): Result<nat, DegreeError> {
    var height :- DegreeHeight(d);
    if d.third >= Subsidy(height) then Err(InvalidBlockOffset)
    else Ok(StartingSat(height) + d.third)
  }

  /** A block's sats start where the closed form says, and the third counts from there. */
  lemma BlockHolds(sat: nat)
    requires sat < SUPPLY
    ensures EpochOfHeight(HeightOfSat(sat)) == EpochOfSat(sat) < FIRST_POST_SUBSIDY
    ensures StartingSat(HeightOfSat(sat)) + Third(sat) == sat
    ensures Third(sat) < Subsidy(HeightOfSat(sat))
  {
    hide ShiftRight, EpochStart, EpochSubsidy, EpochOfSat;
    EpochHolds(sat);
    SubsidyIsPositive(sat);
    var epoch := EpochOfSat(sat);
    var position, subsidy: nat := EpochPosition(sat), EpochSubsidy(epoch);
    EpochSpan(epoch);
    assert position < SUBSIDY_HALVING_INTERVAL * subsidy;
    var blocks := Quotient(position, subsidy);
    if blocks >= SUBSIDY_HALVING_INTERVAL {
      MulMonotone(SUBSIDY_HALVING_INTERVAL, blocks, subsidy);
    }
    assert EpochOfHeight(HeightOfSat(sat)) == epoch;
  }

  lemma MinedInSupply(height: nat)
    ensures StartingSat(height) + Subsidy(height) <= SUPPLY
  {
    hide ShiftRight, EpochSubsidy;
    var epoch := EpochOfHeight(height);
    if epoch < FIRST_POST_SUBSIDY {
      EpochSpan(epoch);
      EpochsAscend(epoch + 1, FIRST_POST_SUBSIDY);
      MulMonotone(height - epoch * SUBSIDY_HALVING_INTERVAL + 1, SUBSIDY_HALVING_INTERVAL, EpochSubsidy(epoch));
    } else {
      assert EpochSubsidy(epoch) == 0 by {
        PostSubsidy(epoch);
      }
    }
  }

  lemma PostSubsidy(epoch: nat)
    requires epoch >= FIRST_POST_SUBSIDY
    ensures EpochSubsidy(epoch) == 0
  {
  }

  lemma {:induction false} StartsAscend(low: nat, high: nat)
    requires low < high
    ensures StartingSat(low) + Subsidy(low) <= StartingSat(high)
    decreases high - low
  {
    hide ShiftRight, EpochStart, EpochSubsidy, StartingSat;
    StartingSatStep(low);
    if low + 1 < high {
      StartsAscend(low + 1, high);
    }
  }

  /** Block intervals tile the supply: each sat lies in exactly one of them. */
  lemma {:induction false} BlocksTile(sat: nat, height: nat)
    requires sat < SUPPLY
    ensures StartingSat(height) <= sat < StartingSat(height) + Subsidy(height) <==> height == HeightOfSat(sat)
  {
    hide ShiftRight, EpochStart, EpochSubsidy, StartingSat, HeightOfSat, Third, Subsidy;
    BlockHolds(sat);
    if height < HeightOfSat(sat) {
      StartsAscend(height, HeightOfSat(sat));
    } else if height > HeightOfSat(sat) {
      StartsAscend(HeightOfSat(sat), height);
    }
  }

  /** A sat is mined below a height exactly when its block is. */
  lemma {:induction false} MinedBelow(sat: nat, height: nat)
    requires sat < SUPPLY
    ensures sat < StartingSat(height) <==> HeightOfSat(sat) < height
  {
    hide ShiftRight, EpochStart, EpochSubsidy, StartingSat, HeightOfSat, Third, Subsidy;
    BlockHolds(sat);
    if HeightOfSat(sat) < height {
      StartsAscend(HeightOfSat(sat), height);
    } else if height < HeightOfSat(sat) {
      StartsAscend(height, HeightOfSat(sat));
    }
  }

  /** 210000 leaves 336 modulo 2016, and six times 336 is 2016: what the
      minute and the second say about each other is the epoch within its cycle. */
  lemma {:induction false} Remainders(cycle: nat, epoch: nat, minute: nat, second: nat)
    requires epoch < CYCLE_EPOCHS && minute < SUBSIDY_HALVING_INTERVAL && second < DIFFCHANGE_INTERVAL
    ensures ((cycle * CYCLE_EPOCHS + epoch) * SUBSIDY_HALVING_INTERVAL + minute) % DIFFCHANGE_INTERVAL == second <==>
            EpochInCycle(Relationship(minute, second)) == Some(epoch)
  {
    var height := (cycle * CYCLE_EPOCHS + epoch) * SUBSIDY_HALVING_INTERVAL + minute;
    var relationship := Relationship(minute, second);
    var total: nat := 625 * cycle + 104 * epoch + 625;
    assert height + relationship == 2016 * total + 336 * epoch + second;
    EpochFromRelationship(relationship, epoch);
    hide EpochInCycle;
    Complement(height, relationship, total, 336 * epoch, second);
    Complement(relationship, height, total, second, 336 * epoch);
  }

  lemma Complement(a: nat, b: nat, total: nat, x: nat, y: nat)
    requires a + b == 2016 * total + x + y && x < 2016 && y < 2016
    ensures a % 2016 == y ==> b % 2016 == x
  {
    if a % 2016 == y {
      assert a == 2016 * (a / 2016) + y;
      assert b == 2016 * (total - a / 2016) + x;
    }
  }

  lemma EpochFromRelationship(relationship: nat, epoch: nat)
    requires epoch < CYCLE_EPOCHS
    ensures EpochInCycle(relationship) == Some(epoch) <==> relationship % 2016 == 336 * epoch
  {
    assert relationship == 2016 * (relationship / 2016) + relationship % 2016;
    SixTimes(relationship / 2016, relationship % 2016);
  }

  lemma SixTimes(k: nat, rest: nat)
    ensures (2016 * k + rest) % 336 == rest % 336
  {
    assert 2016 * k + rest == 336 * (6 * k + rest / 336) + rest % 336;
  }

  /** Within the first six cycles nothing wraps. */
  lemma NoWrap(cycle: nat, epoch: nat, minute: nat)
    requires cycle < CYCLE_EPOCHS && epoch < CYCLE_EPOCHS && minute < SUBSIDY_HALVING_INTERVAL
    ensures WrapAdd(WrapMul(WrapAdd(WrapMul(cycle, CYCLE_EPOCHS), epoch), SUBSIDY_HALVING_INTERVAL), minute) ==
            (cycle * CYCLE_EPOCHS + epoch) * SUBSIDY_HALVING_INTERVAL + minute
  {
    var epochs := cycle * CYCLE_EPOCHS + epoch;
    assert WrapMul(cycle, CYCLE_EPOCHS) == cycle * CYCLE_EPOCHS;
    assert WrapAdd(WrapMul(cycle, CYCLE_EPOCHS), epoch) == epochs <= 35;
    assert WrapMul(epochs, SUBSIDY_HALVING_INTERVAL) == epochs * SUBSIDY_HALVING_INTERVAL;
  }

  lemma Digits(height: nat, cycle: nat, epoch: nat, minute: nat)
    requires epoch < CYCLE_EPOCHS && minute < SUBSIDY_HALVING_INTERVAL
    ensures height == (cycle * CYCLE_EPOCHS + epoch) * SUBSIDY_HALVING_INTERVAL + minute ==>
            && height / (CYCLE_EPOCHS * SUBSIDY_HALVING_INTERVAL) == cycle
            && height / SUBSIDY_HALVING_INTERVAL == cycle * CYCLE_EPOCHS + epoch
            && height % SUBSIDY_HALVING_INTERVAL == minute
  {
  }

  /** The height is recovered from its remainders. */
  lemma {:induction false} HeightFromRemainders(height: nat, third: nat)
    requires height < FIRST_POST_SUBSIDY * SUBSIDY_HALVING_INTERVAL
    ensures DegreeHeight(Degree(height / (CYCLE_EPOCHS * SUBSIDY_HALVING_INTERVAL),
                                height % SUBSIDY_HALVING_INTERVAL, height % DIFFCHANGE_INTERVAL, third)) ==
            Ok(height)
  {
    hide EpochInCycle, WrapAdd, WrapMul, Relationship;
    var epochs, minute := height / SUBSIDY_HALVING_INTERVAL, height % SUBSIDY_HALVING_INTERVAL;
    var cycle, epoch := epochs / CYCLE_EPOCHS, epochs % CYCLE_EPOCHS;
    assert height == (cycle * CYCLE_EPOCHS + epoch) * SUBSIDY_HALVING_INTERVAL + minute;
    Digits(height, cycle, epoch, minute);
    Remainders(cycle, epoch, minute, height % DIFFCHANGE_INTERVAL);
    NoWrap(cycle, epoch, minute);
  }

  /** Conversely an accepted degree of one of the first six cycles has the
      remainders it claims. */
  lemma {:induction false} RemaindersOfHeight(d: Degree)
    requires d.hour < CYCLE_EPOCHS && DegreeHeight(d).Ok?
    ensures var height := DegreeHeight(d).value;
            && height / (CYCLE_EPOCHS * SUBSIDY_HALVING_INTERVAL) == d.hour
            && height % SUBSIDY_HALVING_INTERVAL == d.minute
            && height % DIFFCHANGE_INTERVAL == d.second
  {
    hide EpochInCycle, WrapAdd, WrapMul, Relationship;
    var epoch := EpochInCycle(Relationship(d.minute, d.second)).value;
    assert epoch < CYCLE_EPOCHS by {
      EpochIsSmall(Relationship(d.minute, d.second));
    }
    Remainders(d.hour, epoch, d.minute, d.second);
    NoWrap(d.hour, epoch, d.minute);
    Digits(DegreeHeight(d).value, d.hour, epoch, d.minute);
  }

  lemma EpochIsSmall(relationship: nat)
    requires EpochInCycle(relationship).Some?
    ensures EpochInCycle(relationship).value < CYCLE_EPOCHS
  {
  }

  /** A degree counts, from nested beginnings: whole cycles of six halvings, blocks since the last halving, blocks
      since the last difficulty adjustment, and sats since the block began. */
  lemma {:induction false} DegreeCounts(sat: nat)
    requires sat < SUPPLY
    ensures var d, height := DegreeOf(sat), HeightOfSat(sat);
            && 1_260_000 * d.hour <= height < 1_260_000 * (d.hour + 1)
            && d.minute < 210_000 && Since(height, 210_000, d.minute)
            && d.second < 2016 && Since(height, 2016, d.second)
            && sat == StartingSat(height) + d.third
  {
    hide ShiftRight, EpochStart, EpochSubsidy, StartingSat, HeightOfSat, Third;
    BlockHolds(sat);
    var height := HeightOfSat(sat);
    assert IsPast(height, 210_000, height / 210_000, height % 210_000);
    assert IsPast(height, 2016, height / 2016, height % 2016);
  }

  predicate IsPast(height: nat, interval: nat, k: nat, blocks: nat) {
    height == interval * k + blocks
  }

  /** So many blocks after the last multiple of an interval. */
  ghost predicate Since(height: nat, interval: nat, blocks: nat) {
    exists k :: IsPast(height, interval, k, blocks)
  }

  /** What the parser refuses, check by check; 336 is what a halving epoch leaves over of difficulty periods. */
  lemma {:induction false} DegreeErrors(d: Degree)
    ensures d.minute >= 210_000 ==> FromDegree(d) == Err(InvalidEpochOffset)
    ensures d.minute < 210_000 && d.second >= 2016 ==> FromDegree(d) == Err(InvalidPeriodOffset)
    ensures d.minute < 210_000 && d.second < 2016 && (d.second + 1_260_000 - d.minute) % 336 != 0 ==>
              FromDegree(d) == Err(InvalidRelationship)
    ensures DegreeHeight(d).Ok? && d.third >= Subsidy(DegreeHeight(d).value) ==>
              FromDegree(d) == Err(InvalidBlockOffset)
  {
    hide ShiftRight, EpochStart, EpochSubsidy, StartingSat;
  }

  /** Parsing the degree of a sat gives the sat back. */
  lemma {:induction false} DegreeRoundTrip(sat: nat)
    requires sat < SUPPLY
    ensures FromDegree(DegreeOf(sat)) == Ok(sat)
  {
    hide ShiftRight, EpochStart, EpochSubsidy, StartingSat, HeightOfSat, Third, DegreeHeight;
    BlockHolds(sat);
    HeightFromRemainders(HeightOfSat(sat), Third(sat));
  }

  /** So the degree determines the sat. */
  lemma {:induction false} DegreeIsUnique(sat: nat, other: nat)
    requires sat < SUPPLY && other < SUPPLY
    ensures DegreeOf(sat) == DegreeOf(other) <==> sat == other
  {
    hide DegreeOf, FromDegree;
    DegreeRoundTrip(sat);
    DegreeRoundTrip(other);
  }

  /** An accepted degree is the degree of the sat it parses to exactly when its
      hour is one of the six cycles that have a subsidy: a larger hour is only
      accepted when the 32-bit products wrap around. */
  lemma {:induction false} AcceptedDegree(d: Degree)
    requires FromDegree(d).Ok?
    ensures FromDegree(d).value < SUPPLY
    ensures DegreeOf(FromDegree(d).value) == d <==> d.hour < CYCLE_EPOCHS
  {
    hide ShiftRight, EpochStart, EpochSubsidy, StartingSat, HeightOfSat, Third, DegreeHeight;
    var height, sat := DegreeHeight(d).value, FromDegree(d).value;
    MinedInSupply(height);
    BlocksTile(sat, height);
    BlockHolds(sat);
    if d.hour < CYCLE_EPOCHS {
      RemaindersOfHeight(d);
    }
  }

  /** Without the wrap-around condition the claim fails: this hour is accepted
      and names the first sat of the third epoch. */
  lemma WrappedHour()
    ensures FromDegree(Degree(715827883, 0, 0, 0)) == Ok(1575000000000000)
  {
    assert EpochInCycle(Relationship(0, 0)) == Some(0);
    assert DegreeHeight(Degree(715827883, 0, 0, 0)) == Ok(420000);
    TableStep(2);
  }

  /** What the rarities mean: the first sat of a block, of a difficulty period,
      of a halving epoch, and the first sat of all. */
  lemma {:induction false} RarityMeans(sat: nat)
    requires sat < SUPPLY
    ensures RarityOf(sat).Common? <==> sat != StartingSat(HeightOfSat(sat))
    ensures RarityOf(sat).Mythic? <==> sat == 0
    ensures RarityOf(sat) in {Epic, Legendary, Mythic} <==> sat == EpochStart(EpochOfSat(sat))
    ensures RarityOf(sat) in {Rare, Legendary, Mythic} <==>
            sat == StartingSat(HeightOfSat(sat)) && HeightOfSat(sat) % DIFFCHANGE_INTERVAL == 0
  {
    hide ShiftRight, EpochSubsidy, EpochStart, EpochOfSat, HeightOfSat, Third, StartingSat, DegreeHeight;
    BlockHolds(sat);
    DegreeIsUnique(sat, 0);
    FirstSat();
    StartOfEpoch(sat);
  }

  lemma StartOfEpoch(sat: nat)
    requires sat < SUPPLY
    ensures HeightOfSat(sat) % SUBSIDY_HALVING_INTERVAL == 0 && Third(sat) == 0 <==>
            sat == EpochStart(EpochOfSat(sat))
  {
    hide ShiftRight, EpochSubsidy, EpochStart, EpochOfSat, HeightOfSat, Third;
    BlockHolds(sat);
    var height, epoch := HeightOfSat(sat), EpochOfSat(sat);
    var blocks := height - epoch * SUBSIDY_HALVING_INTERVAL;
    assert height % SUBSIDY_HALVING_INTERVAL == blocks;
    assert sat == EpochStart(epoch) + blocks * EpochSubsidy(epoch) + Third(sat);
    SubsidyIsPositive(sat);
    if blocks > 0 {
      MulMonotone(1, blocks, EpochSubsidy(epoch));
    }
  }

  lemma {:induction false} FirstSat()
    ensures DegreeOf(0) == Degree(0, 0, 0, 0)
  {
    hide ShiftRight, EpochSubsidy, EpochStart, EpochFrom, HeightOfSat, Third, EpochOfSat, StartingSat;
    FirstEpoch();
    BlockHolds(0);
    StartOfEpoch(0);
  }
}
