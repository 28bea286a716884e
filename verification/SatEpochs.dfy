/** ord/src/epoch.rs and ord/src/height.rs, where the sats of each block begin: the halving epochs, the table of epoch
    starts, and the closed form for the first sat of a block. */
module SatEpochs {

  const COIN_VALUE: nat := 100_000_000
  const SUBSIDY_HALVING_INTERVAL: nat := 210_000
  const SUPPLY: nat := 2099999997690000
  const FIRST_POST_SUBSIDY: nat := 33

  const STARTING_SATS: seq<nat> := [
    0, 1050000000000000, 1575000000000000, 1837500000000000, 1968750000000000,
    2034375000000000, 2067187500000000, 2083593750000000, 2091796875000000,
    2095898437500000, 2097949218750000, 2098974609270000, 2099487304530000,
    2099743652160000, 2099871825870000, 2099935912620000, 2099967955890000,
    2099983977420000, 2099991988080000, 2099995993410000, 2099997995970000,
    2099998997250000, 2099999497890000, 2099999748210000, 2099999873370000,
    2099999935950000, 2099999967240000, 2099999982780000, 2099999990550000,
    2099999994330000, 2099999996220000, 2099999997060000, 2099999997480000,
    SUPPLY]

  /** A right shift of an unsigned number. */
  function ShiftRight(n: nat, bits: nat): nat {
    if bits == 0 then n else ShiftRight(n, bits - 1) / 2
  }

  function EpochSubsidy(epoch: nat): nat {
    if epoch < FIRST_POST_SUBSIDY then ShiftRight(50 * COIN_VALUE, epoch) else 0
  }

  function EpochStart(epoch: nat): nat {
    if epoch < |STARTING_SATS| then STARTING_SATS[epoch] else STARTING_SATS[|STARTING_SATS| - 1]
  }

  function EpochOfHeight(height: nat): nat {
    height / SUBSIDY_HALVING_INTERVAL
  }

  function Subsidy(height: nat): nat {
    EpochSubsidy(EpochOfHeight(height))
  }

  function StartingSat(height: nat): nat {
    var epoch := EpochOfHeight(height);
    EpochStart(epoch) + (height - epoch * SUBSIDY_HALVING_INTERVAL) * EpochSubsidy(epoch)
  }

  /** The comparison chain of the source: the first epoch whose successor
      starts above the sat, looking from `epoch` on. */
  function EpochFrom(sat: nat, epoch: nat): nat
    decreases FIRST_POST_SUBSIDY - epoch
  {
    if epoch >= FIRST_POST_SUBSIDY || sat < EpochStart(epoch + 1) then epoch
    else EpochFrom(sat, epoch + 1)
  }

  function EpochOfSat(sat: nat): nat {
    EpochFrom(sat, 0)
  }

  function EpochPosition(sat: nat): int {
    sat - EpochStart(EpochOfSat(sat))
  }

  /** What all blocks below `height` create together. */
  ghost function Mined(height: nat): nat {
    if height == 0 then 0 else Mined(height - 1) + Subsidy(height - 1)
  }

  /** The step of the table at an epoch. */
  predicate StepIs(epoch: nat, subsidy: nat) {
    epoch < FIRST_POST_SUBSIDY &&
    STARTING_SATS[epoch + 1] == STARTING_SATS[epoch] + SUBSIDY_HALVING_INTERVAL * subsidy
  }

  lemma EarlySteps(epoch: nat, subsidy: nat)
    requires 0 < epoch <= 8 && StepIs(epoch - 1, subsidy)
    ensures StepIs(epoch, subsidy / 2) && subsidy / 2 > 0
  {
  }

  lemma MiddleSteps(epoch: nat, subsidy: nat)
    requires 8 < epoch <= 16 && StepIs(epoch - 1, subsidy)
    ensures StepIs(epoch, subsidy / 2) && subsidy / 2 > 0
  {
  }

  lemma LateSteps(epoch: nat, subsidy: nat)
    requires 16 < epoch <= 24 && StepIs(epoch - 1, subsidy)
    ensures StepIs(epoch, subsidy / 2) && subsidy / 2 > 0
  {
  }

  lemma LastSteps(epoch: nat, subsidy: nat)
    requires 24 < epoch < FIRST_POST_SUBSIDY && StepIs(epoch - 1, subsidy)
    ensures StepIs(epoch, subsidy / 2) && subsidy / 2 > 0
  {
  }

  lemma FirstStep()
    ensures StepIs(0, EpochSubsidy(0)) && EpochSubsidy(0) > 0
  {
  }

  lemma SubsidyHalves(epoch: nat)
    requires 0 < epoch < FIRST_POST_SUBSIDY
    ensures EpochSubsidy(epoch) == EpochSubsidy(epoch - 1) / 2
  {
  }

  /** The table is the running total of the halving subsidies. */
  lemma {:induction false} TableStep(epoch: nat)
    requires epoch < FIRST_POST_SUBSIDY
    ensures EpochSubsidy(epoch) > 0 && StepIs(epoch, EpochSubsidy(epoch))
  {
    hide ShiftRight, EpochSubsidy, StepIs;
    if epoch == 0 {
      FirstStep();
    } else {
      TableStep(epoch - 1);
      SubsidyHalves(epoch);
      var subsidy := EpochSubsidy(epoch - 1);
      if epoch <= 8 {
        EarlySteps(epoch, subsidy);
      } else if epoch <= 16 {
        MiddleSteps(epoch, subsidy);
      } else if epoch <= 24 {
        LateSteps(epoch, subsidy);
      } else {
        LastSteps(epoch, subsidy);
      }
    }
  }

  lemma EpochSpan(epoch: nat)
    ensures EpochStart(epoch + 1) ==
            EpochStart(epoch) + SUBSIDY_HALVING_INTERVAL * EpochSubsidy(epoch)
  {
    hide ShiftRight;
    if epoch < FIRST_POST_SUBSIDY {
      TableStep(epoch);
    }
  }

  lemma {:induction false} EpochsAscend(low: nat, high: nat)
    requires low <= high
    ensures EpochStart(low) <= EpochStart(high)
  {
    hide ShiftRight, EpochSubsidy;
    if low < high {
      EpochsAscend(low, high - 1);
      EpochSpan(high - 1);
    }
  }

  lemma StartingSatStep(height: nat)
    ensures StartingSat(height + 1) == StartingSat(height) + Subsidy(height)
  {
    hide ShiftRight, EpochSubsidy, EpochStart;
    var epoch := EpochOfHeight(height);
    if EpochOfHeight(height + 1) != epoch {
      assert height + 1 == (epoch + 1) * SUBSIDY_HALVING_INTERVAL;
      EpochSpan(epoch);
      assert StartingSat(height) + Subsidy(height) ==
             EpochStart(epoch) + SUBSIDY_HALVING_INTERVAL * EpochSubsidy(epoch);
    }
  }

  /** The closed form is the sum of all earlier subsidies. */
  lemma {:induction false} StartingSatIsMined(height: nat)
    ensures StartingSat(height) == Mined(height)
  {
    hide ShiftRight, EpochSubsidy;
    if height > 0 {
      StartingSatIsMined(height - 1);
      StartingSatStep(height - 1);
    }
  }

  lemma {:induction false} EpochFromBounds(sat: nat, epoch: nat)
    requires epoch <= FIRST_POST_SUBSIDY && EpochStart(epoch) <= sat
    ensures EpochFrom(sat, epoch) <= FIRST_POST_SUBSIDY
    ensures EpochStart(EpochFrom(sat, epoch)) <= sat
    ensures EpochFrom(sat, epoch) < FIRST_POST_SUBSIDY ==> sat < EpochStart(EpochFrom(sat, epoch) + 1)
    decreases FIRST_POST_SUBSIDY - epoch
  {
    hide ShiftRight, EpochStart;
    if epoch < FIRST_POST_SUBSIDY && sat >= EpochStart(epoch + 1) {
      EpochFromBounds(sat, epoch + 1);
    }
  }

  /** `Epoch::from(sat)` is the epoch whose span of sats holds the sat. */
  lemma EpochHolds(sat: nat)
    ensures EpochStart(EpochOfSat(sat)) <= sat
    ensures sat < SUPPLY <==> EpochOfSat(sat) < FIRST_POST_SUBSIDY
    ensures sat < SUPPLY ==> sat < EpochStart(EpochOfSat(sat) + 1)
  {
    hide ShiftRight, EpochFrom;
    EpochFromBounds(sat, 0);
    var epoch := EpochOfSat(sat);
    if epoch < FIRST_POST_SUBSIDY {
      EpochsAscend(epoch + 1, FIRST_POST_SUBSIDY);
    }
  }

  lemma FirstEpoch()
    ensures EpochOfSat(0) == 0 && EpochStart(0) == 0
  {
    hide ShiftRight, EpochSubsidy;
    assert EpochStart(1) > 0;
  }
}
