/**
 * The epoch scheduler: a periodic tick that keeps a current epoch in the
 * store and appends the next one when the latest is about to end.
 */
module Epochs {
  import opened Results
  import opened Models
  import opened Utils

  /** The latest epoch ends within two check intervals of now. */
  predicate IsTooClose(latest: Epoch, now: int) {
    latest.endDatetime - 2 * CHECK_EPOCH_IN_MINUTES * SECONDS_PER_MINUTE < now
  }

  /** The epochs after one check at time `now`. */
  function NextEpochs(epochs: seq<Epoch>, now: int): (r: seq<Epoch>)
    ensures |epochs| == 0 ==> r == [NewEpoch(now, now + EPOCH_DURATION)]
    ensures |epochs| > 0 ==> (|r| == |epochs| + 1 <==> IsTooClose(Latest(epochs), now))
    ensures |epochs| > 0 && !IsTooClose(Latest(epochs), now) ==> r == epochs
    ensures |epochs| <= |r| <= |epochs| + 1 && r[..|epochs|] == epochs
    ensures |r| == |epochs| + 1 && |epochs| > 0 ==>
      && r[|epochs|].startDatetime == Latest(epochs).endDatetime + SPACE_BETWEEN_EPOCHS_IN_SECONDS
      && r[|epochs|].endDatetime == r[|epochs|].startDatetime + EPOCH_DURATION
      && r[|epochs|].apy == DEFAULT_EPOCH_APY
      && r[|epochs|].portfolioPercentage == DEFAULT_PORTFOLIO_PERCENTAGE
  {
    if |epochs| == 0 then
      [NewEpoch(GenerateStartDatetime(None, now), GenerateEndDatetime(None, now))]
    else
      var latest := Latest(epochs);
      if IsTooClose(latest, now) then
        epochs + [NewEpoch(GenerateStartDatetime(Some(latest), now), GenerateEndDatetime(Some(latest), now))]
      else
        epochs
  }

  /** A check keeps the epochs chained. */
  lemma NextEpochsChained(epochs: seq<Epoch>, now: int)
    requires Chained(epochs)
    ensures Chained(NextEpochs(epochs, now))
  {
    var r := NextEpochs(epochs, now);
    forall i | 0 < i < |r|
      ensures r[i].startDatetime == r[i - 1].endDatetime + SPACE_BETWEEN_EPOCHS_IN_SECONDS
    {
      if i < |epochs| {
        assert r[i] == epochs[i] && r[i - 1] == epochs[i - 1];
      }
    }
  }

  /** A check changes neither the users nor the user-epoch records, and keeps the store consistent. */
  lemma NextEpochsPreservesConsistent(s: Store, now: int)
    requires Consistent(s)
    ensures Consistent(s.(epochs := NextEpochs(s.epochs, now)))
  {
    NextEpochsChained(s.epochs, now);
    var t := s.(epochs := NextEpochs(s.epochs, now));
    forall k | k in t.userEpochs
      ensures RecordValid(t, k)
    {
      assert RecordValid(s, k);
    }
  }

  /** In chained epochs, epoch i starts i periods (duration plus gap) after the genesis start. */
  lemma {:induction false} ChainedStart(epochs: seq<Epoch>, i: nat)
    requires Chained(epochs) && i < |epochs|
    ensures epochs[i].startDatetime
      == epochs[0].startDatetime + i * (EPOCH_DURATION + SPACE_BETWEEN_EPOCHS_IN_SECONDS)
  {
    if i > 0 {
      ChainedStart(epochs, i - 1);
    }
  }

  /** Chained epochs never overlap: an earlier epoch ends before a later one starts. */
  lemma {:induction false} ChainedDisjoint(epochs: seq<Epoch>, i: nat, j: nat)
    requires Chained(epochs) && i < j < |epochs|
    ensures epochs[i].endDatetime < epochs[j].startDatetime
  {
    ChainedStart(epochs, i);
    ChainedStart(epochs, j);
    assert (j - i) * (EPOCH_DURATION + SPACE_BETWEEN_EPOCHS_IN_SECONDS) >= EPOCH_DURATION + SPACE_BETWEEN_EPOCHS_IN_SECONDS;
  }

  predicate Contains(e: Epoch, t: int) {
    e.startDatetime <= t <= e.endDatetime
  }

  /** At any instant at most one epoch is running. */
  lemma AtMostOneRunning(epochs: seq<Epoch>, t: int, i: nat, j: nat)
    requires Chained(epochs) && i < |epochs| && j < |epochs|
    requires Contains(epochs[i], t) && Contains(epochs[j], t)
    ensures i == j
  {
    if i < j {
      ChainedDisjoint(epochs, i, j);
    } else if j < i {
      ChainedDisjoint(epochs, j, i);
    }
  }

  /**
   * A rollover happens before the latest epoch ends, so the epoch it creates,
   * which every handler then treats as current, has not started yet.
   */
  lemma RolloverCreatesFutureEpoch(epochs: seq<Epoch>, now: int)
    requires |epochs| > 0 && IsTooClose(Latest(epochs), now) && now <= Latest(epochs).endDatetime
    ensures Latest(NextEpochs(epochs, now)).startDatetime > now
  {
  }

  /** The scheduler: it holds the store and the single-flight lock of its periodic task. */
  class EpochCog {
    const db: Database
    var epochCronTaskLock: bool

    constructor (db: Database)
      ensures this.db == db && !epochCronTaskLock
    {
      this.db := db;
      epochCronTaskLock := false;
    }

    /** Creates the genesis epoch in an empty store, or the next epoch when the latest ends soon. */
    method CheckIncrementEpoch(now: int)
      requires db.Valid()
      modifies db`epochs
      ensures db.Valid()
      ensures db.epochs == NextEpochs(old(db.epochs), now)
      ensures db.users == old(db.users) && db.userEpochs == old(db.userEpochs)
    {
      NextEpochsPreservesConsistent(db.State(), now);
      if |db.epochs| == 0 {
        db.epochs := db.epochs + [NewEpoch(GenerateStartDatetime(None, now), GenerateEndDatetime(None, now))];
        return;
      }
      var latestEpoch := db.epochs[|db.epochs| - 1];
      var isTooClose := latestEpoch.endDatetime - 2 * CHECK_EPOCH_IN_MINUTES * SECONDS_PER_MINUTE < now;
      if isTooClose {
        db.epochs := db.epochs + [NewEpoch(
          GenerateStartDatetime(Some(latestEpoch), now),
          GenerateEndDatetime(Some(latestEpoch), now))];
      }
    }

    /**
     * One firing of the periodic task. A firing that finds the lock held does
     * nothing; otherwise it takes the lock, runs the check (which may fail,
     * `checkRaises`, creating nothing) and releases the lock in all cases.
     */
    method EpochCronTask(now: int, checkRaises: bool)
      requires db.Valid()
      modifies this`epochCronTaskLock, db`epochs
      ensures db.Valid()
      ensures epochCronTaskLock == old(epochCronTaskLock)
      ensures db.users == old(db.users) && db.userEpochs == old(db.userEpochs)
      ensures db.epochs == if old(epochCronTaskLock) || checkRaises then old(db.epochs) else NextEpochs(old(db.epochs), now)
    {
      if !epochCronTaskLock {
        epochCronTaskLock := true;
        if !checkRaises {
          CheckIncrementEpoch(now);
        }
        epochCronTaskLock := false;
      }
    }
  }
}
