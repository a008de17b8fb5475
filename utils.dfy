/**
 * Helpers shared by the handlers: the dates of the next epoch, user
 * registration, and the balance update that maintains an epoch's
 * low-water mark.
 */
module Utils {
  import opened Results
  import opened Models

  /**
   * The start of the epoch that follows `latest`; with no epoch yet, the
   * genesis epoch starts now.
   */
  function GenerateStartDatetime(latest: Option<Epoch>, now: int): (start: int)
    ensures latest.None? ==> start == now
    ensures latest.Some? ==> start == latest.value.endDatetime + SPACE_BETWEEN_EPOCHS_IN_SECONDS
    ensures latest.Some? ==> start > latest.value.endDatetime
  {
    match latest
    case None => now
    case Some(e) => e.endDatetime + SPACE_BETWEEN_EPOCHS_IN_SECONDS
  }

  /**
   * The end of the epoch that follows `latest`. It is computed from the
   * previous end, not from the start, yet always lies one epoch duration
   * after the start.
   */
  function GenerateEndDatetime(latest: Option<Epoch>, now: int): (end: int)
    ensures end == GenerateStartDatetime(latest, now) + EPOCH_DURATION
    ensures latest.Some? ==> end > latest.value.endDatetime + EPOCH_DURATION
  {
    match latest
    case None => now + EPOCH_DURATION
    case Some(e) => e.endDatetime + EPOCH_DURATION + SPACE_BETWEEN_EPOCHS_IN_SECONDS
  }

  /** Get-or-create of a user row: an existing row is kept, a missing one takes the defaults. */
  function Register(s: Store, id: UserId): (r: Store)
    ensures id in r.users
    ensures r.users.Keys == s.users.Keys + {id}
    ensures id in s.users ==> r == s
    ensures id !in s.users ==> r.users[id] == NewUser()
    ensures forall other :: other in s.users ==> r.users[other] == s.users[other]
    ensures r.epochs == s.epochs && r.userEpochs == s.userEpochs
  {
    if id in s.users then s else s.(users := s.users[id := NewUser()])
  }

  /** Registering twice is the same as registering once. */
  lemma RegisterIdempotent(s: Store, id: UserId)
    ensures Register(Register(s, id), id) == Register(s, id)
  {
  }

  lemma RegisterPreservesConsistent(s: Store, id: UserId)
    requires Consistent(s)
    ensures Consistent(Register(s, id))
  {
    var r := Register(s, id);
    forall k | k in r.userEpochs
      ensures RecordValid(r, k)
    {
      assert RecordValid(s, k);
    }
  }

  method EnsureRegistered(db: Database, id: UserId) returns (user: User)
    modifies db`users
    ensures db.State() == Register(old(db.State()), id)
    ensures user == db.users[id]
  {
    if id !in db.users {
      db.users := db.users[id := NewUser()];
    }
    user := db.users[id];
  }

  /** The balance after a transfer: a sender gives `points`, a receiver gets them. */
  function Adjusted(balance: int, points: nat, isSender: bool): int {
    if isSender then balance - points else balance + points
  }

  /**
   * The effect of one balance update on the store. The write of the new
   * balance is refused when the value is not storable. The record of
   * (user, epoch) is created at the new balance, or lowered to it when the
   * new balance is lower than the recorded one.
   */
  function BalanceUpdate(s: Store, id: UserId, points: nat, epochId: EpochId, isSender: bool): (r: Result<Store>)
    requires id in s.users
    ensures r.Ok? <==> Storable(Adjusted(s.users[id].balance, points, isSender))
    ensures r.Err? ==> r.error == ValidationFailed
    ensures r.Ok? ==> BalanceUpdated(s, r.value, id, points, epochId, isSender)
  {
    var user := s.users[id];
    var newBalance := Adjusted(user.balance, points, isSender);
    if !Storable(newBalance) then
      Err(ValidationFailed)
    else
      var key := UserEpochKey(id, epochId);
      var records :=
        if key !in s.userEpochs then s.userEpochs[key := UserEpoch(newBalance)]
        else if newBalance < s.userEpochs[key].epochLowestBalance then s.userEpochs[key := UserEpoch(newBalance)]
        else s.userEpochs;
      Ok(s.(users := s.users[id := user.(balance := newBalance)], userEpochs := records))
  }

  /**
   * What one balance update promises: only that user's balance and that one
   * record change; the record ends at or below the new balance, never above
   * its old value, and at one of the two.
   */
  ghost predicate BalanceUpdated(s: Store, t: Store, id: UserId, points: nat, epochId: EpochId, isSender: bool)
    requires id in s.users
  {
    var newBalance := Adjusted(s.users[id].balance, points, isSender);
    var key := UserEpochKey(id, epochId);
    && t.epochs == s.epochs
    && t.users == s.users[id := s.users[id].(balance := newBalance)]
    && key in t.userEpochs
    && t.userEpochs.Keys == s.userEpochs.Keys + {key}
    && (forall k :: k in s.userEpochs && k != key ==> t.userEpochs[k] == s.userEpochs[k])
    && (key !in s.userEpochs ==> t.userEpochs[key].epochLowestBalance == newBalance)
    && (key in s.userEpochs ==>
          t.userEpochs[key].epochLowestBalance
            == Min(s.userEpochs[key].epochLowestBalance, newBalance))
  }

  function Min(a: int, b: int): int {
    if a <= b then a else b
  }

  /** The record after an update never exceeds the new balance and never rises above its old value. */
  lemma BalanceUpdateLowers(s: Store, id: UserId, points: nat, epochId: EpochId, isSender: bool)
    requires id in s.users
    requires BalanceUpdate(s, id, points, epochId, isSender).Ok?
    ensures var t := BalanceUpdate(s, id, points, epochId, isSender).value;
      var key := UserEpochKey(id, epochId);
      && t.userEpochs[key].epochLowestBalance <= t.users[id].balance
      && (key in s.userEpochs ==>
            t.userEpochs[key].epochLowestBalance <= s.userEpochs[key].epochLowestBalance)
  {
  }

  lemma BalanceUpdatePreservesConsistent(s: Store, id: UserId, points: nat, epochId: EpochId, isSender: bool)
    requires Consistent(s) && id in s.users && 1 <= epochId <= |s.epochs|
    requires BalanceUpdate(s, id, points, epochId, isSender).Ok?
    ensures Consistent(BalanceUpdate(s, id, points, epochId, isSender).value)
  {
    var t := BalanceUpdate(s, id, points, epochId, isSender).value;
    forall k | k in t.userEpochs
      ensures RecordValid(t, k)
    {
      if k != UserEpochKey(id, epochId) {
        assert RecordValid(s, k);
      }
    }
  }

  /**
   * Applies one transfer leg to a user's balance and to the user's record
   * for the given epoch. The refused save leaves the store as it was.
   */
  method UpdateBalanceAndEpochLowestBalance(db: Database, id: UserId, points: nat, epochId: EpochId, isSender: bool)
    returns (outcome: Outcome)
    requires id in db.users
    modifies db`users, db`userEpochs
    ensures BalanceUpdate(old(db.State()), id, points, epochId, isSender).Ok? ==>
      outcome == Pass && db.State() == BalanceUpdate(old(db.State()), id, points, epochId, isSender).value
    ensures BalanceUpdate(old(db.State()), id, points, epochId, isSender).Err? ==>
      outcome == Fail(ValidationFailed) && db.State() == old(db.State())
  {
    var user := db.users[id];
    var newBalance := if isSender then user.balance - points else user.balance + points;
    if !Storable(newBalance) {
      return Fail(ValidationFailed);
    }
    db.users := db.users[id := user.(balance := newBalance)];
    var key := UserEpochKey(id, epochId);
    if key !in db.userEpochs {
      db.userEpochs := db.userEpochs[key := UserEpoch(newBalance)];
    } else if newBalance < db.userEpochs[key].epochLowestBalance {
      db.userEpochs := db.userEpochs[key := UserEpoch(newBalance)];
    }
    outcome := Pass;
  }
}
