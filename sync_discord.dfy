/**
 * The transfer handler: a logged transfer names a sender and receivers; the
 * staking ones among them have their balances and their low-water marks for
 * the latest epoch updated in one transaction.
 */
module SyncDiscord {
  import opened Results
  import opened Models
  import opened Utils

  function MentionedIds(mentions: seq<UserId>): set<UserId> {
    set x | x in mentions
  }

  /** The ids among `ids` of registered users who stake. */
  function StakingUserIds(users: map<UserId, User>, ids: set<UserId>): (r: set<UserId>)
    ensures r <= ids && r <= users.Keys
    ensures forall u :: u in ids && u in users && users[u].isStaking ==> u in r
    ensures forall u :: u in r ==> users[u].isStaking
  {
    set u | u in ids && u in users && users[u].isStaking
  }

  /** The distinct receivers (all mentions after the first) who stake. */
  function StakingReceivers(s: Store, mentions: seq<UserId>): set<UserId>
    requires |mentions| > 0
  {
    MentionedIds(mentions[1..]) * StakingUserIds(s.users, MentionedIds(mentions))
  }

  /** The sender is the first mention. */
  predicate SenderStaking(s: Store, mentions: seq<UserId>)
    requires |mentions| > 0
  {
    mentions[0] in StakingUserIds(s.users, MentionedIds(mentions))
  }

  /** The record of a receiver for epoch e after being credited `points` once. */
  function CreditedRecord(s: Store, k: UserEpochKey, points: nat): UserEpoch
    requires k.user in s.users
  {
    var newBalance := s.users[k.user].balance + points;
    if k !in s.userEpochs then UserEpoch(newBalance)
    else if newBalance < s.userEpochs[k].epochLowestBalance then UserEpoch(newBalance)
    else s.userEpochs[k]
  }

  function ReceiverKeys(receivers: set<UserId>, epochId: EpochId): set<UserEpochKey> {
    set r | r in receivers :: UserEpochKey(r, epochId)
  }

  /**
   * Every user of `receivers` credited `points` once, all at the same time;
   * refused when one of the new balances is not storable. Being a function of
   * the set, it does not depend on the order of the credits.
   */
  function CreditAll(s: Store, receivers: set<UserId>, points: nat, epochId: EpochId): (r: Result<Store>)
    requires receivers <= s.users.Keys
    ensures r.Ok? <==> forall u :: u in receivers ==> Storable(s.users[u].balance + points)
    ensures r.Ok? ==> r.value.epochs == s.epochs && r.value.users.Keys == s.users.Keys
    ensures r.Ok? ==> forall u :: u in s.users ==>
      r.value.users[u] == if u in receivers then s.users[u].(balance := s.users[u].balance + points) else s.users[u]
    ensures r.Ok? ==> r.value.userEpochs.Keys == s.userEpochs.Keys + ReceiverKeys(receivers, epochId)
    ensures r.Ok? ==> forall k :: k in r.value.userEpochs ==>
      r.value.userEpochs[k] ==
        if k.epoch == epochId && k.user in receivers then CreditedRecord(s, k, points) else s.userEpochs[k]
    ensures r.Err? ==> r.error == ValidationFailed
  {
    if forall u :: u in receivers ==> Storable(s.users[u].balance + points) then
      var users := map u | u in s.users ::
        if u in receivers then s.users[u].(balance := s.users[u].balance + points) else s.users[u];
      var records := map k | k in s.userEpochs.Keys + ReceiverKeys(receivers, epochId) ::
        if k.epoch == epochId && k.user in receivers then CreditedRecord(s, k, points) else s.userEpochs[k];
      Ok(s.(users := users, userEpochs := records))
    else
      Err(ValidationFailed)
  }

  /** Crediting one more receiver after a set of others is one balance update. */
  lemma CreditStep(s: Store, done: set<UserId>, r: UserId, points: nat, epochId: EpochId)
    requires done <= s.users.Keys && r in s.users && r !in done
    requires CreditAll(s, done, points, epochId).Ok?
    ensures r in CreditAll(s, done, points, epochId).value.users
    ensures BalanceUpdate(CreditAll(s, done, points, epochId).value, r, points, epochId, false)
      == CreditAll(s, done + {r}, points, epochId)
  {
    var t := CreditAll(s, done, points, epochId).value;
    var next := CreditAll(s, done + {r}, points, epochId);
    var step := BalanceUpdate(t, r, points, epochId, false);
    assert t.users[r] == s.users[r];
    if step.Ok? {
      assert next.Ok?;
      var a, b := step.value, next.value;
      assert a.users == b.users;
      var key := UserEpochKey(r, epochId);
      assert key in t.userEpochs <==> key in s.userEpochs;
      assert a.userEpochs.Keys == b.userEpochs.Keys;
      forall k | k in a.userEpochs
        ensures a.userEpochs[k] == b.userEpochs[k]
      {
        if k == key {
          assert b.userEpochs[k] == CreditedRecord(s, k, points);
        }
      }
      assert a.userEpochs == b.userEpochs;
    } else {
      assert !Storable(s.users[r].balance + points);
    }
  }

  /**
   * The effect of one logged transfer: the staking sender is debited first,
   * then every distinct staking receiver is credited, all against the latest
   * epoch, in one transaction that is refused as a whole when one write is.
   */
  function ApplyTransfer(s: Store, mentions: seq<UserId>, points: nat): (r: Result<Store>)
    ensures |mentions| == 0 ==> r == Err(NoMentions)
    ensures r.Ok? ==> r.value.epochs == s.epochs && r.value.users.Keys == s.users.Keys
    ensures r.Err? && |mentions| > 0 && |s.epochs| > 0 ==> r.error == ValidationFailed
    ensures |mentions| > 0 && |s.epochs| == 0 ==>
      (r.Ok? <==> !SenderStaking(s, mentions) && StakingReceivers(s, mentions) == {})
  {
    if |mentions| == 0 then
      Err(NoMentions)
    else
      var senderId := mentions[0];
      var receivers := StakingReceivers(s, mentions);
      if |s.epochs| == 0 then
        if SenderStaking(s, mentions) || receivers != {} then Err(MissingEpoch) else Ok(s)
      else
        var epochId := LatestEpochId(s.epochs);
        var afterSender :=
          if SenderStaking(s, mentions) then BalanceUpdate(s, senderId, points, epochId, true) else Ok(s);
        if afterSender.Err? then afterSender else CreditAll(afterSender.value, receivers, points, epochId)
  }

  /** The state after the sender's debit, the intermediate step of ApplyTransfer. */
  function AfterSender(s: Store, mentions: seq<UserId>, points: nat): Result<Store>
    requires |mentions| > 0 && |s.epochs| > 0
  {
    if SenderStaking(s, mentions) then BalanceUpdate(s, mentions[0], points, LatestEpochId(s.epochs), true) else Ok(s)
  }

  lemma ApplyTransferSteps(s: Store, mentions: seq<UserId>, points: nat)
    requires |mentions| > 0 && |s.epochs| > 0
    ensures var a := AfterSender(s, mentions, points);
      && (a.Ok? ==> a.value.users.Keys == s.users.Keys && StakingReceivers(s, mentions) <= a.value.users.Keys)
      && ApplyTransfer(s, mentions, points) ==
           if a.Err? then a else CreditAll(a.value, StakingReceivers(s, mentions), points, LatestEpochId(s.epochs))
  {
  }

  /**
   * A staking receiver gains `points` once however often mentioned, a staking
   * sender loses them once, and nobody's staking state changes.
   */
  lemma TransferBalance(s: Store, mentions: seq<UserId>, points: nat, u: UserId)
    requires |mentions| > 0 && u in s.users
    requires ApplyTransfer(s, mentions, points).Ok?
    ensures var t := ApplyTransfer(s, mentions, points).value;
      && u in t.users
      && t.users[u].balance == s.users[u].balance
           + (if u in StakingReceivers(s, mentions) then points else 0)
           - (if u == mentions[0] && SenderStaking(s, mentions) then points else 0)
      && t.users[u].isStaking == s.users[u].isStaking
      && t.users[u].stakingStartedDate == s.users[u].stakingStartedDate
  {
    if |s.epochs| > 0 {
      ApplyTransferSteps(s, mentions, points);
    }
  }

  /** Users who are not mentioned, or do not stake, keep their row and every record of theirs. */
  lemma TransferUntouched(s: Store, mentions: seq<UserId>, points: nat)
    requires |mentions| > 0
    requires ApplyTransfer(s, mentions, points).Ok?
    ensures var t := ApplyTransfer(s, mentions, points).value;
      var involved := StakingUserIds(s.users, MentionedIds(mentions));
      && (forall u :: u in s.users && u !in involved ==> t.users[u] == s.users[u])
      && (forall k: UserEpochKey :: k.user !in involved ==>
            (k in t.userEpochs <==> k in s.userEpochs)
            && (k in s.userEpochs ==> t.userEpochs[k] == s.userEpochs[k]))
  {
    if |s.epochs| > 0 {
      ApplyTransferSteps(s, mentions, points);
    }
  }

  /**
   * Every record a transfer creates or changes is one of the latest epoch, and
   * no existing record rises: the low-water mark only goes down.
   */
  lemma TransferRecords(s: Store, mentions: seq<UserId>, points: nat)
    requires |mentions| > 0
    requires ApplyTransfer(s, mentions, points).Ok?
    ensures var t := ApplyTransfer(s, mentions, points).value;
      && (forall k :: k in s.userEpochs ==> k in t.userEpochs)
      && (forall k :: k in t.userEpochs && (k !in s.userEpochs || t.userEpochs[k] != s.userEpochs[k]) ==>
            k.epoch == LatestEpochId(s.epochs))
      && (forall k :: k in s.userEpochs ==>
            t.userEpochs[k].epochLowestBalance <= s.userEpochs[k].epochLowestBalance)
  {
    if |s.epochs| > 0 {
      ApplyTransferSteps(s, mentions, points);
    }
  }

  /**
   * A staking sender who is also a staking receiver ends with the balance
   * they started with, but their record has seen the debit first.
   */
  lemma SelfTransfer(s: Store, mentions: seq<UserId>, points: nat)
    requires |mentions| > 0 && SenderStaking(s, mentions) && mentions[0] in StakingReceivers(s, mentions)
    requires ApplyTransfer(s, mentions, points).Ok?
    ensures var t := ApplyTransfer(s, mentions, points).value;
      var key := UserEpochKey(mentions[0], LatestEpochId(s.epochs));
      && t.users[mentions[0]].balance == s.users[mentions[0]].balance
      && key in t.userEpochs
      && t.userEpochs[key].epochLowestBalance <= s.users[mentions[0]].balance - points
  {
    ApplyTransferSteps(s, mentions, points);
    TransferBalance(s, mentions, points, mentions[0]);
  }

  lemma TransferPreservesConsistent(s: Store, mentions: seq<UserId>, points: nat)
    requires Consistent(s)
    requires ApplyTransfer(s, mentions, points).Ok?
    ensures Consistent(ApplyTransfer(s, mentions, points).value)
  {
    if |s.epochs| > 0 {
      ApplyTransferSteps(s, mentions, points);
      var epochId := LatestEpochId(s.epochs);
      var a := AfterSender(s, mentions, points).value;
      if SenderStaking(s, mentions) {
        BalanceUpdatePreservesConsistent(s, mentions[0], points, epochId, true);
      }
      var t := ApplyTransfer(s, mentions, points).value;
      forall u | u in t.users
        ensures UserRowValid(t.users[u])
      {
        assert UserRowValid(a.users[u]);
      }
      forall k | k in t.userEpochs
        ensures RecordValid(t, k)
      {
        if k in a.userEpochs {
          assert RecordValid(a, k);
        }
      }
    }
  }

  /** Refusal: the sender's debit or one receiver's credit does not fit the balance column. */
  lemma TransferRefused(s: Store, mentions: seq<UserId>, points: nat)
    requires |mentions| > 0 && |s.epochs| > 0
    ensures var debited := SenderStaking(s, mentions);
      ApplyTransfer(s, mentions, points).Err? <==>
        || (debited && !Storable(s.users[mentions[0]].balance - points))
        || (exists u :: u in StakingReceivers(s, mentions) &&
              !Storable(s.users[u].balance - (if debited && u == mentions[0] then points else 0) + points))
  {
    ApplyTransferSteps(s, mentions, points);
  }

  lemma NonEmptyHasElement(ids: set<UserId>)
    requires ids != {}
    ensures exists x :: x in ids
  {
    if forall x :: x !in ids {
      assert false;
    }
  }

  /** The sum of the balances of the users in `ids`. */
  ghost function SumBalances(users: map<UserId, User>, ids: set<UserId>): int
    requires ids <= users.Keys
    decreases ids
  {
    if ids == {} then 0
    else
      NonEmptyHasElement(ids);
      var u :| u in ids; users[u].balance + SumBalances(users, ids - {u})
  }

  ghost function TotalBalance(users: map<UserId, User>): int {
    SumBalances(users, users.Keys)
  }

  lemma {:induction false} SumBalancesRemove(users: map<UserId, User>, ids: set<UserId>, x: UserId)
    requires ids <= users.Keys && x in ids
    ensures SumBalances(users, ids) == users[x].balance + SumBalances(users, ids - {x})
    decreases ids
  {
    var u :| u in ids && SumBalances(users, ids) == users[u].balance + SumBalances(users, ids - {u});
    if u != x {
      SumBalancesRemove(users, ids - {u}, x);
      SumBalancesRemove(users, ids - {x}, u);
      assert ids - {u} - {x} == ids - {x} - {u};
    }
  }

  /** Shifting the balances of the users of `shifted` by `delta` shifts the sum by delta per such user. */
  lemma {:induction false} SumBalancesShift(
    before: map<UserId, User>, after: map<UserId, User>, ids: set<UserId>, shifted: set<UserId>, delta: int)
    requires ids <= before.Keys && ids <= after.Keys
    requires forall u :: u in ids ==> after[u].balance == before[u].balance + (if u in shifted then delta else 0)
    ensures SumBalances(after, ids) == SumBalances(before, ids) + delta * |shifted * ids|
    decreases ids
  {
    if ids != {} {
      NonEmptyHasElement(ids);
      var x :| x in ids;
      SumBalancesRemove(before, ids, x);
      SumBalancesRemove(after, ids, x);
      SumBalancesShift(before, after, ids - {x}, shifted, delta);
      var n := |shifted * (ids - {x})|;
      if x in shifted {
        assert shifted * ids == shifted * (ids - {x}) + {x};
        assert |shifted * ids| == n + 1;
        assert delta * (n + 1) == delta * n + delta;
      } else {
        assert shifted * ids == shifted * (ids - {x});
      }
    }
  }

  /** One balance update shifts the total by the signed amount. */
  lemma BalanceUpdateTotal(s: Store, id: UserId, points: nat, epochId: EpochId, isSender: bool)
    requires id in s.users
    requires BalanceUpdate(s, id, points, epochId, isSender).Ok?
    ensures TotalBalance(BalanceUpdate(s, id, points, epochId, isSender).value.users)
      == Adjusted(TotalBalance(s.users), points, isSender)
  {
    var t := BalanceUpdate(s, id, points, epochId, isSender).value;
    var delta: int := if isSender then -(points as int) else points;
    forall u | u in s.users.Keys
      ensures t.users[u].balance == s.users[u].balance + (if u in {id} then delta else 0)
    {
    }
    SumBalancesShift(s.users, t.users, s.users.Keys, {id}, delta);
    assert {id} * s.users.Keys == {id};
    assert delta * |{id} * s.users.Keys| == delta;
    assert t.users.Keys == s.users.Keys;
  }

  /** Crediting a set of receivers adds `points` to the total per receiver. */
  lemma CreditAllTotal(s: Store, receivers: set<UserId>, points: nat, epochId: EpochId)
    requires receivers <= s.users.Keys
    requires CreditAll(s, receivers, points, epochId).Ok?
    ensures TotalBalance(CreditAll(s, receivers, points, epochId).value.users)
      == TotalBalance(s.users) + points * |receivers|
  {
    var t := CreditAll(s, receivers, points, epochId).value;
    SumBalancesShift(s.users, t.users, s.users.Keys, receivers, points);
    assert receivers * s.users.Keys == receivers;
  }

  /**
   * Across all users, a transfer adds `points` per distinct staking receiver
   * and removes `points` for a staking sender.
   */
  lemma TransferTotal(s: Store, mentions: seq<UserId>, points: nat)
    requires |mentions| > 0
    requires ApplyTransfer(s, mentions, points).Ok?
    ensures TotalBalance(ApplyTransfer(s, mentions, points).value.users)
      == TotalBalance(s.users) + points * |StakingReceivers(s, mentions)|
         - (if SenderStaking(s, mentions) then points else 0)
  {
    if |s.epochs| > 0 {
      ApplyTransferSteps(s, mentions, points);
      var a := AfterSender(s, mentions, points).value;
      if SenderStaking(s, mentions) {
        BalanceUpdateTotal(s, mentions[0], points, LatestEpochId(s.epochs), true);
      }
      CreditAllTotal(a, StakingReceivers(s, mentions), points, LatestEpochId(s.epochs));
    }
  }

  /** Crediting nobody changes nothing. */
  lemma CreditAllEmpty(s: Store, points: nat, epochId: EpochId)
    ensures CreditAll(s, {}, points, epochId) == Ok(s)
  {
    var c := CreditAll(s, {}, points, epochId).value;
    assert c.users == s.users;
    assert c.userEpochs == s.userEpochs;
  }

  /** A refused credit of some receivers refuses the credit of any larger set. */
  lemma CreditAllRefusedGrows(s: Store, smaller: set<UserId>, larger: set<UserId>, points: nat, epochId: EpochId)
    requires smaller <= larger <= s.users.Keys
    requires CreditAll(s, smaller, points, epochId).Err?
    ensures CreditAll(s, larger, points, epochId) == CreditAll(s, smaller, points, epochId)
  {
  }

  predicate NoDuplicates(order: seq<UserId>) {
    forall i, j :: 0 <= i < j < |order| ==> order[i] != order[j]
  }

  /** The receivers credited one after the other, in the order given. */
  function FoldCredits(s: Store, order: seq<UserId>, points: nat, epochId: EpochId): (r: Result<Store>)
    requires forall i :: 0 <= i < |order| ==> order[i] in s.users
    ensures r.Ok? ==> r.value.users.Keys == s.users.Keys
    decreases |order|
  {
    if |order| == 0 then Ok(s)
    else
      match FoldCredits(s, order[..|order| - 1], points, epochId)
      case Err(e) => Err(e)
      case Ok(t) => BalanceUpdate(t, order[|order| - 1], points, epochId, false)
  }

  /** Crediting distinct receivers one by one, in any order, is CreditAll of their set. */
  lemma {:induction false} FoldCreditsIsCreditAll(s: Store, order: seq<UserId>, points: nat, epochId: EpochId)
    requires forall i :: 0 <= i < |order| ==> order[i] in s.users
    requires NoDuplicates(order)
    ensures MentionedIds(order) <= s.users.Keys
    ensures FoldCredits(s, order, points, epochId) == CreditAll(s, MentionedIds(order), points, epochId)
    decreases |order|
  {
    if |order| == 0 {
      assert MentionedIds(order) == {};
      CreditAllEmpty(s, points, epochId);
    } else {
      var init, last := order[..|order| - 1], order[|order| - 1];
      assert order == init + [last];
      assert NoDuplicates(init) by {
        forall i, j | 0 <= i < j < |init|
          ensures init[i] != init[j]
        {
          assert init[i] == order[i] && init[j] == order[j];
        }
      }
      FoldCreditsIsCreditAll(s, init, points, epochId);
      var doneSet := MentionedIds(init);
      assert MentionedIds(order) == doneSet + {last};
      assert last !in doneSet by {
        forall i | 0 <= i < |init|
          ensures init[i] != last
        {
          assert init[i] == order[i];
        }
      }
      var prev := CreditAll(s, doneSet, points, epochId);
      if prev.Ok? {
        CreditStep(s, doneSet, last, points, epochId);
      } else {
        CreditAllRefusedGrows(s, doneSet, MentionedIds(order), points, epochId);
      }
    }
  }

  /** Two orders of the same distinct receivers give the same store. */
  lemma ReceiverOrderIrrelevant(s: Store, order1: seq<UserId>, order2: seq<UserId>, points: nat, epochId: EpochId)
    requires forall i :: 0 <= i < |order1| ==> order1[i] in s.users
    requires forall i :: 0 <= i < |order2| ==> order2[i] in s.users
    requires NoDuplicates(order1) && NoDuplicates(order2)
    requires MentionedIds(order1) == MentionedIds(order2)
    ensures FoldCredits(s, order1, points, epochId) == FoldCredits(s, order2, points, epochId)
  {
    FoldCreditsIsCreditAll(s, order1, points, epochId);
    FoldCreditsIsCreditAll(s, order2, points, epochId);
  }

  /**
   * Credits every user of `receivers` one after the other, in an arbitrary
   * order. When one credit is refused the handler stops there; the partial
   * writes are the transaction's to roll back.
   */
  method CreditReceivers(db: Database, receivers: set<UserId>, points: nat, epochId: EpochId)
    returns (outcome: Outcome)
    requires receivers <= db.users.Keys
    modifies db`users, db`userEpochs
    ensures CreditAll(old(db.State()), receivers, points, epochId).Ok? ==>
      outcome == Pass && db.State() == CreditAll(old(db.State()), receivers, points, epochId).value
    ensures CreditAll(old(db.State()), receivers, points, epochId).Err? ==> outcome == Fail(ValidationFailed)
  {
    ghost var start := db.State();
    CreditAllEmpty(start, points, epochId);
    var remaining := receivers;
    ghost var done: set<UserId> := {};
    while remaining != {}
      invariant remaining + done == receivers && remaining !! done
      invariant CreditAll(start, done, points, epochId) == Ok(db.State())
      decreases remaining
    {
      NonEmptyHasElement(remaining);
      var receiverId :| receiverId in remaining;
      CreditStep(start, done, receiverId, points, epochId);
      outcome := UpdateBalanceAndEpochLowestBalance(db, receiverId, points, epochId, false);
      if outcome.Fail? {
        CreditAllRefusedGrows(start, done + {receiverId}, receivers, points, epochId);
        return;
      }
      remaining := remaining - {receiverId};
      done := done + {receiverId};
    }
    assert done == receivers;
    outcome := Pass;
  }

  /**
   * Handles one message of the points log channel, already parsed into its
   * mentions and its amount. The sender is debited, then the receivers are
   * credited; a refused write rolls the whole transaction back.
   */
  method OnMessage(db: Database, mentions: seq<UserId>, points: nat) returns (outcome: Outcome)
    requires db.Valid()
    modifies db`users, db`userEpochs
    ensures db.Valid()
    ensures ApplyTransfer(old(db.State()), mentions, points).Ok? ==>
      outcome == Pass && db.State() == ApplyTransfer(old(db.State()), mentions, points).value
    ensures ApplyTransfer(old(db.State()), mentions, points).Err? ==>
      outcome == Fail(ApplyTransfer(old(db.State()), mentions, points).error) && db.State() == old(db.State())
  {
    if |mentions| == 0 {
      return Fail(NoMentions);
    }
    var senderId := mentions[0];
    var receiversIds := mentions[1..];
    assert [senderId] + receiversIds == mentions;
    var stakingUsersIds := StakingUserIds(db.users, set x | x in [senderId] + receiversIds);
    var isSenderStaking := senderId in stakingUsersIds;
    var receiversWhoStakeIds := (set x | x in receiversIds) * stakingUsersIds;
    ghost var s := db.State();
    assert isSenderStaking == SenderStaking(s, mentions);
    assert receiversWhoStakeIds == StakingReceivers(s, mentions);
    if |db.epochs| == 0 {
      if isSenderStaking || receiversWhoStakeIds != {} {
        return Fail(MissingEpoch);
      }
      return Pass;
    }
    var currentEpochId := LatestEpochId(db.epochs);
    ApplyTransferSteps(s, mentions, points);
    var savedUsers, savedUserEpochs := db.users, db.userEpochs;
    if isSenderStaking {
      outcome := UpdateBalanceAndEpochLowestBalance(db, senderId, points, currentEpochId, true);
      if outcome.Fail? {
        return;
      }
    }
    assert Ok(db.State()) == AfterSender(s, mentions, points);
    outcome := CreditReceivers(db, receiversWhoStakeIds, points, currentEpochId);
    if outcome.Fail? {
      db.users, db.userEpochs := savedUsers, savedUserEpochs;
      return;
    }
    TransferPreservesConsistent(s, mentions, points);
  }
}
