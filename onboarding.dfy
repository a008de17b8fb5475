/**
 * The staking opt-in / opt-out dialogue held in direct messages: the prompt
 * a user is shown, and the effect on the store of each button of it.
 */
module Onboarding {
  import opened Results
  import opened Models
  import opened Utils

  /** The parts of a chat message the dialogue looks at. */
  datatype DirectMessage = DirectMessage(fromBot: bool, inGuild: bool, authorId: UserId)

  /** "Do you want to stop staking?" or "Do you want to stake points?". */
  datatype Prompt = StopStakingPrompt | StartStakingPrompt

  /** The buttons, by the identifier each one reports when pressed. */
  datatype Button = StartStakingYes | StartStakingNo | ContinueStakingNo | ContinueStakingYes

  /** The effect of one button press: the store it leaves and how the handler ended. */
  datatype Answered = Answered(store: Store, outcome: Outcome)

  predicate IsStaking(users: map<UserId, User>, id: UserId) {
    id in users && users[id].isStaking
  }

  /**
   * The reply to a message: none to the bot's own messages and to messages
   * posted in a guild; otherwise the stop prompt to a user who stakes and the
   * start prompt to anyone else, registered or not.
   */
  function PromptFor(users: map<UserId, User>, msg: DirectMessage): (r: Option<Prompt>)
    ensures r.None? <==> msg.fromBot || msg.inGuild
    ensures r == Some(StopStakingPrompt) <==> !msg.fromBot && !msg.inGuild && IsStaking(users, msg.authorId)
    ensures r == Some(StartStakingPrompt) <==> !msg.fromBot && !msg.inGuild && !IsStaking(users, msg.authorId)
  {
    if msg.fromBot || msg.inGuild then None
    else if IsStaking(users, msg.authorId) then Some(StopStakingPrompt)
    else Some(StartStakingPrompt)
  }

  /** The button labelled "Yes" under a prompt. */
  function YesButton(p: Prompt): Button {
    match p
    case StopStakingPrompt => ContinueStakingNo
    case StartStakingPrompt => StartStakingYes
  }

  /** The button labelled "No" under a prompt. */
  function NoButton(p: Prompt): Button {
    match p
    case StopStakingPrompt => ContinueStakingYes
    case StartStakingPrompt => StartStakingNo
  }

  /**
   * The balance reported by the accounting service for one user, given the
   * points of the entries of its reply: an empty reply counts as 0.
   */
  function ReportedBalance(reply: seq<int>): (b: int)
    ensures |reply| == 0 ==> b == 0
    ensures |reply| > 0 ==> b == reply[0]
  {
    if |reply| == 0 then 0 else reply[0]
  }

  /**
   * Whether `now` lies in the first day of the genesis epoch, during which
   * a user may start staking without penalty.
   */
  predicate InGenesisGrace(epochs: seq<Epoch>, now: int)
    requires |epochs| > 0
  {
    LatestEpochId(epochs) == GENESIS_EPOCH_ID && Latest(epochs).startDatetime + SECONDS_PER_DAY > now
  }

  /**
   * Opting in: register, take over the reported balance and start staking
   * now; then, past the genesis grace window, make sure a zero record exists
   * for the latest epoch. The writes are not in a transaction: those made
   * before a refused write or before the missing epoch is noticed persist.
   */
  function OptIn(s: Store, id: UserId, balance: int, now: int): (r: Answered)
    ensures r.store.users.Keys == s.users.Keys + {id}
    ensures forall other :: other in s.users && other != id ==> r.store.users[other] == s.users[other]
    ensures r.store.epochs == s.epochs
    ensures !Storable(balance) ==> r == Answered(Register(s, id), Fail(ValidationFailed))
    ensures Storable(balance) ==> r.store.users[id] == User(balance, true, Some(now))
    ensures Storable(balance) && |s.epochs| == 0 ==>
      r.outcome == Fail(MissingEpoch) && r.store.userEpochs == s.userEpochs
    ensures Storable(balance) && |s.epochs| > 0 ==> r.outcome == Pass
    ensures r.store.userEpochs.Keys >= s.userEpochs.Keys
    ensures forall k :: k in s.userEpochs ==> r.store.userEpochs[k] == s.userEpochs[k]
    ensures forall k :: k in r.store.userEpochs && k !in s.userEpochs ==>
      && Storable(balance) && |s.epochs| > 0 && !InGenesisGrace(s.epochs, now)
      && k == UserEpochKey(id, LatestEpochId(s.epochs)) && r.store.userEpochs[k] == UserEpoch(0)
    ensures Storable(balance) && |s.epochs| > 0 && !InGenesisGrace(s.epochs, now) ==>
      UserEpochKey(id, LatestEpochId(s.epochs)) in r.store.userEpochs
  {
    var registered := Register(s, id);
    if !Storable(balance) then
      Answered(registered, Fail(ValidationFailed))
    else
      var staking := registered.(users := registered.users[id := User(balance, true, Some(now))]);
      if |s.epochs| == 0 then
        Answered(staking, Fail(MissingEpoch))
      else if InGenesisGrace(s.epochs, now) then
        Answered(staking, Pass)
      else
        var key := UserEpochKey(id, LatestEpochId(s.epochs));
        if key in staking.userEpochs then Answered(staking, Pass)
        else Answered(staking.(userEpochs := staking.userEpochs[key := UserEpoch(0)]), Pass)
  }

  /**
   * Opting out: register, stop staking, and zero the user's record for the
   * latest epoch when there is one. No record is created.
   */
  function OptOut(s: Store, id: UserId): (r: Answered)
    ensures r.store.users.Keys == s.users.Keys + {id}
    ensures forall other :: other in s.users && other != id ==> r.store.users[other] == s.users[other]
    ensures r.store.epochs == s.epochs
    ensures !r.store.users[id].isStaking && r.store.users[id].stakingStartedDate == None
    ensures r.store.users[id].balance == Register(s, id).users[id].balance
    ensures |s.epochs| == 0 <==> r.outcome == Fail(MissingEpoch)
    ensures |s.epochs| > 0 ==> r.outcome == Pass
    ensures r.store.userEpochs.Keys == s.userEpochs.Keys
    ensures forall k :: k in s.userEpochs ==>
      r.store.userEpochs[k] ==
        if |s.epochs| > 0 && k == UserEpochKey(id, LatestEpochId(s.epochs)) then UserEpoch(0) else s.userEpochs[k]
  {
    var registered := Register(s, id);
    var stopped := registered.(users := registered.users[id :=
      registered.users[id].(isStaking := false, stakingStartedDate := None)]);
    if |s.epochs| == 0 then
      Answered(stopped, Fail(MissingEpoch))
    else
      var key := UserEpochKey(id, LatestEpochId(s.epochs));
      if key in stopped.userEpochs then Answered(stopped.(userEpochs := stopped.userEpochs[key := UserEpoch(0)]), Pass)
      else Answered(stopped, Pass)
  }

  /** The effect of pressing a button; "continue staking" only edits the dialogue. */
  function Press(s: Store, button: Button, id: UserId, reply: seq<int>, now: int): (r: Answered)
    ensures button == ContinueStakingYes ==> r == Answered(s, Pass)
    ensures button == StartStakingYes ==> r == OptIn(s, id, ReportedBalance(reply), now)
    ensures button == StartStakingNo || button == ContinueStakingNo ==> r == OptOut(s, id)
  {
    match button
    case StartStakingYes => OptIn(s, id, ReportedBalance(reply), now)
    case StartStakingNo => OptOut(s, id)
    case ContinueStakingNo => OptOut(s, id)
    case ContinueStakingYes => Answered(s, Pass)
  }

  /**
   * Answering "Yes" to the prompt a user was shown turns their staking
   * around, provided, when they start, that the reported balance fits the
   * balance column.
   */
  lemma AnswerYesFlipsStaking(s: Store, msg: DirectMessage, reply: seq<int>, now: int)
    requires PromptFor(s.users, msg).Some?
    requires PromptFor(s.users, msg) == Some(StartStakingPrompt) ==> Storable(ReportedBalance(reply))
    ensures var p := PromptFor(s.users, msg).value;
      var after := Press(s, YesButton(p), msg.authorId, reply, now).store;
      IsStaking(after.users, msg.authorId) == !IsStaking(s.users, msg.authorId)
  {
    var p := PromptFor(s.users, msg).value;
    if p == StopStakingPrompt {
      assert IsStaking(s.users, msg.authorId);
    } else {
      assert !IsStaking(s.users, msg.authorId);
    }
  }

  /** Answering "No" to the prompt a user was shown leaves their staking as it was. */
  lemma AnswerNoKeepsStaking(s: Store, msg: DirectMessage, reply: seq<int>, now: int)
    requires PromptFor(s.users, msg).Some?
    ensures var p := PromptFor(s.users, msg).value;
      var after := Press(s, NoButton(p), msg.authorId, reply, now).store;
      IsStaking(after.users, msg.authorId) == IsStaking(s.users, msg.authorId)
  {
    var p := PromptFor(s.users, msg).value;
    if p == StartStakingPrompt {
      assert !IsStaking(s.users, msg.authorId);
    }
  }

  lemma OptInPreservesConsistent(s: Store, id: UserId, balance: int, now: int)
    requires Consistent(s)
    ensures Consistent(OptIn(s, id, balance, now).store)
  {
    RegisterPreservesConsistent(s, id);
    var t := OptIn(s, id, balance, now).store;
    forall u | u in t.users
      ensures UserRowValid(t.users[u])
    {
      if u != id {
        assert UserRowValid(s.users[u]);
      } else if !Storable(balance) {
        assert UserRowValid(Register(s, id).users[u]);
      }
    }
    forall k | k in t.userEpochs
      ensures RecordValid(t, k)
    {
      if k in s.userEpochs {
        assert RecordValid(s, k);
      }
    }
  }

  lemma OptOutPreservesConsistent(s: Store, id: UserId)
    requires Consistent(s)
    ensures Consistent(OptOut(s, id).store)
  {
    RegisterPreservesConsistent(s, id);
    var t := OptOut(s, id).store;
    forall u | u in t.users
      ensures UserRowValid(t.users[u])
    {
      if u != id {
        assert UserRowValid(s.users[u]);
      } else {
        assert UserRowValid(Register(s, id).users[u]);
      }
    }
    forall k | k in t.userEpochs
      ensures RecordValid(t, k)
    {
      assert RecordValid(s, k);
    }
  }

  /** A user who opts out and then opts in again stakes from the second moment on. */
  lemma OptOutThenOptIn(s: Store, id: UserId, balance: int, now: int)
    requires Storable(balance)
    ensures var t := OptIn(OptOut(s, id).store, id, balance, now).store;
      t.users[id] == User(balance, true, Some(now))
  {
  }

  /** The handler of the "start staking: yes" button. */
  method ChooseStakingYes(db: Database, id: UserId, reply: seq<int>, now: int) returns (outcome: Outcome)
    requires db.Valid()
    modifies db`users, db`userEpochs
    ensures db.Valid()
    ensures Answered(db.State(), outcome) == OptIn(old(db.State()), id, ReportedBalance(reply), now)
  {
    ghost var s := db.State();
    OptInPreservesConsistent(s, id, ReportedBalance(reply), now);
    var _ := EnsureRegistered(db, id);
    var points := ReportedBalance(reply);
    if !Storable(points) {
      return Fail(ValidationFailed);
    }
    db.users := db.users[id := User(points, true, Some(now))];
    if |db.epochs| == 0 {
      return Fail(MissingEpoch);
    }
    var currentEpochId := LatestEpochId(db.epochs);
    if currentEpochId == GENESIS_EPOCH_ID && Latest(db.epochs).startDatetime + SECONDS_PER_DAY > now {
      // the first day of the genesis epoch counts in full
    } else {
      var key := UserEpochKey(id, currentEpochId);
      if key !in db.userEpochs {
        db.userEpochs := db.userEpochs[key := UserEpoch(0)];
      }
    }
    outcome := Pass;
  }

  /** The handler of the "start staking: no" and "stop staking: yes" buttons. */
  method ChooseStakingNo(db: Database, id: UserId) returns (outcome: Outcome)
    requires db.Valid()
    modifies db`users, db`userEpochs
    ensures db.Valid()
    ensures Answered(db.State(), outcome) == OptOut(old(db.State()), id)
  {
    ghost var s := db.State();
    OptOutPreservesConsistent(s, id);
    var _ := EnsureRegistered(db, id);
    db.users := db.users[id := db.users[id].(isStaking := false, stakingStartedDate := None)];
    if |db.epochs| == 0 {
      return Fail(MissingEpoch);
    }
    var key := UserEpochKey(id, LatestEpochId(db.epochs));
    if key in db.userEpochs {
      db.userEpochs := db.userEpochs[key := UserEpoch(0)];
    }
    outcome := Pass;
  }

  /** Dispatches a button press to its handler. */
  method OnComponent(db: Database, button: Button, id: UserId, reply: seq<int>, now: int) returns (outcome: Outcome)
    requires db.Valid()
    modifies db`users, db`userEpochs
    ensures db.Valid()
    ensures Answered(db.State(), outcome) == Press(old(db.State()), button, id, reply, now)
  {
    match button
    case StartStakingYes =>
      outcome := ChooseStakingYes(db, id, reply, now);
    case StartStakingNo =>
      outcome := ChooseStakingNo(db, id);
    case ContinueStakingNo =>
      outcome := ChooseStakingNo(db, id);
    case ContinueStakingYes =>
      outcome := Pass;
  }
}
