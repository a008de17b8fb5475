/**
 * The three row types of the ledger (users, epochs, user-epoch records), the
 * configuration constants, the column constraints, and the store that holds them.
 */
module Models {
  import opened Results

  /** A user is identified by their chat-platform id (a 64-bit integer). */
  type UserId = int
  /** Epoch ids are assigned sequentially from 1 (the genesis epoch). */
  type EpochId = nat

  const SECONDS_PER_MINUTE: int := 60
  const SECONDS_PER_DAY: int := 86400

  const EPOCH_DURATION_IN_DAYS: int := 14
  const SPACE_BETWEEN_EPOCHS_IN_SECONDS: int := 42
  const CHECK_EPOCH_IN_MINUTES: int := 15
  const GENESIS_EPOCH_ID: EpochId := 1
  /** Declared in the configuration, but the opt-in handler uses a one-day window instead. */
  const PENALTIES_FREE_DAYS_FOR_GENESIS: int := 2

  /** An epoch lasts 14 days, 1 209 600 seconds. */
  const EPOCH_DURATION: int := EPOCH_DURATION_IN_DAYS * SECONDS_PER_DAY

  /** Amounts and rates are fixed-point decimals with 4 fractional digits: 1.0 is 10 000 units. */
  const AMOUNT_SCALE: int := 10000
  /** 0.05, the default APY of an epoch. */
  const DEFAULT_EPOCH_APY: int := 500
  /** 0.2, the default part of a balance that is staked. */
  const DEFAULT_PORTFOLIO_PERCENTAGE: int := 2000
  /** A column of 15 digits, 4 of them fractional, holds fewer than 10^15 units. */
  const AMOUNT_BOUND: int := 1_000_000_000_000_000

  /**
   * A value the decimal columns accept: the non-negativity validator and the
   * 15-digit width.
   */
  predicate Storable(v: int) {
    0 <= v < AMOUNT_BOUND
  }

  datatype User = User(balance: int, isStaking: bool, stakingStartedDate: Option<int>)

  datatype Epoch = Epoch(startDatetime: int, endDatetime: int, apy: int, portfolioPercentage: int)

  /** A user-epoch record belongs to exactly one user and one epoch. */
  datatype UserEpochKey = UserEpochKey(user: UserId, epoch: EpochId)

  datatype UserEpoch = UserEpoch(epochLowestBalance: int)

  /** The contents of the three tables. The epoch with id i is epochs[i - 1]. */
  datatype Store = Store(
    users: map<UserId, User>,
    epochs: seq<Epoch>,
    userEpochs: map<UserEpochKey, UserEpoch>)

  /** A freshly created user row: the column defaults. */
  function NewUser(): (u: User)
    ensures u.balance == 0 && !u.isStaking && u.stakingStartedDate == None
    ensures UserRowValid(u)
  {
    User(0, false, None)
  }

  /** A freshly created epoch row: apy and portfolio percentage take their defaults. */
  function NewEpoch(start: int, end: int): (e: Epoch)
    ensures e.startDatetime == start && e.endDatetime == end
    ensures e.apy == DEFAULT_EPOCH_APY && e.portfolioPercentage == DEFAULT_PORTFOLIO_PERCENTAGE
    ensures EpochRowValid(e)
  {
    Epoch(start, end, DEFAULT_EPOCH_APY, DEFAULT_PORTFOLIO_PERCENTAGE)
  }

  /** The latest epoch is the one with the highest id. */
  function LatestEpochId(epochs: seq<Epoch>): EpochId {
    |epochs|
  }

  function Latest(epochs: seq<Epoch>): Epoch
    requires |epochs| > 0
  {
    epochs[|epochs| - 1]
  }

  predicate UserRowValid(u: User) {
    Storable(u.balance) && (u.isStaking <==> u.stakingStartedDate.Some?)
  }

  predicate EpochRowValid(e: Epoch) {
    Storable(e.apy) && Storable(e.portfolioPercentage)
  }

  /**
   * Every epoch lasts EPOCH_DURATION, and each one after the first starts
   * SPACE_BETWEEN_EPOCHS_IN_SECONDS after its predecessor ends.
   */
  predicate Chained(epochs: seq<Epoch>) {
    && (forall i :: 0 <= i < |epochs| ==>
          epochs[i].endDatetime == epochs[i].startDatetime + EPOCH_DURATION)
    && (forall i :: 0 < i < |epochs| ==>
          epochs[i].startDatetime == epochs[i - 1].endDatetime + SPACE_BETWEEN_EPOCHS_IN_SECONDS)
  }

  /** A user-epoch record refers to an existing user and an existing epoch and holds a storable amount. */
  predicate RecordValid(s: Store, k: UserEpochKey)
    requires k in s.userEpochs
  {
    k.user in s.users && 1 <= k.epoch <= |s.epochs| && Storable(s.userEpochs[k].epochLowestBalance)
  }

  /** The integrity constraints of the store that every handler keeps. */
  predicate Consistent(s: Store) {
    && (forall id :: id in s.users ==> UserRowValid(s.users[id]))
    && Chained(s.epochs)
    && (forall i :: 0 <= i < |s.epochs| ==> EpochRowValid(s.epochs[i]))
    && (forall k :: k in s.userEpochs ==> RecordValid(s, k))
  }

  /** The database: the three tables, updated in place by the handlers. */
  class Database {
    var users: map<UserId, User>
    var epochs: seq<Epoch>
    var userEpochs: map<UserEpochKey, UserEpoch>

    function State(): Store
      reads this
    {
      Store(users, epochs, userEpochs)
    }

    ghost predicate Valid()
      reads this
    {
      Consistent(State())
    }

    /** An empty database. */
    constructor ()
      ensures Valid()
      ensures State() == Store(map[], [], map[])
    {
      users := map[];
      epochs := [];
      userEpochs := map[];
    }
  }
}
