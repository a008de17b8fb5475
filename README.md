# hodl-bot staking ledger, modelled in Dafny

hodl-bot is a chat bot. It lets community members stake their "points" in two-week epochs and estimates each member's reward. This project models the bot's ledger and proves properties of that model.

The ledger has three tables:

- **users**: balance, staking flag, start of staking.
- **epochs**: start, end, APY, portfolio percentage.
- **user-epoch records**: the lowest balance a user had during an epoch.

The model covers the five source files that work on these tables:

- `app/models.py`: the row shapes and their defaults.
- `app/utils.py`: epoch dates, registration, the balance update that keeps an epoch's low-water mark, and the display helpers.
- `app/extensions/epochs.py`: the periodic tick that creates the genesis epoch and rolls over to the next one, guarded by a lock.
- `app/extensions/sync_discord.py`: applying one logged transfer. The staking sender is debited, then every distinct staking receiver is credited, all against the latest epoch, in one transaction.
- `app/extensions/onboarding.py`: the opt-in / opt-out dialogue.

Representations:

- Amounts are integers in units of 10^-4, the four fractional digits of the decimal columns. Rates use the same scale: 0.05 is 500 and 0.2 is 2000.
- Time is integer seconds.
- The store is the datatype `Models.Store`. The class `Models.Database` holds the same three tables as fields that the handlers update in place.
- Every handler method is proved against a pure function of the old state: `Epochs.NextEpochs`, `Utils.BalanceUpdate`, `SyncDiscord.ApplyTransfer`, `Onboarding.OptIn`, `Onboarding.OptOut`. The lemmas then state what the source promises about these functions.
- A write the balance column refuses is modelled by `Models.Storable`: a negative value, or a value too wide for 15 digits. Because of this, `Models.Consistent` is an invariant of every handler. Consistent means: non-negative storable amounts, staking flag set exactly when a start date is, chained epochs, and records that point to existing users and epochs.
- A handler that reaches for the latest epoch when there is none fails with `MissingEpoch`. In the source this is an attribute access on `None`.
  - The transfer handler runs in a transaction, so this failure, or a refused write, leaves the store unchanged.
  - The onboarding handlers do not use a transaction, so their earlier writes persist. The model states exactly which writes persist.

Modules:

| file | module | models |
|---|---|---|
| results.dfy | Results | Option, the error kinds, Result and Outcome |
| models.dfy | Models | rows, constants, column constraints, the store and `Database` |
| utils.dfy | Utils | epoch dates, registration, the balance update |
| points_format.dfy | PointsFormat | `pp_points` and the staking-info projection |
| epochs.dfy | Epochs | rollover function, lemmas on chained epochs, `EpochCog` |
| sync_discord.dfy | SyncDiscord | transfer application and its ledger-wide properties |
| onboarding.dfy | Onboarding | prompt choice, opt-in, opt-out, button dispatch |

Where the code and its design description differ, this model follows the code:

- A rollover creates only the epoch row. It does not seed any user-epoch records (`app/extensions/epochs.py:43-62`).
- The genesis grace window lasts one day, not `PENALTIES_FREE_DAYS_FOR_GENESIS` (two days; `app/extensions/onboarding.py:59`).
- Opting in during the grace window creates no record at all. It does not seed the record with the balance.
- The balance update does not itself reject a negative result (`app/utils.py:85`). Only the column validator refuses the write.

## Model

| member | source | states |
|---|---|---|
| Models.NewUser | app/models.py:8-19 | a new user has balance 0, is not staking and has no start date; that row satisfies the row invariant |
| Models.NewEpoch | app/models.py:27-46 | a new epoch keeps the given dates and takes APY 0.05 and portfolio percentage 0.2, which the columns accept |
| Utils.GenerateStartDatetime | app/utils.py:64-69 | with no epoch the start is `now`; otherwise it is the previous end plus 42 s, so strictly after the previous end |
| Utils.GenerateEndDatetime | app/utils.py:72-79 | the end is always the start plus 14 days, though it is computed from the previous end; it lies more than 14 days after the previous end |
| Utils.Register | app/utils.py:45-49 | get-or-create: the user is present afterwards; an existing user leaves the store as it was; a new one gets the defaults; no other row changes |
| Utils.RegisterIdempotent | app/utils.py:45-49 | registering twice equals registering once |
| Utils.RegisterPreservesConsistent | app/utils.py:45-49 | registration keeps the store consistent |
| Utils.EnsureRegistered | app/utils.py:45-49 | the in-place get-or-create leaves the store `Register` describes and returns the user's row |
| Utils.BalanceUpdate | app/utils.py:82-93 | the write is refused exactly when the adjusted balance (minus for a sender, plus for a receiver) is not storable; otherwise only that user's balance and that one (user, epoch) record change; a missing record is created at the new balance, an existing one becomes the minimum of the old value and the new balance |
| Utils.BalanceUpdateLowers | app/utils.py:88-93 | after an update, the record is at most the new balance and never above its old value |
| Utils.BalanceUpdatePreservesConsistent | app/utils.py:82-93 | an accepted update against an existing epoch keeps the store consistent |
| Utils.UpdateBalanceAndEpochLowestBalance | app/utils.py:82-93 | the in-place update yields `BalanceUpdate`'s store, or fails with a validation error and changes nothing |
| PointsFormat.DigitsRoundTrip | app/utils.py:98 | the decimal digits of a number read back as that number |
| PointsFormat.PrettyPointsShape | app/utils.py:96-104 | a whole number of tenths prints as its integer part; any other value prints with its one decimal |
| PointsFormat.PrettyPointsTrimmed | app/utils.py:96-104 | the printed amount never ends in ".0" and its only point, if any, is followed by exactly one digit |
| PointsFormat.PointPosition | app/utils.py:98 | the one-decimal form has its only point just before its last digit |
| PointsFormat.NoPoint | app/utils.py:101-102 | the integer part with its sign contains no point and cannot end in ".0" |
| PointsFormat.PointZeroSuffix | app/utils.py:98-102 | the one-decimal form ends in ".0" exactly when the tenths digit is 0; removing the suffix leaves the signed integer part |
| PointsFormat.PrettyPointsRoundTrip | app/utils.py:96-104 | pretty-printing loses nothing beyond the rounding to tenths: sign and tenths read back |
| PointsFormat.UnsignedRoundTrip | app/utils.py:96-104 | the unsigned printed form reads back as its number of tenths |
| PointsFormat.RoundHalfEven | app/utils.py:98 | the rounding to one decimal goes to the nearest tenth, and to the even tenth on a tie |
| PointsFormat.ShowAmount | app/utils.py:96-104 | an amount of any scale prints without a trailing ".0" |
| PointsFormat.StakedAmount | app/utils.py:107-108 | the staked amount is between 0 and the low-water mark for a percentage of at most 1 |
| PointsFormat.EstimatedReward | app/utils.py:107-108 | the reward is between 0 and the staked amount for an APY of at most 1 |
| PointsFormat.RewardMonotone | app/utils.py:107-108 | a lower low-water mark never yields a larger stake or reward |
| PointsFormat.DisplayStakingInfo | app/utils.py:107-108 | the status shows the epoch's end, and none of its three amounts ends in ".0" |
| PointsFormat.DefaultEpochRewardExample | app/utils.py:107-108 | in a default epoch, a balance of 90 and a low-water mark of 60 show as "90", a stake of "12" and a reward of "0.6" |
| Epochs.NextEpochs | app/extensions/epochs.py:43-62 | an empty store gets exactly the genesis epoch; otherwise one epoch is appended exactly when the latest ends within 30 minutes of now, chained 42 s after it, 14 days long, with default rates; earlier epochs are kept |
| Epochs.NextEpochsChained | app/extensions/epochs.py:47-61 | a tick keeps every epoch 14 days long and 42 s after its predecessor |
| Epochs.NextEpochsPreservesConsistent | app/extensions/epochs.py:43-62 | a tick keeps the store consistent |
| Epochs.ChainedStart | app/extensions/epochs.py:54-61 | in chained epochs, epoch i starts i periods of 14 days plus 42 s after the genesis start |
| Epochs.ChainedDisjoint | app/extensions/epochs.py:54-61 | an earlier chained epoch ends before a later one starts |
| Epochs.AtMostOneRunning | app/extensions/epochs.py:54-61 | at any instant at most one epoch is running |
| Epochs.RolloverCreatesFutureEpoch | app/extensions/epochs.py:54-61 | a rollover made before the latest epoch ends creates an epoch that has not started yet |
| Epochs.EpochCog.CheckIncrementEpoch | app/extensions/epochs.py:43-62 | the in-place tick leaves `NextEpochs` of the old epochs and does not touch users or records |
| Epochs.EpochCog.EpochCronTask | app/extensions/epochs.py:29-37 | a firing that finds the lock held does nothing; otherwise it runs the check, a failed check creates nothing, and the lock is released either way |
| SyncDiscord.StakingUserIds | app/extensions/sync_discord.py:42-44 | the filter keeps exactly the registered staking users among the mentioned ids |
| SyncDiscord.CreditAll | app/extensions/sync_discord.py:62-69 | crediting a set of receivers is refused exactly when one new balance does not fit; otherwise only their balances rise by `points` and only their records for the epoch change |
| SyncDiscord.CreditStep | app/extensions/sync_discord.py:62-69 | crediting one more receiver is one balance update on top of crediting the others |
| SyncDiscord.ApplyTransfer | app/extensions/sync_discord.py:36-69 | no mentions is an error; with no epoch the transfer fails exactly when someone involved stakes; otherwise a failure is a validation error and the epochs and user set do not change |
| SyncDiscord.ApplyTransferSteps | app/extensions/sync_discord.py:51-69 | a transfer is the sender's debit followed by the receivers' credit |
| SyncDiscord.TransferBalance | app/extensions/sync_discord.py:53-69 | each user's balance changes by `points` once per role: plus as a distinct staking receiver, minus as the staking sender; staking state is unchanged |
| SyncDiscord.TransferUntouched | app/extensions/sync_discord.py:42-69 | users who are not mentioned, or do not stake, keep their row and all their records |
| SyncDiscord.TransferRecords | app/extensions/sync_discord.py:49-69 | no record disappears; every new or changed record belongs to the latest epoch; no record rises |
| SyncDiscord.SelfTransfer | app/extensions/sync_discord.py:53-69 | a user who is both staking sender and staking receiver keeps their balance, but their record is at most balance minus points |
| SyncDiscord.TransferPreservesConsistent | app/extensions/sync_discord.py:36-69 | an accepted transfer keeps the store consistent |
| SyncDiscord.TransferRefused | app/extensions/sync_discord.py:51-69 | with an epoch, a transfer is refused exactly when the sender's debit, or some receiver's credit after it, does not fit the column |
| SyncDiscord.BalanceUpdateTotal | app/utils.py:85 | one update shifts the sum of all balances by exactly the signed amount |
| SyncDiscord.CreditAllTotal | app/extensions/sync_discord.py:62-69 | crediting a set of receivers adds `points` to the sum of balances once per receiver |
| SyncDiscord.TransferTotal | app/extensions/sync_discord.py:53-69 | the sum of balances changes by `points` times the number of distinct staking receivers, minus `points` for a staking sender |
| SyncDiscord.CreditAllEmpty | app/extensions/sync_discord.py:62 | crediting nobody changes nothing |
| SyncDiscord.CreditAllRefusedGrows | app/extensions/sync_discord.py:62-69 | a refused credit of some receivers refuses the credit of every larger set |
| SyncDiscord.FoldCredits | app/extensions/sync_discord.py:63-69 | crediting receivers one after another keeps the set of users |
| SyncDiscord.FoldCreditsIsCreditAll | app/extensions/sync_discord.py:63-69 | crediting distinct receivers one by one, in any order, equals crediting their set |
| SyncDiscord.ReceiverOrderIrrelevant | app/extensions/sync_discord.py:46 | two orders of the same distinct receivers give the same result |
| SyncDiscord.CreditReceivers | app/extensions/sync_discord.py:62-69 | the receiver loop, in an arbitrary order, leaves `CreditAll`'s store, or reports the refused write |
| SyncDiscord.OnMessage | app/extensions/sync_discord.py:36-69 | the handler leaves `ApplyTransfer`'s store and reports success; on a refusal it rolls back to the old store and reports the error |
| Onboarding.PromptFor | app/extensions/onboarding.py:22-45 | bot and guild messages get no reply; a staking author gets the stop prompt, anyone else the start prompt |
| Onboarding.ReportedBalance | app/utils.py:52-61 | an empty reply from the balance service counts as 0; otherwise its first entry is the balance |
| Onboarding.OptIn | app/extensions/onboarding.py:47-67 | registers; a reported balance the column refuses stops after registering; otherwise the user stakes from now with that balance; with no epoch the handler fails after that write; inside the first day of the genesis epoch no record is created; otherwise a zero record for the latest epoch is created if absent, and an existing record is kept |
| Onboarding.OptOut | app/extensions/onboarding.py:69-75 | registers, stops staking and clears the start date, keeps the balance; zeroes an existing record of the latest epoch; creates none; leaves other records alone; with no epoch it fails after those writes |
| Onboarding.Press | app/extensions/onboarding.py:47-79 | "start: yes" opts in, "start: no" and "stop: yes" opt out, and "continue staking" changes nothing |
| Onboarding.AnswerYesFlipsStaking | app/extensions/onboarding.py:31-45 | pressing "Yes" under the prompt a user was shown turns their staking around (when starting, if the reported balance fits) |
| Onboarding.AnswerNoKeepsStaking | app/extensions/onboarding.py:31-45 | pressing "No" under the prompt a user was shown leaves their staking as it was |
| Onboarding.OptInPreservesConsistent | app/extensions/onboarding.py:47-67 | opting in keeps the store consistent, also when it fails halfway |
| Onboarding.OptOutPreservesConsistent | app/extensions/onboarding.py:69-75 | opting out keeps the store consistent, also when it fails halfway |
| Onboarding.OptOutThenOptIn | app/extensions/onboarding.py:47-75 | opting in after opting out stakes with the new balance and start time |
| Onboarding.ChooseStakingYes | app/extensions/onboarding.py:47-67 | the in-place handler leaves `OptIn`'s store and outcome, and keeps the store consistent |
| Onboarding.ChooseStakingNo | app/extensions/onboarding.py:69-75 | the in-place handler leaves `OptOut`'s store and outcome, and keeps the store consistent |
| Onboarding.OnComponent | app/extensions/onboarding.py:47-79 | a button press runs the handler `Press` describes |

## Left out

- Chat plumbing is not modelled: cogs, `setup`, buttons and their labels, message editing and sending, the bot start-up in `bot.py`. The dialogue is modelled as `Onboarding.PromptFor` and `Onboarding.Press`, with the author's id, the "from the bot" flag and the "in a guild" flag as inputs. The channel-id filter of the transfer handler is not modelled either.
- Sentry reporting (`use_sentry`, `capture_exception`, the debug log) is left out. In `Epochs.EpochCog.EpochCronTask` a failing check is the input `checkRaises`.
- The HTTP call of `get_user_balance` is left out. Its reply is the input `reply`, the list of points values the service returned; only the empty reply falling back to 0 is modelled. Parsing the points string into a decimal, and rounding a value with more than four decimals into the column, are not modelled.
- The points regex and the comma stripping of the transfer handler are left out. `points` is a non-negative input in units of 10^-4. A message without a points match raises before any write, so it leaves the store unchanged.
- The ORM, asyncio scheduling, row locks and concurrent handlers are left out. Each handler is one sequential method. The transfer transaction is modelled by restoring the saved tables on a refusal. The `asyncio.Lock` is a boolean field.
- Clock reads are `now` parameters. At genesis the source reads the clock twice, once for the start and once for the end. The model uses one `now`, so the genesis epoch lasts exactly 14 days. The opt-in handler's two clock reads are also one `now`.
- The validator of the balance, rate and record columns is in `app/validators.py`, which is not part of this model. It is modelled as refusing any negative value, and the 15-digit width as refusing values of 10^15 units or more. The model assumes the check applies to every write, including bulk `update` calls.
- Epoch ids are positions in the epoch table, starting at 1. They have no gaps, which a rolled-back insert could leave in a real database.
- The default rates are floats in the source; the exact decimals 0.05 and 0.2 are used.
- The display's products are kept at their own scales: 8 decimals for the stake and 12 for the reward. Decimal's 28-digit context precision and negative zero as a stored value are not modelled.
- PointsFormat.DisplayStakingInfo: the status is modelled as its four fields, not as the formatted text with its emoji.
- User ids are unbounded integers; the 64-bit id column is not modelled.
