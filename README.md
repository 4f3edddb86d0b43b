# Island Ryabot core, modelled in Dafny

This project models the core of Island Ryabot, a Telegram farming game bot. It
covers:

- **The worker lifecycle of the academy** (`academy.dfy`, over the store in
  `database.dfy`):
  - hiring laborers, with the 24-hour cooldown and the limit of three hires a
    day that its cooldown upsert is meant to enforce (as written, the engine
    rejects that upsert, so neither applies; see "## Findings");
  - the hire cost;
  - the two training slots;
  - starting a training;
  - listing the trainings in progress;
  - the pull-based completion that turns a due unit into a specialist and
    consumes its worker.

  The SQL tables `users`, `hired_workers`, `hire_cooldowns`, `training_units`
  and `trained_specialists` are fields of a `Db` object. Each `execute_db`
  call is one assignment. The clock is passed in as `now` (integer seconds) and
  `today` (an integer day).
- **The anti-spam middleware** (`throttling.dfy`): a class `Throttler` with the
  dictionaries of the original and the per-user action history (a deque of at
  most 10 entries). It models:
  - the per-type rate limit and its game-action variant;
  - the 10-second burst window with its one-minute block;
  - the violation counters;
  - the order of checks in `__call__`.

  The clock is an integer number of milliseconds: the limits 0.3 s, 0.5 s,
  0.8 s, 0.1 s become 300, 500, 800, 100.
- **The configuration** (`config.py`, in `config.dfy`):
  - the Supabase and bot validators;
  - the admin-id parsing of `__post_init__` and `is_admin`;
  - the hire-cost formula;
  - the profession table;
  - the cached price list.

  Environment variables are parameters. `get_training_data` takes the
  environment as a map from variable names to their text for the `*_COST`
  variables, and the `*_TIME` durations as a map from variable names to whole
  minutes. `get_game_prices` takes the same kind of text map for its
  `*_PRICE` variables.
- **The energy middleware** (`energy.dfy`): the action-to-cost classifier and
  the decision to let an update through, stop it, or debit the user.
- **Message helpers** (`messages.dfy`):
  - the time formatting;
  - MarkdownV2 escaping, as a loop proved equal to a per-character escape;
  - the empty-text and length rule of `send_formatted`;
  - the progress-bar arithmetic.
- **State names** (`states.dfy`): category and name of an aiogram state, and
  its description.

`text.dfy` holds models of the Python string built-ins the core relies on:
`split`, `strip`, `in`, `startswith`, `count`, `int()` and `str()` on
integers. `tally.dfy` models `GROUP BY … COUNT(*)` and `sum(d.values())`.

The store invariant `Db.Valid()` is kept by every operation of the engine. It
says:
- ids are unique and below the next id;
- each user has at most two units in training;
- every unit in training refers to a worker of the same user that is itself in
  training.

The throttler keeps `Valid()`: histories hold at most 10 entries and violation
counts are never negative. Its checks run as methods on the object's fields;
each is specified by a function on a `Tables` value (the four dictionaries and
the two refusal counters), which `Throttler.State()` reads off the fields, and
the lemmas about `Throttler.Screened` state what the checks decide and leave.

## Model

| member | source | states |
|---|---|---|
| Academy.GetHiredWorkersCount | database/models.py:590-600 | keys are exactly the types of the user's workers that are not consumed; each value is positive and is the number of such workers of that type; the values add up to the number of those workers |
| Academy.TotalHired | database/models.py:652-653 | `sum(workers_count.values())` is the number of the user's workers that are not consumed |
| Academy.HiredCountKeys | database/models.py:590-600 | a type is a key exactly when some held worker of the user has that type |
| Academy.ConsumedNotCounted | database/models.py:596 | a consumed worker is never among the counted workers |
| Academy.CountLookup | database/models.py:715 | `.get(type, 0)` on the counts is the number of held workers of that type |
| Academy.LaborerLookup | database/models.py:714-715 | `.get('laborer', 0)` counts held laborers, those in training included |
| Academy.CanHireWorker | database/models.py:603-633 | no record gives (True, ok, 0); allowed exactly when the reason is ok; cooldown exactly when less than 86400 s passed, with remaining time 86400 − elapsed, positive and at most 86400; the limit only after the cooldown check, when today's count (0 if the stored day is not today) is at least 3; remaining is 0 otherwise |
| Academy.HireCost | database/models.py:652-654 | the hard-coded 30 + 5·n equals `GameConfig.get_hire_cost(n)` with the default settings |
| Academy.CooldownAfterHire | database/models.py:667-678 | the hire time becomes now and the day today; the count is one more than today's count, or 1 when the stored day is another one |
| Academy.NotEnoughNamesCost | database/models.py:656-657 | the refusal message names the cost |
| Academy.HireWorker | database/models.py:636-686 | refusal on cooldown or limit, with its message, changes nothing; a missing user or too little money changes nothing; a hire appends one idle laborer, upserts the user's cooldown, charges exactly the cost and leaves every other table alone; the store stays valid |
| Academy.RecordHire | database/models.py:659-684 | the three writes of a hire and nothing else; the store stays valid |
| Academy.RecordHireAsWritten | database/models.py:662-684 | the hire's statements as they take effect: the laborer and the charge are written, the cooldown table is left as it was, so a user without a record is allowed every later hire |
| Academy.AsWrittenSecondHireAllowed | database/models.py:667-678 | for a user without a record, a second hire 60 seconds later is allowed when the upsert is rejected, and refused with 86340 seconds to wait once the record is stored |
| Academy.LinkedAfterHire | database/models.py:662-665 | appending a worker keeps every unit in training tied to its worker |
| Academy.HireKeepsConsistent | database/models.py:662-665 | a new laborer with the next id keeps the store invariant |
| Academy.HireStartsCooldown | database/models.py:624-627 | within 24 hours after a hire the next check refuses with the cooldown and exactly the remaining seconds, in (0, 86400] |
| Academy.NewDayAllowsHire | database/models.py:621-622 | a record from another day with the cooldown over allows a hire, and the count restarts at 1 |
| Academy.LimitRefuses | database/models.py:629-631 | a record already holding three hires for the checked day refuses with the limit, remaining 0, once the cooldown is over |
| Academy.OneClockStep | database/models.py:603-633 | an allowed hire is at least 24 hours after the previous one, so when the stored day is the day of the hire time the upsert restarts the count at 1 |
| Academy.OneClockKept | database/models.py:636-686 | along any stream of hire attempts whose stored day is the day of the hire time, every record holds one hire on the day of its hire time |
| Academy.DailyLimitUnreachable | database/models.py:603-633 | with one clock for the stored day, no stream of hires ever makes the check answer `limit_reached`, whatever date the check compares |
| Academy.HireRaisesCost | database/models.py:652-665 | each hire adds one held worker and raises the next cost by exactly 5 |
| Academy.GetTrainingSlotsInfo | database/models.py:689-706 | total is 2, used is the number of the user's units in training, used + available = total, and available is within [0, 2] in a valid store |
| Academy.TrainingTablesAgree | database/models.py:722-732 | the table inside `start_training` equals the defaults of `get_training_data` and has the nine profession keys |
| Academy.FirstIdleLaborer | database/models.py:745-754 | the first idle laborer of the user, or none exactly when there is no idle laborer |
| Academy.StartTraining | database/models.py:709-778 | the six refusals in the source's order (no held laborer, no free slot, unknown profession, missing user, too little money, no idle laborer) each leave the store unchanged; a start moves the first idle laborer to training, appends its unit finishing `minutes` later, charges exactly the profession's cost and touches nothing else; the store stays valid |
| Academy.RecordStart | database/models.py:756-774 | the three writes of a start and nothing else |
| Academy.ActiveAppend | database/models.py:691-696 | a new row adds itself to the active units of its user and of no other |
| Academy.LinkedAfterStart | database/models.py:759-768 | the new unit and the worker turned to training keep every unit in training tied to its worker |
| Academy.StartKeepsConsistent | database/models.py:756-774 | a start with a free slot keeps the store invariant, including the bound of two active units |
| Academy.StartKeepsSlotBound | database/models.py:718-720 | a start needs a free slot, so a user never has more than two units in training |
| Academy.InsertKeepsRows | database/models.py:790 | inserting into the ordered rows adds exactly that row |
| Academy.InsertMembers | database/models.py:790 | inserting adds no other row |
| Academy.SortedCons | database/models.py:790 | a row no later than all sorted rows can lead them |
| Academy.InsertKeepsOrder | database/models.py:790 | insertion keeps ascending completion time |
| Academy.SortByCompletion | database/models.py:790 | `ORDER BY completed_at ASC`: sorted, and a permutation of the rows |
| Academy.UpcomingMembers | database/models.py:798-800 | the rows with time left are exactly those finishing after now |
| Academy.UpcomingSorted | database/models.py:798-800 | filtering keeps the order |
| Academy.UpcomingMultiset | database/models.py:798-800 | filtering keeps each row finishing after now as often as it occurs and drops the rest |
| Academy.ListingsOfUpcoming | database/models.py:793-806 | one entry per row with time left, in order, each with that row's type and time left |
| Academy.GetActiveTrainings | database/models.py:781-808 | the listing of the user's units in training ordered by completion time |
| Academy.ListRows | database/models.py:793-808 | the loop builds exactly the listing of the rows |
| Academy.ActiveListingSound | database/models.py:781-808 | the listed rows are sorted, a permutation of the user's active rows with time left, and are exactly the user's units in training not yet due |
| Academy.Graduates | database/models.py:828-831 | one available specialist, of the unit's type, per completed unit, with consecutive ids |
| Academy.CompleteDue | database/models.py:815-837 | exactly the due units of the user become completed; every other row is unchanged |
| Academy.CompletionById | database/models.py:833-837 | marking by id the due units completes exactly the due rows |
| Academy.NothingDueAfterSweep | database/models.py:815-821 | after a sweep nothing of the user is due at the same time |
| Academy.SweepIdempotent | database/models.py:811-847 | sweeping twice at the same time is sweeping once |
| Academy.NoIdsNoChange | database/models.py:824 | with no due unit the updates change nothing |
| Academy.CompletionShrinksActive | database/models.py:833-837 | completing units never adds units in training |
| Academy.LinkedAfterSweep | database/models.py:839-843 | after the sweep the remaining units in training are tied to their workers, and every consumed worker was in training |
| Academy.SweepStep | database/models.py:825-845 | one pass of the loop adds one unit's three writes to those done so far |
| Academy.SweepKeepsConsistent | database/models.py:811-847 | a sweep keeps the store invariant |
| Academy.CompleteTrainings | database/models.py:811-847 | returns the number of due units; those units are completed, their workers go from training to consumed (no other status change), one specialist per unit is added; balances and cooldowns are unchanged; with nothing due nothing changes; the store stays valid |
| Academy.GraduateAll | database/models.py:824-845 | the loop applies the three writes to every listed unit, counting them |
| Academy.Graduate | database/models.py:826-845 | one unit's insert and two updates |
| Academy.SweepTwice | database/models.py:811-847 | a second sweep at the same time returns 0 and leaves the units as the first left them |
| Academy.GetSpecialistsCount | database/models.py:850-860 | keys are exactly the types of the user's specialists that are not dead; counts are positive and add up to their number |
| Database.Held | database/models.py:594-596 | the user's workers that are not consumed, and only those |
| Database.HeldTypes | database/models.py:593-597 | their types, one per worker, in order |
| Database.Active | database/models.py:691-696 | the user's units in training, and only those |
| Database.Due | database/models.py:815-821 | the user's units in training with completion at or before now |
| Database.LiveTypes | database/models.py:852-858 | the types of the user's specialists that are not dead |
| Database.MarkCompleted | database/models.py:833-837 | rows with a listed id become completed; others are unchanged |
| Database.MarkConsumed | database/models.py:839-843 | workers with a listed id become consumed; others are unchanged |
| Database.Charge | database/models.py:680-684 | `ryabucks = ryabucks - ?` on one user: that balance drops by the amount, every other column and user is unchanged |
| Throttling.ExtractUserInfo | middlewares/throttling.py:119-152 | no user gives the type "unknown" |
| Throttling.ExtractUserInfoShapes | middlewares/throttling.py:119-152 | per shape of update: the sender of a callback or a message; inside an update a callback wins over a message; "command" exactly for a message text starting with "/", else "message"; "other" for a bare sender; the type is always one of five names |
| Throttling.GameLimitsNeverApply | middlewares/throttling.py:353-371 | no extracted action type is a key of the game limits |
| Throttling.Recorded | middlewares/throttling.py:194-197 | appending to a full deque drops the oldest entry; the length is at most 10 and the last entry is now |
| Throttling.DropOld | middlewares/throttling.py:200-201 | the result is a suffix; its first entry is within the window, and every dropped entry was older than it |
| Throttling.Evict | middlewares/throttling.py:200-201 | the `popleft` loop leaves exactly the entries of `DropOld` |
| Throttling.WindowIsRecent | middlewares/throttling.py:197-201 | on an ascending history every kept entry is inside the 10-second window |
| Throttling.RecentEntriesKept | middlewares/throttling.py:200-201 | a history inside the window is kept entirely |
| Throttling.Window | middlewares/throttling.py:191-201 | the history after a check: at most 10 entries, ending with now |
| Throttling.NinthActionRefused | middlewares/throttling.py:204-206 | a ninth action within the window of eight others leaves nine entries, over the limit |
| Throttling.FewActionsPass | middlewares/throttling.py:204-208 | with fewer than eight earlier entries the check passes |
| Throttling.AddViolations | middlewares/throttling.py:212 | `user_violations[u] += k` on a defaultdict: only that count changes, by k from its value or 0 |
| Throttling.AddKeepsNonNegative | middlewares/throttling.py:212 | adding violations, or resetting a count to 0, keeps every count non-negative |
| Throttling.HistoryStored | middlewares/throttling.py:194-201 | storing a history of at most 10 entries keeps every history within the deque |
| Throttling.BlockLastsAMinute | middlewares/throttling.py:161-166 | a block set at t holds at a later time exactly while less than 60 s have passed |
| Throttling.Throttler.constructor | middlewares/throttling.py:22-65 | the settings as given and every dictionary and counter empty |
| Throttling.Throttler.LimitPrecedence | middlewares/throttling.py:363-371 | a game limit wins over an action limit, which wins over the base rate |
| Throttling.Throttler.LimitFor | middlewares/throttling.py:175-180 | a positive base rate gives a positive gap for every action type |
| Throttling.Throttler.CheckUserBlocked | middlewares/throttling.py:161-173 | blocked exactly when listed less than 60 s ago; an expired entry is deleted and its violations reset to 0; otherwise nothing changes |
| Throttling.Throttler.CheckRateLimit | middlewares/throttling.py:175-189 | refuses exactly when there is a last action less than the limit ago; changes nothing |
| Throttling.Throttler.CheckBurstProtection | middlewares/throttling.py:191-208 | the history becomes the window; passes exactly when it holds at most 8 entries |
| Throttling.Throttler.HandleThrottling | middlewares/throttling.py:210-215 | one violation, and the throttled counter when stats are on |
| Throttling.Throttler.HandleBurstViolation | middlewares/throttling.py:229-237 | three violations and a block from now, and the blocked counter when stats are on |
| Throttling.Throttler.UpdateUserActivity | middlewares/throttling.py:262-264 | the last action time becomes now |
| Throttling.Throttler.UpdateStats | middlewares/throttling.py:266-269 | one more request; the user joins the unique users |
| Throttling.Throttler.UnblockUser | middlewares/throttling.py:298-305 | true exactly when the user was blocked; then the entry goes and the violations become 0; nothing else changes |
| Throttling.Throttler.BlockUser | middlewares/throttling.py:307-316 | always true; blocked from now with ten more violations, whatever the duration |
| Throttling.Throttler.GetUserInfo | middlewares/throttling.py:318-339 | the user id as given; blocked exactly when listed; the remaining seconds are `int(max(0, 60 - elapsed))`, 60 at the moment of the block, at most 60 for a block not in the future and 0 when not blocked; the violation count and the number of recorded actions (at most 10) of that user; the seconds since the last action truncated, absent when there is none or it lies in the future |
| Throttling.Throttler.DecideUnblocked | middlewares/throttling.py:99-110 | the reference decision for a user who is not blocked: throttled exactly when the last action is less than the gap ago; passed exactly when it is not and, with burst protection on, the window holds at most 8 entries; never the block |
| Throttling.Throttler.Decide | middlewares/throttling.py:93-110 | the reference decision: refused as blocked exactly while a block is live; throttled exactly when not blocked and under the gap; passed exactly when no check refuses |
| Throttling.Throttler.ScreenedDecides | middlewares/throttling.py:93-110 | the outcome of the three checks, run on the tables, is the reference decision |
| Throttling.Throttler.ScreenedBlockedUntouched | middlewares/throttling.py:93-97 | a refusal for a live block leaves every table as it was |
| Throttling.Throttler.ScreenedThrottledEffects | middlewares/throttling.py:99-102 | a throttled user gets exactly one more violation and the throttled counter one more request (with stats), after an expired block was cleared; no other table changes |
| Throttling.Throttler.ScreenedBurstEffects | middlewares/throttling.py:104-107 | a burst stores the window as the history, adds three violations, blocks the user from now so that the block is live, and counts one blocked request (with stats); nothing else changes |
| Throttling.Throttler.ScreenedPassedEffects | middlewares/throttling.py:109-110 | a pass records now as the last action time and, with burst protection on, stores the window; nothing else but a cleared expired block changes |
| Throttling.Throttler.ScreenedPenalties | middlewares/throttling.py:93-110 | the user's violations grow by 0, 1, 3, 0 for the four outcomes, and the last action time moves to now exactly on a pass |
| Throttling.Throttler.ScreenedKeepsValid | middlewares/throttling.py:93-110 | the checks keep every history within 10 entries and every violation count non-negative |
| Throttling.Throttler.BlockCheckKeepsValid | middlewares/throttling.py:161-173 | clearing an expired block keeps the tables valid |
| Throttling.Throttler.UnblockedStepKeepsValid | middlewares/throttling.py:99-110 | the rate limit and burst steps keep the tables valid |
| Throttling.Throttler.BurstStepKeepsValid | middlewares/throttling.py:191-237 | the burst step keeps the tables valid |
| Throttling.Throttler.BurstStepCases | middlewares/throttling.py:104-110 | with burst protection on, a window over 8 entries refuses with three violations and a block from now, and any other passes recording now; the window is stored in both cases |
| Throttling.Throttler.ScreenBurst | middlewares/throttling.py:104-110 | the outcome and the new tables are those of the burst step on the old tables; the tables stay valid |
| Throttling.Throttler.ScreenUnblocked | middlewares/throttling.py:99-110 | the outcome and the new tables are those of the rate limit then the burst step, with the gap of the action type; the tables stay valid |
| Throttling.Throttler.Screen | middlewares/throttling.py:93-110 | the outcome and the new tables are those of the three checks in order on the old tables; the tables stay valid |
| Throttling.Throttler.Call | middlewares/throttling.py:69-117 | an update without a sender passes and changes nothing; with stats on, the request and the user are counted before the admin bypass; a bypassed admin passes and leaves the four tables and the refusal counters alone; anyone else gets the outcome and the new tables of the three checks, with the gap of the extracted type, whose effects `ScreenedDecides`, `ScreenedPenalties` and the per-outcome lemmas state; the tables stay valid |
| Throttling.BurstBlocksForAMinute | middlewares/throttling.py:94-107 | after a burst refusal, any update by the same user within the next minute is refused as blocked |
| Config.ValidateSupabase | config.py:21-35 | at most one message per field, each exactly in its case; valid exactly when there is none |
| Config.AdminPieces | config.py:51 | no more pieces come out than go in |
| Config.AdminPiecesTrimmed | config.py:51 | every piece kept is non-empty and has no white space at either end |
| Config.AdminPieceTrimmed | config.py:51 | the piece at any one position of the result is non-empty and stripped |
| Config.AdminPiecesSingle | config.py:51 | a single piece is kept, stripped, exactly when something is left after stripping it |
| Config.AdminPiecesConcat | config.py:51 | the pieces kept from two lists are those of the first followed by those of the second |
| Config.ParseAll | config.py:51-53 | all pieces parse, in order, or the result is absent |
| Config.ParseAdminIds | config.py:46-55 | an empty variable or any kept piece on which `int()` raises gives no admins; when every kept piece parses, the ids are their values in order, one per non-empty stripped piece |
| Config.BlankPieceIgnored | config.py:51 | a trailing piece of white space after a comma, as in "1,2,", adds no admin |
| Config.PaddedIdParses | config.py:51-53 | one piece that `int()` reads as v, white space around it, gives exactly the admin v: " 7 " and "+7" both give 7 |
| Config.PaddedPiece | config.py:51 | a padded piece without commas is the one kept piece, stripped |
| Config.AdminIdsRoundTrip | config.py:46-55 | parsing a comma-joined list of ids gives the list back |
| Config.IdStringShape | config.py:51 | proof helper: a printed id holds no comma and no surrounding white space, so it survives the split and the strip unchanged |
| Config.JoinNonEmpty | config.py:48 | proof helper: a comma join whose first piece is non-empty is non-empty, so the empty-string branch is not taken |
| Config.PiecesUnchanged | config.py:51 | pieces already stripped and non-empty are kept as they are |
| Config.PiecesCons | config.py:51 | a stripped first piece is kept in front of the rest |
| Config.ParseAllExact | config.py:51 | pieces that each parse to an id give exactly those ids |
| Config.BotConfig.constructor | config.py:38-55 | the given fields, path "/webhook", and the parsed admin ids |
| Config.BotConfig.Validate | config.py:57-69 | each of the three messages exactly in its case, token first; valid exactly when there is none |
| Config.BotConfig.IsAdmin | config.py:71-73 | membership in the admin list |
| Config.GetHireCost | config.py:100-102 | no workers cost the base cost |
| Config.HireCostIncreasing | config.py:92-102 | with a positive increment the cost grows strictly, by the increment per worker |
| Config.DefaultHireCosts | config.py:92-102 | with the defaults the cost is 30 + 5n, rising by 5 |
| Config.GetTrainingData | config.py:190-238 | raises (`None`) exactly when some set `*_COST` variable is not an integer; otherwise exactly the nine profession keys, each with its display name, the cost read from its variable or the default, and the duration from its `*_TIME` entry or the default |
| Config.DefaultTrainingData | config.py:190-238 | the table of defaults has the nine profession keys, each with a positive cost and duration |
| Config.UnsetEnvironmentGivesDefaults | config.py:190-238 | with no variable set the table is the table of defaults |
| Config.NonNumericCostRaises | config.py:195 | a cost variable holding no digit, such as "abc", makes the whole call raise |
| Config.AppConfig.constructor | config.py:138-146 | the three configurations and an empty price cache |
| Config.AppConfig.ValidateAll | config.py:148-158 | the Supabase messages then the bot messages; valid exactly when both are |
| Config.PriceFrom | config.py:167-181 | `int(os.getenv(var, default))` for one price: the default when unset, `None` when the set text is not an integer |
| Config.ReadPrices | config.py:165-185 | `None` (the `ValueError`) exactly when some set `*_PRICE` variable is not an integer; otherwise exactly the eleven price keys, each with the value its variable or default gives |
| Config.UnsetEnvironmentGivesDefaultPrices | config.py:165-185 | with no variable set, the prices are the eleven defaults, from 250 for a ryaba to 1800 for a cowshed |
| Config.NonNumericPriceRaises | config.py:167-181 | a price variable holding no digit, such as "abc", makes the read raise |
| Config.AppConfig.GetGamePrices | config.py:160-188 | the cached prices when present, the cache untouched; otherwise the prices read from the environment, and after a raise the cache stays empty |
| Config.AppConfig.ClearCache | config.py:240-242 | the cache is empty |
| Config.CachedPricesAreStable | config.py:160-188 | the first call reads the environment; a second call returns those prices whatever the environment then says, or reads again after a raise; after `clear_cache` the environment is read again and cached |
| Energy.FirstGameCost | middlewares/energy_middleware.py:123-125 | the cost of the first game action contained in the text, or none exactly when none is |
| Energy.EnergyCost | middlewares/energy_middleware.py:104-128 | at most 2; 0 exactly for the empty or free actions; 1 for navigation texts and callbacks and for anything unlisted; cost 2 only for a contained two-energy game action |
| Energy.Debit | middlewares/energy_middleware.py:143-145 | the corrected debit changes only the energy, lowers it for a non-negative cost, and keeps it non-negative when the cost is affordable |
| Energy.DebitAsWritten | middlewares/energy_middleware.py:143 | the debit as written changes only the energy and leaves it negative for any positive cost |
| Energy.DebitTakesCost | middlewares/energy_middleware.py:138-145 | the corrected debit leaves the balance lower by exactly the cost and never negative, and changes no other column |
| Energy.DebitsAdd | middlewares/energy_middleware.py:143-145 | two corrected debits take the sum of their costs |
| Energy.AsWrittenLosesBalance | middlewares/energy_middleware.py:143 | the debit as written turns a balance of 100 into −1, where 99 was meant |
| Energy.AsWrittenForgetsBalance | middlewares/energy_middleware.py:143 | as written, the balance after a debit ignores the balance before it, so debits do not add up |
| Energy.ConsumeEnergy | middlewares/energy_middleware.py:130-153 | an unknown user passes for free; a balance under the cost stops the update with the balance and the cost; otherwise the corrected debit takes the cost and the update passes |
| Energy.Call | middlewares/energy_middleware.py:68-102 | no user or no action passes untouched; a free action passes untouched; a costly one is decided by that user's balance; only that user's energy changes, by the corrected debit, so it never falls below zero |
| MessageHelper.Decompose | utils/message_helper.py:293-295 | minutes and seconds below 60, and h·3600 + m·60 + s gives the input back |
| MessageHelper.DecomposeUnique | utils/message_helper.py:293-295 | that decomposition is the only one |
| MessageHelper.FormatTimeRemaining | utils/message_helper.py:279-302 | "Готово" exactly for s ≤ 0; the hours form, the minutes form or the seconds form by the largest unit that is not zero |
| MessageHelper.Replace | utils/message_helper.py:242 | a character that does not occur is not replaced |
| MessageHelper.ReplaceConcat | utils/message_helper.py:242 | replacement works piece by piece |
| MessageHelper.EscapeWith | utils/message_helper.py:241-242 | escaping never shortens the text |
| MessageHelper.Escape | utils/message_helper.py:239-244 | escaping never shortens a text and gives the empty text only for the empty text |
| MessageHelper.ReplaceStep | utils/message_helper.py:241-242 | one more pass of the loop escapes one more special character |
| MessageHelper.SpecialCharsDistinct | utils/message_helper.py:239 | the 18 special characters are distinct |
| MessageHelper.EscapeMarkdownV2 | utils/message_helper.py:228-244 | the loop of `replace` calls gives the per-character escape |
| MessageHelper.EscapeLength | utils/message_helper.py:239-244 | the length grows by exactly the number of special characters |
| MessageHelper.EscapeConcat | utils/message_helper.py:241-244 | escaping works character by character |
| MessageHelper.EscapeStartsPlain | utils/message_helper.py:241-242 | an escaped text does not start with a special character |
| MessageHelper.UnescapeEscape | utils/message_helper.py:239-244 | dropping the backslash before each special character gives the original back |
| MessageHelper.NormalizeText | utils/message_helper.py:44-51 | the result has 1 to 4096 characters; blank text becomes the notice; text over 4096 characters keeps its first 4090 and gets "..."; other text is kept |
| MessageHelper.Clip | utils/message_helper.py:49-50 | the length rule alone |
| MessageHelper.NormalizeIdempotent | utils/message_helper.py:44-51 | normalising twice is normalising once |
| MessageHelper.TruncDiv | utils/message_helper.py:365 | Python's `int(a / b)`: the quotient truncated toward zero, never positive for a negative dividend |
| MessageHelper.Percentage | utils/message_helper.py:362-365 | at most 100; 0 when the total is not positive; the truncated percentage for a current value between 0 and the total; 100 from the total on |
| MessageHelper.Repeat | utils/message_helper.py:370 | empty for a count not above zero; otherwise the count times the length |
| MessageHelper.RepeatChar | utils/message_helper.py:370 | repeating one character gives only that character |
| MessageHelper.ProgressBar | utils/message_helper.py:361-370 | filled + empty = 10; filled is the percentage's tens; for a non-negative percentage the bar has 10 squares, the filled ones first |
| MessageHelper.NegativePercentage | utils/message_helper.py:365 | for every negative progress over a positive total, the percentage is the product truncated toward zero, so never positive |
| MessageHelper.NegativeProgressWidensBar | utils/message_helper.py:365-370 | a negative progress gives a negative percentage and a bar of 15 squares |
| MessageHelper.ProgressText | utils/message_helper.py:372 | the text starts with the description, a newline, the bar and a newline, and ends with the percentage in parentheses, and what lies between is exactly `current/total` |
| States.GetStateCategory | utils/states.py:176-184 | "unknown" for no state; the text before the first ':'; "common" without ':' |
| States.GetStateName | utils/states.py:187-195 | "unknown" for no state; the whole name without ':'; otherwise `split(":")[1]`: the text after the first ':' up to the next one or the end, holding no ':' |
| States.CategoryAndName | utils/states.py:176-195 | "G:S" splits back into G and S when neither holds ':' |
| States.Reassembles | utils/states.py:176-195 | category + ":" + name gives the name back exactly when it holds one ':' |
| States.GetStateDescription | utils/states.py:271-273 | the listed description, or "Неизвестное состояние" otherwise |
| States.DescriptionKnown | utils/states.py:256-273 | the fallback marks exactly the states that are not listed |
| Text.ParseInt | config.py:51 | `int()` on a stripped piece: succeeds exactly on an optional sign followed by digits that single underscores may separate, and then gives the value of the digits, negated for '-'; any other character makes it raise; plain digits and signed digits read as their value |
| Text.NoDigitRaises | config.py:51 | a text with no digit, whatever white space surrounds it, makes `int()` raise |
| Text.NoDigitNoInt | config.py:51 | a stripped text with no digit makes `int()` raise |
| Text.PlusSignParses | config.py:51 | `int("+5")` is 5: a leading plus sign is accepted |
| Text.SplitAppend | config.py:51 | appending a separator and a piece without it adds that one piece to the split |
| Text.SplitSecond | utils/states.py:193 | `split(":")[1]` is the text after the first separator, up to the next one or the end |
| Text.StripPadded | config.py:51 | `strip()` removes exactly the white space around a text with no outer white space |
| Text.IntToStringParses | config.py:51 | `int(str(i)) == i` |
| Text.Split | config.py:51 | `split(",")` gives one piece more than there are commas, none holding a comma, joining back to the input |
| Text.SplitJoin | config.py:51 | splitting a joined list of comma-free pieces gives the pieces |
| Text.Strip | config.py:51 | `strip()` leaves no white space at either end |
| Text.StripSlice | config.py:51 | what `strip()` removes is white space on either side |
| Text.StripEmpty | utils/message_helper.py:44 | `text.strip()` is empty exactly when the text is all white space |
| Text.CountChar | config.py:63 | `count(":")` is zero exactly when there is no ':' |
| Tally.Count | database/models.py:597-600 | `GROUP BY … COUNT(*)`: one positive count per distinct value, equal to its occurrences |
| Tally.SumOfCounts | database/models.py:653 | the counts add up to the number of rows |

## Left out

- The SQL engine, the connection pool, the DDL and `execute_db`'s error path. Each statement is one step on the in-memory tables. An exception in the original returns `None`; here every statement succeeds.
- Concurrency. Two awaits of one operation could interleave with another user's call; each operation is modelled as one sequential step.
- The cooldown upsert targets `ON CONFLICT(user_id)`, but `hire_cooldowns` declares no PRIMARY KEY or UNIQUE constraint on `user_id` (database/models.py:545-578). SQLite therefore rejects the statement when it is prepared, and `execute_db` logs the error and returns `None` (database/models.py:58-80). As written, no cooldown record is ever stored, so `can_hire_worker` always allows a hire and neither the 24-hour cooldown nor the daily limit applies. Academy.HireWorker uses the record the upsert is meant to write (Academy.RecordHire); Academy.RecordHireAsWritten models the statement as it takes effect, and the discrepancy is a row under "## Findings".
- A missing user in `hire_worker` and `start_training`. The original fails on `None.ryabucks`; the model returns a distinct reply and leaves the store unchanged.
- Floating point:
  - Training durations are whole minutes (the fisherman's 2.5 hours is 150).
  - Times are whole seconds in the engine and whole milliseconds in the throttler.
  - The `rbtc_rate` and `shard_rate` entries of the prices are omitted.
- MessageHelper.Percentage: the percentage is exact integer arithmetic, truncated toward zero. The original divides in floating point first, so `int((29/100)*100)` gives 28 there and 29 here.
- Throttling.Throttler.Call: one `now` serves the whole call, while the original reads `time.time()` again in each check.
- Defaultdict reads. `user_violations[u]` and `user_action_history[u]` insert a default entry when read. The model does not add those keys, since nothing reads the key sets.
- Not modelled in the throttler:
  - `get_stats` and `reset_stats`, which only report counters;
  - the messages sent to the user and the logs;
  - `create_*` factories.
- Throttling.GameLimitsNeverApply records that the game limits can never apply: the extracted action type is always one of five event names, none of them a game-limit key.
- The Telegram side: sending, editing and answering messages, keyboards, handlers, locales, `safe_callback_answer`, and the retry and error paths of `send_formatted`. The other message helpers (`format_user_resources`, `send_error_message`, and the rest) are formatting over locale tables.
- Energy.Call:
  - `_send_low_energy_message` is represented by the `LowEnergy` verdict.
  - `update_user_resources` returns `None`, so the original always takes its "failed" branch. That branch still lets the update through, so the model's verdict agrees.
- Text.ParseInt: only ASCII digits with optional underscores between them are decimal digits here. Python's `int()` also accepts other Unicode digits.
- `StateManager.save_user_state`, `load_user_state` and `clear_user_state` are storage I/O.
- `is_game_state` and the other state predicates test `isinstance` on group classes, and are not models of the name helpers.
- States.GetStateDescription: a state is named by its "Group:STATE" string rather than by the `State` object that keys the dictionary.
- Config.ParseAdminIds: the environment variable is a parameter.
- Config.GetTrainingData: the `*_TIME` values are given as whole minutes, not as the text that `float(os.getenv(...))` reads as hours, so a malformed duration and its `ValueError` are not modelled.
- Energy.ConsumeEnergy and Energy.Call debit with the corrected `Energy.Debit`, not with `Energy.DebitAsWritten`; the finding below records the difference.
- Academy.CanHireWorker and Academy.HireWorker: `today` is a parameter of its own, independent of `now`. The check compares the stored day with the local date (database/models.py:621), while the upsert stores SQLite's UTC `date('now')` (database/models.py:669-677); the two can disagree near midnight. With one clock for both, a hire needs 24 hours since the last one, so the count never passes 1 and `limit_reached` cannot occur (Academy.DailyLimitUnreachable); Academy.LimitRefuses states when a record would refuse.
- The `GameConfig`, `ServerConfig` and `LoggingConfig` fields other than the hire settings are plain values read from the environment.

## Findings

| source | as written | input that shows it | evidently intended | confidence | as-written member | corrected member |
|---|---|---|---|---|---|---|
| middlewares/energy_middleware.py:143 | `update_user_resources(user_id, energy=-cost)` builds `SET energy = ?` with `-cost` (database/models.py:403-414), so the balance is overwritten with minus the cost | a user with 100 energy presses a button costing 1: energy becomes −1, not 99, and every later costly action is refused | the balance lowered by the cost, `user.energy - cost`, as the log line at 145 reports | not executed | Energy.AsWrittenLosesBalance | Energy.DebitsAdd |
| database/models.py:667-678 | `INSERT … ON CONFLICT(user_id) DO UPDATE` into `hire_cooldowns`, whose only key is `id` (database/models.py:545-578): SQLite rejects the upsert, `execute_db` swallows the error (database/models.py:58-80), and the laborer and the charge are written without a cooldown record (Academy.RecordHireAsWritten) | a user with 1000 ryabucks and no cooldown record hires twice, 60 seconds apart: both hires go through, for 30 and then 35 ryabucks | one record per user, so that a second hire within 24 hours is refused with the remaining wait and at most three hires count per day | not executed | Academy.AsWrittenSecondHireAllowed | Academy.HireStartsCooldown |
