/** The worker life cycle of database/models.py:589-860: hiring laborers under a
    24-hour cooldown and a daily cap, training them into specialists in at most two
    slots, and the completion sweep that runs when the academy menu is opened.
    Each operation is a method over the store `Db`; the clock is passed in as
    `now` (seconds) and the calendar day as `today`. */
module Academy {
  import opened Text
  import opened Database
  import Tally
  import Config

  const Day := 86400
  const DailyHireLimit := 3

  /** What the core's `(success, message)` pairs become; `MissingUser` is the
      AttributeError raised when `get_user` finds no row. */
  datatype Reply = Reply(success: bool, message: string) | MissingUser

  // ---------------------------------------------------------------------------
  // get_hired_workers_count (models.py:590-600)

  /** The user's workers that are not consumed, grouped by type. */
  function GetHiredWorkersCount(db: Db, u: int): (counts: map<string, nat>)
    reads db
    ensures forall t :: t in counts <==> t in HeldTypes(db.workers, u)
    ensures forall t :: t in counts ==> 0 < counts[t] == Tally.Occurrences(HeldTypes(db.workers, u), t)
    ensures Tally.SumValues(Tally.Distinct(HeldTypes(db.workers, u)), counts) == |Held(db.workers, u)|
  {
    Tally.SumOfCounts(HeldTypes(db.workers, u));
    Tally.Count(HeldTypes(db.workers, u))
  }

  /** `sum(workers_count.values())`: every held worker, whatever its type. */
  function TotalHired(db: Db, u: int): (n: nat)
    reads db
    ensures n == |Held(db.workers, u)|
  {
    Tally.SumValues(Tally.Distinct(HeldTypes(db.workers, u)), GetHiredWorkersCount(db, u))
  }

  /** A type is a key of the counts exactly when some held worker has it. */
  lemma HiredCountKeys(db: Db, u: int)
    ensures forall t :: t in GetHiredWorkersCount(db, u) <==> exists w :: w in Held(db.workers, u) && w.workerType == t
  {
    var types := HeldTypes(db.workers, u);
    var h := Held(db.workers, u);
    forall t | t in types ensures exists w :: w in h && w.workerType == t {
      var k :| 0 <= k < |types| && types[k] == t;
      assert h[k] in h;
    }
    forall w | w in h ensures w.workerType in types {
      var k :| 0 <= k < |h| && h[k] == w;
      assert types[k] == w.workerType;
    }
  }

  /** A worker who is consumed is never counted. */
  lemma ConsumedNotCounted(db: Db, u: int, k: nat)
    requires k < |db.workers| && db.workers[k].userId == u && db.workers[k].status == Consumed
    ensures db.workers[k] !in Held(db.workers, u)
  {
  }

  /** `workers_count.get('laborer', 0)`: the held laborers. */
  function HeldLaborers(ws: seq<Worker>, u: int): nat
  {
    Tally.Occurrences(HeldTypes(ws, u), "laborer")
  }

  function GetOr(m: map<string, nat>, key: string, default: nat): nat
  {
    if key in m then m[key] else default
  }

  lemma LaborerLookup(db: Db, u: int)
    ensures GetOr(GetHiredWorkersCount(db, u), "laborer", 0) == HeldLaborers(db.workers, u)
  {
    CountLookup(db, u, "laborer");
  }

  /** Looking a type up with default 0 gives its number of held workers. */
  lemma CountLookup(db: Db, u: int, t: string)
    ensures GetOr(GetHiredWorkersCount(db, u), t, 0) == Tally.Occurrences(HeldTypes(db.workers, u), t)
  {
    var types := HeldTypes(db.workers, u);
    if t !in GetHiredWorkersCount(db, u) {
      Tally.OccurrencesPositive(types);
    }
  }

  // ---------------------------------------------------------------------------
  // can_hire_worker (models.py:603-633)

  /** The reason strings Ok, OnCooldown and LimitReached. */
  datatype HireReason = Ok | OnCooldown | LimitReached

  datatype Eligibility = Eligibility(allowed: bool, reason: HireReason, remaining: int)

  /** The day's hire count, read as 0 when it was recorded on another day. */
  function HiresToday(c: HireCooldown, today: int): int
  {
    if c.resetDate != today then 0 else c.hiresCount
  }

  function CooldownOf(cooldowns: map<int, HireCooldown>, u: int): Option<HireCooldown>
  {
    if u in cooldowns then Some(cooldowns[u]) else None
  }

  /** The cooldown is checked before the daily cap; without a record every hire
      is allowed; nothing is written. */
  function CanHireWorker(cooldown: Option<HireCooldown>, now: int, today: int): (r: Eligibility)
    ensures cooldown.None? ==> r == Eligibility(true, Ok, 0)
    ensures r.allowed <==> r.reason == Ok
    ensures r.reason == OnCooldown <==> cooldown.Some? && now - cooldown.value.lastHireTime < Day
    ensures r.reason == OnCooldown ==>
              && r.remaining == Day - (now - cooldown.value.lastHireTime)
              && 0 < r.remaining
              && (cooldown.value.lastHireTime <= now ==> r.remaining <= Day)
    ensures r.reason == LimitReached <==>
              cooldown.Some? && now - cooldown.value.lastHireTime >= Day
              && HiresToday(cooldown.value, today) >= DailyHireLimit
    ensures r.reason != OnCooldown ==> r.remaining == 0
  {
    match cooldown
    case None => Eligibility(true, Ok, 0)
    case Some(c) =>
      var hiresToday := if c.resetDate != today then 0 else c.hiresCount;
      var sinceLastHire := now - c.lastHireTime;
      if sinceLastHire < Day then Eligibility(false, OnCooldown, Day - sinceLastHire)
      else if hiresToday >= DailyHireLimit then Eligibility(false, LimitReached, 0)
      else Eligibility(true, Ok, 0)
  }

  // ---------------------------------------------------------------------------
  // hire_worker (models.py:636-686)

  /** `30 + 5 * total_workers`: the formula of config.py with its defaults. */
  function HireCost(heldWorkers: nat): (cost: int)
    ensures cost == Config.GetHireCost(Config.DefaultGame, heldWorkers)
  {
    30 + 5 * heldWorkers
  }

  /** The upserted cooldown record: this hire's time and day, and the lazily
      reset count of the day plus one. */
  function CooldownAfterHire(cooldown: Option<HireCooldown>, now: int, today: int): (c: HireCooldown)
    ensures c.lastHireTime == now && c.resetDate == today
    ensures c.hiresCount == (if cooldown.Some? then HiresToday(cooldown.value, today) else 0) + 1
  {
    match cooldown
    case None => HireCooldown(now, 1, today)
    case Some(previous) =>
      HireCooldown(now, if previous.resetDate == today then previous.hiresCount + 1 else 1, today)
  }

  function NewLaborer(id: nat, u: int, now: int): Worker
  {
    Worker(id, u, "laborer", Idle, now, now + Day)
  }

  function CooldownMessage(remaining: int): string
  {
    "⏰ Следующий найм через: " + IntToString(remaining / 3600) + "ч "
    + IntToString((remaining % 3600) / 60) + "мин"
  }

  const LimitMessage := "🚫 Достигнут лимит найма! Улучшите подписку."

  function NotEnoughMessage(cost: int): string
  {
    "❌ Недостаточно рябаксов! Нужно: " + IntToString(cost) + "💵"
  }

  function HiredMessage(cost: int): string
  {
    "✅ Разнорабочий нанят! Потрачено: " + IntToString(cost) + "💵"
  }

  /** The insufficient-funds message names the exact cost. */
  lemma NotEnoughNamesCost(cost: int)
    ensures Contains(NotEnoughMessage(cost), IntToString(cost))
  {
    ContainsMiddle("❌ Недостаточно рябаксов! Нужно: ", IntToString(cost), "💵");
  }

  /** Eligibility first, then the user's row, then the balance against the cost;
      a failed check leaves the store as it was. A hire adds one idle laborer,
      upserts the cooldown record and takes exactly the cost from `ryabucks`. */
  method HireWorker(db: Db, u: int, now: int, today: int) returns (reply: Reply)
    requires db.Valid()
    modifies db
    ensures db.Valid()
    ensures var e := CanHireWorker(CooldownOf(old(db.cooldowns), u), now, today);
            !e.allowed ==>
              && reply == Reply(false, if e.reason == OnCooldown then CooldownMessage(e.remaining) else LimitMessage)
              && unchanged(db)
    ensures var e := CanHireWorker(CooldownOf(old(db.cooldowns), u), now, today);
            e.allowed && u !in old(db.users) ==> reply == MissingUser && unchanged(db)
    ensures var e := CanHireWorker(CooldownOf(old(db.cooldowns), u), now, today);
            var cost := HireCost(|Held(old(db.workers), u)|);
            e.allowed && u in old(db.users) && old(db.users[u].ryabucks) < cost ==>
              reply == Reply(false, NotEnoughMessage(cost)) && unchanged(db)
    ensures var e := CanHireWorker(CooldownOf(old(db.cooldowns), u), now, today);
            var cost := HireCost(|Held(old(db.workers), u)|);
            e.allowed && u in old(db.users) && old(db.users[u].ryabucks) >= cost ==>
              && reply == Reply(true, HiredMessage(cost))
              && db.workers == old(db.workers) + [NewLaborer(old(db.nextWorkerId), u, now)]
              && db.nextWorkerId == old(db.nextWorkerId) + 1
              && db.cooldowns == old(db.cooldowns)[u := CooldownAfterHire(CooldownOf(old(db.cooldowns), u), now, today)]
              && db.users == Charge(old(db.users), u, cost)
              && db.trainings == old(db.trainings) && db.specialists == old(db.specialists)
              && db.nextTrainingId == old(db.nextTrainingId) && db.nextSpecialistId == old(db.nextSpecialistId)
  {
    var eligibility := CanHireWorker(CooldownOf(db.cooldowns, u), now, today);
    if !eligibility.allowed {
      if eligibility.reason == OnCooldown {
        return Reply(false, CooldownMessage(eligibility.remaining));
      }
      return Reply(false, LimitMessage);
    }
    if u !in db.users {
      return MissingUser;
    }
    var user := db.users[u];
    var totalWorkers := TotalHired(db, u);
    var hireCost := HireCost(totalWorkers);
    if user.ryabucks < hireCost {
      return Reply(false, NotEnoughMessage(hireCost));
    }
    RecordHire(db, u, now, today, hireCost);
    return Reply(true, HiredMessage(hireCost));
  }

  /** The three statements of a successful hire. */
  method RecordHire(db: Db, u: int, now: int, today: int, cost: int)
    requires db.Valid() && u in db.users
    modifies db
    ensures db.Valid()
    ensures db.workers == old(db.workers) + [NewLaborer(old(db.nextWorkerId), u, now)]
    ensures db.nextWorkerId == old(db.nextWorkerId) + 1
    ensures db.cooldowns == old(db.cooldowns)[u := CooldownAfterHire(CooldownOf(old(db.cooldowns), u), now, today)]
    ensures db.users == Charge(old(db.users), u, cost)
    ensures db.trainings == old(db.trainings) && db.specialists == old(db.specialists)
    ensures db.nextTrainingId == old(db.nextTrainingId) && db.nextSpecialistId == old(db.nextSpecialistId)
  {
    HireKeepsConsistent(db.workers, db.trainings, db.specialists, db.nextWorkerId, db.nextTrainingId, db.nextSpecialistId, u, now);
    db.workers := db.workers + [NewLaborer(db.nextWorkerId, u, now)];
    db.nextWorkerId := db.nextWorkerId + 1;
    db.cooldowns := db.cooldowns[u := CooldownAfterHire(CooldownOf(db.cooldowns, u), now, today)];
    db.users := Charge(db.users, u, cost);
  }

  /** The three statements of a hire as they take effect in the original:
      `ON CONFLICT(user_id)` names no unique key of `hire_cooldowns`, so the
      engine rejects the upsert, `execute_db` returns `None`, and only the
      laborer and the charge are written. A user without a cooldown record
      therefore never gets one, and every later check allows a hire. */
  method RecordHireAsWritten(db: Db, u: int, now: int, cost: int)
    requires db.Valid() && u in db.users
    modifies db
    ensures db.Valid()
    ensures db.workers == old(db.workers) + [NewLaborer(old(db.nextWorkerId), u, now)]
    ensures db.nextWorkerId == old(db.nextWorkerId) + 1
    ensures db.cooldowns == old(db.cooldowns)
    ensures db.users == Charge(old(db.users), u, cost)
    ensures db.trainings == old(db.trainings) && db.specialists == old(db.specialists)
    ensures db.nextTrainingId == old(db.nextTrainingId) && db.nextSpecialistId == old(db.nextSpecialistId)
    ensures u !in old(db.cooldowns) ==>
              forall later, laterDay :: CanHireWorker(CooldownOf(db.cooldowns, u), later, laterDay) == Eligibility(true, Ok, 0)
  {
    HireKeepsConsistent(db.workers, db.trainings, db.specialists, db.nextWorkerId, db.nextTrainingId, db.nextSpecialistId, u, now);
    db.workers := db.workers + [NewLaborer(db.nextWorkerId, u, now)];
    db.nextWorkerId := db.nextWorkerId + 1;
    db.users := Charge(db.users, u, cost);
  }

  /** The discrepancy on one input: for a user without a record, a second
      hire 60 seconds after the first is allowed when the upsert is rejected
      (the table left as it was), and refused with the remaining wait once the
      upsert stores the record. */
  lemma AsWrittenSecondHireAllowed(cooldowns: map<int, HireCooldown>, u: int, now: int, today: int)
    requires u !in cooldowns
    ensures CanHireWorker(CooldownOf(cooldowns, u), now + 60, today) == Eligibility(true, Ok, 0)
    ensures var upserted := cooldowns[u := CooldownAfterHire(CooldownOf(cooldowns, u), now, today)];
            CanHireWorker(CooldownOf(upserted, u), now + 60, today) == Eligibility(false, OnCooldown, Day - 60)
  {
  }

  lemma LinkedAfterHire(ts: seq<TrainingUnit>, ws: seq<Worker>, w: Worker)
    requires Linked(ts, ws)
    ensures Linked(ts, ws + [w])
  {
    forall i | 0 <= i < |ts| && ts[i].status == InTraining
      ensures TrainingWorker(ws + [w], ts[i].workerId, ts[i].userId)
    {
      var k :| 0 <= k < |ws| && ws[k].id == ts[i].workerId && ws[k].userId == ts[i].userId && ws[k].status == Training;
      assert (ws + [w])[k] == ws[k];
    }
  }

  lemma HireKeepsConsistent(ws: seq<Worker>, ts: seq<TrainingUnit>, ss: seq<Specialist>,
                            nw: nat, nt: nat, ns: nat, u: int, now: int)
    requires Consistent(ws, ts, ss, nw, nt, ns)
    ensures Consistent(ws + [NewLaborer(nw, u, now)], ts, ss, nw + 1, nt, ns)
  {
    LinkedAfterHire(ts, ws, NewLaborer(nw, u, now));
  }

  /** A hire opens a cooldown: any later request within 24 hours is refused
      with a waiting time between 1 second and 24 hours. */
  lemma HireStartsCooldown(c: Option<HireCooldown>, now: int, today: int, later: int, laterDay: int)
    requires now <= later < now + Day
    ensures var e := CanHireWorker(Some(CooldownAfterHire(c, now, today)), later, laterDay);
            !e.allowed && e.reason == OnCooldown && e.remaining == Day - (later - now)
            && 0 < e.remaining <= Day
  {
  }

  /** The day number of a time in seconds: SQLite's `date('now')` on the
      clock that also stamps `last_hire_time`. */
  function DayOf(t: int): int
  {
    t / Day
  }

  /** A record as the upsert leaves it when its day comes from the same clock
      as its time, after the 24-hour cooldown allowed the hire. */
  predicate OnOneClock(c: Option<HireCooldown>)
  {
    c.Some? ==> c.value.resetDate == DayOf(c.value.lastHireTime) && c.value.hiresCount == 1
  }

  /** A stream of hire attempts, each at a time and with the date that
      `can_hire_worker` compares (which may be another day, such as a local
      date); a successful attempt upserts the record with the day of its own
      time. */
  function AfterAttempts(c: Option<HireCooldown>, attempts: seq<(int, int)>): Option<HireCooldown>
    decreases |attempts|
  {
    if attempts == [] then c
    else
      var t := attempts[0].0;
      var next := if CanHireWorker(c, t, attempts[0].1).allowed then Some(CooldownAfterHire(c, t, DayOf(t))) else c;
      AfterAttempts(next, attempts[1..])
  }

  /** Two allowed hires are at least a day apart, so they fall on different
      days and the upsert restarts the count at 1. */
  lemma OneClockStep(c: Option<HireCooldown>, t: int, checkDay: int)
    requires OnOneClock(c) && CanHireWorker(c, t, checkDay).allowed
    ensures OnOneClock(Some(CooldownAfterHire(c, t, DayOf(t))))
  {
    if c.Some? {
      assert t - c.value.lastHireTime >= Day;
      assert DayOf(t) >= DayOf(c.value.lastHireTime + Day) == DayOf(c.value.lastHireTime) + 1;
    }
  }

  lemma {:induction false} OneClockKept(c: Option<HireCooldown>, attempts: seq<(int, int)>)
    requires OnOneClock(c)
    ensures OnOneClock(AfterAttempts(c, attempts))
    decreases |attempts|
  {
    if attempts != [] {
      var t := attempts[0].0;
      if CanHireWorker(c, t, attempts[0].1).allowed {
        OneClockStep(c, t, attempts[0].1);
        OneClockKept(Some(CooldownAfterHire(c, t, DayOf(t))), attempts[1..]);
      } else {
        OneClockKept(c, attempts[1..]);
      }
    }
  }

  /** With the 24-hour cooldown and one clock for the stored day, no sequence
      of hires ever reaches the daily limit of three: the `limit_reached`
      answer cannot occur, whatever date the check compares. */
  lemma DailyLimitUnreachable(attempts: seq<(int, int)>, t: int, checkDay: int)
    ensures CanHireWorker(AfterAttempts(None, attempts), t, checkDay).reason != LimitReached
  {
    OneClockKept(None, attempts);
  }

  /** A record already holding three hires for the day refuses with the limit
      once the cooldown is over. */
  lemma LimitRefuses(c: HireCooldown, now: int, today: int)
    requires c.resetDate == today && c.hiresCount >= DailyHireLimit && now - c.lastHireTime >= Day
    ensures CanHireWorker(Some(c), now, today) == Eligibility(false, LimitReached, 0)
  {
  }

  /** On a new day the count starts again from zero. */
  lemma NewDayAllowsHire(c: HireCooldown, now: int, today: int)
    requires c.resetDate != today && now - c.lastHireTime >= Day
    ensures CanHireWorker(Some(c), now, today).allowed
    ensures CooldownAfterHire(Some(c), now, today).hiresCount == 1
  {
  }

  /** A hire raises the number of counted workers by one, so the next hire
      costs 5 more. */
  lemma {:induction false} HireRaisesCost(ws: seq<Worker>, id: nat, u: int, now: int)
    ensures |Held(ws + [NewLaborer(id, u, now)], u)| == |Held(ws, u)| + 1
    ensures HireCost(|Held(ws + [NewLaborer(id, u, now)], u)|) == HireCost(|Held(ws, u)|) + 5
  {
    assert (ws + [NewLaborer(id, u, now)])[..|ws|] == ws;
  }

  // ---------------------------------------------------------------------------
  // get_training_slots_info (models.py:689-706)

  datatype SlotsInfo = SlotsInfo(used: int, total: int, available: int)

  /** Two slots, minus the user's units in training. */
  function GetTrainingSlotsInfo(db: Db, u: int): (info: SlotsInfo)
    reads db
    ensures info.total == TrainingSlots
    ensures info.used == |Active(db.trainings, u)|
    ensures info.used + info.available == info.total
    ensures db.Valid() ==> 0 <= info.available <= info.total
  {
    var activeTraining := |Active(db.trainings, u)|;
    SlotsInfo(activeTraining, TrainingSlots, TrainingSlots - activeTraining)
  }

  // ---------------------------------------------------------------------------
  // start_training (models.py:709-778)

  /** The profession table of models.py:722-732 (durations in minutes). */
  function TrainingData(): map<string, Config.Profession>
  {
    map[
      "builder" := Config.Profession("👷 Строитель", 100, 120),
      "farmer" := Config.Profession("👨‍🌾 Фермер", 100, 120),
      "woodman" := Config.Profession("🧑‍🚒 Лесник", 120, 180),
      "soldier" := Config.Profession("💂 Солдат", 150, 240),
      "fisherman" := Config.Profession("🎣 Рыбак", 110, 150),
      "scientist" := Config.Profession("👨‍🔬 Ученый", 200, 360),
      "cook" := Config.Profession("👨‍🍳 Повар", 130, 180),
      "teacher" := Config.Profession("👨‍🏫 Учитель", 180, 300),
      "doctor" := Config.Profession("🧑‍⚕️ Доктор", 220, 480)
    ]
  }

  /** The engine's table is the configuration's default table. */
  lemma TrainingTablesAgree()
    ensures TrainingData() == Config.DefaultTrainingData()
    ensures forall k :: k in TrainingData() <==> k in Config.ProfessionKeys
  {
  }

  predicate IsIdleLaborer(w: Worker, u: int)
  {
    w.userId == u && w.workerType == "laborer" && w.status == Idle
  }

  /** `SELECT id ... AND status = 'idle' LIMIT 1`: the first idle laborer. */
  function FirstIdleLaborer(ws: seq<Worker>, u: int, from: nat): (r: Option<nat>)
    requires from <= |ws|
    ensures r.Some? ==> from <= r.value < |ws| && IsIdleLaborer(ws[r.value], u)
                        && forall j :: from <= j < r.value ==> !IsIdleLaborer(ws[j], u)
    ensures r.None? ==> forall j :: from <= j < |ws| ==> !IsIdleLaborer(ws[j], u)
    decreases |ws| - from
  {
    if from == |ws| then None
    else if IsIdleLaborer(ws[from], u) then Some(from)
    else FirstIdleLaborer(ws, u, from + 1)
  }

  const NoLaborersMessage := "❌ Нет свободных разнорабочих! Наймите их на бирже труда."
  const SlotsFullMessage := "❌ Все учебные места заняты! Дождитесь окончания обучения."
  const UnknownProfessionMessage := "❌ Неизвестная профессия!"
  const NoIdleMessage := "❌ Нет свободных разнорабочих!"

  function TrainingStartedMessage(p: Config.Profession): string
  {
    "✅ " + p.name + " отправлен на обучение!\n⏰ Завершится через: "
    + NatToString(p.minutes / 60) + "ч " + NatToString(p.minutes % 60) + "мин"
  }

  function NewTrainingUnit(id: nat, u: int, unitType: string, now: int, minutes: nat, workerId: nat): TrainingUnit
  {
    TrainingUnit(id, u, unitType, InTraining, now, now + minutes * 60, workerId)
  }

  /** The five checks in order (held laborers, which counts those in training;
      a free slot; a known profession; the balance; an idle laborer), each
      failing one leaving the store as it was. A start moves the first idle
      laborer into training, adds its unit and takes exactly the profession's
      cost. */
  method StartTraining(db: Db, u: int, unitType: string, now: int) returns (reply: Reply)
    requires db.Valid()
    modifies db
    ensures db.Valid()
    ensures HeldLaborers(old(db.workers), u) == 0 ==>
              reply == Reply(false, NoLaborersMessage) && unchanged(db)
    ensures HeldLaborers(old(db.workers), u) > 0 && |Active(old(db.trainings), u)| >= TrainingSlots ==>
              reply == Reply(false, SlotsFullMessage) && unchanged(db)
    ensures HeldLaborers(old(db.workers), u) > 0 && |Active(old(db.trainings), u)| < TrainingSlots
            && unitType !in TrainingData() ==>
              reply == Reply(false, UnknownProfessionMessage) && unchanged(db)
    ensures HeldLaborers(old(db.workers), u) > 0 && |Active(old(db.trainings), u)| < TrainingSlots
            && unitType in TrainingData() && u !in old(db.users) ==>
              reply == MissingUser && unchanged(db)
    ensures HeldLaborers(old(db.workers), u) > 0 && |Active(old(db.trainings), u)| < TrainingSlots
            && unitType in TrainingData() && u in old(db.users)
            && old(db.users[u].ryabucks) < TrainingData()[unitType].cost ==>
              reply == Reply(false, NotEnoughMessage(TrainingData()[unitType].cost)) && unchanged(db)
    ensures HeldLaborers(old(db.workers), u) > 0 && |Active(old(db.trainings), u)| < TrainingSlots
            && unitType in TrainingData() && u in old(db.users)
            && old(db.users[u].ryabucks) >= TrainingData()[unitType].cost
            && FirstIdleLaborer(old(db.workers), u, 0).None? ==>
              reply == Reply(false, NoIdleMessage) && unchanged(db)
    ensures HeldLaborers(old(db.workers), u) > 0 && |Active(old(db.trainings), u)| < TrainingSlots
            && unitType in TrainingData() && u in old(db.users)
            && old(db.users[u].ryabucks) >= TrainingData()[unitType].cost
            && FirstIdleLaborer(old(db.workers), u, 0).Some? ==>
              var p := TrainingData()[unitType];
              var k := FirstIdleLaborer(old(db.workers), u, 0).value;
              && reply == Reply(true, TrainingStartedMessage(p))
              && db.workers == old(db.workers)[k := old(db.workers[k]).(status := Training)]
              && db.trainings == old(db.trainings)
                   + [NewTrainingUnit(old(db.nextTrainingId), u, unitType, now, p.minutes, old(db.workers[k].id))]
              && db.nextTrainingId == old(db.nextTrainingId) + 1
              && db.users == Charge(old(db.users), u, p.cost)
              && db.specialists == old(db.specialists) && db.cooldowns == old(db.cooldowns)
              && db.nextWorkerId == old(db.nextWorkerId) && db.nextSpecialistId == old(db.nextSpecialistId)
  {
    var workersCount := GetHiredWorkersCount(db, u);
    LaborerLookup(db, u);
    if GetOr(workersCount, "laborer", 0) == 0 {
      return Reply(false, NoLaborersMessage);
    }
    var slotsInfo := GetTrainingSlotsInfo(db, u);
    if slotsInfo.available <= 0 {
      return Reply(false, SlotsFullMessage);
    }
    var trainingData := TrainingData();
    if unitType !in trainingData {
      return Reply(false, UnknownProfessionMessage);
    }
    if u !in db.users {
      return MissingUser;
    }
    var user := db.users[u];
    var unitInfo := trainingData[unitType];
    if user.ryabucks < unitInfo.cost {
      return Reply(false, NotEnoughMessage(unitInfo.cost));
    }
    var worker := FirstIdleLaborer(db.workers, u, 0);
    if worker.None? {
      return Reply(false, NoIdleMessage);
    }
    var k := worker.value;
    StartKeepsConsistent(db.workers, db.trainings, db.specialists, db.nextWorkerId, db.nextTrainingId, db.nextSpecialistId,
                         k, NewTrainingUnit(db.nextTrainingId, u, unitType, now, unitInfo.minutes, db.workers[k].id));
    RecordStart(db, u, unitType, now, unitInfo, k);
    return Reply(true, TrainingStartedMessage(unitInfo));
  }

  /** The three statements of a successful start. */
  method RecordStart(db: Db, u: int, unitType: string, now: int, p: Config.Profession, k: nat)
    requires u in db.users && k < |db.workers| && IsIdleLaborer(db.workers[k], u)
    modifies db
    ensures db.workers == old(db.workers)[k := old(db.workers[k]).(status := Training)]
    ensures db.trainings == old(db.trainings)
                            + [NewTrainingUnit(old(db.nextTrainingId), u, unitType, now, p.minutes, old(db.workers[k].id))]
    ensures db.nextTrainingId == old(db.nextTrainingId) + 1
    ensures db.users == Charge(old(db.users), u, p.cost)
    ensures db.specialists == old(db.specialists) && db.cooldowns == old(db.cooldowns)
    ensures db.nextWorkerId == old(db.nextWorkerId) && db.nextSpecialistId == old(db.nextSpecialistId)
  {
    var unit := NewTrainingUnit(db.nextTrainingId, u, unitType, now, p.minutes, db.workers[k].id);
    db.trainings := db.trainings + [unit];
    db.nextTrainingId := db.nextTrainingId + 1;
    db.workers := db.workers[k := db.workers[k].(status := Training)];
    db.users := Charge(db.users, u, p.cost);
  }

  lemma {:induction false} ActiveAppend(ts: seq<TrainingUnit>, t: TrainingUnit)
    ensures forall v :: Active(ts + [t], v) == Active(ts, v) + (if IsActive(t, v) then [t] else [])
  {
    assert (ts + [t])[..|ts|] == ts;
  }

  /** Moving an idle worker into training, with a new unit referring to that
      worker, keeps every unit in training tied to its own training worker. */
  lemma LinkedAfterStart(ts: seq<TrainingUnit>, ws: seq<Worker>, k: nat, t: TrainingUnit)
    requires Linked(ts, ws) && UniqueWorkerIds(ws)
    requires k < |ws| && ws[k].status == Idle
    requires t.status == InTraining && t.workerId == ws[k].id && t.userId == ws[k].userId
    ensures Linked(ts + [t], ws[k := ws[k].(status := Training)])
  {
    var ws' := ws[k := ws[k].(status := Training)];
    var ts' := ts + [t];
    forall i | 0 <= i < |ts'| && ts'[i].status == InTraining
      ensures TrainingWorker(ws', ts'[i].workerId, ts'[i].userId)
    {
      if i == |ts| {
        assert ws'[k].id == t.workerId && ws'[k].status == Training;
      } else {
        assert ts'[i] == ts[i];
        var j :| 0 <= j < |ws| && ws[j].id == ts[i].workerId && ws[j].userId == ts[i].userId && ws[j].status == Training;
        assert ws'[j] == ws[j];
      }
    }
    forall i, j | 0 <= i < j < |ts'| && ts'[i].status == InTraining && ts'[j].status == InTraining
      ensures ts'[i].workerId != ts'[j].workerId
    {
      if j == |ts| {
        assert ts'[i] == ts[i];
        var m :| 0 <= m < |ws| && ws[m].id == ts[i].workerId && ws[m].userId == ts[i].userId && ws[m].status == Training;
        assert m != k;
      } else {
        assert ts'[i] == ts[i] && ts'[j] == ts[j];
      }
    }
  }

  lemma StartKeepsConsistent(ws: seq<Worker>, ts: seq<TrainingUnit>, ss: seq<Specialist>,
                             nw: nat, nt: nat, ns: nat, k: nat, t: TrainingUnit)
    requires Consistent(ws, ts, ss, nw, nt, ns)
    requires k < |ws| && ws[k].status == Idle
    requires t.id == nt && t.status == InTraining && t.workerId == ws[k].id && t.userId == ws[k].userId
    requires |Active(ts, t.userId)| < TrainingSlots
    ensures Consistent(ws[k := ws[k].(status := Training)], ts + [t], ss, nw, nt + 1, ns)
  {
    LinkedAfterStart(ts, ws, k, t);
    ActiveAppend(ts, t);
  }

  /** Because a start needs `available = 2 - used > 0`, at most two units of a
      user are ever in training. */
  lemma {:induction false} StartKeepsSlotBound(ts: seq<TrainingUnit>, t: TrainingUnit, u: int)
    requires |Active(ts, u)| < TrainingSlots
    ensures |Active(ts + [t], u)| <= TrainingSlots
  {
    ActiveAppend(ts, t);
  }

  // ---------------------------------------------------------------------------
  // get_active_trainings (models.py:781-808)

  predicate SortedByCompletion(s: seq<TrainingUnit>)
  {
    forall i, j :: 0 <= i < j < |s| ==> s[i].completedAt <= s[j].completedAt
  }

  function InsertByCompletion(t: TrainingUnit, s: seq<TrainingUnit>): seq<TrainingUnit>
  {
    if s == [] || t.completedAt <= s[0].completedAt then [t] + s
    else [s[0]] + InsertByCompletion(t, s[1..])
  }

  lemma {:induction false} InsertKeepsRows(t: TrainingUnit, s: seq<TrainingUnit>)
    ensures multiset(InsertByCompletion(t, s)) == multiset(s) + multiset{t}
  {
    if s != [] && t.completedAt > s[0].completedAt {
      InsertKeepsRows(t, s[1..]);
      assert s == [s[0]] + s[1..];
    }
  }

  lemma {:induction false} InsertMembers(t: TrainingUnit, s: seq<TrainingUnit>)
    ensures forall x :: x in InsertByCompletion(t, s) ==> x in s || x == t
  {
    if s != [] && t.completedAt > s[0].completedAt {
      InsertMembers(t, s[1..]);
    }
  }

  lemma SortedCons(x: TrainingUnit, rest: seq<TrainingUnit>)
    requires SortedByCompletion(rest)
    requires forall y :: y in rest ==> x.completedAt <= y.completedAt
    ensures SortedByCompletion([x] + rest)
  {
    var r := [x] + rest;
    forall i, j | 0 <= i < j < |r| ensures r[i].completedAt <= r[j].completedAt {
      assert r[j] == rest[j - 1];
      if i > 0 {
        assert r[i] == rest[i - 1];
      } else {
        assert rest[j - 1] in rest;
      }
    }
  }

  lemma {:induction false} InsertKeepsOrder(t: TrainingUnit, s: seq<TrainingUnit>)
    requires SortedByCompletion(s)
    ensures SortedByCompletion(InsertByCompletion(t, s))
  {
    if s == [] || t.completedAt <= s[0].completedAt {
      forall y | y in s ensures t.completedAt <= y.completedAt {
        var i :| 0 <= i < |s| && s[i] == y;
        assert s[0].completedAt <= s[i].completedAt;
      }
      SortedCons(t, s);
    } else {
      InsertKeepsOrder(t, s[1..]);
      InsertMembers(t, s[1..]);
      forall y | y in InsertByCompletion(t, s[1..]) ensures s[0].completedAt <= y.completedAt {
        if y != t {
          var i :| 0 <= i < |s[1..]| && s[1..][i] == y;
          assert s[i + 1] == y;
        }
      }
      SortedCons(s[0], InsertByCompletion(t, s[1..]));
    }
  }

  /** `ORDER BY completed_at ASC`. */
  function SortByCompletion(s: seq<TrainingUnit>): (r: seq<TrainingUnit>)
    ensures SortedByCompletion(r)
    ensures multiset(r) == multiset(s)
  {
    if s == [] then []
    else
      var rest := SortByCompletion(s[1..]);
      InsertKeepsOrder(s[0], rest);
      InsertKeepsRows(s[0], rest);
      assert s == [s[0]] + s[1..];
      InsertByCompletion(s[0], rest)
  }

  /** The rows whose time left, `completed_at - now`, is positive. */
  function Upcoming(rows: seq<TrainingUnit>, now: int): seq<TrainingUnit>
  {
    if rows == [] then []
    else
      var t := rows[|rows| - 1];
      Upcoming(rows[..|rows| - 1], now) + (if t.completedAt > now then [t] else [])
  }

  lemma {:induction false} UpcomingMembers(rows: seq<TrainingUnit>, now: int)
    ensures forall t :: t in Upcoming(rows, now) <==> t in rows && t.completedAt > now
  {
    if rows != [] {
      UpcomingMembers(rows[..|rows| - 1], now);
      assert rows == rows[..|rows| - 1] + [rows[|rows| - 1]];
    }
  }

  lemma {:induction false} UpcomingSorted(rows: seq<TrainingUnit>, now: int)
    requires SortedByCompletion(rows)
    ensures SortedByCompletion(Upcoming(rows, now))
  {
    if rows != [] {
      var p := rows[..|rows| - 1];
      var t := rows[|rows| - 1];
      UpcomingSorted(p, now);
      UpcomingMembers(p, now);
      var up := Upcoming(p, now);
      forall x | x in up ensures x.completedAt <= t.completedAt {
        var i :| 0 <= i < |p| && p[i] == x;
        assert rows[i] == x;
      }
      if t.completedAt > now {
        var r := up + [t];
        forall i, j | 0 <= i < j < |r| ensures r[i].completedAt <= r[j].completedAt {
          assert r[i] == up[i] && up[i] in up;
          if j < |up| {
            assert r[j] == up[j];
          }
        }
      }
    }
  }

  lemma {:induction false} UpcomingMultiset(rows: seq<TrainingUnit>, now: int, x: TrainingUnit)
    ensures multiset(Upcoming(rows, now))[x] == if x.completedAt > now then multiset(rows)[x] else 0
  {
    if rows != [] {
      var p := rows[..|rows| - 1];
      assert rows == p + [rows[|rows| - 1]];
      UpcomingMultiset(p, now, x);
    }
  }

  datatype ActiveTraining = ActiveTraining(unitType: string, timeLeft: string)

  function TimeLeftText(seconds: nat): string
  {
    NatToString(seconds / 3600) + "ч " + NatToString((seconds % 3600) / 60) + "мин"
  }

  function ListingOf(t: TrainingUnit, now: int): ActiveTraining
    requires t.completedAt > now
  {
    ActiveTraining(t.unitType, TimeLeftText(t.completedAt - now))
  }

  /** The entries `get_active_trainings` builds from the rows of its query:
      one per row whose time left is positive, in the rows' order. */
  function Listings(rows: seq<TrainingUnit>, now: int): seq<ActiveTraining>
  {
    if rows == [] then []
    else
      var t := rows[|rows| - 1];
      Listings(rows[..|rows| - 1], now)
      + (if t.completedAt - now > 0 then [ActiveTraining(t.unitType, TimeLeftText(t.completedAt - now))] else [])
  }

  /** The entries are the rows that are not yet due, each with its time left. */
  lemma {:induction false} ListingsOfUpcoming(rows: seq<TrainingUnit>, now: int)
    ensures |Listings(rows, now)| == |Upcoming(rows, now)|
    ensures forall k :: 0 <= k < |Upcoming(rows, now)| ==>
              Upcoming(rows, now)[k].completedAt > now
              && Listings(rows, now)[k] == ListingOf(Upcoming(rows, now)[k], now)
  {
    if rows != [] {
      var p := rows[..|rows| - 1];
      var t := rows[|rows| - 1];
      ListingsOfUpcoming(p, now);
      if t.completedAt > now {
        assert Upcoming(rows, now) == Upcoming(p, now) + [t];
        assert Listings(rows, now) == Listings(p, now) + [ListingOf(t, now)];
      } else {
        assert Upcoming(rows, now) == Upcoming(p, now);
        assert Listings(rows, now) == Listings(p, now);
      }
    }
  }

  /** The query, ordered by completion time, and the loop over its rows. */
  method GetActiveTrainings(db: Db, u: int, now: int) returns (result: seq<ActiveTraining>)
    ensures result == Listings(SortByCompletion(Active(db.trainings, u)), now)
  {
    var trainings := SortByCompletion(Active(db.trainings, u));
    result := ListRows(trainings, now);
  }

  /** The loop of `get_active_trainings`: one entry per row with time left. */
  method ListRows(trainings: seq<TrainingUnit>, now: int) returns (result: seq<ActiveTraining>)
    ensures result == Listings(trainings, now)
  {
    result := [];
    for i := 0 to |trainings|
      invariant result == Listings(trainings[..i], now)
    {
      var training := trainings[i];
      assert trainings[..i + 1][..i] == trainings[..i] && trainings[..i + 1][i] == training;
      var timeLeft := training.completedAt - now;
      if timeLeft > 0 {
        result := result + [ActiveTraining(training.unitType, TimeLeftText(timeLeft))];
      }
    }
    assert trainings[..|trainings|] == trainings;
  }

  /** The listed units are exactly the user's units in training that are not
      yet due, in ascending order of completion time. */
  lemma ActiveListingSound(ts: seq<TrainingUnit>, u: int, now: int)
    ensures var rows := Upcoming(SortByCompletion(Active(ts, u)), now);
            && SortedByCompletion(rows)
            && multiset(rows) == multiset(Upcoming(Active(ts, u), now))
            && forall t :: t in rows <==> t in ts && IsActive(t, u) && t.completedAt > now
  {
    var sorted := SortByCompletion(Active(ts, u));
    forall x ensures multiset(Upcoming(sorted, now))[x] == multiset(Upcoming(Active(ts, u), now))[x] {
      UpcomingMultiset(sorted, now, x);
      UpcomingMultiset(Active(ts, u), now, x);
    }
    assert multiset(Upcoming(sorted, now)) == multiset(Upcoming(Active(ts, u), now));
    UpcomingSorted(sorted, now);
    UpcomingMembers(sorted, now);
    forall t ensures t in sorted <==> t in Active(ts, u) {
      assert t in sorted <==> t in multiset(sorted);
    }
  }

  // ---------------------------------------------------------------------------
  // complete_trainings (models.py:811-847)

  function UnitIds(s: seq<TrainingUnit>): set<nat>
  {
    set t | t in s :: t.id
  }

  function WorkerIds(s: seq<TrainingUnit>): set<nat>
  {
    set t | t in s :: t.workerId
  }

  /** One available specialist of the unit's type per completed unit, created now. */
  function Graduates(due: seq<TrainingUnit>, u: int, firstId: nat, now: int): (r: seq<Specialist>)
    ensures |r| == |due|
    ensures forall k :: 0 <= k < |due| ==>
              r[k] == Specialist(firstId + k, u, due[k].unitType, 1, Available, now)
  {
    seq(|due|, k requires 0 <= k < |due| => Specialist(firstId + k, u, due[k].unitType, 1, Available, now))
  }

  /** The units table after the sweep: the due units completed, the others as
      they were. */
  function CompleteDue(ts: seq<TrainingUnit>, u: int, now: int): (r: seq<TrainingUnit>)
    ensures |r| == |ts|
    ensures forall k :: 0 <= k < |ts| ==>
              r[k] == if IsDue(ts[k], u, now) then ts[k].(status := Completed) else ts[k]
  {
    seq(|ts|, k requires 0 <= k < |ts| => if IsDue(ts[k], u, now) then ts[k].(status := Completed) else ts[k])
  }

  /** Updating by id completes exactly the due units, because ids are unique. */
  lemma CompletionById(ts: seq<TrainingUnit>, u: int, now: int)
    requires UniqueUnitIds(ts)
    ensures MarkCompleted(ts, UnitIds(Due(ts, u, now))) == CompleteDue(ts, u, now)
  {
    var due := Due(ts, u, now);
    forall k | 0 <= k < |ts| ensures ts[k].id in UnitIds(due) <==> IsDue(ts[k], u, now) {
      if ts[k].id in UnitIds(due) {
        var t :| t in due && t.id == ts[k].id;
        var m :| 0 <= m < |ts| && ts[m] == t;
        assert m == k;
      }
      if IsDue(ts[k], u, now) {
        assert ts[k] in due;
      }
    }
  }

  /** After a sweep nothing is left due at the same instant. */
  lemma NothingDueAfterSweep(ts: seq<TrainingUnit>, u: int, now: int)
    ensures Due(CompleteDue(ts, u, now), u, now) == []
  {
    var r := CompleteDue(ts, u, now);
    if Due(r, u, now) != [] {
      assert Due(r, u, now)[0] in Due(r, u, now);
    }
  }

  /** A second sweep at the same instant changes nothing. */
  lemma SweepIdempotent(ts: seq<TrainingUnit>, u: int, now: int)
    ensures CompleteDue(CompleteDue(ts, u, now), u, now) == CompleteDue(ts, u, now)
  {
  }

  /** Updating no ids changes nothing. */
  lemma NoIdsNoChange(ts: seq<TrainingUnit>, ws: seq<Worker>)
    ensures MarkCompleted(ts, {}) == ts && MarkConsumed(ws, {}) == ws
  {
  }

  /** Completing units never adds units in training. */
  lemma {:induction false} CompletionShrinksActive(ts: seq<TrainingUnit>, ids: set<nat>, v: int)
    ensures |Active(MarkCompleted(ts, ids), v)| <= |Active(ts, v)|
  {
    if ts != [] {
      var p := ts[..|ts| - 1];
      var r := MarkCompleted(ts, ids);
      assert r[..|ts| - 1] == MarkCompleted(p, ids);
      CompletionShrinksActive(p, ids, v);
      assert |Active(r, v)| == |Active(MarkCompleted(p, ids), v)| + (if IsActive(r[|ts| - 1], v) then 1 else 0);
      assert |Active(ts, v)| == |Active(p, v)| + (if IsActive(ts[|ts| - 1], v) then 1 else 0);
    }
  }

  /** The sweep keeps units in training tied to their workers, and every worker
      it consumes was in training. */
  lemma LinkedAfterSweep(ts: seq<TrainingUnit>, ws: seq<Worker>, u: int, now: int)
    requires Linked(ts, ws) && UniqueUnitIds(ts) && UniqueWorkerIds(ws)
    ensures var due := Due(ts, u, now);
            Linked(MarkCompleted(ts, UnitIds(due)), MarkConsumed(ws, WorkerIds(due)))
    ensures forall k :: 0 <= k < |ws| && ws[k].id in WorkerIds(Due(ts, u, now)) ==> ws[k].status == Training
  {
    var due := Due(ts, u, now);
    var ts' := MarkCompleted(ts, UnitIds(due));
    var ws' := MarkConsumed(ws, WorkerIds(due));
    forall i | 0 <= i < |ts'| && ts'[i].status == InTraining
      ensures TrainingWorker(ws', ts'[i].workerId, ts'[i].userId)
    {
      assert ts[i].id !in UnitIds(due) && ts'[i] == ts[i];
      var k :| 0 <= k < |ws| && ws[k].id == ts[i].workerId && ws[k].userId == ts[i].userId && ws[k].status == Training;
      forall j | j in due ensures j.workerId != ts[i].workerId {
        var m :| 0 <= m < |ts| && ts[m] == j;
        assert ts[m].id in UnitIds(due);
        assert m != i;
      }
      assert ws'[k] == ws[k];
    }
    forall k | 0 <= k < |ws| && ws[k].id in WorkerIds(due) ensures ws[k].status == Training {
      var j :| j in due && j.workerId == ws[k].id;
      var m :| 0 <= m < |ts| && ts[m] == j;
      var k2 :| 0 <= k2 < |ws| && ws[k2].id == ts[m].workerId && ws[k2].userId == ts[m].userId && ws[k2].status == Training;
      assert k2 == k;
    }
  }

  /** One iteration of the sweep, on the ids and rows it has handled so far. */
  lemma SweepStep(ts: seq<TrainingUnit>, ws: seq<Worker>, done: seq<TrainingUnit>, t: TrainingUnit,
                  u: int, firstId: nat, now: int)
    ensures MarkCompleted(MarkCompleted(ts, UnitIds(done)), {t.id}) == MarkCompleted(ts, UnitIds(done + [t]))
    ensures MarkConsumed(MarkConsumed(ws, WorkerIds(done)), {t.workerId}) == MarkConsumed(ws, WorkerIds(done + [t]))
    ensures Graduates(done + [t], u, firstId, now)
            == Graduates(done, u, firstId, now) + [Specialist(firstId + |done|, u, t.unitType, 1, Available, now)]
  {
    assert UnitIds(done + [t]) == UnitIds(done) + {t.id};
    assert WorkerIds(done + [t]) == WorkerIds(done) + {t.workerId};
  }

  lemma SweepKeepsConsistent(ws: seq<Worker>, ts: seq<TrainingUnit>, ss: seq<Specialist>,
                             nw: nat, nt: nat, ns: nat, u: int, now: int)
    requires Consistent(ws, ts, ss, nw, nt, ns)
    ensures var due := Due(ts, u, now);
            Consistent(MarkConsumed(ws, WorkerIds(due)), MarkCompleted(ts, UnitIds(due)),
                       ss + Graduates(due, u, ns, now), nw, nt, ns + |due|)
  {
    var due := Due(ts, u, now);
    LinkedAfterSweep(ts, ws, u, now);
    forall v ensures |Active(MarkCompleted(ts, UnitIds(due)), v)| <= TrainingSlots {
      CompletionShrinksActive(ts, UnitIds(due), v);
    }
    var ss' := ss + Graduates(due, u, ns, now);
    forall i, j | 0 <= i < j < |ss'| ensures ss'[i].id != ss'[j].id {
      if j >= |ss| {
        assert ss'[j].id == ns + (j - |ss|);
        if i >= |ss| {
          assert ss'[i].id == ns + (i - |ss|);
        }
      }
    }
  }

  /** Every unit in training that is due turns into one available specialist of
      its type, the unit is completed and its worker consumed; units due later
      and everything else stay as they were. Returns how many were completed. */
  method CompleteTrainings(db: Db, u: int, now: int) returns (count: nat)
    requires db.Valid()
    modifies db
    ensures db.Valid()
    ensures count == |Due(old(db.trainings), u, now)|
    ensures db.trainings == CompleteDue(old(db.trainings), u, now)
    ensures db.workers == MarkConsumed(old(db.workers), WorkerIds(Due(old(db.trainings), u, now)))
    ensures forall k :: 0 <= k < |db.workers| && db.workers[k].status != old(db.workers[k].status) ==>
              old(db.workers[k].status) == Training && db.workers[k].status == Consumed
    ensures db.specialists == old(db.specialists)
                              + Graduates(Due(old(db.trainings), u, now), u, old(db.nextSpecialistId), now)
    ensures db.nextSpecialistId == old(db.nextSpecialistId) + count
    ensures db.users == old(db.users) && db.cooldowns == old(db.cooldowns)
    ensures db.nextWorkerId == old(db.nextWorkerId) && db.nextTrainingId == old(db.nextTrainingId)
    ensures count == 0 ==> db.trainings == old(db.trainings) && db.workers == old(db.workers)
                           && db.specialists == old(db.specialists)
  {
    var completed := Due(db.trainings, u, now);
    ghost var units0, workers0, specialists0, firstId := db.trainings, db.workers, db.specialists, db.nextSpecialistId;
    count := GraduateAll(db, u, now, completed);
    CompletionById(units0, u, now);
    LinkedAfterSweep(units0, workers0, u, now);
    SweepKeepsConsistent(workers0, units0, specialists0, db.nextWorkerId, db.nextTrainingId, firstId, u, now);
    if count == 0 {
      assert UnitIds(completed) == {} && WorkerIds(completed) == {};
      NoIdsNoChange(units0, workers0);
      assert Graduates(completed, u, firstId, now) == [];
      assert specialists0 + [] == specialists0;
    }
  }

  /** `for training in completed`: graduates the given units in order. */
  method GraduateAll(db: Db, u: int, now: int, completed: seq<TrainingUnit>) returns (count: nat)
    modifies db
    ensures count == |completed|
    ensures db.trainings == MarkCompleted(old(db.trainings), UnitIds(completed))
    ensures db.workers == MarkConsumed(old(db.workers), WorkerIds(completed))
    ensures db.specialists == old(db.specialists) + Graduates(completed, u, old(db.nextSpecialistId), now)
    ensures db.nextSpecialistId == old(db.nextSpecialistId) + count
    ensures db.users == old(db.users) && db.cooldowns == old(db.cooldowns)
    ensures db.nextWorkerId == old(db.nextWorkerId) && db.nextTrainingId == old(db.nextTrainingId)
  {
    ghost var units0, workers0, specialists0, firstId := db.trainings, db.workers, db.specialists, db.nextSpecialistId;
    count := 0;
    for i := 0 to |completed|
      invariant count == i
      invariant db.trainings == MarkCompleted(units0, UnitIds(completed[..i]))
      invariant db.workers == MarkConsumed(workers0, WorkerIds(completed[..i]))
      invariant db.specialists == specialists0 + Graduates(completed[..i], u, firstId, now)
      invariant db.nextSpecialistId == firstId + i
      invariant db.users == old(db.users) && db.cooldowns == old(db.cooldowns)
      invariant db.nextWorkerId == old(db.nextWorkerId) && db.nextTrainingId == old(db.nextTrainingId)
    {
      var training := completed[i];
      assert completed[..i + 1] == completed[..i] + [training];
      SweepStep(units0, workers0, completed[..i], training, u, firstId, now);
      Graduate(db, u, now, training);
      count := count + 1;
    }
    assert completed[..|completed|] == completed;
  }

  /** The four statements for one completed unit: a specialist of its type,
      the unit completed, its worker consumed. */
  method Graduate(db: Db, u: int, now: int, t: TrainingUnit)
    modifies db
    ensures db.specialists == old(db.specialists) + [Specialist(old(db.nextSpecialistId), u, t.unitType, 1, Available, now)]
    ensures db.nextSpecialistId == old(db.nextSpecialistId) + 1
    ensures db.trainings == MarkCompleted(old(db.trainings), {t.id})
    ensures db.workers == MarkConsumed(old(db.workers), {t.workerId})
    ensures db.users == old(db.users) && db.cooldowns == old(db.cooldowns)
    ensures db.nextWorkerId == old(db.nextWorkerId) && db.nextTrainingId == old(db.nextTrainingId)
  {
    db.specialists := db.specialists + [Specialist(db.nextSpecialistId, u, t.unitType, 1, Available, now)];
    db.nextSpecialistId := db.nextSpecialistId + 1;
    db.trainings := MarkCompleted(db.trainings, {t.id});
    db.workers := MarkConsumed(db.workers, {t.workerId});
  }

  /** The academy menu opened twice at the same instant: the second sweep
      completes nothing and leaves the store as the first one left it. */
  method SweepTwice(db: Db, u: int, now: int) returns (first: nat, second: nat)
    requires db.Valid()
    modifies db
    ensures second == 0
    ensures db.trainings == CompleteDue(old(db.trainings), u, now)
  {
    first := CompleteTrainings(db, u, now);
    NothingDueAfterSweep(old(db.trainings), u, now);
    second := CompleteTrainings(db, u, now);
  }

  // ---------------------------------------------------------------------------
  // get_specialists_count (models.py:850-860)

  /** The user's specialists that are not dead, grouped by type. */
  function GetSpecialistsCount(db: Db, u: int): (counts: map<string, nat>)
    reads db
    ensures forall t :: t in counts <==> exists k :: 0 <= k < |db.specialists| && db.specialists[k].userId == u
                                                    && db.specialists[k].status != Dead
                                                    && db.specialists[k].specialistType == t
    ensures forall t :: t in counts ==> 0 < counts[t] == Tally.Occurrences(LiveTypes(db.specialists, u), t)
    ensures Tally.SumValues(Tally.Distinct(LiveTypes(db.specialists, u)), counts) == |LiveTypes(db.specialists, u)|
  {
    Tally.SumOfCounts(LiveTypes(db.specialists, u));
    Tally.Count(LiveTypes(db.specialists, u))
  }
}
