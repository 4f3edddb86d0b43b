/** The SQLite store behind database/models.py, reduced to the tables the worker
    life cycle and the energy check use: `users` (typed records), `hired_workers`,
    `training_units`, `trained_specialists` and one `hire_cooldowns` record per
    user. Each `execute_db` statement of the source is one assignment to a field
    of `Db`; `AUTOINCREMENT` ids come from the `next...Id` counters. */
module Database {
  import opened Text

  datatype WorkerStatus = Idle | Training | Consumed

  /** A row of `hired_workers`. */
  datatype Worker = Worker(
    id: nat, userId: int, workerType: string, status: WorkerStatus,
    hiredAt: int, nextAvailableAt: int)

  /** `training_units.status`: 'training' or 'completed'. */
  datatype UnitStatus = InTraining | Completed

  /** A row of `training_units`; `workerId` refers to `hired_workers.id`. */
  datatype TrainingUnit = TrainingUnit(
    id: nat, userId: int, unitType: string, status: UnitStatus,
    startedAt: int, completedAt: int, workerId: nat)

  datatype SpecialistStatus = Available | Dead

  /** A row of `trained_specialists`. */
  datatype Specialist = Specialist(
    id: nat, userId: int, specialistType: string, level: int,
    status: SpecialistStatus, createdAt: int)

  /** The `hire_cooldowns` record of one user; `resetDate` is a day number. */
  datatype HireCooldown = HireCooldown(lastHireTime: int, hiresCount: int, resetDate: int)

  /** A row of `users` (the float `rbtc` balance and the timestamps are left out). */
  datatype User = User(
    username: Option<string>, language: string, level: int, experience: int,
    energy: int, ryabucks: int, goldenShards: int, quantumKeys: int,
    landPlots: int, tutorialCompleted: bool, currentState: Option<string>)

  // ---------------------------------------------------------------------------
  // The WHERE clauses of the core's queries, as sequence filters that keep the
  // table order.

  /** `WHERE user_id = ? AND status != 'consumed'` on `hired_workers`. */
  function Held(ws: seq<Worker>, u: int): (r: seq<Worker>)
    ensures |r| <= |ws|
    ensures forall w :: w in r <==> w in ws && w.userId == u && w.status != Consumed
  {
    if ws == [] then []
    else
      var p := Held(ws[..|ws| - 1], u);
      var w := ws[|ws| - 1];
      assert ws == ws[..|ws| - 1] + [w];
      if w.userId == u && w.status != Consumed then p + [w] else p
  }

  /** The `worker_type` column of the held workers. */
  function HeldTypes(ws: seq<Worker>, u: int): (r: seq<string>)
    ensures |r| == |Held(ws, u)|
    ensures forall k :: 0 <= k < |r| ==> r[k] == Held(ws, u)[k].workerType
  {
    var h := Held(ws, u);
    seq(|h|, k requires 0 <= k < |h| => h[k].workerType)
  }

  predicate IsActive(t: TrainingUnit, u: int) { t.userId == u && t.status == InTraining }

  /** `WHERE user_id = ? AND status = 'training'` on `training_units`. */
  function Active(ts: seq<TrainingUnit>, u: int): (r: seq<TrainingUnit>)
    ensures |r| <= |ts|
    ensures forall t :: t in r <==> t in ts && IsActive(t, u)
  {
    if ts == [] then []
    else
      var p := Active(ts[..|ts| - 1], u);
      var t := ts[|ts| - 1];
      assert ts == ts[..|ts| - 1] + [t];
      if IsActive(t, u) then p + [t] else p
  }

  predicate IsDue(t: TrainingUnit, u: int, now: int) { IsActive(t, u) && t.completedAt <= now }

  /** `... AND status = 'training' AND completed_at <= now`. */
  function Due(ts: seq<TrainingUnit>, u: int, now: int): (r: seq<TrainingUnit>)
    ensures |r| <= |ts|
    ensures forall t :: t in r <==> t in ts && IsDue(t, u, now)
  {
    if ts == [] then []
    else
      var p := Due(ts[..|ts| - 1], u, now);
      var t := ts[|ts| - 1];
      assert ts == ts[..|ts| - 1] + [t];
      if IsDue(t, u, now) then p + [t] else p
  }

  /** `WHERE user_id = ? AND status != 'dead'` on `trained_specialists`, as the
      column `specialist_type`. */
  function LiveTypes(ss: seq<Specialist>, u: int): (r: seq<string>)
    ensures |r| <= |ss|
    ensures forall t :: t in r <==> exists k :: 0 <= k < |ss| && ss[k].userId == u
                                                && ss[k].status != Dead && ss[k].specialistType == t
  {
    if ss == [] then []
    else
      var p := LiveTypes(ss[..|ss| - 1], u);
      var s := ss[|ss| - 1];
      assert forall k :: 0 <= k < |ss| - 1 ==> ss[..|ss| - 1][k] == ss[k];
      if s.userId == u && s.status != Dead then p + [s.specialistType] else p
  }

  // ---------------------------------------------------------------------------
  // UPDATE ... WHERE id = ? statements, applied to every row whose id is listed

  function MarkCompleted(ts: seq<TrainingUnit>, ids: set<nat>): (r: seq<TrainingUnit>)
    ensures |r| == |ts|
    ensures forall k :: 0 <= k < |ts| ==>
              r[k] == if ts[k].id in ids then ts[k].(status := Completed) else ts[k]
  {
    seq(|ts|, k requires 0 <= k < |ts| => if ts[k].id in ids then ts[k].(status := Completed) else ts[k])
  }

  function MarkConsumed(ws: seq<Worker>, ids: set<nat>): (r: seq<Worker>)
    ensures |r| == |ws|
    ensures forall k :: 0 <= k < |ws| ==>
              r[k] == if ws[k].id in ids then ws[k].(status := Consumed) else ws[k]
  {
    seq(|ws|, k requires 0 <= k < |ws| => if ws[k].id in ids then ws[k].(status := Consumed) else ws[k])
  }

  /** `UPDATE users SET ryabucks = ryabucks - ?` for one user. */
  function Charge(users: map<int, User>, u: int, amount: int): (r: map<int, User>)
    requires u in users
    ensures r.Keys == users.Keys
    ensures r[u].ryabucks == users[u].ryabucks - amount
    ensures r[u] == users[u].(ryabucks := r[u].ryabucks)
    ensures forall v :: v in users && v != u ==> r[v] == users[v]
  {
    users[u := users[u].(ryabucks := users[u].ryabucks - amount)]
  }

  // ---------------------------------------------------------------------------
  // Integrity of the tables

  predicate UniqueWorkerIds(ws: seq<Worker>)
  {
    forall i, j :: 0 <= i < j < |ws| ==> ws[i].id != ws[j].id
  }

  predicate UniqueUnitIds(ts: seq<TrainingUnit>)
  {
    forall i, j :: 0 <= i < j < |ts| ==> ts[i].id != ts[j].id
  }

  predicate UniqueSpecialistIds(ss: seq<Specialist>)
  {
    forall i, j :: 0 <= i < j < |ss| ==> ss[i].id != ss[j].id
  }

  /** Some worker with this id belongs to `u` and is in training. */
  ghost predicate TrainingWorker(ws: seq<Worker>, id: nat, u: int)
  {
    exists k :: 0 <= k < |ws| && ws[k].id == id && ws[k].userId == u && ws[k].status == Training
  }

  /** Every unit in training refers to its own worker, who is in training and
      belongs to the same user; no worker is referred to by two such units. */
  ghost predicate Linked(ts: seq<TrainingUnit>, ws: seq<Worker>)
  {
    && (forall i :: 0 <= i < |ts| && ts[i].status == InTraining ==>
          TrainingWorker(ws, ts[i].workerId, ts[i].userId))
    && (forall i, j :: 0 <= i < j < |ts| && ts[i].status == InTraining && ts[j].status == InTraining ==>
          ts[i].workerId != ts[j].workerId)
  }

  /** At most two units of a user are in training (`base_slots = 2`). */
  const TrainingSlots := 2

  /** The integrity of the tables: ids below the counters and unique, at most
      `TrainingSlots` units in training per user, and units tied to workers. */
  ghost predicate Consistent(ws: seq<Worker>, ts: seq<TrainingUnit>, ss: seq<Specialist>,
                             nextWorkerId: nat, nextTrainingId: nat, nextSpecialistId: nat)
  {
    && (forall k :: 0 <= k < |ws| ==> ws[k].id < nextWorkerId)
    && (forall k :: 0 <= k < |ts| ==> ts[k].id < nextTrainingId)
    && (forall k :: 0 <= k < |ss| ==> ss[k].id < nextSpecialistId)
    && UniqueWorkerIds(ws) && UniqueUnitIds(ts) && UniqueSpecialistIds(ss)
    && (forall u :: |Active(ts, u)| <= TrainingSlots)
    && Linked(ts, ws)
  }

  class Db {
    var users: map<int, User>
    var workers: seq<Worker>
    var trainings: seq<TrainingUnit>
    var specialists: seq<Specialist>
    var cooldowns: map<int, HireCooldown>
    var nextWorkerId: nat
    var nextTrainingId: nat
    var nextSpecialistId: nat

    ghost predicate Valid()
      reads this
    {
      Consistent(workers, trainings, specialists, nextWorkerId, nextTrainingId, nextSpecialistId)
    }

    /** A fresh database holding the given users and nothing else. */
    constructor (users: map<int, User>)
      ensures Valid()
      ensures this.users == users
      ensures workers == [] && trainings == [] && specialists == [] && cooldowns == map[]
    {
      this.users := users;
      workers, trainings, specialists := [], [], [];
      cooldowns := map[];
      nextWorkerId, nextTrainingId, nextSpecialistId := 1, 1, 1;
    }
  }
}
