/** The energy check of middlewares/energy_middleware.py: every message or
    button press of a known user costs 0, 1 or 2 energy, looked up in four
    tables; an action the user cannot pay for is stopped, any other goes on to
    its handler after the cost is taken. */
module Energy {
  import opened Text
  import opened Database

  // ---------------------------------------------------------------------------
  // ENERGY_COSTS (energy_middleware.py:17-66)

  /** `free_actions`: a set, so only "some member occurs" matters. */
  const FreeActions: set<string> :=
    {"back", "cancel", "help", "settings", "info_", "lang_", "tutorial_", "back_to_", "menu",
     "watch_ad", "claim_stable_energy"}

  /** `navigation_actions`: reply-keyboard texts, matched exactly. */
  const NavigationActions: map<string, nat> :=
    map["🏠 Ферма" := 1, "🏢 Город" := 1, "👤 Житель" := 1, "💼 ₽ябота" := 1,
        "🎒 Рюкзак" := 1, "👥 Друзья" := 1, "🏆 Лидеры" := 1, "🗄️ Прочее" := 1]

  /** `navigation_callbacks`: callback data, matched exactly. */
  const NavigationCallbacks: map<string, nat> :=
    map["academy" := 1, "town" := 1, "farm" := 1, "work" := 1, "citizen" := 1,
        "storage" := 1, "rankings" := 1, "referral" := 1, "about" := 1]

  /** `game_actions` in the dictionary's insertion order, which is the order
      they are tried in. */
  const GameActions: seq<(string, nat)> :=
    [("hire_worker", 1), ("start_training", 1), ("collect_resources", 1), ("feed_animals", 1),
     ("harvest_crops", 1), ("market_purchase", 1), ("build_construction", 1), ("upgrade_building", 1),
     ("start_expedition", 2), ("rooster_fight", 2), ("horse_race", 2)]

  predicate IsFree(action: string)
  {
    exists f :: f in FreeActions && Contains(action, f)
  }

  /** The cost of the first game action, from position `from`, that occurs in
      `action`. */
  function FirstGameCost(action: string, from: nat): (r: Option<nat>)
    requires from <= |GameActions|
    ensures r.Some? ==> exists j :: from <= j < |GameActions| && Contains(action, GameActions[j].0)
                                    && r.value == GameActions[j].1
                                    && forall i :: from <= i < j ==> !Contains(action, GameActions[i].0)
    ensures r.Some? ==> 1 <= r.value <= 2
    ensures r.None? <==> forall j :: from <= j < |GameActions| ==> !Contains(action, GameActions[j].0)
    decreases |GameActions| - from
  {
    if from == |GameActions| then None
    else if Contains(action, GameActions[from].0) then Some(GameActions[from].1)
    else FirstGameCost(action, from + 1)
  }

  /** `_calculate_energy_cost`: free actions first, then the exact navigation
      texts, then the exact callbacks, then the first game action occurring in
      the text; anything else costs 1. Only the empty or free actions are free,
      and nothing costs more than 2. */
  function EnergyCost(action: string): (cost: nat)
    ensures cost <= 2
    ensures cost == 0 <==> action == [] || IsFree(action)
    ensures action != [] && !IsFree(action) && action in NavigationActions ==> cost == 1
    ensures action != [] && !IsFree(action) && action in NavigationCallbacks ==> cost == 1
    ensures cost == 2 ==> exists j :: 0 <= j < |GameActions| && GameActions[j].1 == 2
                                      && Contains(action, GameActions[j].0)
    ensures action != [] && !IsFree(action) && FirstGameCost(action, 0).None? ==> cost == 1
    ensures (action != [] && !IsFree(action) && action !in NavigationActions && action !in NavigationCallbacks
             && FirstGameCost(action, 0).Some?) ==> cost == FirstGameCost(action, 0).value
  {
    if action == [] then 0
    else if exists f | f in FreeActions :: Contains(action, f) then 0
    else if action in NavigationActions then NavigationActions[action]
    else if action in NavigationCallbacks then NavigationCallbacks[action]
    else
      match FirstGameCost(action, 0)
      case Some(c) => c
      case None => 1
  }

  // ---------------------------------------------------------------------------
  // The debit (energy_middleware.py:138-149)

  /** The evidently intended debit: the cost taken from the balance, as the log
      line `user.energy - cost` reports it. */
  function Debit(user: User, cost: int): (r: User)
    ensures r.(energy := user.energy) == user
    ensures cost >= 0 ==> r.energy <= user.energy
    ensures cost <= user.energy ==> r.energy >= 0
  {
    user.(energy := user.energy - cost)
  }

  /** The debit as written: `update_user_resources(user_id, energy=-cost)`
      generates `SET energy = ?` with `-cost`, which overwrites the balance. */
  function DebitAsWritten(user: User, cost: int): (r: User)
    ensures r.(energy := user.energy) == user
    ensures cost > 0 ==> r.energy < 0
  {
    user.(energy := -cost)
  }

  /** A paid debit leaves a non-negative balance smaller by exactly the cost,
      and changes no other column. */
  lemma DebitTakesCost(user: User, cost: nat)
    requires cost <= user.energy
    ensures 0 <= Debit(user, cost).energy == user.energy - cost
    ensures Debit(user, cost).(energy := user.energy) == user
  {
  }

  /** Two debits take the sum of their costs. */
  lemma DebitsAdd(user: User, a: int, b: int)
    ensures Debit(Debit(user, a), b) == Debit(user, a + b)
  {
  }

  /** As written, a user with 100 energy who pays 1 is left with -1 instead of
      99, and can then pay for no action that costs anything. */
  lemma AsWrittenLosesBalance(user: User)
    requires user.energy == 100
    ensures DebitAsWritten(user, 1).energy == -1
    ensures Debit(user, 1).energy == 99
    ensures DebitAsWritten(user, 1).energy < 1
  {
  }

  /** As written, the balance after a debit does not depend on the balance
      before it, so two debits do not add up. */
  lemma AsWrittenForgetsBalance(user: User, a: int, b: int)
    ensures DebitAsWritten(DebitAsWritten(user, a), b) == DebitAsWritten(user, b)
    ensures a != 0 ==> DebitAsWritten(DebitAsWritten(user, a), b) != DebitAsWritten(user, a + b)
  {
  }

  // ---------------------------------------------------------------------------
  // __call__ and _consume_energy (energy_middleware.py:68-153)

  /** The update as aiogram delivers it; a message may have no text and a
      callback no data. */
  datatype Event =
    | MessageEvent(fromUser: int, text: Option<string>)
    | CallbackEvent(fromUser: int, data: Option<string>)
    | OtherEvent

  function UserOf(e: Event): Option<int>
  {
    match e
    case MessageEvent(u, _) => Some(u)
    case CallbackEvent(u, _) => Some(u)
    case OtherEvent => None
  }

  function ActionOf(e: Event): Option<string>
  {
    match e
    case MessageEvent(_, t) => t
    case CallbackEvent(_, d) => d
    case OtherEvent => None
  }

  /** The handler runs, or the update stops with the low-energy notice showing
      the balance and the cost. */
  datatype Verdict = Proceed | LowEnergy(current: int, required: int)

  /** Python's `not user_id or not action_type`. */
  predicate Unidentified(e: Event)
  {
    UserOf(e) == None || UserOf(e) == Some(0) || ActionOf(e) == None || ActionOf(e) == Some([])
  }

  predicate NonNegativeEnergy(users: map<int, User>)
  {
    forall v :: v in users ==> users[v].energy >= 0
  }

  /** An unknown user passes free; a balance below the cost stops the update;
      otherwise the cost is taken and the handler runs. The debit is the
      corrected `Debit`, not the overwrite of `DebitAsWritten`. */
  method ConsumeEnergy(db: Db, u: int, cost: nat) returns (v: Verdict)
    modifies db`users
    ensures u !in old(db.users) ==> v == Proceed && db.users == old(db.users)
    ensures u in old(db.users) && old(db.users[u].energy) < cost ==>
              v == LowEnergy(old(db.users[u].energy), cost) && db.users == old(db.users)
    ensures u in old(db.users) && old(db.users[u].energy) >= cost ==>
              v == Proceed && db.users == old(db.users)[u := Debit(old(db.users[u]), cost)]
  {
    if u !in db.users {
      return Proceed;
    }
    var user := db.users[u];
    if user.energy < cost {
      return LowEnergy(user.energy, cost);
    }
    db.users := db.users[u := Debit(user, cost)];
    return Proceed;
  }

  /** The middleware: only an identified user's costly action is checked, only
      that user's energy changes, by exactly the cost; with the corrected
      debit it never falls below zero. */
  method Call(db: Db, e: Event) returns (v: Verdict)
    modifies db`users
    ensures Unidentified(e) ==> v == Proceed && db.users == old(db.users)
    ensures !Unidentified(e) && EnergyCost(ActionOf(e).value) == 0 ==>
              v == Proceed && db.users == old(db.users)
    ensures !Unidentified(e) && EnergyCost(ActionOf(e).value) > 0 ==>
              var u := UserOf(e).value;
              var cost := EnergyCost(ActionOf(e).value);
              && (u !in old(db.users) ==> v == Proceed && db.users == old(db.users))
              && (u in old(db.users) && old(db.users[u].energy) < cost ==>
                    v == LowEnergy(old(db.users[u].energy), cost) && db.users == old(db.users))
              && (u in old(db.users) && old(db.users[u].energy) >= cost ==>
                    v == Proceed && db.users == old(db.users)[u := Debit(old(db.users[u]), cost)])
    ensures db.users.Keys == old(db.users).Keys
    ensures forall w :: w in old(db.users) && UserOf(e) != Some(w) ==> db.users[w] == old(db.users[w])
    ensures NonNegativeEnergy(old(db.users)) ==> NonNegativeEnergy(db.users)
  {
    var userId: Option<int> := None;
    var actionType: Option<string> := None;
    match e {
      case MessageEvent(u, text) =>
        userId, actionType := Some(u), text;
      case CallbackEvent(u, data) =>
        userId, actionType := Some(u), data;
      case OtherEvent =>
    }
    if userId == None || userId == Some(0) || actionType == None || actionType == Some([]) {
      return Proceed;
    }
    var energyCost := EnergyCost(actionType.value);
    if energyCost == 0 {
      return Proceed;
    }
    v := ConsumeEnergy(db, userId.value, energyCost);
  }
}
