/** The anti-spam middleware of middlewares/throttling.py: a minimum gap between
    two actions of a user, a sliding ten-second window of at most eight actions
    whose overflow blocks the user for a minute, and the violation counters.
    Time is an integer number of milliseconds passed in as `now`. */
module Throttling {
  import opened Text

  const BurstWindow := 10000
  const BurstLimit := 8
  const BlockDuration := 60000
  /** `deque(maxlen=10)`. */
  const HistoryLength := 10

  /** `action_limits`, in milliseconds. */
  const ActionLimits: map<string, int> :=
    map["callback_query" := 300, "message" := 500, "command" := 800, "premium_action" := 100]

  /** `game_action_limits` of `GameActionThrottlingMiddleware`, in milliseconds. */
  const GameActionLimits: map<string, int> :=
    map["hire_worker" := 2000, "start_training" := 1500, "collect_resources" := 1000,
        "farm_action" := 800, "expedition_start" := 3000, "battle_action" := 500,
        "market_purchase" := 1200]

  // ---------------------------------------------------------------------------
  // _extract_user_info (throttling.py:119-152)

  /** The shapes of update the middleware tells apart: a callback query or a
      message delivered directly, an `Update` wrapping either, or any other
      object that may carry a sender. */
  datatype Incoming =
    | CallbackQueryEvent(fromUser: int)
    | MessageEvent(fromUser: int, text: Option<string>)
    | UpdateEvent(callbackFrom: Option<int>, messageFrom: Option<int>, messageText: Option<string>)
    | OtherEvent(sender: Option<int>)

  function MessageType(text: Option<string>): string
  {
    if text.Some? && text.value != [] && StartsWith(text.value, "/") then "command" else "message"
  }

  /** The sender and the action type; a callback wins over a message inside one
      update. */
  function ExtractUserInfo(e: Incoming): (r: (Option<int>, string))
    ensures r.0.None? ==> r.1 == "unknown"
  {
    match e
    case CallbackQueryEvent(u) => (Some(u), "callback_query")
    case MessageEvent(u, text) => (Some(u), MessageType(text))
    case UpdateEvent(cb, m, text) =>
      if cb.Some? then (cb, "callback_query")
      else if m.Some? then (m, MessageType(text))
      else (None, "unknown")
    case OtherEvent(s) => if s.Some? then (s, "other") else (None, "unknown")
  }

  /** What `_extract_user_info` reads from each shape of update: the sender of
      a callback or a message, a callback ahead of the message inside one
      update, "command" exactly for a text starting with "/", and one of five
      action types. */
  lemma ExtractUserInfoShapes(e: Incoming)
    ensures var r := ExtractUserInfo(e);
            && (e.CallbackQueryEvent? ==> r == (Some(e.fromUser), "callback_query"))
            && (e.MessageEvent? ==>
                  && r.0 == Some(e.fromUser) && r.1 in {"command", "message"}
                  && (r.1 == "command" <==> e.text.Some? && StartsWith(e.text.value, "/")))
            && (e.UpdateEvent? && e.callbackFrom.Some? ==> r == (e.callbackFrom, "callback_query"))
            && (e.UpdateEvent? && e.callbackFrom.None? ==>
                  && r.0 == e.messageFrom
                  && (e.messageFrom.Some? ==>
                        (r.1 in {"command", "message"}
                         && (r.1 == "command" <==> e.messageText.Some? && StartsWith(e.messageText.value, "/")))))
            && (e.OtherEvent? ==> r.0 == e.sender && r.1 == (if e.sender.Some? then "other" else "unknown"))
            && r.1 in {"callback_query", "command", "message", "other", "unknown"}
            && (r.1 == "command" ==> exists t :: (e == MessageEvent(r.0.value, Some(t))
                                                  || e == UpdateEvent(None, r.0, Some(t))) && StartsWith(t, "/"))
  {
  }

  /** No update ever yields a game action name as its type, so the game
      middleware's own limits are never looked up for real traffic. */
  lemma GameLimitsNeverApply(e: Incoming)
    ensures ExtractUserInfo(e).1 !in GameActionLimits
  {
  }

  // ---------------------------------------------------------------------------
  // The sliding window (throttling.py:191-208)

  function HistoryOf(h: map<int, seq<int>>, u: int): seq<int>
  {
    if u in h then h[u] else []
  }

  /** `history.append(now)` on a deque of length at most 10: the oldest entry
      falls out when it is full. */
  function Recorded(q: seq<int>, now: int): (r: seq<int>)
    requires |q| <= HistoryLength
    ensures |r| <= HistoryLength && r != [] && r[|r| - 1] == now
    ensures |r| == if |q| == HistoryLength then HistoryLength else |q| + 1
    ensures r[..|r| - 1] == q[|q| - (|r| - 1)..]
  {
    if |q| == HistoryLength then q[1..] + [now] else q + [now]
  }

  /** The entries left after popping from the front while the oldest is more
      than `BurstWindow` older than `now`. */
  function DropOld(q: seq<int>, now: int): (r: seq<int>)
    ensures |r| <= |q| && r == q[|q| - |r|..]
    ensures r != [] ==> now - r[0] <= BurstWindow
    ensures forall k :: 0 <= k < |q| - |r| ==> now - q[k] > BurstWindow
    decreases |q|
  {
    if q != [] && now - q[0] > BurstWindow then DropOld(q[1..], now) else q
  }

  predicate Ascending(q: seq<int>)
  {
    forall i, j :: 0 <= i < j < |q| ==> q[i] <= q[j]
  }

  /** With timestamps that never go backwards, every entry left in the window
      is at most `BurstWindow` old. */
  lemma {:induction false} WindowIsRecent(q: seq<int>, now: int)
    requires Ascending(q) && (q != [] ==> q[|q| - 1] <= now)
    ensures forall k :: 0 <= k < |DropOld(q, now)| ==> 0 <= now - DropOld(q, now)[k] <= BurstWindow
    decreases |q|
  {
    if q != [] && now - q[0] > BurstWindow {
      WindowIsRecent(q[1..], now);
    } else if q != [] {
      forall k | 0 <= k < |q| ensures 0 <= now - q[k] <= BurstWindow {
        assert q[0] <= q[k] <= q[|q| - 1];
      }
    }
  }

  /** Every entry at most `BurstWindow` old survives the eviction. */
  lemma RecentEntriesKept(q: seq<int>, now: int)
    requires forall k :: 0 <= k < |q| ==> now - q[k] <= BurstWindow
    ensures DropOld(q, now) == q
  {
  }

  // ---------------------------------------------------------------------------
  // The middleware

  function Get(m: map<int, int>, u: int): int
  {
    if u in m then m[u] else 0
  }

  /** `user_violations[u] += k` on a `defaultdict(int)`. */
  function AddViolations(m: map<int, int>, u: int, k: int): (r: map<int, int>)
    ensures u in r && r[u] == Get(m, u) + k
    ensures forall v :: v != u ==> (v in r <==> v in m) && (v in m ==> r[v] == m[v])
  {
    m[u := Get(m, u) + k]
  }

  /** `_check_user_blocked`'s test: blocked less than a minute ago. */
  predicate IsBlocked(blocked: map<int, int>, u: int, now: int)
  {
    u in blocked && now - blocked[u] < BlockDuration
  }

  /** A block set at `t` holds for exactly one minute. */
  lemma BlockLastsAMinute(blocked: map<int, int>, u: int, t: int, later: int)
    requires t <= later
    ensures IsBlocked(blocked[u := t], u, later) <==> later < t + BlockDuration
  {
  }

  /** The history of `u` after one burst check at `now`. */
  function Window(h: map<int, seq<int>>, u: int, now: int): (r: seq<int>)
    requires |HistoryOf(h, u)| <= HistoryLength
    ensures |r| <= HistoryLength && r != [] && r[|r| - 1] == now
  {
    DropOld(Recorded(HistoryOf(h, u), now), now)
  }

  /** The eviction loop of `_check_burst_protection`. */
  method Evict(q: seq<int>, now: int) returns (r: seq<int>)
    ensures r == DropOld(q, now)
  {
    r := q;
    while r != [] && now - r[0] > BurstWindow
      invariant DropOld(r, now) == DropOld(q, now)
      decreases |r|
    {
      r := r[1..];
    }
  }

  /** A ninth action within ten seconds of the eight before it overflows the
      window. */
  lemma NinthActionRefused(q: seq<int>, now: int)
    requires |q| == BurstLimit
    requires forall k :: 0 <= k < |q| ==> now - q[k] <= BurstWindow
    ensures |DropOld(Recorded(q, now), now)| == BurstLimit + 1
  {
    var r := Recorded(q, now);
    assert r == q + [now];
    forall k | 0 <= k < |r| ensures now - r[k] <= BurstWindow {
      if k < |q| { assert r[k] == q[k]; }
    }
    RecentEntriesKept(r, now);
  }

  /** With at most seven earlier entries the window never overflows. */
  lemma FewActionsPass(q: seq<int>, now: int)
    requires |q| < BurstLimit
    ensures |DropOld(Recorded(q, now), now)| <= BurstLimit
  {
  }

  /** Every history fits in the deque. */
  predicate HistoriesBounded(h: map<int, seq<int>>)
  {
    forall u :: u in h ==> |h[u]| <= HistoryLength
  }

  predicate ViolationsNonNegative(m: map<int, int>)
  {
    forall u :: u in m ==> m[u] >= 0
  }

  /** Every history fits in the deque and no violation count is negative. */
  predicate TablesValid(t: Tables)
  {
    HistoriesBounded(t.history) && ViolationsNonNegative(t.violations)
  }

  /** Adding violations keeps the counts at zero or more. */
  lemma AddKeepsNonNegative(m: map<int, int>, u: int, k: int)
    requires ViolationsNonNegative(m) && k >= 0
    ensures ViolationsNonNegative(AddViolations(m, u, k))
    ensures ViolationsNonNegative(m[u := 0])
  {
  }

  /** Storing a history that fits keeps every history within the deque. */
  lemma HistoryStored(h: map<int, seq<int>>, u: int, q: seq<int>)
    requires HistoriesBounded(h) && |q| <= HistoryLength
    ensures HistoriesBounded(h[u := q])
  {
  }

  datatype Outcome = Passed | RefusedBlocked | RefusedThrottled | RefusedBurst

  datatype UserInfo = UserInfo(
    userId: int, isBlocked: bool, blockRemainingSeconds: int, violationsCount: int,
    lastActionSecondsAgo: Option<int>, recentActions: nat)

  class Throttler {
    /** The constructor's arguments; `rateLimit` in milliseconds. */
    const rateLimit: int
    const burstProtection: bool
    const adminBypass: bool
    const enableStats: bool
    /** Whether this is the `GameActionThrottlingMiddleware` subclass. */
    const gameLimits: bool
    /** `config.bot.admin_ids`. */
    const adminIds: seq<int>

    var userLastAction: map<int, int>
    var userActionHistory: map<int, seq<int>>
    var userViolations: map<int, int>
    var blockedUsers: map<int, int>
    var totalRequests: nat
    var throttledRequests: nat
    var blockedRequests: nat
    var uniqueUsers: set<int>

    /** Histories never exceed the deque's length and counters never go below
        zero. */
    ghost predicate Valid()
      reads this`userActionHistory, this`userViolations
    {
      HistoriesBounded(userActionHistory) && ViolationsNonNegative(userViolations)
    }

    constructor (rateLimit: int, burstProtection: bool, adminBypass: bool, enableStats: bool,
                 gameLimits: bool, adminIds: seq<int>)
      ensures Valid()
      ensures this.rateLimit == rateLimit && this.burstProtection == burstProtection
      ensures this.adminBypass == adminBypass && this.enableStats == enableStats
      ensures this.gameLimits == gameLimits && this.adminIds == adminIds
      ensures userLastAction == map[] && userActionHistory == map[] && userViolations == map[]
      ensures blockedUsers == map[] && uniqueUsers == {}
      ensures totalRequests == 0 && throttledRequests == 0 && blockedRequests == 0
    {
      this.rateLimit, this.burstProtection, this.adminBypass := rateLimit, burstProtection, adminBypass;
      this.enableStats, this.gameLimits, this.adminIds := enableStats, gameLimits, adminIds;
      userLastAction, userActionHistory, userViolations, blockedUsers := map[], map[], map[], map[];
      totalRequests, throttledRequests, blockedRequests, uniqueUsers := 0, 0, 0, {};
    }

    predicate IsAdmin(u: int)
    {
      u in adminIds
    }

    /** The gap required before an action of this type: the game table first
        (in the subclass), then `action_limits`, then `rate_limit`. */
    function LimitFor(actionType: string): (limit: int)
      ensures rateLimit > 0 ==> limit > 0
    {
      if gameLimits && actionType in GameActionLimits then GameActionLimits[actionType]
      else if actionType in ActionLimits then ActionLimits[actionType]
      else rateLimit
    }

    /** The game table is consulted first and only in the subclass; a type in
        neither table gets `rateLimit`. */
    lemma LimitPrecedence(actionType: string)
      ensures gameLimits && actionType in GameActionLimits ==> LimitFor(actionType) == GameActionLimits[actionType]
      ensures !(gameLimits && actionType in GameActionLimits) && actionType in ActionLimits ==>
                LimitFor(actionType) == ActionLimits[actionType]
      ensures actionType !in GameActionLimits && actionType !in ActionLimits ==> LimitFor(actionType) == rateLimit
      ensures !gameLimits ==> LimitFor(actionType) == if actionType in ActionLimits then ActionLimits[actionType] else rateLimit
    {
    }

    /** `_check_user_blocked`: an entry older than a minute is dropped and the
        user's violations reset to 0. */
    method CheckUserBlocked(u: int, now: int) returns (isBlocked: bool)
      requires Valid()
      modifies this`blockedUsers, this`userViolations
      ensures Valid()
      ensures isBlocked <==> IsBlocked(old(blockedUsers), u, now)
      ensures u in old(blockedUsers) && !isBlocked ==>
                blockedUsers == old(blockedUsers) - {u} && userViolations == old(userViolations)[u := 0]
      ensures u !in old(blockedUsers) || isBlocked ==>
                unchanged(this`blockedUsers, this`userViolations)
      ensures State() == BlockCheck(old(State()), u, now)
    {
      if u in blockedUsers {
        var blockTime := blockedUsers[u];
        if now - blockTime < BlockDuration {
          return true;
        }
        blockedUsers := blockedUsers - {u};
        userViolations := userViolations[u := 0];
      }
      return false;
    }

    /** `_check_rate_limit`: refused exactly when the user acted less than the
        limit ago; nothing changes. */
    method CheckRateLimit(u: int, actionType: string, now: int) returns (ok: bool)
      ensures ok <==> u !in userLastAction || now - userLastAction[u] >= LimitFor(actionType)
      ensures !ok ==> u in userLastAction && 0 < LimitFor(actionType) - (now - userLastAction[u])
    {
      var limit := LimitFor(actionType);
      if u in userLastAction {
        var timeDiff := now - userLastAction[u];
        if timeDiff < limit {
          return false;
        }
      }
      return true;
    }

    /** `_check_burst_protection`: records `now`, evicts the old entries and
        refuses when more than eight remain. */
    method CheckBurstProtection(u: int, now: int) returns (ok: bool)
      requires Valid()
      modifies this`userActionHistory
      ensures Valid()
      ensures userActionHistory == old(userActionHistory)[u := Window(old(userActionHistory), u, now)]
      ensures ok <==> |Window(old(userActionHistory), u, now)| <= BurstLimit
      ensures State() == old(State()).(history := old(userActionHistory)[u := Window(old(userActionHistory), u, now)])
    {
      var history := Evict(Recorded(HistoryOf(userActionHistory, u), now), now);
      assert history == Window(userActionHistory, u, now);
      HistoryStored(userActionHistory, u, history);
      userActionHistory := userActionHistory[u := history];
      return |history| <= BurstLimit;
    }

    /** `_handle_throttling`: one violation. */
    method HandleThrottling(u: int)
      requires Valid()
      modifies this`userViolations, this`throttledRequests
      ensures Valid()
      ensures userViolations == AddViolations(old(userViolations), u, 1)
      ensures throttledRequests == old(throttledRequests) + Counted()
      ensures State() == old(State()).(violations := userViolations, throttledRequests := throttledRequests)
    {
      userViolations := AddViolations(userViolations, u, 1);
      if enableStats {
        throttledRequests := throttledRequests + 1;
      }
    }

    /** `_handle_burst_violation`: three violations and a block from now. */
    method HandleBurstViolation(u: int, now: int)
      requires Valid()
      modifies this`userViolations, this`blockedUsers, this`blockedRequests
      ensures Valid()
      ensures userViolations == AddViolations(old(userViolations), u, 3)
      ensures blockedUsers == old(blockedUsers)[u := now]
      ensures blockedRequests == old(blockedRequests) + Counted()
      ensures State() == old(State()).(violations := userViolations, blocked := blockedUsers,
                                       blockedRequests := blockedRequests)
    {
      userViolations := AddViolations(userViolations, u, 3);
      blockedUsers := blockedUsers[u := now];
      if enableStats {
        blockedRequests := blockedRequests + 1;
      }
    }

    method UpdateUserActivity(u: int, now: int)
      modifies this`userLastAction
      ensures userLastAction == old(userLastAction)[u := now]
      ensures State() == old(State()).(lastAction := userLastAction)
    {
      userLastAction := userLastAction[u := now];
    }

    method UpdateStats(u: int)
      modifies this`totalRequests, this`uniqueUsers
      ensures totalRequests == old(totalRequests) + 1 && uniqueUsers == old(uniqueUsers) + {u}
    {
      totalRequests := totalRequests + 1;
      uniqueUsers := uniqueUsers + {u};
    }

    /** `unblock_user`: succeeds exactly for a blocked user, whose entry goes
        and whose violations are zeroed; nobody else is touched. */
    method UnblockUser(u: int) returns (wasBlocked: bool)
      requires Valid()
      modifies this`blockedUsers, this`userViolations
      ensures Valid()
      ensures wasBlocked <==> u in old(blockedUsers)
      ensures wasBlocked ==> blockedUsers == old(blockedUsers) - {u} && userViolations == old(userViolations)[u := 0]
      ensures !wasBlocked ==> unchanged(this`blockedUsers, this`userViolations)
    {
      if u in blockedUsers {
        blockedUsers := blockedUsers - {u};
        userViolations := userViolations[u := 0];
        return true;
      }
      return false;
    }

    /** `block_user`: ten violations and a block from now; the duration argument
        is ignored and the answer is always true. */
    method BlockUser(u: int, now: int, duration: Option<int>) returns (done: bool)
      requires Valid()
      modifies this`blockedUsers, this`userViolations
      ensures Valid()
      ensures done
      ensures blockedUsers == old(blockedUsers)[u := now]
      ensures userViolations == AddViolations(old(userViolations), u, 10)
    {
      blockedUsers := blockedUsers[u := now];
      userViolations := AddViolations(userViolations, u, 10);
      return true;
    }

    /** `get_user_info`: the block's remaining whole seconds,
        `int(max(0, 60 - elapsed))`, at most 60 unless the block lies in the
        future; the violations and the recent actions recorded for the user;
        and the seconds since the last action, absent when there was none or it
        lies in the future. */
    function GetUserInfo(u: int, now: int): (info: UserInfo)
      reads this
      ensures info.userId == u
      ensures info.isBlocked <==> u in blockedUsers
      ensures u in blockedUsers ==>
                info.blockRemainingSeconds * 1000 <= Max(0, BlockDuration - (now - blockedUsers[u]))
                < (info.blockRemainingSeconds + 1) * 1000
      ensures u in blockedUsers && blockedUsers[u] == now ==> info.blockRemainingSeconds == BlockDuration / 1000
      ensures info.violationsCount == Get(userViolations, u)
      ensures info.recentActions == |HistoryOf(userActionHistory, u)|
      ensures 0 <= info.blockRemainingSeconds
      ensures u in blockedUsers && blockedUsers[u] <= now ==> info.blockRemainingSeconds <= BlockDuration / 1000
      ensures !info.isBlocked ==> info.blockRemainingSeconds == 0
      ensures info.lastActionSecondsAgo.Some? <==> Get(userLastAction, u) > 0 && now >= Get(userLastAction, u)
      ensures info.lastActionSecondsAgo.Some? ==>
                info.lastActionSecondsAgo.value * 1000 <= now - userLastAction[u]
                < (info.lastActionSecondsAgo.value + 1) * 1000
      ensures Valid() ==> info.recentActions <= HistoryLength
    {
      var isBlocked := u in blockedUsers;
      var blockRemaining := if isBlocked then Max(0, BlockDuration - (now - blockedUsers[u])) else 0;
      var lastAction := Get(userLastAction, u);
      var timeSinceLast := if lastAction > 0 then now - lastAction else -1;
      UserInfo(u, isBlocked, blockRemaining / 1000, Get(userViolations, u),
               if timeSinceLast >= 0 then Some(timeSinceLast / 1000) else None,
               |HistoryOf(userActionHistory, u)|)
    }

    /** What the rate limit and the burst window decide, on the given tables,
        for a user who is not blocked and an action whose type has the gap
        `limit`. */
    function DecideUnblocked(lastAction: map<int, int>, history: map<int, seq<int>>,
                             u: int, limit: int, now: int): (r: Outcome)
      requires |HistoryOf(history, u)| <= HistoryLength
      ensures r != RefusedBlocked
      ensures r == RefusedThrottled <==> u in lastAction && now - lastAction[u] < limit
      ensures r == Passed <==>
                (u !in lastAction || now - lastAction[u] >= limit)
                && (!burstProtection || |Window(history, u, now)| <= BurstLimit)
    {
      if u in lastAction && now - lastAction[u] < limit then RefusedThrottled
      else if burstProtection && |Window(history, u, now)| > BurstLimit then RefusedBurst
      else Passed
    }

    /** What the checks of `__call__` decide, on the given tables, for a user
        who is not bypassed: the block, then the rate limit, then the burst
        window. */
    function Decide(blocked: map<int, int>, lastAction: map<int, int>, history: map<int, seq<int>>,
                    u: int, limit: int, now: int): (r: Outcome)
      requires |HistoryOf(history, u)| <= HistoryLength
      ensures r == RefusedBlocked <==> IsBlocked(blocked, u, now)
      ensures r == RefusedThrottled <==>
                !IsBlocked(blocked, u, now) && u in lastAction && now - lastAction[u] < limit
      ensures r == Passed <==>
                && !IsBlocked(blocked, u, now)
                && (u !in lastAction || now - lastAction[u] >= limit)
                && (!burstProtection || |Window(history, u, now)| <= BurstLimit)
    {
      if IsBlocked(blocked, u, now) then RefusedBlocked
      else DecideUnblocked(lastAction, history, u, limit, now)
    }

    // -------------------------------------------------------------------------
    // The checks of `__call__` on the tables as values

    /** The tables `__call__` reads and writes, as one value. */
    ghost function State(): Tables
      reads this`blockedUsers, this`userLastAction, this`userActionHistory, this`userViolations,
            this`throttledRequests, this`blockedRequests
    {
      Tables(blockedUsers, userLastAction, userActionHistory, userViolations, throttledRequests, blockedRequests)
    }

    /** 1 when the counters are kept, else 0. */
    function Counted(): nat
    {
      if enableStats then 1 else 0
    }

    /** `_check_user_blocked` for `u`: an expired block is deleted and the
        violations reset to 0; a live block or no block changes nothing. */
    function BlockCheck(t: Tables, u: int, now: int): Tables
    {
      if u in t.blocked && !IsBlocked(t.blocked, u, now)
      then t.(blocked := t.blocked - {u}, violations := t.violations[u := 0])
      else t
    }

    /** The burst step for a user who passed the rate limit: the history
        becomes the window; more than eight entries block the user with three
        violations, otherwise the action time is recorded. With burst
        protection off only the action time is recorded. */
    function BurstStep(t: Tables, u: int, now: int): (Outcome, Tables)
      requires |HistoryOf(t.history, u)| <= HistoryLength
    {
      if !burstProtection then (Passed, t.(lastAction := t.lastAction[u := now]))
      else
        var w := Window(t.history, u, now);
        var h := t.(history := t.history[u := w]);
        if |w| > BurstLimit then
          (RefusedBurst, h.(violations := AddViolations(h.violations, u, 3), blocked := h.blocked[u := now],
                            blockedRequests := h.blockedRequests + Counted()))
        else (Passed, h.(lastAction := h.lastAction[u := now]))
    }

    /** The rate limit, then the burst step, for a user who is not blocked;
        `limit` is the gap `LimitFor` gives the action's type. A refusal by
        the rate limit adds one violation. */
    function UnblockedStep(t: Tables, u: int, limit: int, now: int): (Outcome, Tables)
      requires |HistoryOf(t.history, u)| <= HistoryLength
    {
      if u in t.lastAction && now - t.lastAction[u] < limit
      then (RefusedThrottled, t.(violations := AddViolations(t.violations, u, 1),
                                 throttledRequests := t.throttledRequests + Counted()))
      else BurstStep(t, u, now)
    }

    /** The three checks of `__call__` for a user who is not bypassed, and the
        tables they leave. */
    function Screened(t: Tables, u: int, limit: int, now: int): (Outcome, Tables)
      requires |HistoryOf(t.history, u)| <= HistoryLength
    {
      if IsBlocked(t.blocked, u, now) then (RefusedBlocked, t)
      else UnblockedStep(BlockCheck(t, u, now), u, limit, now)
    }

    /** The outcome of the three checks is the reference decision `Decide`. */
    lemma ScreenedDecides(t: Tables, u: int, limit: int, now: int)
      requires |HistoryOf(t.history, u)| <= HistoryLength
      ensures Screened(t, u, limit, now).0 == Decide(t.blocked, t.lastAction, t.history, u, limit, now)
    {
      if !IsBlocked(t.blocked, u, now) {
        var c := BlockCheck(t, u, now);
        assert c.lastAction == t.lastAction && c.history == t.history;
        if burstProtection && !(u in c.lastAction && now - c.lastAction[u] < limit) {
          BurstStepCases(c, u, now);
        }
      }
    }

    /** A user refused for a live block leaves every table as it was. */
    lemma ScreenedBlockedUntouched(t: Tables, u: int, limit: int, now: int)
      requires |HistoryOf(t.history, u)| <= HistoryLength
      ensures Screened(t, u, limit, now).0 == RefusedBlocked ==> Screened(t, u, limit, now).1 == t
    {
    }

    /** A throttled user gets one more violation and the throttled counter one
        more request, after an expired block was cleared; the history and the
        last action time stay. */
    lemma ScreenedThrottledEffects(t: Tables, u: int, limit: int, now: int)
      requires |HistoryOf(t.history, u)| <= HistoryLength
      ensures var (o, r) := Screened(t, u, limit, now);
              var c := BlockCheck(t, u, now);
              o == RefusedThrottled ==>
                r == c.(violations := AddViolations(c.violations, u, 1),
                        throttledRequests := c.throttledRequests + Counted())
    {
    }

    /** A burst stores the window as the history, adds three violations and
        blocks the user from `now`, so that the block is live; the last action
        time stays. */
    lemma ScreenedBurstEffects(t: Tables, u: int, limit: int, now: int)
      requires |HistoryOf(t.history, u)| <= HistoryLength
      ensures var (o, r) := Screened(t, u, limit, now);
              var c := BlockCheck(t, u, now);
              o == RefusedBurst ==>
                && r == c.(history := c.history[u := Window(c.history, u, now)],
                           violations := AddViolations(c.violations, u, 3), blocked := c.blocked[u := now],
                           blockedRequests := c.blockedRequests + Counted())
                && IsBlocked(r.blocked, u, now)
    {
      var c := BlockCheck(t, u, now);
      if Screened(t, u, limit, now).0 == RefusedBurst {
        assert !IsBlocked(t.blocked, u, now);
        assert Screened(t, u, limit, now) == UnblockedStep(c, u, limit, now);
        assert Screened(t, u, limit, now) == BurstStep(c, u, now);
        assert burstProtection;
        BurstStepCases(c, u, now);
      }
    }

    /** A pass records `now` as the last action time and, with burst
        protection on, stores the window; nothing else but the cleared block
        changes. */
    lemma ScreenedPassedEffects(t: Tables, u: int, limit: int, now: int)
      requires |HistoryOf(t.history, u)| <= HistoryLength
      ensures var (o, r) := Screened(t, u, limit, now);
              var c := BlockCheck(t, u, now);
              o == Passed ==>
                r == c.(history := if burstProtection then c.history[u := Window(t.history, u, now)] else c.history,
                        lastAction := c.lastAction[u := now])
    {
      var c := BlockCheck(t, u, now);
      if !IsBlocked(t.blocked, u, now) && !(u in c.lastAction && now - c.lastAction[u] < limit) {
        assert Screened(t, u, limit, now) == BurstStep(c, u, now);
        if burstProtection {
          BurstStepCases(c, u, now);
        }
      }
    }

    /** Across the four outcomes: the violations grow by 0, 1, 3 and 0 (after
        an expired block reset them), and the last action time moves to `now`
        exactly on a pass. */
    lemma ScreenedPenalties(t: Tables, u: int, limit: int, now: int)
      requires |HistoryOf(t.history, u)| <= HistoryLength
      ensures var (o, r) := Screened(t, u, limit, now);
              var v := Get(BlockCheck(t, u, now).violations, u);
              && Get(r.violations, u) == v + (match o case RefusedThrottled => 1 case RefusedBurst => 3 case _ => 0)
              && r.lastAction == if o == Passed then t.lastAction[u := now] else t.lastAction
    {
      ScreenedBlockedUntouched(t, u, limit, now);
      ScreenedThrottledEffects(t, u, limit, now);
      ScreenedBurstEffects(t, u, limit, now);
      ScreenedPassedEffects(t, u, limit, now);
    }

    /** The checks keep every history within the deque and every violation
        count at zero or more. */
    lemma ScreenedKeepsValid(t: Tables, u: int, limit: int, now: int)
      requires TablesValid(t)
      ensures TablesValid(Screened(t, u, limit, now).1)
    {
      if !IsBlocked(t.blocked, u, now) {
        BlockCheckKeepsValid(t, u, now);
        UnblockedStepKeepsValid(BlockCheck(t, u, now), u, limit, now);
      }
    }

    lemma BlockCheckKeepsValid(t: Tables, u: int, now: int)
      requires TablesValid(t)
      ensures TablesValid(BlockCheck(t, u, now))
    {
      if u in t.blocked && !IsBlocked(t.blocked, u, now) {
        AddKeepsNonNegative(t.violations, u, 0);
      }
    }

    lemma UnblockedStepKeepsValid(t: Tables, u: int, limit: int, now: int)
      requires TablesValid(t)
      ensures TablesValid(UnblockedStep(t, u, limit, now).1)
    {
      if u in t.lastAction && now - t.lastAction[u] < limit {
        AddKeepsNonNegative(t.violations, u, 1);
      } else {
        BurstStepKeepsValid(t, u, now);
      }
    }

    lemma BurstStepKeepsValid(t: Tables, u: int, now: int)
      requires TablesValid(t)
      ensures TablesValid(BurstStep(t, u, now).1)
    {
      if burstProtection {
        var w := Window(t.history, u, now);
        HistoryStored(t.history, u, w);
        AddKeepsNonNegative(t.violations, u, 3);
        BurstStepCases(t, u, now);
      }
    }

    /** The two ends of the burst step when burst protection is on. */
    lemma BurstStepCases(t: Tables, u: int, now: int)
      requires burstProtection && |HistoryOf(t.history, u)| <= HistoryLength
      ensures var w := Window(t.history, u, now);
              |w| > BurstLimit ==>
                && BurstStep(t, u, now).0 == RefusedBurst
                && BurstStep(t, u, now).1 ==
                     t.(history := t.history[u := w], violations := AddViolations(t.violations, u, 3),
                        blocked := t.blocked[u := now], blockedRequests := t.blockedRequests + Counted())
      ensures var w := Window(t.history, u, now);
              |w| <= BurstLimit ==>
                && BurstStep(t, u, now).0 == Passed
                && BurstStep(t, u, now).1 == t.(history := t.history[u := w], lastAction := t.lastAction[u := now])
    {
    }

    /** The burst step for a user who passed the rate limit. */
    method ScreenBurst(u: int, now: int) returns (outcome: Outcome)
      requires Valid()
      modifies this`blockedUsers, this`userViolations, this`userActionHistory, this`userLastAction,
               this`blockedRequests
      ensures Valid()
      ensures outcome == BurstStep(old(State()), u, now).0 && State() == BurstStep(old(State()), u, now).1
    {
      ghost var t := State();
      if burstProtection {
        ghost var w := Window(t.history, u, now);
        var ok := CheckBurstProtection(u, now);
        assert State() == t.(history := t.history[u := w]);
        BurstStepCases(t, u, now);
        if !ok {
          HandleBurstViolation(u, now);
          assert State() == t.(history := t.history[u := w], violations := AddViolations(t.violations, u, 3),
                               blocked := t.blocked[u := now], blockedRequests := t.blockedRequests + Counted());
          return RefusedBurst;
        }
      }
      UpdateUserActivity(u, now);
      return Passed;
    }

    /** The rate limit and the burst step for a user who is not blocked. */
    method ScreenUnblocked(u: int, actionType: string, now: int) returns (outcome: Outcome)
      requires Valid()
      modifies this`blockedUsers, this`userViolations, this`userActionHistory, this`userLastAction,
               this`throttledRequests, this`blockedRequests
      ensures Valid()
      ensures outcome == UnblockedStep(old(State()), u, LimitFor(actionType), now).0 && State() == UnblockedStep(old(State()), u, LimitFor(actionType), now).1
    {
      var ok := CheckRateLimit(u, actionType, now);
      if !ok {
        HandleThrottling(u);
        return RefusedThrottled;
      }
      outcome := ScreenBurst(u, now);
    }

    /** The three checks of `__call__` for a user who is not bypassed. */
    method Screen(u: int, actionType: string, now: int) returns (outcome: Outcome)
      requires Valid()
      modifies this`blockedUsers, this`userViolations, this`userActionHistory, this`userLastAction,
               this`throttledRequests, this`blockedRequests
      ensures Valid()
      ensures outcome == Screened(old(State()), u, LimitFor(actionType), now).0 && State() == Screened(old(State()), u, LimitFor(actionType), now).1
    {
      ghost var checked := BlockCheck(State(), u, now);
      var isBlocked := CheckUserBlocked(u, now);
      assert State() == checked;
      if isBlocked {
        return RefusedBlocked;
      }
      outcome := ScreenUnblocked(u, actionType, now);
    }

    /** `__call__`: an update without a sender passes untouched; otherwise the
        stats are counted first, an admin passes when bypass is on, and anyone
        else goes through the three checks. */
    method Call(e: Incoming, now: int) returns (outcome: Outcome)
      requires Valid()
      modifies this
      ensures Valid()
      ensures ExtractUserInfo(e).0.None? ==> outcome == Passed && unchanged(this)
      ensures ExtractUserInfo(e).0.Some? && enableStats ==>
                totalRequests == old(totalRequests) + 1
                && uniqueUsers == old(uniqueUsers) + {ExtractUserInfo(e).0.value}
      ensures !enableStats ==> unchanged(this`totalRequests, this`uniqueUsers)
      ensures ExtractUserInfo(e).0.Some? && adminBypass && IsAdmin(ExtractUserInfo(e).0.value) ==>
                outcome == Passed && State() == old(State())
      ensures ExtractUserInfo(e).0.Some? && !(adminBypass && IsAdmin(ExtractUserInfo(e).0.value)) ==>
                && outcome == Screened(old(State()), ExtractUserInfo(e).0.value, LimitFor(ExtractUserInfo(e).1), now).0
                && State() == Screened(old(State()), ExtractUserInfo(e).0.value, LimitFor(ExtractUserInfo(e).1), now).1
    {
      var (user, actionType) := ExtractUserInfo(e);
      if user.None? {
        return Passed;
      }
      var u := user.value;
      if enableStats {
        UpdateStats(u);
      }
      if adminBypass && IsAdmin(u) {
        return Passed;
      }
      outcome := Screen(u, actionType, now);
    }
  }

  /** The four tables and the two refusal counters that the checks of
      `__call__` read and write. */
  datatype Tables = Tables(
    blocked: map<int, int>, lastAction: map<int, int>, history: map<int, seq<int>>,
    violations: map<int, int>, throttledRequests: nat, blockedRequests: nat)

  /** A user stopped by the burst window is refused outright by every later
      update within the following minute. */
  method BurstBlocksForAMinute(th: Throttler, e: Incoming, now: int, later: int)
      returns (first: Outcome, second: Outcome)
    requires th.Valid() && now <= later < now + BlockDuration
    modifies th
    ensures first == RefusedBurst ==> second == RefusedBlocked
  {
    ghost var before := th.State();
    first := th.Call(e, now);
    if first == RefusedBurst {
      var u := ExtractUserInfo(e).0.value;
      th.ScreenedBurstEffects(before, u, th.LimitFor(ExtractUserInfo(e).1), now);
      ghost var mid := th.State();
      assert IsBlocked(mid.blocked, u, now);
      BlockLastsAMinute(mid.blocked, u, now, later);
      second := th.Call(e, later);
      th.ScreenedDecides(mid, u, th.LimitFor(ExtractUserInfo(e).1), later);
    } else {
      second := th.Call(e, later);
    }
  }

  function Max(a: int, b: int): int { if a >= b then a else b }
}
