/** The bot's configuration objects (config.py): the Supabase and bot settings with
    their validators, the admin-id list parsed from the environment, the game
    constants with the hire-cost formula, the profession table and the cached price
    list. Environment variables are passed in as parameters. */
module Config {
  import opened Text

  /** The outcome of a `validate()` call: the flag and the list of messages. */
  datatype Validation = Validation(valid: bool, errors: seq<string>)

  // ---------------------------------------------------------------------------
  // SupabaseConfig (config.py:14-35)

  datatype SupabaseConfig = SupabaseConfig(url: string, anonKey: string, serviceRoleKey: string)

  const UrlMissing := "SUPABASE_URL не установлен"
  const UrlNotHttps := "SUPABASE_URL должен начинаться с https://"
  const KeyMissing := "SUPABASE_ANON_KEY не установлен"
  const KeyTooShort := "SUPABASE_ANON_KEY слишком короткий"

  predicate UrlRejected(c: SupabaseConfig)
  {
    c.url == "" || !StartsWith(c.url, "https://")
  }

  predicate KeyRejected(c: SupabaseConfig)
  {
    c.anonKey == "" || |c.anonKey| < 100
  }

  /** At most one message about the url followed by at most one about the key:
      one message per rejected field, each one of the four of this validator,
      none repeated. */
  function ValidateSupabase(c: SupabaseConfig): (r: Validation)
    ensures r.valid <==> r.errors == []
    ensures |r.errors| == (if UrlRejected(c) then 1 else 0) + (if KeyRejected(c) then 1 else 0)
    ensures forall e :: e in r.errors ==> e in {UrlMissing, UrlNotHttps, KeyMissing, KeyTooShort}
    ensures forall i, j :: 0 <= i < j < |r.errors| ==> r.errors[i] != r.errors[j]
    ensures UrlMissing in r.errors <==> c.url == ""
    ensures UrlNotHttps in r.errors <==> c.url != "" && !StartsWith(c.url, "https://")
    ensures KeyMissing in r.errors <==> c.anonKey == ""
    ensures KeyTooShort in r.errors <==> c.anonKey != "" && |c.anonKey| < 100
    ensures |r.errors| == 2 ==> r.errors[0] in [UrlMissing, UrlNotHttps]
  {
    var urlErrors :=
      if c.url == "" then [UrlMissing]
      else if !StartsWith(c.url, "https://") then [UrlNotHttps]
      else [];
    var keyErrors :=
      if c.anonKey == "" then [KeyMissing]
      else if |c.anonKey| < 100 then [KeyTooShort]
      else [];
    var errors := urlErrors + keyErrors;
    Validation(|errors| == 0, errors)
  }

  // ---------------------------------------------------------------------------
  // BotConfig (config.py:38-73)

  const TokenMissing := "BOT_TOKEN не установлен"
  const TokenMalformed := "BOT_TOKEN имеет неверный формат"
  const WebhookNotHttps := "WEBHOOK_URL должен начинаться с https://"

  /** The non-empty, stripped pieces of a comma-separated list:
      `[x.strip() for x in s.split(",") if x.strip()]`. */
  function AdminPieces(pieces: seq<string>): (r: seq<string>)
    ensures |r| <= |pieces|
  {
    if pieces == [] then []
    else
      var p := Strip(pieces[0]);
      var rest := AdminPieces(pieces[1..]);
      if p == [] then rest
      else
        [p] + rest
  }

  /** Every piece kept is non-empty and has no white space at either end. */
  lemma AdminPiecesTrimmed(pieces: seq<string>)
    ensures forall k :: 0 <= k < |AdminPieces(pieces)| ==> Trimmed(AdminPieces(pieces)[k])
  {
    forall k | 0 <= k < |AdminPieces(pieces)| ensures Trimmed(AdminPieces(pieces)[k]) {
      AdminPieceTrimmed(pieces, k);
    }
  }

  lemma {:induction false} AdminPieceTrimmed(pieces: seq<string>, k: nat)
    requires k < |AdminPieces(pieces)|
    ensures Trimmed(AdminPieces(pieces)[k])
    decreases |pieces|
  {
    var p := Strip(pieces[0]);
    var rest := AdminPieces(pieces[1..]);
    if p == [] {
      assert AdminPieces(pieces) == rest;
      AdminPieceTrimmed(pieces[1..], k);
      assert Trimmed(rest[k]);
    } else if k > 0 {
      assert AdminPieces(pieces)[k] == rest[k - 1];
      AdminPieceTrimmed(pieces[1..], k - 1);
      assert Trimmed(rest[k - 1]);
    } else {
      assert AdminPieces(pieces)[0] == p;
      assert Trimmed(p);
    }
  }

  /** A single piece is kept, stripped, exactly when something is left after
      stripping it. */
  lemma AdminPiecesSingle(p: string)
    ensures AdminPieces([p]) == if Strip(p) == [] then [] else [Strip(p)]
  {
    assert [p][1..] == [];
  }

  /** The pieces of two lists are those of the first followed by those of the
      second, so, with `AdminPiecesSingle`, the result is the stripped pieces
      in their order with the blank ones dropped. */
  lemma {:induction false} AdminPiecesConcat(a: seq<string>, b: seq<string>)
    ensures AdminPieces(a + b) == AdminPieces(a) + AdminPieces(b)
    decreases |a|
  {
    if a == [] {
      assert a + b == b;
      assert AdminPieces(a) == [];
    } else {
      var ab := a + b;
      assert ab[0] == a[0] && ab[1..] == a[1..] + b;
      AdminPiecesConcat(a[1..], b);
      var rest := AdminPieces(a[1..]);
      if Strip(a[0]) == [] {
        assert AdminPieces(ab) == rest + AdminPieces(b);
      } else {
        assert AdminPieces(ab) == [Strip(a[0])] + (rest + AdminPieces(b));
        assert AdminPieces(a) == [Strip(a[0])] + rest;
        ConsConcat(Strip(a[0]), rest, AdminPieces(b));
      }
    }
  }

  /** A non-empty string with no white space at either end. */
  predicate Trimmed(p: string)
  {
    p != [] && NoOuterSpace(p)
  }

  /** `int(x)` applied to every piece; `None` when one of them raises. */
  function ParseAll(pieces: seq<string>): (r: Option<seq<int>>)
    ensures r.Some? <==> forall k :: 0 <= k < |pieces| ==> ParseInt(pieces[k]).Some?
    ensures r.Some? ==> |r.value| == |pieces|
                        && forall k :: 0 <= k < |pieces| ==> Some(r.value[k]) == ParseInt(pieces[k])
  {
    if pieces == [] then Some([])
    else
      match ParseInt(pieces[0])
      case None => None
      case Some(v) =>
        match ParseAll(pieces[1..])
        case None => None
        case Some(vs) => Some([v] + vs)
  }

  /** `BotConfig.__post_init__`: the admin ids in ADMIN_IDS, or none at all when
      the variable is empty or one of its pieces is not an integer. */
  function ParseAdminIds(s: string): (ids: seq<int>)
    ensures s == "" ==> ids == []
    ensures (exists k :: 0 <= k < |AdminPieces(Split(s, ','))| && ParseInt(AdminPieces(Split(s, ','))[k]).None?)
            ==> ids == []
    ensures ids != [] ==> |ids| == |AdminPieces(Split(s, ','))|
    ensures s != "" && ParseAll(AdminPieces(Split(s, ','))).Some? ==>
              ids == ParseAll(AdminPieces(Split(s, ','))).value
  {
    if s == "" then []
    else
      match ParseAll(AdminPieces(Split(s, ',')))
      case None => []
      case Some(ids) => ids
  }

  /** A trailing piece of white space, such as the one after "1,2,", adds no
      admin. */
  lemma BlankPieceIgnored(s: string, blank: string)
    requires ',' !in blank && AllSpace(blank)
    ensures ParseAdminIds(s + [','] + blank) == ParseAdminIds(s)
  {
    var t := s + [','] + blank;
    SplitAppend(s, ',', blank);
    assert Split(t, ',') == Split(s, ',') + [blank];
    AdminPiecesConcat(Split(s, ','), [blank]);
    StripEmpty(blank);
    AdminPiecesSingle(blank);
    assert AdminPieces([blank]) == [];
    assert AdminPieces(Split(t, ',')) == AdminPieces(Split(s, ',')) + [];
    assert AdminPieces(Split(t, ',')) == AdminPieces(Split(s, ','));
    assert t != "";
    if s == "" {
      assert Split(s, ',') == [""];
      StripEmpty("");
      AdminPiecesSingle("");
      assert AdminPieces(Split(s, ',')) == [];
      assert ParseAll([]) == Some([]);
    }
  }

  /** A single piece that `int()` reads as `v` gives the one admin `v`, whatever
      white space surrounds it: " 7 " and "+7" both give 7. */
  lemma PaddedIdParses(pre: string, x: string, post: string, v: int)
    requires AllSpace(pre) && AllSpace(post) && ',' !in pre && ',' !in post
    requires ParseInt(x) == Some(v) && NoOuterSpace(x) && ',' !in x
    ensures ParseAdminIds(pre + x + post) == [v]
  {
    assert x != [];
    PaddedPiece(pre, x, post);
    ParseAllExact([x], [v]);
    assert pre + x + post != "";
  }

  /** A padded piece without commas is its own one admin piece. */
  lemma PaddedPiece(pre: string, x: string, post: string)
    requires AllSpace(pre) && AllSpace(post) && ',' !in pre && ',' !in post
    requires x != [] && NoOuterSpace(x) && ',' !in x
    ensures AdminPieces(Split(pre + x + post, ',')) == [x]
  {
    var s := pre + x + post;
    assert ',' !in s by { NotInConcat(pre, x, post, ','); }
    assert Split(s, ',') == [s];
    StripPadded(pre, x, post);
    AdminPiecesSingle(s);
  }

  /** The list written as ADMIN_IDS=1,2,3 */
  function JoinIds(ids: seq<int>): string
  {
    Join(IdStrings(ids), ',')
  }

  function IdStrings(ids: seq<int>): (r: seq<string>)
    ensures |r| == |ids|
    ensures forall k :: 0 <= k < |ids| ==> r[k] == IntToString(ids[k])
  {
    if ids == [] then [] else [IntToString(ids[0])] + IdStrings(ids[1..])
  }

  /** Writing admin ids with commas and parsing them gives the same list. */
  lemma {:induction false} AdminIdsRoundTrip(ids: seq<int>)
    ensures ParseAdminIds(JoinIds(ids)) == ids
  {
    if ids != [] {
      var strs := IdStrings(ids);
      forall k | 0 <= k < |strs| ensures ',' !in strs[k] && Trimmed(strs[k]) {
        IdStringShape(ids[k]);
      }
      SplitJoin(strs, ',');
      assert AdminPieces(strs) == strs by { PiecesUnchanged(strs); }
      forall k | 0 <= k < |strs| ensures ParseInt(strs[k]) == Some(ids[k]) {
        IntToStringParses(ids[k]);
      }
      ParseAllExact(strs, ids);
      assert JoinIds(ids) != "" by {
        assert strs[0] != [];
        JoinNonEmpty(strs, ',');
      }
    }
  }

  /** Proof helper of AdminIdsRoundTrip: a printed id holds no comma and no
      surrounding white space. */
  lemma IdStringShape(i: int)
    ensures ',' !in IntToString(i) && Trimmed(IntToString(i))
  {
    var s := IntToString(i);
    var d := NatToString(if i < 0 then -i else i);
    assert forall k :: 0 <= k < |d| ==> IsDigit(d[k]);
    assert !IsSpace(s[0]) && !IsSpace(s[|s| - 1]);
  }

  lemma {:induction false} PiecesUnchanged(strs: seq<string>)
    requires forall k :: 0 <= k < |strs| ==> Trimmed(strs[k])
    ensures AdminPieces(strs) == strs
  {
    if strs != [] {
      PiecesUnchanged(strs[1..]);
      assert strs == [strs[0]] + strs[1..];
      PiecesCons(strs[0], strs[1..]);
    }
  }

  /** A trimmed first piece is kept as it is. */
  lemma PiecesCons(x: string, rest: seq<string>)
    requires Trimmed(x)
    ensures AdminPieces([x] + rest) == [x] + AdminPieces(rest)
  {
    StripTrimmed(x);
    assert ([x] + rest)[1..] == rest;
  }

  lemma ParseAllExact(strs: seq<string>, ids: seq<int>)
    requires |strs| == |ids|
    requires forall k :: 0 <= k < |strs| ==> ParseInt(strs[k]) == Some(ids[k])
    ensures ParseAll(strs) == Some(ids)
  {
    var r := ParseAll(strs);
    assert r.Some?;
    forall k | 0 <= k < |ids| ensures r.value[k] == ids[k] {
      assert Some(r.value[k]) == ParseInt(strs[k]);
    }
    assert r.value == ids;
  }

  /** Proof helper of AdminIdsRoundTrip: a join that starts with a non-empty
      piece is not empty. */
  lemma {:induction false} JoinNonEmpty(parts: seq<string>, sep: char)
    requires parts != [] && parts[0] != []
    ensures Join(parts, sep) != []
  {
  }

  class BotConfig {
    var token: string
    var webhookUrl: Option<string>
    var webhookPath: string
    var adminIds: seq<int>

    /** The dataclass fields, then `__post_init__` with ADMIN_IDS = `adminEnv`. */
    constructor (token: string, webhookUrl: Option<string>, adminEnv: string)
      ensures this.token == token && this.webhookUrl == webhookUrl
      ensures webhookPath == "/webhook"
      ensures adminIds == ParseAdminIds(adminEnv)
    {
      this.token := token;
      this.webhookUrl := webhookUrl;
      this.webhookPath := "/webhook";
      this.adminIds := ParseAdminIds(adminEnv);
    }

    predicate TokenRejected()
      reads this
    {
      token == "" || CountChar(token, ':') != 1
    }

    predicate WebhookRejected()
      reads this
    {
      webhookUrl.Some? && webhookUrl.value != "" && !StartsWith(webhookUrl.value, "https://")
    }

    /** An empty token, a token without exactly one ':' and a webhook url that is
        set but not https are each reported once, in that order: one message
        per rejected field, each one of the three of this validator, none
        repeated. */
    function Validate(): (r: Validation)
      reads this
      ensures r.valid <==> r.errors == []
      ensures |r.errors| == (if TokenRejected() then 1 else 0) + (if WebhookRejected() then 1 else 0)
      ensures forall e :: e in r.errors ==> e in {TokenMissing, TokenMalformed, WebhookNotHttps}
      ensures forall i, j :: 0 <= i < j < |r.errors| ==> r.errors[i] != r.errors[j]
      ensures TokenMissing in r.errors <==> token == ""
      ensures TokenMalformed in r.errors <==> token != "" && CountChar(token, ':') != 1
      ensures WebhookNotHttps in r.errors <==>
                webhookUrl.Some? && webhookUrl.value != "" && !StartsWith(webhookUrl.value, "https://")
      ensures |r.errors| == 2 ==> r.errors[1] == WebhookNotHttps
    {
      var tokenErrors :=
        if token == "" then [TokenMissing]
        else if CountChar(token, ':') != 1 then [TokenMalformed]
        else [];
      var webhookErrors :=
        if webhookUrl.Some? && webhookUrl.value != "" && !StartsWith(webhookUrl.value, "https://")
        then [WebhookNotHttps] else [];
      var errors := tokenErrors + webhookErrors;
      Validation(|errors| == 0, errors)
    }

    /** `is_admin`: membership in the parsed list. */
    predicate IsAdmin(userId: int)
      reads this
      ensures IsAdmin(userId) <==> exists k :: 0 <= k < |adminIds| && adminIds[k] == userId
    {
      userId in adminIds
    }
  }

  // ---------------------------------------------------------------------------
  // GameConfig (config.py:76-102), with the defaults of an unset environment

  datatype GameConfig = GameConfig(
    maxEnergy: int, energyRegenHours: int, maxLandPlots: int, maxBuildingsPerPlot: int,
    baseRyabucks: int, hireBaseCost: int, hireCostIncrement: int,
    hireCooldownHours: int, hireDailyLimit: int, trainingBaseSlots: int)

  const DefaultGame := GameConfig(100, 4, 12, 4, 1000, 30, 5, 24, 3, 2)

  /** `get_hire_cost(n)`: the base cost for the first worker, and one increment
      more for each worker already held. */
  function GetHireCost(g: GameConfig, currentWorkers: int): (cost: int)
    ensures currentWorkers == 0 ==> cost == g.hireBaseCost
  {
    g.hireBaseCost + g.hireCostIncrement * currentWorkers
  }

  /** With a positive increment the cost grows strictly with the number of
      workers; with the defaults it runs 30, 35, 40, ... */
  lemma HireCostIncreasing(g: GameConfig, n: int, m: int)
    requires g.hireCostIncrement > 0 && n < m
    ensures GetHireCost(g, n) < GetHireCost(g, m)
    ensures GetHireCost(g, m) - GetHireCost(g, n) == g.hireCostIncrement * (m - n)
  {
    assert g.hireCostIncrement * m - g.hireCostIncrement * n == g.hireCostIncrement * (m - n);
  }

  lemma DefaultHireCosts(n: nat)
    ensures GetHireCost(DefaultGame, n) == 30 + 5 * n
    ensures GetHireCost(DefaultGame, n + 1) == GetHireCost(DefaultGame, n) + 5
  {
  }

  // ---------------------------------------------------------------------------
  // Professions (config.py:190-238); durations in whole minutes

  datatype Profession = Profession(name: string, cost: int, minutes: nat)

  const ProfessionKeys: seq<string> :=
    ["builder", "farmer", "woodman", "soldier", "fisherman", "scientist", "cook", "teacher", "doctor"]

  /** One entry of `get_training_data`: the display name, the variable that may
      override the cost and its default, and the variable that may override
      the duration and its default. */
  datatype ProfessionSetting = ProfessionSetting(
    name: string, costVar: string, defaultCost: int, timeVar: string, defaultMinutes: nat)

  const ProfessionSettings: map<string, ProfessionSetting> :=
    map[
      "builder" := ProfessionSetting("👷 Строитель", "BUILDER_COST", 100, "BUILDER_TIME", 120),
      "farmer" := ProfessionSetting("👨‍🌾 Фермер", "FARMER_COST", 100, "FARMER_TIME", 120),
      "woodman" := ProfessionSetting("🧑‍🚒 Лесник", "WOODMAN_COST", 120, "WOODMAN_TIME", 180),
      "soldier" := ProfessionSetting("💂 Солдат", "SOLDIER_COST", 150, "SOLDIER_TIME", 240),
      "fisherman" := ProfessionSetting("🎣 Рыбак", "FISHERMAN_COST", 110, "FISHERMAN_TIME", 150),
      "scientist" := ProfessionSetting("👨‍🔬 Ученый", "SCIENTIST_COST", 200, "SCIENTIST_TIME", 360),
      "cook" := ProfessionSetting("👨‍🍳 Повар", "COOK_COST", 130, "COOK_TIME", 180),
      "teacher" := ProfessionSetting("👨‍🏫 Учитель", "TEACHER_COST", 180, "TEACHER_TIME", 300),
      "doctor" := ProfessionSetting("🧑‍⚕️ Доктор", "DOCTOR_COST", 220, "DOCTOR_TIME", 480)
    ]

  /** `int(os.getenv(costVar, default))`: `None` when the variable is set to
      something `int()` rejects. */
  function CostFrom(env: map<string, string>, p: ProfessionSetting): Option<int>
  {
    if p.costVar in env then ParseInt(Strip(env[p.costVar])) else Some(p.defaultCost)
  }

  /** The duration in minutes, from `durations` (keyed by the `*_TIME`
      variable) when it is set there. */
  function MinutesFrom(durations: map<string, nat>, p: ProfessionSetting): nat
  {
    if p.timeVar in durations then durations[p.timeVar] else p.defaultMinutes
  }

  /** `get_training_data()`: every profession with its cost and duration, each
      taken from the environment when set there; `None` is the `ValueError` of
      a cost that is not an integer. */
  function GetTrainingData(env: map<string, string>, durations: map<string, nat>): (r: Option<map<string, Profession>>)
    ensures r.None? <==> exists k :: k in ProfessionSettings && CostFrom(env, ProfessionSettings[k]).None?
    ensures r.Some? ==> forall k :: k in r.value <==> k in ProfessionKeys
    ensures r.Some? ==> forall k :: k in r.value ==>
              && r.value[k].name == ProfessionSettings[k].name
              && Some(r.value[k].cost) == CostFrom(env, ProfessionSettings[k])
              && r.value[k].minutes == MinutesFrom(durations, ProfessionSettings[k])
  {
    if exists k | k in ProfessionSettings :: CostFrom(env, ProfessionSettings[k]).None? then None
    else
      Some(map k | k in ProfessionSettings ::
             Profession(ProfessionSettings[k].name, CostFrom(env, ProfessionSettings[k]).value,
                        MinutesFrom(durations, ProfessionSettings[k])))
  }

  /** The table with no cost or time variable set: every default of the
      settings table. */
  function DefaultTrainingData(): (table: map<string, Profession>)
    ensures forall k :: k in table <==> k in ProfessionKeys
    ensures forall k :: k in table ==> table[k].cost > 0 && table[k].minutes > 0
  {
    map k | k in ProfessionSettings ::
      Profession(ProfessionSettings[k].name, ProfessionSettings[k].defaultCost, ProfessionSettings[k].defaultMinutes)
  }

  /** With no variable set, `get_training_data()` is the default table, every
      cost and duration positive. */
  lemma UnsetEnvironmentGivesDefaults()
    ensures GetTrainingData(map[], map[]) == Some(DefaultTrainingData())
  {
    var r := GetTrainingData(map[], map[]);
    assert r.Some?;
    var t := r.value;
    var d := DefaultTrainingData();
    assert t.Keys == d.Keys;
    assert t == d;
  }

  /** A cost variable holding no digit at all, such as "abc", makes
      `get_training_data()` raise. */
  lemma NonNumericCostRaises(env: map<string, string>, durations: map<string, nat>, k: string)
    requires k in ProfessionSettings && ProfessionSettings[k].costVar in env
    requires forall i :: 0 <= i < |env[ProfessionSettings[k].costVar]| ==> !IsDigit(env[ProfessionSettings[k].costVar][i])
    ensures GetTrainingData(env, durations).None?
  {
    NoDigitRaises(env[ProfessionSettings[k].costVar]);
    assert CostFrom(env, ProfessionSettings[k]).None?;
  }

  // ---------------------------------------------------------------------------
  // Config (config.py:135-242)

  /** One integer entry of `get_game_prices`: the variable that may override
      it and its default; the two float exchange rates are not modelled. */
  datatype PriceSetting = PriceSetting(priceVar: string, defaultPrice: int)

  const PriceSettings: map<string, PriceSetting> :=
    map[
      "ryaba_price" := PriceSetting("RYABA_PRICE", 250),
      "rooster_price" := PriceSetting("ROOSTER_PRICE", 500),
      "chick_price" := PriceSetting("CHICK_PRICE", 100),
      "horse_price" := PriceSetting("HORSE_PRICE", 1500),
      "cow_price" := PriceSetting("COW_PRICE", 1200),
      "grain_seeds_price" := PriceSetting("GRAIN_SEEDS_PRICE", 25),
      "tomato_seeds_price" := PriceSetting("TOMATO_SEEDS_PRICE", 50),
      "cucumber_seeds_price" := PriceSetting("CUCUMBER_SEEDS_PRICE", 40),
      "henhouse_price" := PriceSetting("HENHOUSE_PRICE", 800),
      "stable_price" := PriceSetting("STABLE_PRICE", 2000),
      "cowshed_price" := PriceSetting("COWSHED_PRICE", 1800)
    ]

  /** The price table of an unset environment. */
  const DefaultPrices: map<string, int> :=
    map[
      "ryaba_price" := 250, "rooster_price" := 500, "chick_price" := 100,
      "horse_price" := 1500, "cow_price" := 1200, "grain_seeds_price" := 25,
      "tomato_seeds_price" := 50, "cucumber_seeds_price" := 40,
      "henhouse_price" := 800, "stable_price" := 2000, "cowshed_price" := 1800
    ]

  /** `int(os.getenv(p.priceVar, default))`: `None` when the variable is set to
      something `int()` rejects. */
  function PriceFrom(env: map<string, string>, p: PriceSetting): Option<int>
  {
    if p.priceVar in env then ParseInt(Strip(env[p.priceVar])) else Some(p.defaultPrice)
  }

  /** The dictionary literal of `get_game_prices`: every price, each taken from
      the environment when set there; `None` is the `ValueError` of a price
      that is not an integer. */
  function ReadPrices(env: map<string, string>): (r: Option<map<string, int>>)
    ensures r.None? <==> exists k :: k in PriceSettings && PriceFrom(env, PriceSettings[k]).None?
    ensures r.Some? ==> r.value.Keys == PriceSettings.Keys
    ensures r.Some? ==> forall k :: k in r.value ==> Some(r.value[k]) == PriceFrom(env, PriceSettings[k])
  {
    if exists k | k in PriceSettings :: PriceFrom(env, PriceSettings[k]).None? then None
    else Some(map k | k in PriceSettings :: PriceFrom(env, PriceSettings[k]).value)
  }

  /** With no variable set, the prices are the defaults. */
  lemma UnsetEnvironmentGivesDefaultPrices()
    ensures ReadPrices(map[]) == Some(DefaultPrices)
  {
    var r := ReadPrices(map[]);
    assert r.Some?;
    assert r.value.Keys == DefaultPrices.Keys;
    assert r.value == DefaultPrices;
  }

  /** A price variable holding no digit at all, such as "abc", makes the
      dictionary raise. */
  lemma NonNumericPriceRaises(env: map<string, string>, k: string)
    requires k in PriceSettings && PriceSettings[k].priceVar in env
    requires forall i :: 0 <= i < |env[PriceSettings[k].priceVar]| ==> !IsDigit(env[PriceSettings[k].priceVar][i])
    ensures ReadPrices(env).None?
  {
    NoDigitRaises(env[PriceSettings[k].priceVar]);
    assert PriceFrom(env, PriceSettings[k]).None?;
  }

  class AppConfig {
    var supabase: SupabaseConfig
    var bot: BotConfig
    var game: GameConfig
    var pricesCache: Option<map<string, int>>

    constructor (supabase: SupabaseConfig, bot: BotConfig, game: GameConfig)
      ensures this.supabase == supabase && this.bot == bot && this.game == game
      ensures pricesCache == None
    {
      this.supabase := supabase;
      this.bot := bot;
      this.game := game;
      this.pricesCache := None;
    }

    /** `validate_all`: the Supabase messages followed by the bot messages; valid
        exactly when both parts are. */
    function ValidateAll(): (r: Validation)
      reads this, bot
      ensures r.valid <==> ValidateSupabase(supabase).valid && bot.Validate().valid
      ensures r.valid <==> r.errors == []
      ensures |r.errors| == |ValidateSupabase(supabase).errors| + |bot.Validate().errors| <= 4
      ensures r.errors[..|ValidateSupabase(supabase).errors|] == ValidateSupabase(supabase).errors
      ensures r.errors[|ValidateSupabase(supabase).errors|..] == bot.Validate().errors
    {
      var errors := ValidateSupabase(supabase).errors + bot.Validate().errors;
      Validation(|errors| == 0, errors)
    }

    /** `get_game_prices`: the cached prices when there are some; otherwise the
        prices read from the environment `env`, which become the cache. A
        price that is not an integer raises (`None`) before the cache is
        assigned, so the cache stays empty and the next call reads again. */
    method GetGamePrices(env: map<string, string>) returns (prices: Option<map<string, int>>)
      modifies this`pricesCache
      ensures old(pricesCache).Some? ==> prices == old(pricesCache) && pricesCache == old(pricesCache)
      ensures old(pricesCache).None? ==> prices == ReadPrices(env) && pricesCache == ReadPrices(env)
    {
      if pricesCache.Some? {
        return pricesCache;
      }
      prices := ReadPrices(env);
      pricesCache := prices;
    }

    /** `clear_cache`: the next `GetGamePrices` reads the environment again. */
    method ClearCache()
      modifies this`pricesCache
      ensures pricesCache == None
    {
      pricesCache := None;
    }
  }

  /** Once the prices are cached, a later call returns them whatever the
      environment then says; after a raise, or once the cache is cleared, the
      environment is read again. */
  method CachedPricesAreStable(c: AppConfig, first: map<string, string>, later: map<string, string>)
    returns (p1: Option<map<string, int>>, p2: Option<map<string, int>>, p3: Option<map<string, int>>)
    modifies c
    ensures p1 == ReadPrices(first)
    ensures p1.Some? ==> p2 == p1
    ensures p1.None? ==> p2 == ReadPrices(later)
    ensures p3 == ReadPrices(later) && c.pricesCache == p3
  {
    c.ClearCache();
    p1 := c.GetGamePrices(first);
    p2 := c.GetGamePrices(later);
    c.ClearCache();
    p3 := c.GetGamePrices(later);
  }
}
