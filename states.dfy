/** The state-name helpers of utils/states.py. An aiogram state is named
    "Group:STATE"; the model works on that name, and `None` stands for no
    state. */
module States {
  import opened Text

  const Unknown := "unknown"
  const Common := "common"

  /** `StateManager.get_state_category`: the text before the first ':' or
      "common" when there is none. */
  function GetStateCategory(state: Option<string>): (r: string)
    ensures state.None? ==> r == Unknown
    ensures state.Some? && ':' !in state.value ==> r == Common
    ensures state.Some? && ':' in state.value ==>
              r == state.value[..IndexOf(state.value, ':')] && ':' !in r
  {
    if state.None? then Unknown
    else if ':' in state.value then
      SplitFirst(state.value, ':');
      Split(state.value, ':')[0]
    else Common
  }

  /** `StateManager.get_state_name`: the piece after the first ':' and before
      any second one, or the whole name when there is no ':'. */
  function GetStateName(state: Option<string>): (r: string)
    ensures state.None? ==> r == Unknown
    ensures state.Some? && ':' !in state.value ==> r == state.value
    ensures state.Some? && ':' in state.value ==>
              var rest := state.value[IndexOf(state.value, ':') + 1..];
              && ':' !in r
              && r == if ':' in rest then rest[..IndexOf(rest, ':')] else rest
  {
    if state.None? then Unknown
    else if ':' in state.value then
      SplitSecond(state.value, ':');
      Split(state.value, ':')[1]
    else state.value
  }

  /** "Group:STATE" splits back into its group and its state. */
  lemma CategoryAndName(g: string, n: string)
    requires ':' !in g && ':' !in n
    ensures GetStateCategory(Some(g + ":" + n)) == g
    ensures GetStateName(Some(g + ":" + n)) == n
  {
    SplitTwo(g, n, ':');
    assert (g + ":" + n)[|g|] == ':';
  }

  /** Gluing category and name back with ':' gives the original name exactly
      when it holds one ':'. */
  lemma Reassembles(s: string)
    ensures GetStateCategory(Some(s)) + ":" + GetStateName(Some(s)) == s <==> CountChar(s, ':') == 1
  {
    var glued := GetStateCategory(Some(s)) + ":" + GetStateName(Some(s));
    var parts := Split(s, ':');
    if CountChar(s, ':') == 0 {
      assert ':' !in s;
      assert |glued| == |Common| + 1 + |s|;
    } else if CountChar(s, ':') == 1 {
      assert glued == parts[0] + [':'] + parts[1];
      assert Join(parts, ':') == parts[0] + [':'] + Join(parts[1..], ':');
      assert Join(parts[1..], ':') == parts[1];
    } else {
      assert |parts| >= 3;
      assert glued == parts[0] + [':'] + parts[1];
      var tail := Join(parts[2..], ':');
      assert Join(parts[1..], ':') == parts[1] + [':'] + tail by {
        assert parts[1..][0] == parts[1] && parts[1..][1..] == parts[2..];
      }
      assert s == parts[0] + [':'] + (parts[1] + [':'] + tail);
      assert |s| > |glued|;
    }
  }

  const UnknownDescription := "Неизвестное состояние"

  /** `STATE_DESCRIPTIONS`, keyed by state name. */
  const StateDescriptions: map<string, string> :=
    map["MenuState:OUTSIDE_ISLAND" := "Вне острова",
        "MenuState:ON_ISLAND" := "На острове",
        "TutorialState:STEP_1" := "Туториал: Основы",
        "TutorialState:STEP_2" := "Туториал: Ферма",
        "TutorialState:STEP_3" := "Туториал: Команды",
        "FarmState:MAIN_VIEW" := "Ферма",
        "TownState:MAIN_VIEW" := "Город",
        "AcademyState:MAIN_VIEW" := "Академия",
        "WorkState:EXPEDITION_ACTIVE" := "Экспедиция",
        "GameState:ROOSTER_FIGHT_ACTIVE" := "Петушиный бой",
        "GameState:HORSE_RACE_ACTIVE" := "Скачки"]

  /** `get_state_description`: the listed description or the fallback. */
  function GetStateDescription(state: Option<string>): (r: string)
    ensures state.Some? && state.value in StateDescriptions ==> r == StateDescriptions[state.value]
    ensures !(state.Some? && state.value in StateDescriptions) ==> r == UnknownDescription
  {
    if state.Some? && state.value in StateDescriptions then StateDescriptions[state.value]
    else UnknownDescription
  }

  /** The fallback is not among the listed descriptions, so it marks exactly
      the unlisted states. */
  lemma DescriptionKnown(state: Option<string>)
    ensures GetStateDescription(state) != UnknownDescription <==>
              state.Some? && state.value in StateDescriptions
  {
    if state.Some? && state.value in StateDescriptions {
      var d := StateDescriptions[state.value];
      assert |d| < |UnknownDescription|;
    }
  }
}
