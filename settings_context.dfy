/**
 * The settings provider: three named settings (assistants, chat, exchanges),
 * each resolved to the stored record of that name or to its default, and the
 * save operation that creates a setting the first time and patches it after.
 */
module SettingsContext {
  import opened Types
  import Seqs

  datatype SettingName = Assistants | Chat | Exchanges

  /** `ALL_SETTING_NAMES`, in the order the context value is assembled. */
  const AllSettingNames: seq<SettingName> := [Assistants, Chat, Exchanges]

  /** The name under which a setting is stored. */
  function Key(n: SettingName): (k: string)
    ensures k != ""
  {
    match n
    case Assistants => "assistants"
    case Chat => "chat"
    case Exchanges => "exchanges"
  }

  lemma KeyInjective(m: SettingName, n: SettingName)
    ensures Key(m) == Key(n) <==> m == n
  {
    if m != n {
      assert Key(m)[0] != Key(n)[0];
    }
  }

  /** The data property of a setting: one of the three settings shapes. */
  datatype SettingData =
    | AssistantsData(assistantList: seq<AssistantSetting>)
    | ChatData(chat: ChatSettings)
    | ExchangesData(exchangeList: seq<ExchangeSetting>)

  /** A stored app setting. */
  datatype AppSetting = AppSetting(id: string, name: string, data: SettingData)

  /** The settings part of the context value, one data property per name. */
  datatype AllSettings = AllSettings(assistants: SettingData, chat: SettingData, exchanges: SettingData)
  {
    function Get(n: SettingName): SettingData
    {
      match n
      case Assistants => assistants
      case Chat => chat
      case Exchanges => exchanges
    }

    function Set(n: SettingName, d: SettingData): (r: AllSettings)
      ensures r.Get(n) == d
      ensures forall m :: m != n ==> r.Get(m) == Get(m)
    {
      match n
      case Assistants => this.(assistants := d)
      case Chat => this.(chat := d)
      case Exchanges => this.(exchanges := d)
    }
  }

  /** The default assistant entry of a fresh app. */
  function DefaultAssistantSetting(env: LoadEnv): AssistantSetting
  {
    AssistantSetting(env.assistantSettingId, "", Some(""), None)
  }

  /** The default exchange template of a fresh app. */
  function DefaultExchangeSetting(env: LoadEnv): ExchangeSetting
  {
    ExchangeSetting(
      env.exchangeSettingId, "", AssistantSetting("", "", Some(""), None),
      "", "", "", 0, Some(""), false)
  }

  const DefaultChat: ChatSettings := ChatSettings("", "", "", "", false)

  /**
   * `defaultSettingsValues`: one assistant with empty name and description,
   * an all-empty chat that does not send everything to the chatbot, and one
   * exchange template with no follow-up questions and no hard limit.
   */
  function DefaultSettingsValues(env: LoadEnv): (d: AllSettings)
    ensures d.assistants.AssistantsData? && |d.assistants.assistantList| == 1
    ensures d.assistants.assistantList[0].name == "" && d.assistants.assistantList[0].description == Some("")
    ensures d.chat.ChatData? && !d.chat.chat.sendAllToChatbot
    ensures d.chat.chat.name == "" && d.chat.chat.participantInstructions == "" && d.chat.chat.participantEndText == ""
    ensures d.exchanges.ExchangesData? && |d.exchanges.exchangeList| == 1
    ensures d.exchanges.exchangeList[0].nbFollowUpQuestions == 0 && !d.exchanges.exchangeList[0].hardLimit
  {
    AllSettings(
      AssistantsData([DefaultAssistantSetting(env)]),
      ChatData(DefaultChat),
      ExchangesData([DefaultExchangeSetting(env)]))
  }

  /** Whether a stored setting carries the name `n`. */
  function Named(n: SettingName): AppSetting -> bool
  {
    (s: AppSetting) => s.name == Key(n)
  }

  /** `appSettingsList.find((s) => s.name === name)`. */
  function Stored(list: seq<AppSetting>, n: SettingName): (r: Option<AppSetting>)
    ensures r.Some? ==> r.value in list && r.value.name == Key(n)
    ensures r.None? <==> forall k :: 0 <= k < |list| ==> list[k].name != Key(n)
  {
    Seqs.Find(list, Named(n))
  }

  /**
   * The data one name resolves to: the stored data when a setting of that
   * name exists (the first one), else the default for that name.
   */
  function Resolve(env: LoadEnv, list: seq<AppSetting>, n: SettingName): (d: SettingData)
    ensures (forall k :: 0 <= k < |list| ==> list[k].name != Key(n)) ==> d == DefaultSettingsValues(env).Get(n)
    ensures forall k ::
      (0 <= k < |list| && list[k].name == Key(n) && forall j :: 0 <= j < k ==> list[j].name != Key(n))
      ==> d == list[k].data
  {
    var i := Seqs.FindIndex(list, Named(n));
    if i.Some? then list[i.value].data else DefaultSettingsValues(env).Get(n)
  }

  /** Resolving a name reads the stored setting `find` returns, or the default when there is none. */
  lemma ResolveStored(env: LoadEnv, list: seq<AppSetting>, n: SettingName)
    ensures Stored(list, n).Some? ==> Resolve(env, list, n) == Stored(list, n).value.data
    ensures Stored(list, n).None? ==> Resolve(env, list, n) == DefaultSettingsValues(env).Get(n)
  {
    assert Stored(list, n) == match Seqs.FindIndex(list, Named(n)) case None => None case Some(k) => Some(list[k]);
  }

  /**
   * The settings part of the context value: when the settings query has
   * succeeded every name is resolved on its own; otherwise it is the defaults.
   */
  function ContextValue(env: LoadEnv, isSuccess: bool, list: seq<AppSetting>): (c: AllSettings)
    ensures !isSuccess ==> c == DefaultSettingsValues(env)
    ensures isSuccess ==> forall n :: c.Get(n) == Resolve(env, list, n)
  {
    if isSuccess then
      var c := AllSettings(Resolve(env, list, Assistants), Resolve(env, list, Chat), Resolve(env, list, Exchanges));
      assert forall n :: c.Get(n) == Resolve(env, list, n) by {
        forall n ensures c.Get(n) == Resolve(env, list, n) {
          if n.Assistants? {
          } else if n.Chat? {
          } else {
            assert n == Exchanges;
          }
        }
      }
      c
    else DefaultSettingsValues(env)
  }

  /**
   * `getContextValue`: folds over the setting names, writing each name's
   * resolved data into an accumulator that starts as the defaults.
   */
  method GetContextValue(env: LoadEnv, isSuccess: bool, list: seq<AppSetting>) returns (c: AllSettings)
    ensures c == ContextValue(env, isSuccess, list)
  {
    c := DefaultSettingsValues(env);
    if !isSuccess {
      return;
    }
    var i := 0;
    while i < |AllSettingNames|
      invariant 0 <= i <= |AllSettingNames|
      invariant ResolvedUpTo(env, list, c, i)
    {
      var key := AllSettingNames[i];
      var setting := Stored(list, key);
      ResolveStored(env, list, key);
      if setting.Some? {
        c := c.Set(key, setting.value.data);
      } else {
        c := c.Set(key, DefaultSettingsValues(env).Get(key));
      }
      i := i + 1;
    }
  }

  /** The first `i` names of `AllSettingNames` already hold their resolved data. */
  ghost predicate ResolvedUpTo(env: LoadEnv, list: seq<AppSetting>, c: AllSettings, i: nat)
  {
    (i >= 1 ==> c.assistants == Resolve(env, list, Assistants))
    && (i >= 2 ==> c.chat == Resolve(env, list, Chat))
    && (i >= 3 ==> c.exchanges == Resolve(env, list, Exchanges))
  }

  /** The call `saveSettings` issues against the settings store. */
  datatype SettingsCall =
    | PostSetting(name: string, data: SettingData)
    | PatchSetting(id: string, data: SettingData)

  /**
   * `saveSettings(name, newValue)`: nothing while the list is not loaded;
   * otherwise a post when no setting has that name, else a patch of the first
   * setting with that name. Both carry the new value.
   */
  function SaveSettings(list: Option<seq<AppSetting>>, n: SettingName, value: SettingData): (r: Option<SettingsCall>)
    ensures list.None? <==> r.None?
    ensures r.Some? ==> r.value.data == value
    ensures r.Some? && r.value.PostSetting? ==> r.value.name == Key(n)
    ensures r.Some? ==> (r.value.PostSetting? <==> forall k :: 0 <= k < |list.value| ==> list.value[k].name != Key(n))
    ensures r.Some? && r.value.PatchSetting? ==>
      exists k :: 0 <= k < |list.value| && list.value[k].name == Key(n) && list.value[k].id == r.value.id
  {
    if list.None? then None
    else
      match Stored(list.value, n)
      case None => Some(PostSetting(Key(n), value))
      case Some(previous) => Some(PatchSetting(previous.id, value))
  }

  /**
   * The effect of a settings call on the stored list: a post appends a new
   * setting with the given id; a patch replaces the data of the settings
   * with that id.
   */
  function ApplyCall(list: seq<AppSetting>, call: SettingsCall, freshId: string): (r: seq<AppSetting>)
    ensures call.PostSetting? ==> r == list + [AppSetting(freshId, call.name, call.data)]
    ensures call.PatchSetting? ==> |r| == |list| && forall k :: 0 <= k < |list| ==>
      r[k].id == list[k].id && r[k].name == list[k].name
      && r[k].data == (if list[k].id == call.id then call.data else list[k].data)
  {
    match call
    case PostSetting(name, data) => list + [AppSetting(freshId, name, data)]
    case PatchSetting(id, data) =>
      seq(|list|, k requires 0 <= k < |list| =>
        if list[k].id == id then list[k].(data := data) else list[k])
  }

  /** After the call `saveSettings` issues is applied, the saved name resolves to the saved value. */
  lemma SaveThenResolve(env: LoadEnv, list: seq<AppSetting>, n: SettingName, value: SettingData, freshId: string)
    ensures Resolve(env, ApplyCall(list, SaveSettings(Some(list), n, value).value, freshId), n) == value
  {
    var call := SaveSettings(Some(list), n, value).value;
    var after := ApplyCall(list, call, freshId);
    var i := Seqs.FindIndex(list, Named(n));
    if i.None? {
      assert after[|list|].name == Key(n);
      assert forall j :: 0 <= j < |list| ==> after[j].name != Key(n);
    } else {
      var k := i.value;
      assert after[k].name == Key(n) && after[k].data == value;
      assert forall j :: 0 <= j < k ==> after[j].name != Key(n);
    }
  }

  /** Ids of the stored settings are pairwise distinct. */
  predicate DistinctIds(list: seq<AppSetting>)
  {
    forall j, k :: 0 <= j < k < |list| ==> list[j].id != list[k].id
  }

  /**
   * A name resolves the same on a longer list when the old positions keep
   * their names and, where the name matches, their data, and no new
   * position carries the name.
   */
  lemma ResolveUnchanged(env: LoadEnv, list: seq<AppSetting>, after: seq<AppSetting>, m: SettingName)
    requires |list| <= |after|
    requires forall j :: 0 <= j < |list| ==> after[j].name == list[j].name
    requires forall j :: 0 <= j < |list| && list[j].name == Key(m) ==> after[j].data == list[j].data
    requires forall j :: |list| <= j < |after| ==> after[j].name != Key(m)
    ensures Resolve(env, after, m) == Resolve(env, list, m)
  {
    var i := Seqs.FindIndex(list, Named(m));
    if i.Some? {
      var k := i.value;
      assert after[k].name == Key(m) && after[k].data == list[k].data;
      assert forall j :: 0 <= j < k ==> after[j].name != Key(m);
    } else {
      assert forall j :: 0 <= j < |after| ==> after[j].name != Key(m);
    }
  }

  /**
   * Saving one name leaves what every other name resolves to unchanged, when
   * stored ids are distinct.
   */
  lemma SaveKeepsOtherNames(env: LoadEnv, list: seq<AppSetting>, n: SettingName, m: SettingName,
                            value: SettingData, freshId: string)
    requires DistinctIds(list)
    requires m != n
    ensures Resolve(env, ApplyCall(list, SaveSettings(Some(list), n, value).value, freshId), m)
         == Resolve(env, list, m)
  {
    KeyInjective(m, n);
    var call := SaveSettings(Some(list), n, value).value;
    var after := ApplyCall(list, call, freshId);
    if call.PatchSetting? {
      var p :| 0 <= p < |list| && list[p].name == Key(n) && list[p].id == call.id;
      assert forall j :: 0 <= j < |list| && list[j].name == Key(m) ==> j != p && list[j].id != call.id;
    }
    ResolveUnchanged(env, list, after, m);
  }
}
