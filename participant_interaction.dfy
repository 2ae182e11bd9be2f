/**
 * A participant's run through the interview: the interaction built from the
 * settings, its transitions (start, next exchange, update of one exchange),
 * the messages of the dismissed exchanges, and the create-once /
 * patch-afterwards synchronisation with the stored app data.
 */
module ParticipantInteraction {
  import opened Types
  import Seqs
  import Config
  import MessagesPane

  /** `appContextData.members.find((member) => member.id === participantId)`. */
  function FindMember(members: seq<Member>, participantId: string): (r: Option<Member>)
    ensures r.Some? ==> r.value in members && r.value.id == participantId
    ensures r.None? <==> forall k :: 0 <= k < |members| ==> members[k].id != participantId
  {
    Seqs.Find(members, (m: Member) => m.id == participantId)
  }

  /**
   * `currentMember`: the default user, with the member's id and name when
   * the member is known and those are non-empty.
   */
  function CurrentMember(env: LoadEnv, appMember: Option<Member>): (a: Agent)
    ensures a.agentType == User && a.description == Config.DefaultUser(env).description
    ensures appMember.Some? && appMember.value.id != "" ==> a.id == appMember.value.id
    ensures appMember.None? || appMember.value.id == "" ==> a.id == Config.DefaultUser(env).id
    ensures appMember.Some? && appMember.value.name != "" ==> a.name == appMember.value.name
    ensures appMember.None? || appMember.value.name == "" ==> a.name == Config.DefaultUser(env).name
  {
    var base := Config.DefaultUser(env);
    var withId := if appMember.Some? && appMember.value.id != "" then base.(id := appMember.value.id) else base;
    if appMember.Some? && appMember.value.name != "" then withId.(name := appMember.value.name) else withId
  }

  /**
   * One exchange built from a template: the default exchange, overridden by
   * every field the template has, with the template's assistant laid over
   * the default assistant and typed as an assistant.
   */
  function ExchangeFromTemplate(env: LoadEnv, t: ExchangeSetting): (e: Exchange)
    ensures e.id == t.id && e.name == t.name && e.description == t.description
    ensures e.chatbotInstructions == t.chatbotInstructions && e.participantCue == t.participantCue
    ensures e.nbFollowUpQuestions == t.nbFollowUpQuestions && e.hardLimit == t.hardLimit
    ensures t.participantInstructionsOnComplete.Some? ==>
      e.participantInstructionsOnComplete == t.participantInstructionsOnComplete.value
    ensures t.participantInstructionsOnComplete.None? ==>
      e.participantInstructionsOnComplete == Config.DefaultExchange(env).participantInstructionsOnComplete
    ensures e.assistant.agentType == Assistant
    ensures e.assistant.id == t.assistant.id && e.assistant.name == t.assistant.name
    ensures e.assistant.description ==
      if t.assistant.description.Some? then t.assistant.description else Config.DefaultAssistant(env).description
    ensures e.messages == [] && !e.started && !e.completed && !e.dismissed
    ensures e.softLimit == 0 && e.cue == ""
  {
    var d := Config.DefaultExchange(env);
    var da := Config.DefaultAssistant(env);
    var assistant := Agent(
      t.assistant.id, Assistant,
      if t.assistant.description.Some? then t.assistant.description else da.description,
      t.assistant.name);
    d.(id := t.id, name := t.name, assistant := assistant, description := t.description,
       chatbotInstructions := t.chatbotInstructions, participantCue := t.participantCue,
       nbFollowUpQuestions := t.nbFollowUpQuestions, hardLimit := t.hardLimit,
       participantInstructionsOnComplete :=
         if t.participantInstructionsOnComplete.Some? then t.participantInstructionsOnComplete.value
         else d.participantInstructionsOnComplete)
  }

  /** `exchanges.exchangeList.map(...)`: one exchange per template, in template order. */
  function MaterializeExchanges(env: LoadEnv, templates: seq<ExchangeSetting>): (r: seq<Exchange>)
    ensures |r| == |templates|
    ensures forall k :: 0 <= k < |templates| ==> r[k] == ExchangeFromTemplate(env, templates[k])
    decreases |templates|
  {
    if |templates| == 0 then []
    else [ExchangeFromTemplate(env, templates[0])] + MaterializeExchanges(env, templates[1..])
  }

  /**
   * `createInteractionFromTemplate`: the default interaction, overridden by
   * the chat settings, with the current member as participant and one
   * exchange per template.
   */
  function CreateInteractionFromTemplate(env: LoadEnv, chat: ChatSettings, templates: seq<ExchangeSetting>,
                                         member: Agent): (i: Interaction)
    ensures i.name == chat.name && i.description == chat.description
    ensures i.participantInstructions == chat.participantInstructions
    ensures i.participantEndText == chat.participantEndText && i.sendAllToChatbot == chat.sendAllToChatbot
    ensures i.participant == member && i.id == Config.DefaultInteraction(env).id
    ensures i.currentExchange == 0 && !i.started && !i.completed
    ensures |i.exchanges| == |templates|
    ensures forall k :: 0 <= k < |templates| ==> i.exchanges[k] == ExchangeFromTemplate(env, templates[k])
  {
    Config.DefaultInteraction(env).(
      name := chat.name, description := chat.description,
      participantInstructions := chat.participantInstructions,
      participantEndText := chat.participantEndText, sendAllToChatbot := chat.sendAllToChatbot,
      participant := member,
      exchanges := MaterializeExchanges(env, templates))
  }

  /**
   * No exchange of a created interaction has a soft limit, so the pane's limit
   * rule never fires on it, whatever the count.
   */
  lemma CreatedExchangesHaveNoLimit(env: LoadEnv, chat: ChatSettings, templates: seq<ExchangeSetting>,
                                    member: Agent, k: int, count: int)
    requires 0 <= k < |templates|
    ensures !MessagesPane.LimitReached(CreateInteractionFromTemplate(env, chat, templates, member).exchanges[k].softLimit, count)
  {
  }

  /** A stored record is this participant's interaction. */
  predicate OwnedBy(a: AppData, participantId: string)
  {
    a.appDataType == InteractionType && a.data.InteractionData? && a.data.interaction.participant.id == participantId
  }

  /**
   * `currentAppData`: the first interaction record whose participant is this
   * one; nothing while the list is not loaded.
   */
  function CurrentAppData(list: Option<seq<AppData>>, participantId: string): (r: Option<AppData>)
    ensures list.None? ==> r.None?
    ensures r.Some? ==> list.Some? && r.value in list.value && OwnedBy(r.value, participantId)
    ensures list.Some? ==> (r.None? <==> forall k :: 0 <= k < |list.value| ==> !OwnedBy(list.value[k], participantId))
  {
    if list.None? then None
    else Seqs.Find(list.value, (a: AppData) => OwnedBy(a, participantId))
  }

  /** The number of this participant's interaction records in a list. */
  function OwnedCount(list: seq<AppData>, participantId: string): (n: nat)
    ensures n <= |list|
    ensures n == 0 <==> forall k :: 0 <= k < |list| ==> !OwnedBy(list[k], participantId)
    decreases |list|
  {
    if |list| == 0 then 0
    else
      var tail := OwnedCount(list[1..], participantId);
      assert forall k :: 1 <= k < |list| ==> list[k] == list[1..][k - 1];
      (if OwnedBy(list[0], participantId) then 1 else 0) + tail
  }

  lemma {:induction false} OwnedCountAppend(list: seq<AppData>, x: AppData, participantId: string)
    ensures OwnedCount(list + [x], participantId) == OwnedCount(list, participantId) + (if OwnedBy(x, participantId) then 1 else 0)
    decreases |list|
  {
    if |list| > 0 {
      assert (list + [x])[1..] == list[1..] + [x];
      OwnedCountAppend(list[1..], x, participantId);
    } else {
      assert (list + [x])[1..] == [];
    }
  }

  /** The interaction the load effect sets: the stored one if there is one, else a newly created one. */
  function InitialInteraction(env: LoadEnv, chat: ChatSettings, templates: seq<ExchangeSetting>, member: Agent,
                              current: Option<AppData>): (i: Interaction)
    ensures current.Some? && current.value.data.InteractionData? ==> i == current.value.data.interaction
    ensures current.None? ==> i == CreateInteractionFromTemplate(env, chat, templates, member)
  {
    if current.Some? && current.value.data.InteractionData? then current.value.data.interaction
    else CreateInteractionFromTemplate(env, chat, templates, member)
  }

  /** `startInteraction`: sets the started flag and its time; an absent interaction stays absent. */
  function StartInteraction(prev: Option<Interaction>, now: Timestamp): (r: Option<Interaction>)
    ensures prev.None? <==> r.None?
    ensures r.Some? ==> r.value == prev.value.(started := true, startedAt := Some(now), updatedAt := now)
  {
    if prev.Some? then Some(prev.value.(started := true, startedAt := Some(now), updatedAt := now)) else None
  }

  /** The step `goToNextExchange` takes on a present interaction. */
  function Advance(i: Interaction, now: Timestamp): (r: Interaction)
    ensures i.currentExchange == |i.exchanges| - 1 ==>
      r == i.(completed := true, completedAt := Some(now), updatedAt := now)
    ensures i.currentExchange != |i.exchanges| - 1 ==>
      r == i.(currentExchange := i.currentExchange + 1, updatedAt := now)
  {
    if i.currentExchange == |i.exchanges| - 1 then i.(completed := true, completedAt := Some(now), updatedAt := now)
    else i.(currentExchange := i.currentExchange + 1, updatedAt := now)
  }

  /** `goToNextExchange`: an absent interaction stays absent. */
  function GoToNextExchange(prev: Option<Interaction>, now: Timestamp): (r: Option<Interaction>)
    ensures prev.None? <==> r.None?
    ensures r.Some? ==> r.value == Advance(prev.value, now)
  {
    if prev.Some? then Some(Advance(prev.value, now)) else None
  }

  /** The exchange list with every exchange whose id matches replaced. */
  function ReplaceById(exchanges: seq<Exchange>, updated: Exchange): (r: seq<Exchange>)
    ensures |r| == |exchanges|
    ensures forall k :: 0 <= k < |exchanges| ==> r[k] == if exchanges[k].id == updated.id then updated else exchanges[k]
  {
    seq(|exchanges|, k requires 0 <= k < |exchanges| =>
      if exchanges[k].id == updated.id then updated else exchanges[k])
  }

  /** `updateExchange`: replaces the exchanges with the updated one's id; an absent interaction stays absent. */
  function UpdateExchange(prev: Option<Interaction>, updated: Exchange, now: Timestamp): (r: Option<Interaction>)
    ensures prev.None? <==> r.None?
    ensures r.Some? ==> r.value == prev.value.(exchanges := ReplaceById(prev.value.exchanges, updated), updatedAt := now)
  {
    if prev.Some? then Some(prev.value.(exchanges := ReplaceById(prev.value.exchanges, updated), updatedAt := now))
    else None
  }

  /** Replacing by the same exchange twice is the same as once. */
  lemma ReplaceByIdIdempotent(exchanges: seq<Exchange>, updated: Exchange)
    ensures ReplaceById(ReplaceById(exchanges, updated), updated) == ReplaceById(exchanges, updated)
  {
  }

  /** Replacing an exchange whose id no exchange has changes nothing. */
  lemma ReplaceByIdAbsent(exchanges: seq<Exchange>, updated: Exchange)
    requires forall k :: 0 <= k < |exchanges| ==> exchanges[k].id != updated.id
    ensures ReplaceById(exchanges, updated) == exchanges
  {
  }

  /**
   * The cursor designates an exchange, and a completed interaction has its
   * cursor on the last exchange.
   */
  predicate Inv(i: Interaction)
  {
    0 <= i.currentExchange < |i.exchanges| && (i.completed ==> i.currentExchange == |i.exchanges| - 1)
  }

  /** A newly created interaction with at least one exchange satisfies the invariant. */
  lemma CreatedSatisfiesInv(env: LoadEnv, chat: ChatSettings, templates: seq<ExchangeSetting>, member: Agent)
    requires |templates| > 0
    ensures Inv(CreateInteractionFromTemplate(env, chat, templates, member))
  {
  }

  /**
   * Moving on keeps the invariant; the cursor never goes back and moves by
   * exactly one unless it is on the last exchange, where the interaction is
   * completed instead. Exchanges, flags other than `completed`, and the
   * participant are untouched.
   */
  lemma AdvanceKeepsInv(i: Interaction, now: Timestamp)
    requires Inv(i)
    ensures Inv(Advance(i, now))
    ensures Advance(i, now).currentExchange >= i.currentExchange
    ensures Advance(i, now).currentExchange == i.currentExchange + (if i.currentExchange == |i.exchanges| - 1 then 0 else 1)
    ensures Advance(i, now).completed == (i.completed || i.currentExchange == |i.exchanges| - 1)
    ensures Advance(i, now).exchanges == i.exchanges && Advance(i, now).started == i.started
    ensures Advance(i, now).participant == i.participant
  {
  }

  /** Starting keeps the invariant and changes neither the cursor nor the exchanges. */
  lemma StartKeepsInv(i: Interaction, now: Timestamp)
    requires Inv(i)
    ensures Inv(StartInteraction(Some(i), now).value)
    ensures StartInteraction(Some(i), now).value.currentExchange == i.currentExchange
    ensures StartInteraction(Some(i), now).value.exchanges == i.exchanges
  {
  }

  /** Updating an exchange keeps the invariant, the cursor, the flags and the ids of the exchanges. */
  lemma UpdateKeepsInv(i: Interaction, updated: Exchange, now: Timestamp)
    requires Inv(i)
    ensures var r := UpdateExchange(Some(i), updated, now).value;
      Inv(r) && r.currentExchange == i.currentExchange && r.started == i.started && r.completed == i.completed
      && forall k :: 0 <= k < |i.exchanges| ==> r.exchanges[k].id == i.exchanges[k].id
  {
  }

  /** `goToNextExchange` applied `n` times. */
  function AdvanceTimes(i: Interaction, n: nat, now: Timestamp): Interaction
    decreases n
  {
    if n == 0 then i else AdvanceTimes(Advance(i, now), n - 1, now)
  }

  /**
   * From any state of the invariant, as many moves as there are exchanges
   * from the cursor to the end complete the interaction on its last
   * exchange, with the exchange list unchanged.
   */
  lemma {:induction false} AdvanceReachesCompletion(i: Interaction, now: Timestamp)
    requires Inv(i)
    ensures var r := AdvanceTimes(i, |i.exchanges| - i.currentExchange, now);
      r.completed && r.currentExchange == |i.exchanges| - 1 && r.exchanges == i.exchanges
    decreases |i.exchanges| - i.currentExchange
  {
    var n := |i.exchanges| - i.currentExchange;
    var next := Advance(i, now);
    AdvanceKeepsInv(i, now);
    if i.currentExchange == |i.exchanges| - 1 {
      assert n == 1;
      assert AdvanceTimes(i, n, now) == AdvanceTimes(next, 0, now) == next;
    } else {
      assert |next.exchanges| - next.currentExchange == n - 1;
      AdvanceReachesCompletion(next, now);
      assert AdvanceTimes(i, n, now) == AdvanceTimes(next, n - 1, now);
    }
  }

  /**
   * `pastMessages`: the messages of the dismissed exchanges, concatenated in
   * exchange order.
   */
  function PastMessages(exchanges: seq<Exchange>): (r: seq<Message>)
    ensures forall m :: m in r <==> exists k :: 0 <= k < |exchanges| && exchanges[k].dismissed && m in exchanges[k].messages
    decreases |exchanges|
  {
    if |exchanges| == 0 then []
    else
      var tail := PastMessages(exchanges[1..]);
      assert forall k :: 1 <= k < |exchanges| ==> exchanges[k] == exchanges[1..][k - 1];
      (if exchanges[0].dismissed then exchanges[0].messages else []) + tail
  }

  /** The past messages of two lists one after the other are those of the first then those of the second. */
  lemma {:induction false} PastMessagesAppend(a: seq<Exchange>, b: seq<Exchange>)
    ensures PastMessages(a + b) == PastMessages(a) + PastMessages(b)
    decreases |a|
  {
    if |a| > 0 {
      assert (a + b)[1..] == a[1..] + b;
      PastMessagesAppend(a[1..], b);
    } else {
      assert a + b == b;
    }
  }

  /**
   * Updating an exchange that is not dismissed with one that is not dismissed
   * leaves the past messages as they were.
   */
  lemma {:induction false} PastMessagesIgnoreOpenUpdate(exchanges: seq<Exchange>, updated: Exchange)
    requires !updated.dismissed
    requires forall k :: 0 <= k < |exchanges| && exchanges[k].id == updated.id ==> !exchanges[k].dismissed
    ensures PastMessages(ReplaceById(exchanges, updated)) == PastMessages(exchanges)
    decreases |exchanges|
  {
    if |exchanges| > 0 {
      var r := ReplaceById(exchanges, updated);
      assert r[1..] == ReplaceById(exchanges[1..], updated);
      PastMessagesIgnoreOpenUpdate(exchanges[1..], updated);
    }
  }

  /**
   * Dismissing the exchange at the cursor, when no later exchange is
   * dismissed, adds exactly its messages at the end of the past messages.
   */
  lemma {:induction false} PastMessagesDismissLast(exchanges: seq<Exchange>, k: nat)
    requires k < |exchanges| && !exchanges[k].dismissed
    requires forall j :: k < j < |exchanges| ==> !exchanges[j].dismissed
    ensures PastMessages(exchanges[k := exchanges[k].(dismissed := true)])
         == PastMessages(exchanges) + exchanges[k].messages
  {
    var after := exchanges[k := exchanges[k].(dismissed := true)];
    assert exchanges == exchanges[..k] + [exchanges[k]] + exchanges[k + 1..];
    assert after == exchanges[..k] + [after[k]] + exchanges[k + 1..];
    PastMessagesAppend(exchanges[..k] + [exchanges[k]], exchanges[k + 1..]);
    PastMessagesAppend(exchanges[..k], [exchanges[k]]);
    PastMessagesAppend(exchanges[..k] + [after[k]], exchanges[k + 1..]);
    PastMessagesAppend(exchanges[..k], [after[k]]);
    PastMessagesNoneDismissed(exchanges[k + 1..]);
    assert PastMessages([exchanges[k]]) == [] by {
      assert [exchanges[k]][1..] == [];
    }
    assert PastMessages([after[k]]) == exchanges[k].messages by {
      assert [after[k]][1..] == [];
    }
  }

  /** A list with no dismissed exchange has no past messages. */
  lemma {:induction false} PastMessagesNoneDismissed(exchanges: seq<Exchange>)
    requires forall j :: 0 <= j < |exchanges| ==> !exchanges[j].dismissed
    ensures PastMessages(exchanges) == []
    decreases |exchanges|
  {
    if |exchanges| > 0 {
      PastMessagesNoneDismissed(exchanges[1..]);
    }
  }

  /** A call the interaction makes on the app-data store. */
  datatype StoreCall = PostInteraction(data: Interaction) | PatchInteraction(id: string, data: Interaction)

  /** `useRef(!!currentAppData)`: the flag is set at mount from the list as it is then. */
  function MountFlag(listAtMount: Option<seq<AppData>>, participantId: string): (b: bool)
    ensures b <==> CurrentAppData(listAtMount, participantId).Some?
  {
    CurrentAppData(listAtMount, participantId).Some?
  }

  /** The post effect as the source writes it: post whenever the flag is down and an interaction is present. */
  function PostDecisionAsWritten(hasPosted: bool, interaction: Option<Interaction>): (r: Option<StoreCall>)
    ensures r.Some? <==> !hasPosted && interaction.Some?
    ensures r.Some? ==> r.value == PostInteraction(interaction.value)
  {
    if !hasPosted && interaction.Some? then Some(PostInteraction(interaction.value)) else None
  }

  /**
   * The post effect with the flag read against the list as it is now: post
   * only when no record of this participant exists; when one does, the flag
   * is raised without posting.
   */
  function PostDecision(hasPosted: bool, interaction: Option<Interaction>, current: Option<AppData>): (r: Option<StoreCall>)
    ensures r.Some? <==> !hasPosted && interaction.Some? && current.None?
    ensures r.Some? ==> r.value == PostInteraction(interaction.value)
  {
    if !hasPosted && interaction.Some? && current.None? then Some(PostInteraction(interaction.value)) else None
  }

  /** The flag after the post effect, in both versions: raised once an interaction is present. */
  function FlagAfterPost(hasPosted: bool, interaction: Option<Interaction>): (b: bool)
    ensures b <==> hasPosted || interaction.Some?
  {
    hasPosted || interaction.Some?
  }

  /**
   * The patch effect: the whole interaction, sent to the record found for
   * this participant, only once the flag is raised and that record has a
   * non-empty id.
   */
  function PatchDecision(hasPosted: bool, current: Option<AppData>, interaction: Option<Interaction>): (r: Option<StoreCall>)
    ensures r.Some? <==> hasPosted && current.Some? && current.value.id != "" && interaction.Some?
    ensures r.Some? ==> r.value == PatchInteraction(current.value.id, interaction.value)
  {
    if hasPosted && current.Some? && current.value.id != "" && interaction.Some? then
      Some(PatchInteraction(current.value.id, interaction.value))
    else None
  }

  /** The store after a post: the new record appended, owned by the member it is posted for. */
  function StoreAfterPost(list: seq<AppData>, id: string, member: Member, i: Interaction, now: Timestamp): seq<AppData>
  {
    list + [AppData(id, InteractionType, member, InteractionData(i), now)]
  }

  /**
   * The post effect as written, when the list was not yet loaded at mount and
   * then arrives holding this participant's record: the load effect adopts
   * the stored interaction, and the post effect posts it again, so the store
   * ends up with two records for the participant.
   */
  lemma DuplicatePostAsWritten(env: LoadEnv, chat: ChatSettings, templates: seq<ExchangeSetting>, member: Agent,
                               list: seq<AppData>, participantId: string, id: string, owner: Member, now: Timestamp)
    requires exists k :: 0 <= k < |list| && OwnedBy(list[k], participantId)
    ensures var current := CurrentAppData(Some(list), participantId);
      var loaded := InitialInteraction(env, chat, templates, member, current);
      var call := PostDecisionAsWritten(MountFlag(None, participantId), Some(loaded));
      call.Some?
      && OwnedCount(StoreAfterPost(list, id, owner, call.value.data, now), participantId) >= 2
  {
    var current := CurrentAppData(Some(list), participantId);
    var loaded := InitialInteraction(env, chat, templates, member, current);
    assert loaded.participant.id == participantId;
    var x := AppData(id, InteractionType, owner, InteractionData(loaded), now);
    OwnedCountAppend(list, x, participantId);
  }

  /**
   * With the flag read against the current list, the post never adds a
   * second record for the participant: a post happens only when there is no
   * record, so the store holds at most one afterwards.
   */
  lemma PostKeepsOneRecord(hasPosted: bool, interaction: Option<Interaction>, list: seq<AppData>,
                           participantId: string, id: string, owner: Member, now: Timestamp)
    requires OwnedCount(list, participantId) <= 1
    ensures var call := PostDecision(hasPosted, interaction, CurrentAppData(Some(list), participantId));
      call.Some? ==> OwnedCount(StoreAfterPost(list, id, owner, call.value.data, now), participantId) <= 1
  {
    var call := PostDecision(hasPosted, interaction, CurrentAppData(Some(list), participantId));
    if call.Some? {
      OwnedCountAppend(list, AppData(id, InteractionType, owner, InteractionData(call.value.data), now), participantId);
    }
  }

  /** The number of posts in a log of store calls. */
  function PostCount(calls: seq<StoreCall>): (n: nat)
    ensures n <= |calls|
    decreases |calls|
  {
    if |calls| == 0 then 0 else (if calls[|calls| - 1].PostInteraction? then 1 else 0) + PostCount(calls[..|calls| - 1])
  }

  /**
   * The component's store synchronisation: the app-data list as the query
   * returns it, the interaction state, the `hasPosted` ref, and a ghost log of
   * the post and patch calls made.
   */
  class Session {
    const participantId: string
    var appDataList: Option<seq<AppData>>
    var interaction: Option<Interaction>
    var hasPosted: bool
    ghost var calls: seq<StoreCall>

    /** At most one post, and none while the flag is down. */
    ghost predicate Valid()
      reads this
    {
      PostCount(calls) <= 1 && (!hasPosted ==> PostCount(calls) == 0)
    }

    /** The component at mount: no interaction yet, the flag read from the list as it is then. */
    constructor(participantId: string, listAtMount: Option<seq<AppData>>)
      ensures Valid()
      ensures this.participantId == participantId && appDataList == listAtMount && interaction.None?
      ensures hasPosted == MountFlag(listAtMount, participantId) && calls == []
    {
      this.participantId := participantId;
      appDataList := listAtMount;
      interaction := None;
      hasPosted := CurrentAppData(listAtMount, participantId).Some?;
      calls := [];
    }

    /** A new result of the app-data query. */
    method ReceiveAppData(list: Option<seq<AppData>>)
      requires Valid()
      modifies this
      ensures Valid()
      ensures appDataList == list && interaction == old(interaction) && hasPosted == old(hasPosted) && calls == old(calls)
    {
      appDataList := list;
    }

    /**
     * The load effect: once the list has loaded and the member is known, the
     * interaction becomes the stored one, or a newly created one.
     */
    method LoadEffect(env: LoadEnv, appDataLoading: bool, members: Option<seq<Member>>,
                      chat: ChatSettings, templates: seq<ExchangeSetting>)
      requires Valid()
      modifies this
      ensures Valid()
      ensures var appMember := if members.Some? then FindMember(members.value, participantId) else None;
        if !appDataLoading && members.Some? && appMember.Some? then
          interaction == Some(InitialInteraction(env, chat, templates, CurrentMember(env, appMember),
                                                 CurrentAppData(appDataList, participantId)))
        else interaction == old(interaction)
      ensures appDataList == old(appDataList) && hasPosted == old(hasPosted) && calls == old(calls)
    {
      if !appDataLoading && members.Some? {
        var appMember := FindMember(members.value, participantId);
        if appMember.Some? {
          var current := CurrentAppData(appDataList, participantId);
          interaction := Some(InitialInteraction(env, chat, templates, CurrentMember(env, appMember), current));
        }
      }
    }

    /** The post effect, with the flag read against the current list. */
    method PostEffect()
      requires Valid()
      modifies this
      ensures Valid()
      ensures var call := PostDecision(old(hasPosted), interaction, CurrentAppData(appDataList, participantId));
        calls == old(calls) + (if call.Some? then [call.value] else [])
      ensures hasPosted == FlagAfterPost(old(hasPosted), interaction)
      ensures appDataList == old(appDataList) && interaction == old(interaction)
    {
      if !hasPosted && interaction.Some? {
        if CurrentAppData(appDataList, participantId).None? {
          calls := calls + [PostInteraction(interaction.value)];
          assert calls[..|calls| - 1] == old(calls);
        }
        hasPosted := true;
      }
    }

    /** The patch effect. */
    method PatchEffect()
      requires Valid()
      modifies this
      ensures Valid()
      ensures var call := PatchDecision(hasPosted, CurrentAppData(appDataList, participantId), interaction);
        calls == old(calls) + (if call.Some? then [call.value] else [])
      ensures appDataList == old(appDataList) && interaction == old(interaction) && hasPosted == old(hasPosted)
    {
      var current := CurrentAppData(appDataList, participantId);
      if hasPosted && current.Some? && current.value.id != "" && interaction.Some? {
        calls := calls + [PatchInteraction(current.value.id, interaction.value)];
        assert calls[..|calls| - 1] == old(calls);
      }
    }

    /** The start button. */
    method Start(now: Timestamp)
      requires Valid()
      modifies this
      ensures Valid()
      ensures interaction == StartInteraction(old(interaction), now)
      ensures appDataList == old(appDataList) && hasPosted == old(hasPosted) && calls == old(calls)
    {
      interaction := StartInteraction(interaction, now);
    }

    /** The pane's request to move to the next exchange. */
    method NextExchange(now: Timestamp)
      requires Valid()
      modifies this
      ensures Valid()
      ensures interaction == GoToNextExchange(old(interaction), now)
      ensures appDataList == old(appDataList) && hasPosted == old(hasPosted) && calls == old(calls)
    {
      interaction := GoToNextExchange(interaction, now);
    }

    /** An updated exchange handed up by the pane. */
    method SetExchange(updated: Exchange, now: Timestamp)
      requires Valid()
      modifies this
      ensures Valid()
      ensures interaction == UpdateExchange(old(interaction), updated, now)
      ensures appDataList == old(appDataList) && hasPosted == old(hasPosted) && calls == old(calls)
    {
      interaction := UpdateExchange(interaction, updated, now);
    }
  }
}
