/**
 * The default records a new interaction is built from: the default user and
 * assistant agents, the default interaction (chat defaults plus an empty
 * exchange list) and the default exchange (the default exchange template
 * plus an empty, unstarted state).
 */
module Config {
  import opened Types
  import SettingsContext

  /** `defaultUser`: a participant agent with the generated id. */
  function DefaultUser(env: LoadEnv): (a: Agent)
    ensures a.agentType == User && a.id == env.userId
    ensures a.name == "Default User" && a.description == Some("Default user description")
  {
    Agent(env.userId, User, Some("Default user description"), "Default User")
  }

  /** `defaultAssistant`: an assistant agent with the generated id. */
  function DefaultAssistant(env: LoadEnv): (a: Agent)
    ensures a.agentType == Assistant && a.id == env.assistantId
    ensures a.name == "Default Assistant" && a.description == Some("Default assistant description")
  {
    Agent(env.assistantId, Assistant, Some("Default assistant description"), "Default Assistant")
  }

  /**
   * `defaultInteraction`: the default chat settings spread first, then a
   * fresh id, cursor 0, not started, not completed, the default user as
   * participant and no exchanges; both dates are the load time.
   */
  function DefaultInteraction(env: LoadEnv): (i: Interaction)
    ensures i.currentExchange == 0 && !i.started && !i.completed && i.exchanges == []
    ensures i.participant == DefaultUser(env) && i.id == env.interactionId
    ensures i.startedAt.None? && i.completedAt.None?
  {
    var chat := SettingsContext.DefaultChat;
    Interaction(
      env.interactionId, chat.name, chat.description, chat.participantInstructions,
      chat.participantEndText, chat.sendAllToChatbot,
      0, false, false, DefaultUser(env), [], None, None, env.loadTime, env.loadTime)
  }

  /**
   * `defaultExchange`: the default exchange template spread first, then no
   * messages, the default assistant, and all three state flags false. The
   * template has no cue and no soft limit, so neither has a value here.
   */
  function DefaultExchange(env: LoadEnv): (e: Exchange)
    ensures e.messages == [] && !e.started && !e.completed && !e.dismissed
    ensures e.assistant == DefaultAssistant(env)
    ensures e.nbFollowUpQuestions == 0 && !e.hardLimit
    ensures e.softLimit == 0 && e.cue == ""
  {
    var template := SettingsContext.DefaultExchangeSetting(env);
    Exchange(
      template.id, template.name, template.description, template.chatbotInstructions,
      template.participantCue,
      if template.participantInstructionsOnComplete.Some? then template.participantInstructionsOnComplete.value else "",
      template.nbFollowUpQuestions, template.hardLimit,
      "", 0, [], DefaultAssistant(env), false, false, false, None, None, None,
      env.loadTime, env.loadTime)
  }
}
