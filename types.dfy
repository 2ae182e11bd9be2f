/**
 * The records shared by the interview player, the builder and the results
 * view: agents, messages, exchanges, interactions, the settings the builder
 * edits, and the app-data records the backend stores.
 */
module Types {

  datatype Option<T> = None | Some(value: T)

  /** An instant produced by `new Date()`; opaque to the model. */
  type Timestamp = int

  /**
   * Values generated once, when the configuration modules load: the uuids of
   * the default user, default assistant, default interaction and of the two
   * default settings entries, and the load time used as the defaults'
   * creation date.
   */
  datatype LoadEnv = LoadEnv(
    userId: string,
    assistantId: string,
    interactionId: string,
    assistantSettingId: string,
    exchangeSettingId: string,
    loadTime: Timestamp)

  datatype AgentType = User | Assistant

  datatype Agent = Agent(id: string, agentType: AgentType, description: Option<string>, name: string)

  /**
   * One chat message. `sentAt` is not a declared field of the message type:
   * it stands for the `message.sentAt` the CSV export reads anyway, which is
   * undefined on every message the app itself builds.
   */
  datatype Message = Message(id: string, content: string, sender: Agent, sentAt: Option<Timestamp>)

  /** An assistant as the builder stores it (an agent without its type, plus an image). */
  datatype AssistantSetting = AssistantSetting(
    id: string, name: string, description: Option<string>, imageUrl: Option<string>)

  datatype ChatSettings = ChatSettings(
    name: string,
    description: string,
    participantInstructions: string,
    participantEndText: string,
    sendAllToChatbot: bool)

  /** One exchange template as the builder stores it. */
  datatype ExchangeSetting = ExchangeSetting(
    id: string,
    name: string,
    assistant: AssistantSetting,
    description: string,
    chatbotInstructions: string,
    participantCue: string,
    nbFollowUpQuestions: int,
    participantInstructionsOnComplete: Option<string>,
    hardLimit: bool)

  /**
   * One exchange of an interaction. It carries both the fields copied from a
   * template (chatbotInstructions, participantCue, nbFollowUpQuestions,
   * hardLimit) and the fields the messages pane reads (cue, softLimit); a
   * field the code leaves absent is "" or 0 here, both falsy as in the code.
   */
  datatype Exchange = Exchange(
    id: string,
    name: string,
    description: string,
    chatbotInstructions: string,
    participantCue: string,
    participantInstructionsOnComplete: string,
    nbFollowUpQuestions: int,
    hardLimit: bool,
    cue: string,
    softLimit: int,
    messages: seq<Message>,
    assistant: Agent,
    started: bool,
    completed: bool,
    dismissed: bool,
    startedAt: Option<Timestamp>,
    completedAt: Option<Timestamp>,
    dismissedAt: Option<Timestamp>,
    createdAt: Timestamp,
    updatedAt: Timestamp)

  /** One participant's interview; `exchanges` is the `exchanges.exchangeList` array. */
  datatype Interaction = Interaction(
    id: string,
    name: string,
    description: string,
    participantInstructions: string,
    participantEndText: string,
    sendAllToChatbot: bool,
    currentExchange: int,
    completed: bool,
    started: bool,
    participant: Agent,
    exchanges: seq<Exchange>,
    startedAt: Option<Timestamp>,
    completedAt: Option<Timestamp>,
    createdAt: Timestamp,
    updatedAt: Timestamp)

  /** A member of the app's context (the platform's user record). */
  datatype Member = Member(id: string, name: string)

  /** The payload of a stored app-data record: an interaction, or a posted comment. */
  datatype RecordData = InteractionData(interaction: Interaction) | CommentData(content: string)

  /** A stored app-data record: its id, its type tag, its owner and its payload. */
  datatype AppData = AppData(
    id: string, appDataType: string, member: Member, data: RecordData, updatedAt: Timestamp)

  const InteractionType: string := "Interaction"
}
