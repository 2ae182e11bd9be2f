/**
 * The exchange-template editor of the builder: add a blank template, remove
 * one by index, move one up or down (see `ListEdit`), change one field of one
 * template, and bind a template to one of the configured assistants.
 */
module ExchangesSettings {
  import opened Types
  import Seqs
  import ListEdit
  import SettingsContext

  /** The blank template `handleAddExchange` appends, with a freshly generated id. */
  function NewExchangeSetting(id: string): (e: ExchangeSetting)
    ensures e.id == id && e.name == "" && e.description == ""
    ensures e.chatbotInstructions == "" && e.participantCue == ""
    ensures e.nbFollowUpQuestions == 0 && !e.hardLimit
    ensures e.assistant.id == "" && e.assistant.name == ""
  {
    ExchangeSetting(id, "", AssistantSetting("", "", Some(""), None), "", "", "", 0, Some(""), false)
  }

  /** A blank template is the default template of a fresh app, up to its id. */
  lemma NewIsDefaultTemplate(env: LoadEnv)
    ensures NewExchangeSetting(env.exchangeSettingId) == SettingsContext.DefaultExchangeSetting(env)
  {
  }

  /** `handleAddExchange`: the list with one blank template appended; earlier entries are kept. */
  function AddExchange(list: seq<ExchangeSetting>, id: string): (r: seq<ExchangeSetting>)
    ensures |r| == |list| + 1 && r[..|list|] == list
    ensures r[|list|] == NewExchangeSetting(id)
  {
    list + [NewExchangeSetting(id)]
  }

  /** Removing the template just added gives the list back. */
  lemma AddThenRemove(list: seq<ExchangeSetting>, id: string)
    ensures ListEdit.RemoveAt(AddExchange(list, id), |list|) == list
  {
    ListEdit.RemoveAppended(list, NewExchangeSetting(id));
  }

  /** One editable field of a template together with its new value. */
  datatype ExchangeField =
    | Name(name: string)
    | Description(description: string)
    | ChatbotInstructions(chatbotInstructions: string)
    | ParticipantCue(participantCue: string)
    | BoundAssistant(assistant: AssistantSetting)
    | NbFollowUpQuestions(nbFollowUpQuestions: int)
    | HardLimit(hardLimit: bool)
    | InstructionsOnComplete(instructionsOnComplete: string)

  /** Whether two field values name the same field. */
  predicate SameField(f: ExchangeField, g: ExchangeField)
  {
    match f
    case Name(_) => g.Name?
    case Description(_) => g.Description?
    case ChatbotInstructions(_) => g.ChatbotInstructions?
    case ParticipantCue(_) => g.ParticipantCue?
    case BoundAssistant(_) => g.BoundAssistant?
    case NbFollowUpQuestions(_) => g.NbFollowUpQuestions?
    case HardLimit(_) => g.HardLimit?
    case InstructionsOnComplete(_) => g.InstructionsOnComplete?
  }

  /** The current value in `e` of the field `f` names; an absent `participantInstructionsOnComplete` reads as "". */
  function Field(e: ExchangeSetting, f: ExchangeField): (r: ExchangeField)
    ensures SameField(f, r)
  {
    match f
    case Name(_) => Name(e.name)
    case Description(_) => Description(e.description)
    case ChatbotInstructions(_) => ChatbotInstructions(e.chatbotInstructions)
    case ParticipantCue(_) => ParticipantCue(e.participantCue)
    case BoundAssistant(_) => BoundAssistant(e.assistant)
    case NbFollowUpQuestions(_) => NbFollowUpQuestions(e.nbFollowUpQuestions)
    case HardLimit(_) => HardLimit(e.hardLimit)
    case InstructionsOnComplete(_) =>
      InstructionsOnComplete(if e.participantInstructionsOnComplete.Some? then e.participantInstructionsOnComplete.value else "")
  }

  /** `{ ...exchange, [field]: value }`. */
  function SetField(e: ExchangeSetting, f: ExchangeField): (r: ExchangeSetting)
    ensures r.id == e.id
  {
    match f
    case Name(v) => e.(name := v)
    case Description(v) => e.(description := v)
    case ChatbotInstructions(v) => e.(chatbotInstructions := v)
    case ParticipantCue(v) => e.(participantCue := v)
    case BoundAssistant(v) => e.(assistant := v)
    case NbFollowUpQuestions(v) => e.(nbFollowUpQuestions := v)
    case HardLimit(v) => e.(hardLimit := v)
    case InstructionsOnComplete(v) => e.(participantInstructionsOnComplete := Some(v))
  }

  /** The field set reads back as the value written, and every other field is as before. */
  lemma SetFieldReadBack(e: ExchangeSetting, f: ExchangeField, g: ExchangeField)
    ensures Field(SetField(e, f), f) == f
    ensures !SameField(f, g) ==> Field(SetField(e, f), g) == Field(e, g)
  {
  }

  /** Writing back a field's current value leaves the template as it is, when the optional field is present. */
  lemma SetFieldCurrent(e: ExchangeSetting, f: ExchangeField)
    requires e.participantInstructionsOnComplete.Some?
    ensures SetField(e, Field(e, f)) == e
  {
  }

  /**
   * `handleChange(index, field, value)`: the template at `index` gets the new
   * value for that field and keeps its other fields; every other template and
   * the length are unchanged. An index outside the list changes nothing.
   */
  function HandleChange(list: seq<ExchangeSetting>, index: int, f: ExchangeField): (r: seq<ExchangeSetting>)
    ensures |r| == |list|
    ensures 0 <= index < |list| ==> r[index].id == list[index].id && Field(r[index], f) == f
    ensures 0 <= index < |list| ==> forall g :: !SameField(f, g) ==> Field(r[index], g) == Field(list[index], g)
    ensures forall k :: 0 <= k < |list| && k != index ==> r[k] == list[k]
  {
    ListEdit.MapAt(list, index, e => SetField(e, f))
  }

  /** Changing a field and then writing the old value back restores the list. */
  lemma HandleChangeUndo(list: seq<ExchangeSetting>, index: int, f: ExchangeField)
    requires 0 <= index < |list| ==> list[index].participantInstructionsOnComplete.Some?
    ensures 0 <= index < |list| ==>
      HandleChange(HandleChange(list, index, f), index, Field(list[index], f)) == list
  {
    if 0 <= index < |list| {
      var once := HandleChange(list, index, f);
      var twice := HandleChange(once, index, Field(list[index], f));
      assert twice[index] == list[index] by {
        assert twice[index] == SetField(once[index], Field(list[index], f));
        assert once[index] == SetField(list[index], f);
      }
      assert forall k :: 0 <= k < |list| ==> twice[k] == list[k];
    }
  }

  /**
   * The assistant the selector binds: the configured assistant whose id was
   * chosen, or the template's current assistant when no configured assistant
   * has that id.
   */
  function SelectAssistant(assistants: seq<AssistantSetting>, id: string, current: AssistantSetting): (r: AssistantSetting)
    ensures (exists k :: 0 <= k < |assistants| && assistants[k].id == id) ==> r in assistants && r.id == id
    ensures (forall k :: 0 <= k < |assistants| ==> assistants[k].id != id) ==> r == current
  {
    match Seqs.Find(assistants, (a: AssistantSetting) => a.id == id)
    case Some(a) => a
    case None => current
  }
}
