/**
 * The assistant editor of the builder: add a blank assistant, remove one by
 * index, move one up or down (see `ListEdit`), and change the name, the
 * description or the image URL of one assistant.
 */
module AssistantSettings {
  import opened Types
  import ListEdit

  /** The blank assistant `handleAddAssistant` appends, with a freshly generated id. */
  function NewAssistantSetting(id: string): (a: AssistantSetting)
    ensures a.id == id && a.name == "" && a.description == Some("") && a.imageUrl == Some("")
  {
    AssistantSetting(id, "", Some(""), Some(""))
  }

  /** `handleAddAssistant`: the list with one blank assistant appended; earlier entries are kept. */
  function AddAssistant(list: seq<AssistantSetting>, id: string): (r: seq<AssistantSetting>)
    ensures |r| == |list| + 1 && r[..|list|] == list
    ensures r[|list|] == NewAssistantSetting(id)
  {
    list + [NewAssistantSetting(id)]
  }

  /** Removing the assistant just added gives the list back. */
  lemma AddThenRemove(list: seq<AssistantSetting>, id: string)
    ensures ListEdit.RemoveAt(AddAssistant(list, id), |list|) == list
  {
    ListEdit.RemoveAppended(list, NewAssistantSetting(id));
  }

  /** One editable text field of an assistant together with its new value. */
  datatype AssistantField =
    | Name(name: string)
    | Description(description: string)
    | ImageUrl(imageUrl: string)

  /** `{ ...assistant, [field]: value }`. */
  function SetField(a: AssistantSetting, f: AssistantField): (r: AssistantSetting)
    ensures r.id == a.id
    ensures f.Name? ==> r.name == f.name && r.description == a.description && r.imageUrl == a.imageUrl
    ensures f.Description? ==> r.description == Some(f.description) && r.name == a.name && r.imageUrl == a.imageUrl
    ensures f.ImageUrl? ==> r.imageUrl == Some(f.imageUrl) && r.name == a.name && r.description == a.description
  {
    match f
    case Name(v) => a.(name := v)
    case Description(v) => a.(description := Some(v))
    case ImageUrl(v) => a.(imageUrl := Some(v))
  }

  /**
   * `handleChange(index, field, value)`: only the assistant at `index`
   * changes, and only in the named field; an index outside the list changes
   * nothing.
   */
  function HandleChange(list: seq<AssistantSetting>, index: int, f: AssistantField): (r: seq<AssistantSetting>)
    ensures |r| == |list|
    ensures 0 <= index < |list| ==> r[index] == SetField(list[index], f)
    ensures forall k :: 0 <= k < |list| && k != index ==> r[k] == list[k]
  {
    ListEdit.MapAt(list, index, a => SetField(a, f))
  }

  /** Two changes of the same field of the same assistant: the later one wins. */
  lemma HandleChangeLastWins(list: seq<AssistantSetting>, index: int, f: AssistantField, g: AssistantField)
    requires f.Name? == g.Name? && f.Description? == g.Description?
    ensures HandleChange(HandleChange(list, index, f), index, g) == HandleChange(list, index, g)
  {
    var twice := HandleChange(HandleChange(list, index, f), index, g);
    var once := HandleChange(list, index, g);
    assert forall k :: 0 <= k < |list| ==> twice[k] == once[k];
  }
}
