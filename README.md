# Botticelli interview app — Dafny model

Botticelli is an interview app for the Graasp platform. In the **builder**, a
researcher configures three settings:

- the assistants;
- the chat texts;
- an ordered list of exchange templates. Each template has a cue, chatbot
  instructions, a number of follow-up questions and a hard-limit flag.

In the **player**, each participant gets one interaction record. It is created
from those templates the first time and then stored as app data. The
participant goes through the exchanges one by one:

- every message they send is posted as a comment;
- the chatbot is asked for a reply with the whole thread as its prompt;
- an exchange completes once its soft limit of messages is reached, and with a
  hard limit it is dismissed automatically, moving on to the next exchange.

In the **results** view, the researcher sees one row per member with a status
badge. Each row can be exported as CSV, and expanded: the view then hands the
messages of the dismissed exchanges to a read-only message pane, which as
written does not display them (see "Left out").

The model has one Dafny module per source file of that core, plus shared
modules:

| module | file | models |
|---|---|---|
| `Types` | types.dfy | agents, messages, exchange templates, exchanges, interactions, app-data records |
| `Seqs` | seqs.dfy | `find`, `findIndex`, `join` and `split` with a one-character separator |
| `ListEdit` | list_edit.dfy | `Array.prototype.splice` and the two-splice moves both settings editors use |
| `SettingsContext` | settings_context.dfy | default settings, the per-name fallback of the context value, create-or-patch saving |
| `Config` | config.dfy | the default user, assistant, interaction and exchange |
| `ExchangesSettings` | exchanges_settings.dfy | add, remove, move and change exchange templates, and bind an assistant |
| `AssistantSettings` | assistant_settings.dfy | add, remove, move and change assistants |
| `MessagesPane` | messages_pane.dfy | prompt building, cue merging, sending a message with its soft limit, starting an exchange |
| `ParticipantInteraction` | participant_interaction.dfy | member lookup, materialising an interaction from the templates, start, next exchange, exchange update, past messages, post/patch synchronisation |
| `MessageInput` | message_input.dfy | `trim`-guarded submission, the submit chord, the Done button |
| `ConversationsView` | conversations_view.dfy | status label and severity, per-member lookup, CSV conversion and export, review history, expand toggle |

Pure code is modelled as functions. The state-keeping components are
classes:

- `MessagesPane.Pane`
- `ParticipantInteraction.Session`
- `MessageInput.InputBox`

Each class method is specified as its new state being a pure step function of
the old state. The calls a component makes on the backend are recorded in a
ghost log. Timestamps, generated uuids, the chatbot's reply and the date
formatter are parameters.

## Model

| member | source | states |
|---|---|---|
| Seqs.SplitJoin | src/results/ConversationsView.tsx:85-104 | splitting a `join` at its one-character separator gives the parts back, when no part contains the separator |
| Seqs.SplitJoinLength | src/results/ConversationsView.tsx:90-98 | splitting a join gives one part per joined value plus one per separator hidden inside a value |
| ListEdit.SpliceStart | src/settings/ExchangesSettings.tsx:370 | the `splice` start position: an in-range start as is, a negative start counted from the end and clamped at 0 |
| ListEdit.Splice | src/settings/ExchangesSettings.tsx:366-370 | `splice` removes no more elements than the list holds, and the new length is the old one minus the removed ones plus the inserted items |
| ListEdit.SplicePermutes | src/settings/ExchangesSettings.tsx:366-370 | the removed elements together with the new list are exactly the old list plus the inserted items, as multisets |
| ListEdit.SpliceInsertBeforeLast | src/settings/ExchangesSettings.tsx:370 | inserting at -1 puts the element before the last one, or alone in an empty list |
| ListEdit.MoveUp | src/settings/ExchangesSettings.tsx:363-373 | moving up swaps the entry with its predecessor; from the top (button disabled) the first entry lands before the last; always a permutation; the assistant editor makes the same move (src/settings/AssistantSettings.tsx:224-234) |
| ListEdit.MoveDown | src/settings/ExchangesSettings.tsx:376-386 | moving down swaps the entry with its successor; from the bottom the list is unchanged; always a permutation; the assistant editor makes the same move (src/settings/AssistantSettings.tsx:237-247) |
| ListEdit.SwapAdjacentTwice | src/settings/ExchangesSettings.tsx:363-386 | moving an entry up and then moving it back down restores the list |
| ListEdit.RemoveAt | src/settings/ExchangesSettings.tsx:352-360 | removing by index drops exactly that entry and keeps the order of the others; an index outside the list removes nothing; the assistant editor removes the same way (src/settings/AssistantSettings.tsx:212-221) |
| ListEdit.MapAt | src/settings/ExchangesSettings.tsx:394-397 | an update by index changes only the entry at that index and keeps the length |
| SettingsContext.KeyInjective | src/modules/context/SettingsContext.tsx:55-60 | the three setting names are distinct |
| SettingsContext.AllSettings.Set | src/modules/context/SettingsContext.tsx:126-128 | writing one name's data changes that name only |
| SettingsContext.DefaultSettingsValues | src/modules/context/SettingsContext.tsx:22-52 | one empty assistant, an all-empty chat that does not send everything to the chatbot, one template with no follow-up questions and no hard limit |
| SettingsContext.Stored | src/modules/context/SettingsContext.tsx:122 | the stored setting found carries the name, and none is found exactly when no setting has it |
| SettingsContext.Resolve | src/modules/context/SettingsContext.tsx:122-129 | a name resolves to its default when no setting has that name, otherwise to the data of the first setting with that name |
| SettingsContext.ResolveStored | src/modules/context/SettingsContext.tsx:122-129 | a name resolves to the data of the setting `find` returns for it, or to its default when `find` returns nothing |
| SettingsContext.ContextValue | src/modules/context/SettingsContext.tsx:118-140 | before the query succeeds the context value is the defaults; afterwards each name resolves on its own |
| SettingsContext.GetContextValue | src/modules/context/SettingsContext.tsx:118-140 | the `reduce` over the names computes exactly ContextValue |
| SettingsContext.SaveSettings | src/modules/context/SettingsContext.tsx:93-112 | nothing is sent before the list loads; otherwise a post under the name exactly when no setting has it, else a patch of the first such setting; both carry the new value |
| SettingsContext.SaveThenResolve | src/modules/context/SettingsContext.tsx:93-129 | once the save call is applied, the saved name resolves to the saved value |
| SettingsContext.SaveKeepsOtherNames | src/modules/context/SettingsContext.tsx:93-129 | saving one name leaves what every other name resolves to unchanged (ids distinct) |
| Config.DefaultUser | src/config/config.ts:17-22 | the default user is a User with its name, description and generated id |
| Config.DefaultAssistant | src/config/config.ts:25-30 | the default assistant is an Assistant with its name, description and generated id |
| Config.DefaultInteraction | src/config/config.ts:33-43 | cursor 0, not started, not completed, no exchanges, the default user as participant |
| Config.DefaultExchange | src/config/config.ts:46-55 | no messages, not started/completed/dismissed, the default assistant, no follow-ups, no hard limit, no soft limit, no cue |
| ExchangesSettings.NewExchangeSetting | src/settings/ExchangesSettings.tsx:330-345 | a blank template: the new id, empty texts, 0 follow-ups, no hard limit, an unbound assistant |
| ExchangesSettings.NewIsDefaultTemplate | src/settings/ExchangesSettings.tsx:330-345 | a blank template equals the default template of a fresh app, up to its id |
| ExchangesSettings.AddExchange | src/settings/ExchangesSettings.tsx:325-349 | adding appends one blank template and keeps the earlier ones |
| ExchangesSettings.AddThenRemove | src/settings/ExchangesSettings.tsx:325-360 | removing the template just added restores the list |
| ExchangesSettings.Field | src/settings/ExchangesSettings.tsx:396 | reading a field gives a value of that same field |
| ExchangesSettings.SetField | src/settings/ExchangesSettings.tsx:396 | writing a field keeps the template's id |
| ExchangesSettings.SetFieldReadBack | src/settings/ExchangesSettings.tsx:396 | the field written reads back as the value written, and every other field reads as before |
| ExchangesSettings.SetFieldCurrent | src/settings/ExchangesSettings.tsx:396 | writing back a field's current value leaves the template unchanged |
| ExchangesSettings.HandleChange | src/settings/ExchangesSettings.tsx:389-400 | only the template at the index changes, only in the named field, and it keeps its id; an index outside the list changes nothing |
| ExchangesSettings.HandleChangeUndo | src/settings/ExchangesSettings.tsx:389-400 | a change followed by writing back the old value restores the list |
| ExchangesSettings.SelectAssistant | src/settings/ExchangesSettings.tsx:199-207 | the configured assistant with the chosen id when one exists, else the template's current assistant |
| AssistantSettings.NewAssistantSetting | src/settings/AssistantSettings.tsx:199-205 | a blank assistant: the new id, empty name, description and image URL |
| AssistantSettings.AddAssistant | src/settings/AssistantSettings.tsx:193-209 | adding appends one blank assistant and keeps the earlier ones |
| AssistantSettings.AddThenRemove | src/settings/AssistantSettings.tsx:193-221 | removing the assistant just added restores the list |
| AssistantSettings.SetField | src/settings/AssistantSettings.tsx:258 | writing one of name, description, image URL sets it and keeps the id and the other two |
| AssistantSettings.HandleChange | src/settings/AssistantSettings.tsx:250-263 | only the assistant at the index changes; an index outside the list changes nothing |
| AssistantSettings.HandleChangeLastWins | src/settings/AssistantSettings.tsx:250-263 | two changes of the same field of the same assistant amount to the second one |
| MessagesPane.EntryOf | src/modules/message/MessagesPane.tsx:50-56 | a thread message becomes an Assistant entry exactly when its sender is an assistant, else User, never System, with its content |
| MessagesPane.Prompt | src/modules/message/MessagesPane.tsx:33-62 | the prompt has thread length + 2 entries: the fixed system text, one entry per thread message in order, the new message as User |
| MessagesPane.PromptSystemOnlyFirst | src/modules/message/MessagesPane.tsx:42-59 | only the first entry of a prompt has the System role |
| MessagesPane.BuildPrompt | src/modules/message/MessagesPane.tsx:33-62 | the `forEach`-and-push loop builds exactly Prompt |
| MessagesPane.LimitMeaning | src/modules/message/MessagesPane.tsx:150-152 | with no soft limit the limit never fires; otherwise it fires once the message being sent is the soft-limit-th since the count was last reset |
| MessagesPane.ParticipantMessage | src/modules/message/MessagesPane.tsx:130-137 | the participant's message carries the given id and content, a User sender with the participant's id, and no send time |
| MessagesPane.InterviewerMessage | src/modules/message/MessagesPane.tsx:181-189 | the chatbot's message carries the given id and completion, the Interviewer as sender, and no send time |
| MessagesPane.SendKeepsUndated | src/modules/message/MessagesPane.tsx:128-214 | a send, as written or corrected, adds only messages without a send time |
| MessagesPane.SendStepAsWritten | src/modules/message/MessagesPane.tsx:128-214 | the send step as written: after a limit completion without auto-dismissal the status stays Loading |
| MessagesPane.SendStep | src/modules/message/MessagesPane.tsx:128-214 | the participant's message is appended and posted first; at the limit the exchange completes at the send time without asking the chatbot (with auto-dismissal it is also dismissed at that time, the count restarts at 0 and the calls are exactly the post and the move to the next exchange; without it the count goes up by one); otherwise the chatbot gets the prompt of the earlier thread plus the new message and its reply is appended and posted; the status ends Idle |
| MessagesPane.StatusStaysLoadingAsWritten | src/modules/message/MessagesPane.tsx:152-165 | the two send steps differ only in the status left after a completion without auto-dismissal |
| MessagesPane.SaveKeepsFlagsOrdered | src/modules/message/MessagesPane.tsx:152-165 | a send keeps "dismissed implies completed implies started" |
| MessagesPane.SendAll | src/modules/message/MessagesPane.tsx:147 | every send adds at least its own message |
| MessagesPane.SoftLimitBudget | src/modules/message/MessagesPane.tsx:148-155 | from a count of c, soft limit − 1 − c sends leave the exchange open and the next one completes it |
| MessagesPane.StartExchange | src/modules/message/MessagesPane.tsx:216-227 | an exchange not yet started is started at the given time unless the pane is read-only; nothing else changes |
| MessagesPane.StartExchangeIdempotent | src/modules/message/MessagesPane.tsx:216-227 | running the start effect again changes nothing, whatever the time |
| MessagesPane.StartKeepsFlagsOrdered | src/modules/message/MessagesPane.tsx:216-227 | starting keeps "dismissed implies completed implies started" |
| MessagesPane.CueMessage | src/modules/message/MessagesPane.tsx:113-123 | the cue message has the exchange's id, its cue as content and the Interviewer as sender, and no send time |
| MessagesPane.UniqFromKeeps | src/modules/message/MessagesPane.tsx:124 | `uniqBy` on id keeps only input messages, never more of them, and none whose id was already taken |
| MessagesPane.UniqFromDistinctIds | src/modules/message/MessagesPane.tsx:124 | the messages `uniqBy` keeps have pairwise distinct ids |
| MessagesPane.UniqFromCovers | src/modules/message/MessagesPane.tsx:124 | every id of the input that was not already taken is present in the result |
| MessagesPane.UniqFromFirst | src/modules/message/MessagesPane.tsx:124 | `uniqBy` keeps, in input order, exactly the first message of each id not already taken |
| MessagesPane.UniqById | src/modules/message/MessagesPane.tsx:124 | `uniqBy(s, 'id')` is the first message of every id of `s`, in the order of `s`: distinct ids, only messages of `s`, every id present, and each kept message at the first position of its id with increasing positions |
| MessagesPane.UniqFromDistinct | src/modules/message/MessagesPane.tsx:124 | `uniqBy` leaves a list with distinct ids as it is |
| MessagesPane.UniqFromAppendPresent | src/modules/message/MessagesPane.tsx:124 | appending a message whose id is already present changes nothing after `uniqBy` |
| MessagesPane.MergeCue | src/modules/message/MessagesPane.tsx:112-126 | after the merge the ids are distinct, the cue's id is present, and nothing but old messages and the cue appear |
| MessagesPane.MergeCueSingleCue | src/modules/message/MessagesPane.tsx:112-126 | exactly one message carries the exchange's id after the merge |
| MessagesPane.MergeCueAppends | src/modules/message/MessagesPane.tsx:112-126 | when the cue is not yet there, it is appended at the end |
| MessagesPane.MergeCueIdempotent | src/modules/message/MessagesPane.tsx:112-126 | merging the same cue twice is merging it once |
| MessagesPane.Pane.constructor | src/modules/message/MessagesPane.tsx:89-95 | a fresh pane: the given exchange, no messages, count 0, Idle, no calls |
| MessagesPane.Pane.ReceiveExchange | src/modules/message/MessagesPane.tsx:112-126 | a new exchange prop merges its cue into the messages and replaces the exchange |
| MessagesPane.Pane.StartExchangeEffect | src/modules/message/MessagesPane.tsx:216-227 | the start effect replaces the exchange by StartExchange of it and changes nothing else |
| MessagesPane.Pane.SaveNewMessage | src/modules/message/MessagesPane.tsx:128-214 | the corrected send of the first Findings row, not the lines as written: the pane's state after a send is SendStep's (status Idle on every path), and its call log is extended by SendStep's calls |
| ParticipantInteraction.FindMember | src/modules/interaction/ParticipantInteraction.tsx:64-67 | the member found has the participant's id, and none is found exactly when no member has it |
| ParticipantInteraction.CurrentMember | src/modules/interaction/ParticipantInteraction.tsx:71-78 | the default user with the member's id and name where these are non-empty |
| ParticipantInteraction.ExchangeFromTemplate | src/modules/interaction/ParticipantInteraction.tsx:93-101 | template fields override the default exchange, the assistant is typed Assistant, no messages, no flags, no soft limit, no cue |
| ParticipantInteraction.MaterializeExchanges | src/modules/interaction/ParticipantInteraction.tsx:92-102 | one exchange per template, in template order |
| ParticipantInteraction.CreateInteractionFromTemplate | src/modules/interaction/ParticipantInteraction.tsx:85-104 | the chat settings over the defaults, the current member as participant, cursor 0, not started, and one exchange per template in order |
| ParticipantInteraction.CreatedExchangesHaveNoLimit | src/modules/interaction/ParticipantInteraction.tsx:92-102 | the soft limit never fires on an exchange created from a template |
| ParticipantInteraction.CurrentAppData | src/modules/interaction/ParticipantInteraction.tsx:107-113 | the record found is an interaction record of this participant from the list, and none is found exactly when there is no such record |
| ParticipantInteraction.OwnedCount | src/modules/interaction/ParticipantInteraction.tsx:107-113 | the number of this participant's records is 0 exactly when CurrentAppData finds none |
| ParticipantInteraction.OwnedCountAppend | src/modules/interaction/ParticipantInteraction.tsx:139 | appending a record adds one to the count exactly when it is this participant's |
| ParticipantInteraction.InitialInteraction | src/modules/interaction/ParticipantInteraction.tsx:121-124 | the stored interaction when there is one, else a newly created one |
| ParticipantInteraction.StartInteraction | src/modules/interaction/ParticipantInteraction.tsx:193-205 | started with its time set, every other field kept; absent stays absent |
| ParticipantInteraction.Advance | src/modules/interaction/ParticipantInteraction.tsx:210-226 | on the last exchange: completed with its time and the cursor kept; otherwise the cursor moves by one |
| ParticipantInteraction.GoToNextExchange | src/modules/interaction/ParticipantInteraction.tsx:208-230 | an absent interaction stays absent, a present one advances |
| ParticipantInteraction.ReplaceById | src/modules/interaction/ParticipantInteraction.tsx:162-164 | same length and order, exactly the entries with the updated id replaced |
| ParticipantInteraction.UpdateExchange | src/modules/interaction/ParticipantInteraction.tsx:155-172 | only the exchange list (by id) and the update time change; absent stays absent |
| ParticipantInteraction.ReplaceByIdIdempotent | src/modules/interaction/ParticipantInteraction.tsx:162-164 | replacing twice with the same exchange is replacing once |
| ParticipantInteraction.ReplaceByIdAbsent | src/modules/interaction/ParticipantInteraction.tsx:162-164 | an update with an unknown id leaves the list unchanged |
| ParticipantInteraction.CreatedSatisfiesInv | src/modules/interaction/ParticipantInteraction.tsx:85-104 | a created interaction with at least one template has its cursor on an exchange and is not completed |
| ParticipantInteraction.AdvanceKeepsInv | src/modules/interaction/ParticipantInteraction.tsx:208-230 | moving on keeps the cursor on an exchange; it never goes back and moves by exactly one except on the last exchange, where the interaction completes |
| ParticipantInteraction.StartKeepsInv | src/modules/interaction/ParticipantInteraction.tsx:193-205 | starting keeps the invariant, the cursor and the exchanges |
| ParticipantInteraction.UpdateKeepsInv | src/modules/interaction/ParticipantInteraction.tsx:155-172 | an exchange update keeps the invariant, the cursor, the flags and every exchange id |
| ParticipantInteraction.AdvanceReachesCompletion | src/modules/interaction/ParticipantInteraction.tsx:208-230 | as many moves as exchanges remain complete the interaction on its last exchange |
| ParticipantInteraction.PastMessages | src/modules/interaction/ParticipantInteraction.tsx:300-302 | a message is past exactly when it belongs to a dismissed exchange |
| ParticipantInteraction.PastMessagesAppend | src/modules/interaction/ParticipantInteraction.tsx:300-302 | past messages of a concatenation are those of the first part then the second, so exchange order is kept |
| ParticipantInteraction.PastMessagesIgnoreOpenUpdate | src/modules/interaction/ParticipantInteraction.tsx:300-302 | updating an exchange that is not dismissed leaves the history unchanged |
| ParticipantInteraction.PastMessagesDismissLast | src/modules/interaction/ParticipantInteraction.tsx:300-302 | dismissing the last open exchange appends exactly its messages to the history |
| ParticipantInteraction.PastMessagesNoneDismissed | src/modules/interaction/ParticipantInteraction.tsx:300-302 | with nothing dismissed the history is empty |
| ParticipantInteraction.MountFlag | src/modules/interaction/ParticipantInteraction.tsx:134 | the flag starts raised exactly when the list at mount holds this participant's record |
| ParticipantInteraction.PostDecisionAsWritten | src/modules/interaction/ParticipantInteraction.tsx:137-142 | as written: post whenever the flag is down and an interaction exists |
| ParticipantInteraction.PostDecision | src/modules/interaction/ParticipantInteraction.tsx:137-142 | a post of the whole interaction exactly when the flag is down, an interaction exists and no record of the participant exists now |
| ParticipantInteraction.FlagAfterPost | src/modules/interaction/ParticipantInteraction.tsx:138-141 | the flag is raised once an interaction exists and stays raised |
| ParticipantInteraction.PatchDecision | src/modules/interaction/ParticipantInteraction.tsx:145-152 | a patch of the whole interaction to the found record's id exactly when the flag is up, the record has a non-empty id and an interaction exists |
| ParticipantInteraction.DuplicatePostAsWritten | src/modules/interaction/ParticipantInteraction.tsx:134-142 | with the list loaded after mount, the as-written post stores a second record for the participant |
| ParticipantInteraction.PostKeepsOneRecord | src/modules/interaction/ParticipantInteraction.tsx:134-142 | with the corrected decision a post never takes the participant past one record |
| ParticipantInteraction.Session.constructor | src/modules/interaction/ParticipantInteraction.tsx:134 | at mount: no interaction, no calls, the flag from the list at mount |
| ParticipantInteraction.Session.ReceiveAppData | src/modules/interaction/ParticipantInteraction.tsx:49-50 | a new query result replaces the list and nothing else |
| ParticipantInteraction.Session.LoadEffect | src/modules/interaction/ParticipantInteraction.tsx:121-131 | once loaded and the member is known, the interaction is the stored one or a new one; otherwise unchanged |
| ParticipantInteraction.Session.PostEffect | src/modules/interaction/ParticipantInteraction.tsx:137-142 | the corrected post effect of the second Findings row, which also checks the current list, not line 138 as written: the log grows by PostDecision's call and the flag becomes FlagAfterPost, so at most one post ever and none while the flag is down; the added check keeps the store at one record of the participant (PostKeepsOneRecord) |
| ParticipantInteraction.Session.PatchEffect | src/modules/interaction/ParticipantInteraction.tsx:145-152 | the log grows by PatchDecision's call and nothing else changes |
| ParticipantInteraction.Session.Start | src/modules/interaction/ParticipantInteraction.tsx:193-205 | the interaction becomes StartInteraction of it |
| ParticipantInteraction.Session.NextExchange | src/modules/interaction/ParticipantInteraction.tsx:208-230 | the interaction becomes GoToNextExchange of it |
| ParticipantInteraction.Session.SetExchange | src/modules/interaction/ParticipantInteraction.tsx:155-172 | the interaction becomes UpdateExchange of it |
| MessageInput.TrimStart | src/modules/message/MessageInput.tsx:68 | removes a whitespace prefix and leaves text starting with non-whitespace or nothing |
| MessageInput.TrimEnd | src/modules/message/MessageInput.tsx:68 | removes a whitespace suffix and leaves text ending with non-whitespace or nothing |
| MessageInput.Trim | src/modules/message/MessageInput.tsx:68 | `trim()` is a slice of the text with only whitespace around it, and starts and ends with non-whitespace when non-empty |
| MessageInput.TrimEmptyIffBlank | src/modules/message/MessageInput.tsx:68 | `trim()` is empty exactly when the text is all whitespace |
| MessageInput.Click | src/modules/message/MessageInput.tsx:67-76 | blank text submits nothing and stays; other text is submitted untrimmed and the field is cleared |
| MessageInput.ClickNeverSubmitsBlank | src/modules/message/MessageInput.tsx:67-76 | what is submitted has a non-whitespace character, and a second click right after submits nothing |
| MessageInput.InputBox.constructor | src/modules/message/MessageInput.tsx:33-36 | the box starts empty with nothing submitted |
| MessageInput.InputBox.HandleChange | src/modules/message/MessageInput.tsx:90-92 | typing sets the text and submits nothing |
| MessageInput.InputBox.HandleClick | src/modules/message/MessageInput.tsx:67-76 | the box's text and submissions follow Click; every submission is non-blank |
| MessageInput.InputBox.HandleKeyDown | src/modules/message/MessageInput.tsx:131-135 | Enter with Ctrl or Meta acts exactly as a click on Send; any other key changes nothing |
| MessageInput.InputBox.DoneButtonShown | src/modules/message/MessageInput.tsx:109-119 | the Done button exists exactly when the exchange is completed |
| MessageInput.InputBox.HandleDismiss | src/modules/message/MessageInput.tsx:78-81 | a Done click dismisses once and leaves the text and submissions alone |
| ConversationsView.Label | src/results/ConversationsView.tsx:61-72 | Complete exactly when completed; Incomplete when started and not completed; NotStarted otherwise |
| ConversationsView.RowLabel | src/results/ConversationsView.tsx:207-210 | a member without a record shows NotStarted |
| ConversationsView.StatusSeverity | src/results/ConversationsView.tsx:198-205 | success exactly when completed, warning when started but not completed, error otherwise |
| ConversationsView.SeverityMatchesLabel | src/results/ConversationsView.tsx:198-210 | the badge colour and the badge text always agree |
| ConversationsView.InteractionRecords | src/results/ConversationsView.tsx:53-56 | exactly the records of type 'Interaction' |
| ConversationsView.MemberInteraction | src/results/ConversationsView.tsx:162-164 | the record found is an interaction record owned by the member, and none is found exactly when there is none |
| ConversationsView.MemberInteractionIsFirst | src/results/ConversationsView.tsx:162-164 | the record found is the first such record of the whole list |
| ConversationsView.ExchangeEntries | src/results/ConversationsView.tsx:88-90 | one entry per message of the interaction's exchanges, each with its interaction, exchange and message |
| ConversationsView.Entries | src/results/ConversationsView.tsx:87-101 | as many entries as messages over all interactions, dismissed or not, each from the data |
| ConversationsView.EveryMessageHasEntry | src/results/ConversationsView.tsx:87-101 | every message of every exchange of every interaction has its entry |
| ConversationsView.ExchangeEntriesCover | src/results/ConversationsView.tsx:88-90 | every message of every exchange of one interaction has its entry |
| ConversationsView.EntriesAppend | src/results/ConversationsView.tsx:87-101 | entries follow the interaction order |
| ConversationsView.RowFields | src/results/ConversationsView.tsx:90-98 | a data line has as many values as the header has columns |
| ConversationsView.Rows | src/results/ConversationsView.tsx:89-99 | one data line per message |
| ConversationsView.ConvertJsonToCsv | src/results/ConversationsView.tsx:75-105 | no CSV exactly when some message lacks a send time, as `format` then throws |
| ConversationsView.HeaderReadBack | src/results/ConversationsView.tsx:76-86 | the header line has no line break and splits into the seven column titles |
| ConversationsView.RowReadBack | src/results/ConversationsView.tsx:90-98 | a data line has no line break and splits into its seven values, when no value holds ',' or a line break |
| ConversationsView.CsvLines | src/results/ConversationsView.tsx:75-105 | the CSV has 1 + the number of messages lines: the header, then the values of each message in order |
| ConversationsView.CommaShiftsColumns | src/results/ConversationsView.tsx:90-98 | without quoting, a data line splits into seven parts plus one per ',' inside its values, so a content with a ',' shifts the columns |
| ConversationsView.ExportThrowsWhenUndated | src/results/ConversationsView.tsx:93 | with messages that carry no send time, as all messages the app builds, exporting any interaction that holds a message throws |
| ConversationsView.ExportJsonAsCsv | src/results/ConversationsView.tsx:124-129 | an empty list downloads nothing; otherwise the CSV is downloaded, unless a missing send time makes it throw |
| ConversationsView.Payloads | src/results/ConversationsView.tsx:139 | exactly the interactions held by the records |
| ConversationsView.ExportAllData | src/results/ConversationsView.tsx:137-142 | "export all" holds the interaction of every interaction record, and nothing but such interactions |
| ConversationsView.ExportAllDataInOrder | src/results/ConversationsView.tsx:53-56 | "export all" equals the record-by-record reference: each exported record's interaction, in record order |
| ConversationsView.ExportedPayloadsAppend | src/results/ConversationsView.tsx:139 | the record-by-record export of a concatenation is the concatenation of the exports |
| ConversationsView.ExportAllDataAppend | src/results/ConversationsView.tsx:137-142 | "export all" keeps the record order: a concatenation exports as the concatenated exports |
| ConversationsView.RowExportData | src/results/ConversationsView.tsx:233 | a row exports its record's interaction, or nothing without a record |
| ConversationsView.RowExportWithinAll | src/results/ConversationsView.tsx:230-236 | a row's export is part of "export all", and a row without a record downloads nothing |
| ConversationsView.ReviewHistory | src/results/ConversationsView.tsx:254-274 | the history the results view hands to the pane: present only for a started interaction, holding exactly the messages of its dismissed exchanges |
| ConversationsView.ReviewMatchesParticipant | src/results/ConversationsView.tsx:264-274 | the history the results view hands to the pane does not change when an exchange that is not dismissed is updated |
| ConversationsView.ToggleExpanded | src/results/ConversationsView.tsx:172-176 | collapses the row when it is the expanded one, else expands it and no other row |
| ConversationsView.ToggleTwice | src/results/ConversationsView.tsx:172-176 | two clicks on one row leave it expanded only if it was expanded at first |

## Left out

- Browser storage: the pane's `sessionStorage` save and reload (src/modules/message/MessagesPane.tsx:74-110) is left out. The pane's messages, exchange and count are in-memory fields.
- React plumbing is left out: effect and memo scheduling, the asynchronous interleaving of state updates and promises, the `beforeunload` handler, and focus, blur and scroll handling. Each effect is a method that the caller runs in the order it chooses.
- Outside values are parameters: `new Date()` and the module-load uuids (`LoadEnv`), `uuidv4` at call time, the chatbot's reply, and date-fns `format`. The reply is applied synchronously, as if the promise had settled.
- The backend mutations are not modelled beyond the calls that are made. These are `postAppData`, `patchAppData`, `postChatBot`, `postAppSetting` and `patchAppSetting`. The calls go into ghost logs or returned call lists; their latency and failures are not modelled.
- `deleteAppData` and its reset button in the results view are not modelled (a backend call).
- Export does not model the CSV download through a Blob and the DOM, or the file name.
- Number input parsing: `parseInt` of the follow-up number field, with its NaN cases, is not modelled. `NbFollowUpQuestions` takes an integer.
- Rendering, i18n `t()` and the "Updated" column's date text are left out.
- JavaScript `typeof content` is the constant "string", since content is always a string here.
- ConversationsView.ConvertJsonToCsv: a send time is an opaque value. An invalid date that `format` would reject is not distinguished from a valid one; only a missing send time makes the conversion fail.
- An in-place `splice` on a copied array is modelled as reassigning a sequence. No aliasing is observable there. The model also does not capture aliasing of `defaultInteraction.exchanges`, which `createInteractionFromTemplate` mutates, or of the `reduce` accumulator, which is the defaults object itself.
- Assistants materialised from a template do not carry `imageUrl`.
- Fields the code neither sets nor reads are not modelled. For an interaction these are `modelInstructions` and `participantInstructionsOnComplete`. For an exchange they are `instructions`, `order` and `triggers`.
- Payload shape: a record of type 'Interaction' whose payload is not an interaction is treated as belonging to no participant and as not started. The code would fail on it.
- Component wiring:
  - The pane's declared props differ from what its call sites pass.
  - The model follows the declared props.
  - The pane never hands its exchange back to the interaction, and the model keeps it that way.
  - The pane renders the message box with props that differ from the box's declared ones (src/modules/message/MessagesPane.tsx:300-313). It passes no `dismissExchange`, and it passes `completed` instead of `exchangeCompleted`. Its `onSubmit` ignores the submitted text and sends the pane's own `textAreaValue`, which nothing sets.
  - The model follows the box's declared props. `MessageInput.InputBox` is not connected to `MessagesPane.Pane`: a submission of the box does not drive a send of the pane.
- ConversationsView.ReviewHistory: the pane, as written, receives no `exchange` from the results view (src/results/ConversationsView.tsx:256-279 against the declared props at src/modules/message/MessagesPane.tsx:25-31) and never reads `pastMessages`. So an expanded row shows "Exchange Not Found" rather than this history, and its cue effect reads the id of an undefined exchange. The model states only what the view hands over. The participant's pane ignores `pastMessages` in the same way (src/modules/interaction/ParticipantInteraction.tsx:289-303), so `ParticipantInteraction.PastMessages` likewise describes what is handed over, not what is shown.
- Input limits: `MAX_TEXT_INPUT_CHARS` and the follow-up bounds of src/config/config.ts:12-14 only set `maxLength` and similar attributes of the builder's text fields, which the browser enforces; no modelled operation reads them, so they are not modelled.
- MessagesPane.Pane.SaveNewMessage: the class method follows the corrected `SendStep`, not the lines as written. As written, a completion without auto-dismissal leaves the status Loading (src/modules/message/MessagesPane.tsx:129, 163-165). Only `SendStepAsWritten` captures that, with `StatusStaysLoadingAsWritten`.
- ParticipantInteraction.Session.PostEffect: the class method follows the corrected `PostDecision`, which also checks the current list, not line 138 as written. As written, a list that arrives after mount holding the participant's record is posted again. Only `PostDecisionAsWritten` and `DuplicatePostAsWritten` capture that. The effect as written also posts at most once, since it posts only while the flag is down and raises the flag; what the correction adds is at the store: no second record of the participant (`PostKeepsOneRecord`).
- ConversationsView.ExportJsonAsCsv: `sentAt` is not a declared field of a message, and no message the app builds has one. The export reads it anyway, and `format` throws on the missing time. So exporting any interaction that holds a message throws (`ExportThrowsWhenUndated`, with `SendKeepsUndated`). The CSV properties (`CsvLines` and its companions) describe data that does carry send times, which the app never writes. The model does not guess which timestamp was meant instead.

## Findings

| source | as written | input that shows it | evidently intended | confidence | as-written member | corrected member |
|---|---|---|---|---|---|---|
| src/modules/message/MessagesPane.tsx:152-165 | on reaching the soft limit without auto-dismissal, the status is set to Loading and never set back | an exchange with soft limit 1 and no hard limit: the first message completes it and the pane stays Loading | the status returns to Idle on every path, as it does with auto-dismissal and after a chatbot reply | medium, not executed | MessagesPane.SendStepAsWritten | MessagesPane.SendStep |
| src/modules/interaction/ParticipantInteraction.tsx:134-142 | `hasPosted` is `useRef(!!currentAppData)`, read once at mount | the app-data list is still loading at mount, then arrives holding the participant's record: the load effect adopts it and the post effect posts it again, leaving two records | post only when no record of the participant exists | medium, not executed | ParticipantInteraction.PostDecisionAsWritten | ParticipantInteraction.PostDecision |
