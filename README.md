# Conversation visibility in Mex's `ConversationRepository`

This project models the data-access layer of the Mex messaging package
(`ConversationRepository`) as a Dafny model with proofs. Each participant of
a conversation can see it in one of three states. The state is recorded by
an optional marker row in `deleted_conversations` for the
(conversation, participant) pair:

- no marker: **active**;
- a marker with `archived = 0`: **archived**;
- a marker with `archived = 1`: **removed**.

`archive`, `forceRemove` and `restore` write or delete that marker. The three
lookups `conversationActive`, `conversationArchived` and
`conversationReadable` read it. The message loads and the conversation
lists combine the marker with two filters:

- a hiding filter over `deleted_messages`;
- a "last message" preview.

`addFilters` turns the caller's filter array into `orderBy`/`limit`/`paginate`
calls on a query.

Modules, one per concern:

- `Schema` (schema.dfy): the rows, the tables as one `Tables` value, the PHP values a filter array holds and PHP falsiness.
- `Visibility` (visibility.dfy): the marker's tagged state (`ViewState`) and the three lookups.
- `MessageFilters` (messages.dfy): the hiding filter, the newest timestamp of a conversation and the preview.
- `Filters` (filters.dfy): `addFilters` as a loop over the filter array that mutates a `QueryBuilder` object, specified by the function `FilterCalls`.
- `Queries` (queries.dfy): `getMessagesById`, `getMessagesOnArchivedConversation`, `getLists`, `getArchivedLists`.
- `Repository` (repository.dfy): the class `ConversationRepository`, whose fields are the tables. `Archive`, `ForceRemove` and `Restore` reassign its `deletedConversations` map and nothing else: its `modifies` clauses name only that field. The client methods below the class state the properties the source promises across several calls.

The database is modelled as in-memory tables:

- `deleted_conversations` is a map from (conversation, participant) to the flag, so find-or-create keeps one row per pair.
- The outcome of `save()` and `delete()` is a boolean parameter. This keeps the `false` returns of `archive`, `forceRemove` and `restore` reachable.
- Query results keep table order.

Three behaviours of the code that its names do not suggest, modelled as
written:

- **Hiding tests the sender.** A message is hidden from `from` when some `deleted_messages` row references it AND the message's own `participant_id` is `from` (src/Fenos/Mex/Conversations/Repositories/ConversationRepository.php:93-97). The participant recorded in the `deleted_messages` row plays no part. So a message that `from` deleted but another participant sent stays visible. A message `from` sent and anyone deleted is hidden. `MessageFilters.HidingIgnoresDeleter` and `MessageFilters.HidingExamples` state this.
- **The preview compares with all messages.** The newest `created_at` is taken over ALL messages of the conversation, hidden ones included (:186-189). When the newest message is hidden, the preview is empty even if older messages survive (`MessageFilters.HidingExamples`, `MessageFilters.PreviewEmptyIffNewestHidden`).
- **`paginate` stops `addFilters`.** The first `paginate` entry ends the pass: `orderBy`/`limit` entries after it are not applied (`Filters.PaginateStops`, `Filters.FilterCallsAppend`).

## Model

| member | source | states |
|---|---|---|
| `Schema.FilterValue` | src/Fenos/Mex/Conversations/Repositories/ConversationRepository.php:168-170 | a value is found exactly when the key occurs in the filter array; it is the value of the first entry with that key, so with unique keys (as in every PHP array) it is the value stored under that key |
| `Visibility.StateOf` | src/Fenos/Mex/Conversations/Repositories/ConversationRepository.php:286-343 | the pair is Active iff it has no marker, Archived iff its marker holds 0, Removed iff its marker holds 1 |
| `Visibility.Find` | src/Fenos/Mex/Conversations/Repositories/ConversationRepository.php:79 | `find` returns the id exactly when the conversation row exists |
| `Visibility.ConversationActive` | src/Fenos/Mex/Conversations/Repositories/ConversationRepository.php:286-298 | finds c exactly when the conversation exists and the pair is Active (no marker of `from`) |
| `Visibility.ConversationArchived` | src/Fenos/Mex/Conversations/Repositories/ConversationRepository.php:308-321 | finds c exactly when the conversation exists and the pair's marker holds archived = 0 |
| `Visibility.ConversationReadable` | src/Fenos/Mex/Conversations/Repositories/ConversationRepository.php:332-343 | finds c exactly when the conversation exists and the pair is not Removed (no archived = 1 marker) |
| `Visibility.LookupRelations` | src/Fenos/Mex/Conversations/Repositories/ConversationRepository.php:286-343 | active implies readable, archived implies readable, active and archived exclude each other, readable is exactly active or archived |
| `Visibility.MarkerFrame` | src/Fenos/Mex/Conversations/Repositories/ConversationRepository.php:263-277 | writing or deleting one pair's marker leaves every other pair's state unchanged |
| `MessageFilters.MessagesOf` | src/Fenos/Mex/Conversations/Repositories/ConversationRepository.php:106 | the unfiltered `messages` relation holds exactly the messages of the conversation |
| `MessageFilters.VisibleMessages` | src/Fenos/Mex/Conversations/Repositories/ConversationRepository.php:92-98 | a message is kept iff it belongs to the conversation and not (some `deleted_messages` row references it and its sender is `from`) |
| `MessageFilters.MaxCreatedAt` | src/Fenos/Mex/Conversations/Repositories/ConversationRepository.php:186-189 | None iff the conversation has no messages; otherwise a timestamp some message of the conversation has and no message of it exceeds |
| `MessageFilters.CreatedAtOnly` | src/Fenos/Mex/Conversations/Repositories/ConversationRepository.php:186 | keeps exactly the messages created at the given timestamp |
| `MessageFilters.LastMessages` | src/Fenos/Mex/Conversations/Repositories/ConversationRepository.php:176-190 | a message is in the preview iff it belongs to the conversation, is not hidden from `from`, and no message of the conversation (hidden or not) is newer |
| `MessageFilters.PreviewEmptyIffNewestHidden` | src/Fenos/Mex/Conversations/Repositories/ConversationRepository.php:176-190 | the preview is empty iff every newest message of the conversation is hidden from `from` |
| `MessageFilters.HidingIgnoresDeleter` | src/Fenos/Mex/Conversations/Repositories/ConversationRepository.php:93-97 | which participant's `deleted_messages` row references a message does not matter; a referenced message is hidden iff `from` sent it |
| `MessageFilters.HidingExamples` | src/Fenos/Mex/Conversations/Repositories/ConversationRepository.php:176-190 | a message `from` deleted but did not send stays visible; a hidden newest message empties the preview although an older one survives |
| `Filters.CallFor` | src/Fenos/Mex/Conversations/Repositories/ConversationRepository.php:404-418 | only `orderBy`, `limit` and `paginate` make a call, and `orderBy` always sorts on `created_at` |
| `Filters.AddFilters` | src/Fenos/Mex/Conversations/Repositories/ConversationRepository.php:398-421 | the builder's calls grow by exactly `FilterCalls(filters)`; a paginator is returned iff the array has a `paginate` key, and it is built from the value of the first `paginate` entry |
| `Filters.FilterCallsAppend` | src/Fenos/Mex/Conversations/Repositories/ConversationRepository.php:402-419 | the calls of two arrays in sequence: the second array's calls follow only when the first has no `paginate` |
| `Filters.FilterCallsSingle` | src/Fenos/Mex/Conversations/Repositories/ConversationRepository.php:404-418 | a single entry makes exactly the call its key names, or none |
| `Filters.FilterCallsAfterPaginate` | src/Fenos/Mex/Conversations/Repositories/ConversationRepository.php:415-418 | entries after a `paginate` entry do not change the calls |
| `Filters.PaginateStops` | src/Fenos/Mex/Conversations/Repositories/ConversationRepository.php:415-418 | with the first `paginate` at index i, the calls are those of the entries before i followed by that `paginate` |
| `Filters.UnknownKeyIgnored` | src/Fenos/Mex/Conversations/Repositories/ConversationRepository.php:402-419 | an entry with an unrecognised key can be removed without changing the calls |
| `Filters.OrderByOnCreatedAt` | src/Fenos/Mex/Conversations/Repositories/ConversationRepository.php:404-408 | every `orderBy` call sorts on `created_at`, whatever the entry's value |
| `Filters.PaginateOnlyLast` | src/Fenos/Mex/Conversations/Repositories/ConversationRepository.php:415-418 | a `paginate` call can only be the last call, and there is none when the array has no `paginate` key |
| `Queries.ParticipantsOf` | src/Fenos/Mex/Conversations/Repositories/ConversationRepository.php:106 | the `participants` relation holds exactly the conversation's participant rows |
| `Queries.WithoutId` | src/Fenos/Mex/Conversations/Repositories/ConversationRepository.php:172 | keeps exactly the participant rows whose id is not `from` |
| `Queries.ListParticipants` | src/Fenos/Mex/Conversations/Repositories/ConversationRepository.php:166-175 | the conversation's participants, without the rows whose id is `from` exactly when `founder` is present and falsy |
| `Queries.GetMessagesById` | src/Fenos/Mex/Conversations/Repositories/ConversationRepository.php:70-111 | throws iff the conversation does not exist or (`from` given and the pair is Removed); otherwise all participants, and all messages with no `from`, or the messages not hidden from `from`, with the filter calls |
| `Queries.GetMessagesOnArchivedConversation` | src/Fenos/Mex/Conversations/Repositories/ConversationRepository.php:122-143 | throws iff the conversation does not exist or the pair is not Archived; otherwise the messages not hidden from `from` and the filter calls |
| `Queries.Summaries` | src/Fenos/Mex/Conversations/Repositories/ConversationRepository.php:166-199 | lists exactly the conversations in the given state for `from`, each with its participants and preview, and at most once when the ids are distinct |
| `Queries.GetLists` | src/Fenos/Mex/Conversations/Repositories/ConversationRepository.php:164-204 | lists exactly the existing conversations whose state for `from` is Active (no marker), each with its list participants and preview and each once when conversation ids are distinct, plus the filter calls |
| `Queries.GetArchivedLists` | src/Fenos/Mex/Conversations/Repositories/ConversationRepository.php:214-254 | lists exactly the existing conversations whose state for `from` is Archived (an archived = 0 marker), each with its list participants and preview and each once when conversation ids are distinct, plus the filter calls |
| `Queries.ListedContents` | src/Fenos/Mex/Conversations/Repositories/ConversationRepository.php:166-190 | a listed conversation's participants drop `from` exactly under a falsy `founder`, and its preview holds exactly the surviving newest messages |
| `Queries.ListsCoverReadable` | src/Fenos/Mex/Conversations/Repositories/ConversationRepository.php:192-249 | a conversation is in one of the two lists iff `conversationReadable` finds it, and never in both |
| `Queries.NullFromFailsOnlyWhenMissing` | src/Fenos/Mex/Conversations/Repositories/ConversationRepository.php:73-84 | with a null `from`, `getMessagesById` throws iff the conversation does not exist |
| `Queries.FounderValues` | src/Fenos/Mex/Conversations/Repositories/ConversationRepository.php:168-173 | `founder` set to false or "0" drops `from`; absent, true or 2 keeps it |
| `Queries.FounderFilter` | src/Fenos/Mex/Conversations/Repositories/ConversationRepository.php:166-175 | under a falsy `founder` no listed participant has id `from`; otherwise the list participants are all the conversation's participants |
| `Repository.ConversationRepository.FindOrCreate` | src/Fenos/Mex/Conversations/Repositories/ConversationRepository.php:265 | an existing marker of the pair is returned as stored |
| `Repository.ConversationRepository.Archive` | src/Fenos/Mex/Conversations/Repositories/ConversationRepository.php:263-277 | on a successful save the pair's marker becomes 0, so the pair is Archived and only `conversationArchived`/`conversationReadable` find it; on failure nothing changes and false is returned; other pairs keep their state |
| `Repository.ConversationRepository.ForceRemove` | src/Fenos/Mex/Conversations/Repositories/ConversationRepository.php:376-390 | on a successful save the pair's marker becomes 1, no lookup finds the conversation and both message loads throw for every filter array; on failure nothing changes; other pairs keep their state |
| `Repository.ConversationRepository.Restore` | src/Fenos/Mex/Conversations/Repositories/ConversationRepository.php:352-364 | succeeds iff the pair has a marker and `delete()` succeeds, then the marker is gone and `conversationActive` finds the conversation; otherwise nothing changes and false is returned |
| `Repository.RestoreTwice` | src/Fenos/Mex/Conversations/Repositories/ConversationRepository.php:352-364 | after a successful restore a second restore returns false; with no marker both return false |
| `Repository.ArchiveThenRestore` | src/Fenos/Mex/Conversations/Repositories/ConversationRepository.php:352-364 | archive then restore leaves the pair without a marker, every other marker and every table as before, and `conversationActive` finds the conversation iff it exists |
| `Repository.ArchiveThenLookups` | src/Fenos/Mex/Conversations/Repositories/ConversationRepository.php:263-277 | after archive, `conversationActive` finds nothing and `conversationArchived`/`conversationReadable` find the conversation iff it exists |
| `Repository.ForceRemoveThenLookups` | src/Fenos/Mex/Conversations/Repositories/ConversationRepository.php:376-390 | after forceRemove both message loads of that participant throw, and another participant's state is unchanged |
| `Repository.ScenarioSummary` | src/Fenos/Mex/Conversations/Repositories/ConversationRepository.php:176-190 | with messages at times 10 and 20 and nothing hidden, the list entry carries both participants and the time-20 message |
| `Repository.ScenarioLists` | src/Fenos/Mex/Conversations/Repositories/ConversationRepository.php:192-249 | the one-conversation tables are listed by `getLists` iff no marker exists and by `getArchivedLists` iff the marker holds 0 |
| `Repository.ArchiveListScenario` | src/Fenos/Mex/Conversations/Repositories/ConversationRepository.php:164-254 | archive moves the conversation from the list to the archived list with the newest message as preview; restore moves it back |

## Left out

- `create` (:55-58) and `updateTime` (:151-154) are one-line calls into the ORM (`create`, `touch`) with no logic of their own.
- What the ORM does with `orderBy`, `limit` and `paginate` is not modelled. No rows are sorted, cut or paged: loads and lists return every selected row in table order, together with the calls `addFilters` made. For the same reason, the paginator that `getLists`/`getArchivedLists` discard before calling `get()` is not modelled.
- The `groupBy('conversation_id')` in the list previews keeps one database-chosen row among equally new messages. `LastMessages` returns all of them.
- The eager-loaded relation paths `participants.participant` and `messages.participant`, and the `select(raw($from))` column, are ORM and SQL details with no effect on which rows are selected.
- GetArchivedLists: the misspelt `participants.partecipant` path of `getArchivedLists` (:216) is not modelled. Unless the Eloquent class `Participant` defines `partecipant()` (`Participant` is not part of this model), this eager load throws for any archived list with participant rows, and `GetArchivedLists` does not capture that: it always returns the list.
- Find-or-create followed by `save()` can race under concurrent calls. Each operation is modelled as atomic.
- Why `save()` or `delete()` fails is not modelled. Only the boolean outcome is a parameter.
- `DeletedConversation::findOrCreate` is not part of this model. `FindOrCreate` returns the stored row or a new row whose attributes are all unset, written as zeros here.
- `deleted_conversations` is a map, so a pair never has more than one row. Duplicate rows written outside the repository, and the choice `first()` makes among them in `restore`, are not modelled.
- A PHP array never holds a key twice and `conversations.id` is a primary key, but `FilterArray` and `Tables.conversations` admit duplicates. For such inputs `FilterValue` takes the first entry with the key, and `GetLists`/`GetArchivedLists` promise at most one entry per conversation only when the ids are distinct (`DistinctIds`).
- Filter arrays have string keys and scalar values only. PHP's loose `==` between an integer key and `"orderBy"`, and falsy arrays or floats as a `founder` value, are not modelled.
- A null `$from` is modelled only where the code tests for it (`getMessagesById`). For the other operations `$from` is a participant id.
- Conversation timestamps, message bodies and the user records behind participants play no part in the selection and are not modelled.
