# BotChat: message path, verified

A Dafny 4.11 model of the way a chat message takes through this repository: from
the MQTT topic it arrives on, through acceptance, storage under a gapless
sequence number and paging, to what the web and iOS clients show; and of the two
mention scanners, the topic builders and the subscriptions around it.
`dafny verify dfyconfig.toml` checks all of it.

Where the source changes state step by step the model does too: a class per
stateful object, a method per loop, each held to a function of its inputs or its
old state. The properties are then proved of those functions, over every input
and every run. A run is any finite sequence of events; an event that cannot
happen in a state leaves it as it is.

| file | models |
|---|---|
| `MessageLog.dfy` | the message table, the transaction body of a save, the sequential log it refines |
| `SaveProtocol.dfy` | save transactions statement by statement, under an advisory lock on an arbitrary hash |
| `Paging.dfy` | backward and forward pages, and chains of requests against a table that keeps growing |
| `MessageOrder.dfy` | the comparison the web client sorts messages by |
| `ChatStore.dfy` | the web client's message lists, as an object |
| `ChatSession.dfy` | that store against the live server: every interleaving of saves, requests, responses, echoes and sends |
| `Catchups.dfy`, `Mishaps.dfy` | catch-ups among everything else that goes on; runs that end with a lowered watermark or a list without an order |
| `Mentions.dfy`, `AliasLists.dfy` | what a mention is, and how trying aliases in a sorted list finds it |
| `GoMentions.dfy`, `WebMentions.dfy`, `Splices.dfy` | the backend's extractor, the client's extractor and rewriter |
| `MentionAgreement.dfy` | when the two scanners agree, and where they do not |
| `Topics.dfy`, `ClientTopics.dfy` | splitting, printing, normalising and parsing topics: backend, web, extension |
| `Levels.dfy` | what decoding does to the levels of a topic |
| `Routing.dfy` | reading sender and receiver, accepting, storing, and rebuilding the two from the stored row |
| `BotTopics.dfy` | a bot's wildcard filters, its access, its sorted topic list |
| `Realtime.dfy`, `Subscriptions.dfy` | the web client's MQTT tables against the broker, and the context that drives them |
| `Preview.dfy` | the iOS client's stored previews and unread counts |
| `Sorting.dfy`, `FlatMaps.dfy`, `Text.dfy`, `Encodings.dfy` | sorting, flattening, strings, and strings as UTF-8 bytes and UTF-16 units |

Each statement of a save reads the rows committed when it runs; a commit
publishes the row and gives the lock back in one step; the table starts empty and
only grows.

Parameters stand for what the repository takes from elsewhere: the lock hash,
`localeCompare` (a total order on ids), white space and boundary tables,
trimming, UUID parsing and printing, and the letter case folding of the iOS
client.

What turned out to differ from what one might expect of the code:

- `after_seq=0` answers with the newest page, so it starts a chain at the
  beginning only where the log fits into one page (`Paging.ForwardFromZeroIff`).
- A limit above 200 becomes 50 in the handler, while the service it calls would
  make it 200; the handler's branch wins (`Paging.PageSizeRange`). The comment on
  `conversation_id` in the migration names a format no code produces; the model
  follows the code.
- A payload whose id is not a UUID is stored again on every delivery
  (`MessageLog.RedeliveryDedupIff`).
- The message comparison is not an order on every list a client can hold. A run of
  two saves with crossed creation times, a refresh and a send leads to a list on
  which it goes in a circle (`Mishaps.ListGoesInACircle`).
- A late response can take the client's watermark back
  (`ChatSession.WatermarkFallsIff`, and a run in `Mishaps.WatermarkFallsInARun`).
- A bot whose nickname equals its name answers to it on the client and not on the
  backend (`MentionAgreement.NicknameEqualToNameParts`). A bot nicknamed with an at-sign
  in front answers to the rest on the backend, which takes the at-sign off, and not on
  the client (`MentionAgreement.AtSignNicknameParts`). An emoji behind a mention ends it
  on the backend and not on the client (`MentionAgreement.EmojiParts`). Which strings
  mean the same to both is settled for every group by `MentionAgreement.SameMeaningIff`,
  which mentions one table gives both by `MentionAgreement.SameTableScansIff`.
- Normalising a topic twice is not always normalising it once; each round takes one
  layer of percent escapes off (`Topics.NormalizeTwice`).
- A message on a topic escaped twice, such as `chat/group/%2531`, is accepted for the
  group 1 and shown as one to the group %31, because the stored topic is decoded again
  to accept it and not to show it. Escaped once, it comes back unchanged
  (`Routing.EscapedTopicLosesReceiver`).
- Where an escaped slash hides a level of the stored topic, the receiver is rebuilt from
  the group or bot id of the row, so a user who is the receiver is lost
  (`Routing.HiddenUserIsLost`, `Routing.HiddenSlashLosesUser`).
- Ids of two users, or of two bots, in which a character outside the basic plane first
  meets one of U+E000 to U+FFFF are ordered differently by the web client and the
  backend (`ClientTopics.AstralIdsPart`).
- A direct topic that names a bot before a user is accepted by the backend and heard by
  no bot. Between two bots the order does not matter.
- The server's unread counts never raise a count that is zero on the iOS client,
  not even for a conversation it sees for the first time.

## Model

| member | source | states |
|---|---|---|
| `MessageLog.MessageRepository.ExistsByConversationAndMessageID` | backend/internal/repository/message_repo.go:61-67 | true exactly when the conversation has a row with that message id |
| `MessageLog.MessageRepository.CreateWithNextSeq` | backend/internal/repository/message_repo.go:91-113 | the conversation's messages become append-if-absent of the new one, its earlier rows stay a prefix, other conversations keep their rows, and logs stay gapless |
| `MessageLog.NextSeqCounts` | backend/internal/repository/message_repo.go:75-89 | on a gapless log the next number, maximum plus one, is the length plus one |
| `MessageLog.LedgerIsExactlyOnce` | backend/internal/repository/message_repo.go:91-113 | a sequence of saves leaves exactly the ids it delivered, each once |
| `MessageLog.RedeliveryIsInvisible` | backend/internal/service/message_service.go:49-83 | saving an id that was saved before leaves the log as if that delivery had not happened, wherever in the history it comes |
| `MessageLog.RedeliveryDedupIff` | backend/internal/service/message_service.go:338-342 | a redelivered payload leaves the log unchanged if and only if its id parses as a UUID |
| `SaveProtocol.MutualExclusion` | backend/internal/repository/message_repo.go:91-113 | in every reachable state a transaction past the lock is alone on its conversation and on all that share its hash |
| `SaveProtocol.ReachableInv` | backend/internal/repository/message_repo.go:75-113 | the protocol's invariant holds after every interleaving of any number of transactions, with aborts anywhere |
| `SaveProtocol.EveryRunKeepsLogs` | backend/internal/repository/message_repo.go:75-113 | every conversation's committed rows are numbered 1..n in commit order with distinct message ids, for every lock hash |
| `SaveProtocol.NoGapIsVisible` | backend/internal/repository/message_repo.go:75-113 | no reader sees a number without all smaller ones |
| `SaveProtocol.ConstraintNeverFires` | backend/internal/repository/message_repo.go:91-113 | a transaction that has read its number can always insert: uniqueness is never violated |
| `SaveProtocol.NoDeadlock` | backend/internal/repository/message_repo.go:91-113 | while a transaction is unfinished, some transaction can take a step other than aborting |
| `SaveProtocol.LogsOnlyGrow` | backend/internal/repository/message_repo.go:75-113 | continuing a run keeps every log as a prefix |
| `SaveProtocol.RunRefinesLedger` | backend/internal/repository/message_repo.go:91-113 | every concurrent run leaves each log as the sequential append-if-absent of its committed saves, in commit order |
| `SaveProtocol.SaveCompletes` | backend/internal/repository/message_repo.go:91-113 | after any schedule, a save whose lock is free takes effect when its statements run one after the other: it is the next commit, and its message is appended if it was absent |
| `SaveProtocol.ExactlyOnce` | backend/internal/service/message_service.go:49-83 | an id is in a log if and only if a save of it committed, and at one position only |
| `Paging.ReversePage` | backend/internal/repository/message_repo.go:44-48 | the in-place swap loop leaves the array reversed |
| `Paging.GetByConversationID` | backend/internal/repository/message_repo.go:37-49 | returns the backward page in ascending order |
| `Paging.PageSizeRange` | backend/internal/handler/message_handler.go:37-46 | handler and service together ask for the requested number from 1 to 200, and for 50 when the request is out of range, where the service alone would make 200 of more |
| `Paging.PageHasRequestedSize` | backend/internal/handler/message_handler.go:44-46 | through the whole composition and for either cursor: a request for 1 to 200 gets exactly that many messages as far as the log reaches, any other gets 50 |
| `Paging.BackwardPageIsNewest` | backend/internal/repository/message_repo.go:37-49 | a backward page is the newest rows below the cursor, oldest first |
| `Paging.ForwardPageIsNext` | backend/internal/repository/message_repo.go:51-59 | a forward page is the rows right behind the cursor |
| `Paging.ForwardFromZeroIff` | backend/internal/handler/message_handler.go:109-114 | cursor 0 gives the first page if and only if the whole log fits into a page |
| `Paging.RunGivesSnapshots` | backend/internal/repository/message_repo.go:75-113 | successive moments of any run of saves are tables such as the chains below need |
| `Paging.BackwardWalkRebuilds` | backend/internal/service/message_service.go:86-98 | walking backward terminates and rebuilds everything below the first cursor, in order, without gap or repeat, with saves committing during the walk |
| `Paging.ForwardChainIsGapless` | backend/internal/service/message_service.go:100-112 | chained forward pages from a cursor of at least 1 give exactly the rows between it and the final cursor, with saves committing between requests, and advance by full pages until the end |
| `MessageOrder.ComparatorIsOrderIff` | frontend/src/lib/chat.ts:389-421 | on lists as a client holds them the comparison is a strict total order if and only if no unstored message stands, by time, against the row ids of two stored ones |
| `MessageOrder.StoredOrAgreeingListsAreOrdered` | frontend/src/lib/chat.ts:389-421 | it is one when all messages have row ids, or row ids agree strictly with time |
| `MessageOrder.UnstoredListsAreOrdered` | frontend/src/lib/chat.ts:389-421 | it is one when no message has a row id, all share a topic, and all or none are numbered |
| `MessageOrder.DisplayedListIsUnique` | frontend/src/lib/chat.ts:389-421 | where it is an order, the sorted list does not depend on the order the messages came in |
| `MessageOrder.SortTimeIs` | frontend/src/lib/chat.ts:406-421 | a message is sorted by its creation, else by its timestamp, the same instant whether in seconds or milliseconds, else zero |
| `MessageOrder.UnstoredBeforeIff` | frontend/src/lib/chat.ts:389-404 | where one of two has no row id: by time, then on one topic by sequence number if both have one, then by id |
| `Mishaps.ListGoesInACircle` | frontend/src/lib/chat.ts:389-421 | a run of two saves, a refresh and a send after which the client's three messages come before each other in a circle |
| `ChatStore.Store.MergeConversationMessages` | frontend/src/contexts/ChatContext.tsx:68-86 | the two loops over an id-keyed map give the merged, sorted list |
| `ChatStore.Store.HighestSeq` | frontend/src/contexts/ChatContext.tsx:234-242 | the loop gives the highest sequence number, or the start value |
| `ChatStore.Store.UpsertMessage` | frontend/src/contexts/ChatContext.tsx:108-153 | one message laid over the list; the watermark rises to its number if that is higher; other conversations stay |
| `ChatStore.Store.CompleteRefresh` | frontend/src/contexts/ChatContext.tsx:211-249 | the page laid over the list, and the watermark set to its highest number if there is one; a session's refresh completes by the same function |
| `ChatStore.Store.CompleteCatchup` | frontend/src/contexts/ChatContext.tsx:251-297 | nothing for an empty page, else the page laid over the list and the watermark set; a session's catch-up completes by the same function |
| `ChatStore.Store.SendFailed` | frontend/src/contexts/ChatContext.tsx:373-389 | exactly the entries with that id are marked failed and no longer pending |
| `ChatStore.LoadedContents` | frontend/src/contexts/ChatContext.tsx:68-86 | after a merge ids are unique, are those of list and page together, and settled messages are still settled |
| `ChatStore.UpsertedContents` | frontend/src/contexts/ChatContext.tsx:108-128 | the same for one message, which is settled unless it was sent as pending and is new |
| `ChatStore.MergedHoldsIff` | frontend/src/contexts/ChatContext.tsx:68-86 | an entry is in the merged list if and only if it is the last existing one of an id that does not come in, or has every field of the last incoming message of its id, flags cleared, with the last row id known for that id |
| `ChatStore.LoadedHoldsIff` | frontend/src/contexts/ChatContext.tsx:211-249 | the same for a page: the known row id stays exactly where the message has none |
| `ChatStore.UpsertedHoldsIff` | frontend/src/contexts/ChatContext.tsx:108-128 | one message gives an entry of its id all its fields, flags cleared, and keeps the row id where it has none; a new one comes in as it is; other entries stay |
| `ChatStore.ReceivedWatermark` | frontend/src/contexts/ChatContext.tsx:147-152 | one message raises the watermark to its number if that is higher, and never lowers it |
| `ChatStore.FailedHoldsIff` | frontend/src/contexts/ChatContext.tsx:373-389 | after a failed send exactly the entries of that id are failed and not pending, all else as before |
| `ChatStore.UniqueIdsArePermuted` | frontend/src/contexts/ChatContext.tsx:68-86 | sorting, under whatever comparison, leaves one entry per id |
| `ChatSession.Step` | frontend/src/contexts/ChatContext.tsx:108-394 | every event keeps the session invariant, keeps all ids and adds exactly those it brings |
| `ChatSession.ReachableInv` | frontend/src/contexts/ChatContext.tsx:108-394 | the session invariant holds after every interleaving, and the ids held are those handed over |
| `ChatSession.WindowIsHeld` | frontend/src/contexts/ChatContext.tsx:147-152 | however responses, saves, echoes and sends interleave, the client holds every committed message numbered within 50 of its watermark |
| `ChatSession.OneEntryPerId` | frontend/src/contexts/ChatContext.tsx:68-86 | the list has exactly one entry for each distinct id the run has handed to the client |
| `ChatSession.EntriesStay` | frontend/src/contexts/ChatContext.tsx:108-128 | over any continuation no id disappears and no settled message becomes pending again |
| `ChatSession.ResponseRowsStayStored` | frontend/src/contexts/ChatContext.tsx:68-86 | a completed response leaves each of its rows in the list as stored, field by field, and in every later state an entry of that id with that row id |
| `ChatSession.RowIdsStay` | frontend/src/contexts/ChatContext.tsx:75-83 | a row id once learnt is kept over any continuation |
| `ChatSession.ReachableListsAreWellformed` | frontend/src/lib/chat.ts:389-421 | in every reachable state the comparison sorts the list if and only if nothing is straddled |
| `ChatSession.ReachableOrder` | frontend/src/contexts/ChatContext.tsx:108-128 | in every reachable state the list stands in the order of the comparison wherever that is an order on it |
| `ChatSession.SameMessagesSameList` | frontend/src/contexts/ChatContext.tsx:68-128 | after any two runs that leave the same messages, nothing straddled, the lists are the same, element by element |
| `ChatSession.ServerRowsListInSequence` | frontend/src/contexts/ChatContext.tsx:211-249 | rows loaded into an empty list are shown in sequence order |
| `ChatSession.WatermarkFallsIff` | frontend/src/contexts/ChatContext.tsx:234-248 | a response takes the watermark back if and only if its page is not empty and ends below it |
| `Mishaps.LateRefresh` | frontend/src/contexts/ChatContext.tsx:234-248 | a refresh answered early and completed late takes the watermark from the end of the log back to where the log ended when it was answered |
| `Mishaps.WatermarkFallsInARun` | frontend/src/contexts/ChatContext.tsx:234-248 | a run in which it falls from 2 to 1 |
| `Catchups.CatchupOutcome` | frontend/src/contexts/ChatContext.tsx:251-297 | whatever happens between issue, answer and completion, other responses included: if the log as answered was longer than the watermark at issue, completing sets the watermark a full page further or to the end of that log, strictly higher; otherwise it leaves the watermark alone; every row from the watermark at issue to the end of the page is then on the client |
| `Catchups.CatchupAdvances` | frontend/src/contexts/ChatContext.tsx:251-297 | with no other response in between the watermark strictly advances if and only if the log was longer when the catch-up was answered, and the client has every row between the old and the new watermark |
| `Catchups.CatchupsReachTheEnd` | frontend/src/contexts/ChatContext.tsx:251-302 | n catch-ups one after the other, with saves, sends, echoes and other requests at any moment between, bring the watermark n full pages further or to where the log ended at the start, and never past the log; the client then has every row the watermark has come past |
| `Catchups.CatchupsOverRuns` | frontend/src/contexts/ChatContext.tsx:251-302 | the same for every run that ends in such catch-ups |
| `Catchups.QuietCatchupsReachTheEnd` | frontend/src/contexts/ChatContext.tsx:251-302 | while the log does not grow, exactly n full pages or the end of the log |
| `Mentions.ScanIsLeftmostLongest` | backend/internal/service/message_service.go:528-560 | a list of spans is the scan if and only if they are longest mentions, disjoint and increasing, and every at-sign that begins a mention lies within one |
| `Mentions.FirstSeenKeepsFirsts` | backend/internal/service/message_service.go:525-552 | the output has every id once, in the order of first occurrence |
| `Mentions.AtSigns` | backend/internal/service/message_service.go:534-537 | both at-signs begin the same mention, and no other character begins one |
| `AliasLists.FirstFit` | backend/internal/service/message_service.go:536-543 | the loop over aliases stops at the first that fits |
| `AliasLists.FirstFitIsBest` | backend/internal/service/message_service.go:536-555 | in a list sorted longest first, by any measure that grows with extension, the first alias that fits is the longest eligible one |
| `Encodings.LengthsCount` | backend/internal/service/message_service.go:522-527 | the measures aliases are sorted by are the lengths in UTF-8 bytes and in UTF-16 units |
| `AliasLists.AliasAt` | frontend/src/components/Chat/ChatInput.tsx:599-616 | at an at-sign the loop finds the mention the specification names, or none |
| `AliasLists.SortKeepsFirstWins` | frontend/src/components/Chat/ChatInput.tsx:582 | a stable sort by length does not change which bot an alias means |
| `GoMentions.GroupAliases` | backend/internal/service/message_service.go:498-504 | the map holds every alias with all its listings, in order |
| `GoMentions.UsableAliases` | backend/internal/service/message_service.go:511-520 | exactly the aliases listed once, in any order the map yields |
| `GoMentions.GoSortIsDetermined` | backend/internal/service/message_service.go:522-527 | the sorted alias list is the same for every order of the map, and longest first |
| `GoMentions.MemberOrderDoesNotMatter` | backend/internal/service/message_service.go:492-563 | reordering the member list changes no output |
| `GoMentions.ScanText` | backend/internal/service/message_service.go:528-563 | the index loop gives the first-occurrence list of bots of the leftmost-longest scan |
| `GoMentions.ExtractMentionedBotIDs` | backend/internal/service/message_service.go:492-563 | the whole extractor does, over the aliases listed exactly once |
| `GoMentions.MergeMentionedBotIDs` | backend/internal/service/message_service.go:431-450 | the nested loops give the trimmed, non-empty ids without repeats, in order |
| `GoMentions.MergeKeepsClientList` | backend/internal/service/message_service.go:388-391 | where the client found every bot the server finds, the merge is the client's list |
| `GoMentions.AliasIsTrimmed` | backend/internal/service/message_service.go:580-582 | an alias has no outer white space, and one leading at-sign is taken off between two trims |
| `WebMentions.WebSort` | frontend/src/components/Chat/ChatInput.tsx:577-582 | the client's candidates are longest first in UTF-16 units, and mean what they meant |
| `WebMentions.Rewrite` | frontend/src/components/Chat/ChatInput.tsx:584-621 | the loop gives the mentioned bots in order and the text with exactly the mentions replaced by their tokens |
| `WebMentions.EncodeMentionedBots` | frontend/src/components/Chat/ChatInput.tsx:568-627 | the whole encoder does; a normalized body is returned exactly when there is a mention |
| `WebMentions.MentionsChangeText` | frontend/src/components/Chat/ChatInput.tsx:622-626 | the rewritten text differs from the text if and only if there is a mention |
| `WebMentions.TokensDiffer` | frontend/src/components/Chat/ChatInput.tsx:608 | two bots have the same token if and only if they are the same |
| `WebMentions.MentionsReadBack` | frontend/src/components/Chat/ChatInput.tsx:584-626 | at each known place the normalized body has `<@bot:`, exactly the id mentioned there, and `>`, so the list of mentioned bots can be read back off it |
| `WebMentions.NormalizedIsReversible` | frontend/src/components/Chat/ChatInput.tsx:584-626 | the tokens stand at known places of the normalized body, and putting the mentions back there yields the text |
| `Splices.SpliceIsUndone` | frontend/src/components/Chat/ChatInput.tsx:584-626 | replacing any disjoint increasing spans can be undone at the places they moved to |
| `MentionAgreement.SamePassIff` | backend/internal/service/message_service.go:528-560 | two left-to-right passes find the same spans if and only if their finders agree wherever the first one looks |
| `MentionAgreement.SameTableScansIff` | frontend/src/components/Chat/ChatInput.tsx:629-635 | with one table, client and backend find the same mentions if and only if each the backend finds ends with the text or before a character of the basic plane |
| `MentionAgreement.ScannersAgreeIff` | frontend/src/components/Chat/ChatInput.tsx:568-635 | on lists with the same, pairwise distinct aliases, each sorted its own way: under exactly that condition |
| `MentionAgreement.BearsIff` | frontend/src/components/Chat/ChatInput.tsx:537-551 | on the client a bot goes by its trimmed nickname and its trimmed name, where not blank, and by nothing else |
| `MentionAgreement.CandidateIff` | frontend/src/components/Chat/ChatInput.tsx:537-542 | a member is offered for mention if and only if it has an id and a nickname that is not blank or a name that is not empty |
| `MentionAgreement.ListedIff` | backend/internal/service/message_service.go:565-582 | the backend lists a bot under its id and its normalised nickname and name, where not blank, and under nothing else |
| `MentionAgreement.SameMeaningIff` | backend/internal/service/message_service.go:498-520 | in any group any string means the same to both if and only if nobody goes by it on the client and the backend does not list it exactly once, or somebody does and the backend lists it once, as a name; where it begins with an at-sign, the one listing has to be for the first who goes by it |
| `MentionAgreement.NameMeaningIff` | backend/internal/service/message_service.go:511-515 | a string that is nobody's id and does not begin with an at-sign: if and only if the backend lists it once and somebody goes by it on the client, or neither |
| `MentionAgreement.GroupScansIff` | backend/internal/service/message_service.go:492-591 | in a text in which every string the scan comes to means one thing, both find the same mentions if and only if none of the backend's ends before a character outside the basic plane |
| `MentionAgreement.GroupScannersAgree` | frontend/src/components/Chat/ChatInput.tsx:568-627 | and then the same bots in the same order |
| `MentionAgreement.AtSignNicknameParts` | backend/internal/service/message_service.go:580-582 | for a bot with one name, a nickname with an at-sign in front, the text of an at-sign and the rest mentions it on the backend and nobody on the client |
| `MentionAgreement.NicknameEqualToNameParts` | backend/internal/service/message_service.go:511-515 | for a bot whose nickname is its name, the text of an at-sign and that name mentions it on the client and nobody on the backend |
| `Topics.SplitTopic` | backend/internal/service/message_service.go:751-762 | the loop splits at every slash |
| `Topics.JoinOfSplit` | backend/internal/model/response/message_response.go:261-272 | joining what was split gives the topic back |
| `Topics.SplitOfJoinIff` | backend/internal/service/message_service.go:751-762 | splitting what was joined gives the parts back if and only if none holds the separator |
| `Topics.CanonicalKeepsPeers` | backend/internal/service/message_service.go:656-672 | canonical order keeps both peers, and a second time changes nothing |
| `Topics.SwapInvariantIff` | backend/internal/service/message_service.go:656-687 | it ignores who is named first if and only if not two different kinds of equal rank share an id |
| `Topics.KindsInOrder` | backend/internal/service/message_service.go:674-687 | user, bot, channel and system stand in this order, all other kinds behind them, whatever the ids |
| `Topics.IdsInOrder` | backend/internal/service/message_service.go:656-672 | among peers of one kind the lower id stands left |
| `Encodings.LessIsByteOrder` | backend/internal/service/message_service.go:667-671 | lower means: in the order of the UTF-8 bytes |
| `Topics.NormalizeFixedIff` | backend/internal/service/message_service.go:240-267 | any reference is left alone if and only if it has no leading slash, no outer white space, no well-formed escape and not the older form with colons |
| `Topics.UnescapeEscapes` | backend/internal/service/message_service.go:246-248 | decoding gives back any bytes from their escapes, in lower or upper case |
| `Topics.OneSlashPerRound` | backend/internal/service/message_service.go:240-241 | one round takes off one leading slash, and none behind white space |
| `Text.TrimmerTrims` | backend/internal/service/message_service.go:241 | taking white space off both ends has the properties asked of trimming elsewhere |
| `Topics.NormalizeIdempotentIff` | backend/internal/service/message_service.go:240-267 | normalising twice is normalising once if and only if what one round leaves has nothing more to take off |
| `Topics.OldFormIdempotentIff` | backend/internal/service/message_service.go:254-266 | for a reference in the older form: if and only if the topic it means is trimmed and without escapes |
| `Topics.ParseOfNormalizedIff` | backend/internal/service/message_service.go:601-621 | a route read from the normalised reference is the one read from the reference if and only if normalising is idempotent on it |
| `Topics.LegacyMeans` | backend/internal/service/message_service.go:254-266 | references with colons mean the canonical direct topic, or the topic of the group named last |
| `Topics.ParseOfBuiltIff` | backend/internal/service/message_service.go:601-630 | a printed direct topic is parsed to the canonical pair if and only if no kind or id holds a slash and normalising leaves the topic alone; it does where no kind or id holds a percent sign and no id has outer white space |
| `Topics.ParseOfGroupIff` | backend/internal/service/message_service.go:611-627 | the same for group topics |
| `ClientTopics.WebLessIff` | frontend/src/lib/chat.ts:306-318 | comparison by UTF-16 units is comparison by characters, turned round if and only if the strings cross |
| `ClientTopics.BuildersAgreeIff` | frontend/src/lib/chat.ts:285-327 | web client and backend print one topic for two users or bots if and only if the kinds differ or the ids do not cross |
| `ClientTopics.BuildersIgnoreSides` | frontend/src/lib/chat.ts:285-327 | each of them prints one topic, whoever is named first |
| `ClientTopics.AsciiNeverCrosses` | extensions/openclaw-bot-chat/src/runtime.ts:177-187 | ASCII ids never cross |
| `ClientTopics.WebRoundTrip` | frontend/src/lib/chat.ts:285-318 | the client reads back the two peers it printed if and only if no id holds a slash |
| `ClientTopics.BackendReadsWebTopicIff` | backend/internal/service/message_service.go:601-630 | the backend reads the two peers the client printed if and only if, besides, normalising leaves the topic alone |
| `ClientTopics.ParsersAgreeIff` | frontend/src/lib/chat.ts:36-54 | on a topic the backend recognises the client reads the same peers or group if and only if normalising leaves it alone |
| `ClientTopics.ExtensionGroupTopicIsStable` | extensions/openclaw-bot-chat/src/runtime.ts:149-152 | given a group's id or its topic, the extension's builder gives the topic |
| `ClientTopics.ExtensionIgnoresSlashes` | extensions/openclaw-bot-chat/src/runtime.ts:149-152 | leading slashes and outer white space make no difference |
| `ClientTopics.InferUserIff` | extensions/openclaw-bot-chat/src/runtime.ts:197-212 | a bot infers a user from a topic if and only if the topic is that of the two |
| `ClientTopics.InferUserEitherWay` | extensions/openclaw-bot-chat/src/runtime.ts:197-212 | the same on topics that name the two in either order |
| `Routing.NormalizeIncomingMessage` | backend/internal/service/message_service.go:269-336 | the field-by-field reading gives topic, sender, receiver and ids as the functions below say |
| `Routing.SenderIsRead` | backend/internal/service/message_service.go:288-292 | each field of the sender is that of `from` where not blank, else the payload's own; without `from` those two as they are; a missing kind is system |
| `Routing.ReceiverIsRead` | backend/internal/service/message_service.go:293-302 | the receiver is the one named in full, else the other side of a direct topic of which the sender is one side, else as open as it was |
| `Routing.ConversationIsRead` | backend/internal/service/message_service.go:270 | the topic a payload came on counts, else the conversation it names, else its topic |
| `Routing.IdsAreRead` | backend/internal/service/message_service.go:323-334 | bot and group ids are the payload's own; else the sending or else the receiving bot, and the topic's or else the receiving group |
| `Routing.HandleIncomingMessage` | backend/internal/service/message_service.go:49-63 | accepts exactly the messages that declare no other conversation, have a body, and are for the group of their topic or between its two different peers |
| `Routing.BuiltTopicIsAccepted` | backend/internal/service/message_service.go:49-63 | from the wire to the verdict: a payload from one peer to another or to a group, on the topic printed for them, with a body and no other conversation declared, is accepted as from the one to the other |
| `Routing.WebPayloadIsDelivered` | frontend/src/contexts/ChatContext.tsx:361-369 | what the web client sends from a user to a bot is accepted with exactly that sender, receiver, topic and bot id, and shown again so if and only if the user's id is a canonical UUID |
| `Routing.LegacyDeclarationAgrees` | backend/internal/service/message_service.go:58-61 | declaring the conversation in the older form with colons is no mismatch |
| `Routing.DirectAcceptedIff` | backend/internal/service/message_acl.go:193-216 | a direct message is accepted if and only if it has a body and sender and receiver are the two different peers of its topic |
| `Routing.ReceiverMayBeOpen` | backend/internal/service/message_service.go:297-302 | a payload that names no receiver is accepted if and only if its topic is direct, between two different peers, and the sender one of them |
| `Routing.FiledUnderPeers` | backend/internal/service/message_service.go:323-334 | without ids of its own an accepted payload is filed under a bot exactly when a peer is one, and under its topic's group |
| `Routing.SenderRebuiltIff` | backend/internal/model/response/message_response.go:205-214 | the sender rebuilt from the row is the accepted one if and only if its id is a canonical UUID, or empty with no bot id to stand in |
| `Levels.NormalizedLevels` | backend/internal/service/message_service.go:246-248 | normalising leaves a chat topic no fewer levels, and where as many, none longer, and one as long unchanged |
| `Routing.GroupReceiverIff` | backend/internal/model/response/message_response.go:229-233 | on a stored group topic the receiver is rebuilt if and only if normalising leaves the stored topic alone |
| `Routing.DirectReceiverIff` | backend/internal/model/response/message_response.go:216-229 | on a stored direct topic: if and only if its levels as they stand name the receiver, in terms of the raw and the decoded peers |
| `Routing.PeersRebuiltIff` | backend/internal/model/response/message_response.go:205-252 | every accepted message gets its sender and receiver back if and only if the sender survives storing and the receiver is still named: by the stored topic, not decoded again, or, where an escaped slash hides its levels, by the ids the row is filed under |
| `Routing.FiledReceiverIff` | backend/internal/model/response/message_response.go:237-251 | on a stored topic of neither shape: if and only if the receiver is a group and the group id parses and prints as its id, or a bot, no group id parses, and the bot id prints as its id and not as the sender's |
| `Routing.HiddenSlashLosesUser` | backend/internal/model/response/message_response.go:237-251 | a bot's message to a user on the stored topic `chat/dm%2Fuser/U/bot/B` is accepted and comes back as one to nobody |
| `Routing.FixedTopicPeersIff` | backend/internal/model/response/message_response.go:205-252 | on a stored topic that normalising leaves alone only the sender counts |
| `Routing.DirectPeersRebuiltIff` | backend/internal/model/response/message_response.go:216-229 | on direct topics the sender's id has to be a canonical UUID |
| `Routing.DeliveredPeersIff` | backend/internal/service/message_service.go:269-370 | the same from the wire to the response, on any topic and for any payload |
| `Routing.SettledTopicPeersIff` | backend/internal/service/message_service.go:269-370 | on every chat topic that one round of decoding settles, percent-free and once escaped ones among them, only the sender counts |
| `Routing.EscapedGroupComesBackAs` | backend/internal/model/response/message_response.go:229-233 | a message on a wire topic that decodes in two rounds is accepted for the group of the second and comes back as one to the group of the first |
| `Routing.EscapedTopicLosesReceiver` | backend/internal/model/response/message_response.go:229-233 | on `chat/group/%2531` the receiver is lost, on `chat/group/%31` it is not |
| `BotTopics.HeardIff` | backend/internal/service/message_acl.go:98-105 | a topic matches one of a bot's three filters if and only if the bot stands right of a user or bot, or left of a bot |
| `BotTopics.CanonicalTopicsHeardIff` | backend/internal/service/message_acl.go:98-105 | the canonical topic of a bot and a peer is matched if and only if the peer is a user or a bot |
| `BotTopics.ReversedTopicIsMissed` | backend/internal/service/message_acl.go:98-105 | a topic that names a bot before a user is matched by no bot's filters |
| `BotTopics.ReversedTopicIsAccepted` | backend/internal/service/message_acl.go:193-216 | messages on it are accepted if and only if they are between the two |
| `BotTopics.BotPairsAreHeardEitherWay` | backend/internal/service/message_acl.go:98-105 | a topic of two bots, in either order, is matched by exactly those two |
| `BotTopics.HeardTopicsAreReadable` | backend/internal/service/message_acl.go:49-73 | every matched topic it may read if and only if normalising leaves six levels with neither id empty; where it leaves six, the bot is a participant |
| `BotTopics.AccessFollowsAcceptance` | backend/internal/service/message_acl.go:49-73 | a bot may read a conversation if and only if accepted messages there come from it or go to it, or to a group it is a member of |
| `BotTopics.GroupAccessIff` | backend/internal/service/message_acl.go:53-65 | on the topic of a group: allowed if and only if the id parses to a group the bot is a member of, a bad reference if and only if it does not parse, else denied |
| `BotTopics.DirectAccessIff` | backend/internal/service/message_acl.go:66-72 | on the topic of two peers exactly the two may read |
| `BotTopics.UniqueSortedTopics` | backend/internal/service/message_acl.go:228-249 | the loop and the sort give the list the next row characterises |
| `BotTopics.UniqueSortedIff` | backend/internal/service/message_acl.go:228-249 | a list is that result if and only if it is strictly increasing and holds exactly the normalised topics that are not empty |
| `BotTopics.ListBotRealtimeTopics` | backend/internal/service/message_acl.go:98-130 | filters, conversations that are not direct and active groups, normalised, unique and sorted |
| `BotTopics.ListHoldsIff` | backend/internal/service/message_acl.go:98-130 | a topic is on the list if and only if it is what normalising makes of a filter, of a conversation without a direct route, or of the topic of an active group, and not empty |
| `BotTopics.ListCovers` | backend/internal/service/message_acl.go:98-130 | whatever else it holds, a bot's list covers every canonical topic it shares with a user or a bot |
| `Realtime.MqttClient.Subscribe` | frontend/src/lib/mqtt.ts:208-228 | adds the handler, raises the recorded quality of service, tells the broker while connected |
| `Realtime.MqttClient.Dispose` | frontend/src/lib/mqtt.ts:230-248 | removes the handler, and with the last one the topic; a second call does nothing |
| `Realtime.MqttClient.OnConnect` | frontend/src/lib/mqtt.ts:52-67 | from the empty session the loop brings the broker to the whole table |
| `Realtime.MessagesReachLiveHandlers` | frontend/src/lib/mqtt.ts:83-89 | over any run a message reaches exactly the handlers subscribed to its topic, or to `*`, and not disposed of since |
| `Realtime.ReachableConsistent` | frontend/src/lib/mqtt.ts:33-66 | in every reachable state both tables have the same topics, each with a handler, and the connected broker has the table |
| `Realtime.SubscribedIffLive` | frontend/src/lib/mqtt.ts:208-248 | a topic is subscribed if and only if some handler was subscribed and not disposed of since |
| `Realtime.RecordedIsHighestAsked` | frontend/src/lib/mqtt.ts:214-218 | the recorded quality of service is the highest asked for since the topic last had no handler |
| `Realtime.RecordedIsOneIff` | frontend/src/lib/mqtt.ts:214-218 | it is 1 if anybody has asked for 1 or more since then, else 0 |
| `Subscriptions.ChatSubscriptions.EnsureTopicSubscription` | frontend/src/contexts/ChatContext.tsx:155-191 | one fresh handler for a topic that is not empty and not yet listened to |
| `Subscriptions.ChatSubscriptions.Reconcile` | frontend/src/contexts/ChatContext.tsx:510-528 | the two loops of the effect drop what is not wanted and subscribe what is missing |
| `Subscriptions.ChatSubscriptions.UnsubscribeAll` | frontend/src/contexts/ChatContext.tsx:408-411 | everything the context listens to is dropped |
| `Subscriptions.ReconciledTopics` | frontend/src/contexts/ChatContext.tsx:510-528 | afterwards the context listens to exactly the wanted topics that are not empty; those it had keep handler and quality of service, new ones get what is configured |
| `Subscriptions.ListensToWished` | frontend/src/contexts/ChatContext.tsx:155-191 | in every reachable state client and connected broker have exactly the topics that the effect, or opening a conversation or sending, has asked for and no later effect has left out |
| `Subscriptions.ListensToLatest` | frontend/src/contexts/ChatContext.tsx:310-341 | after an effect and calls outside it: exactly the wanted topics and the non-empty ones ensured since |
| `Preview.PreviewStore.UpsertMessages` | clawchat-ios/clawchat/SQLiteTest.swift:208-281 | every message in turn is offered as preview; counts stay |
| `Preview.PreviewStore.SyncConversationPreview` | clawchat-ios/clawchat/SQLiteTest.swift:134-143 | the count becomes zero for an own message or an open conversation and one more otherwise; the preview is the message or what it was, and no older than either; no other conversation changes |
| `Preview.PreviewStore.UpdateConversationPreview` | clawchat-ios/clawchat/SQLiteTest.swift:303-366 | the row is read, merged field by field and written back |
| `Preview.PreviewStore.UpsertConversations` | clawchat-ios/clawchat/SQLiteTest.swift:283-288 | every remote conversation in turn is merged |
| `Preview.PreviewStore.MarkConversationRead` | clawchat-ios/clawchat/SQLiteTest.swift:145-154 | the count is zero, the preview and every other conversation as before, and no conversation appears |
| `Preview.PreviewIsLatestOffer` | clawchat-ios/clawchat/SQLiteTest.swift:283-366 | over any run a conversation's preview is the newest snippet ever offered for it, the last of equally new ones |
| `Preview.PreviewIs` | clawchat-ios/clawchat/SQLiteTest.swift:617-637 | a message shows its text at its own time, else at that of its creation, else at zero |
| `Preview.StampOrders` | clawchat-ios/clawchat/SQLiteTest.swift:639-641 | a snippet without a time is never newer than another |
| `Preview.CountsNeverNegative` | clawchat-ios/clawchat/SQLiteTest.swift:350-382 | no stored count is negative if no remote one is |
| `Preview.UnreadHasCause` | clawchat-ios/clawchat/SQLiteTest.swift:350-382 | a count is above zero only after somebody else's message in the closed conversation, with nothing clearing it since |
| `Preview.UnreadCountsRaises` | clawchat-ios/clawchat/SQLiteTest.swift:350-366 | without remote lists it is the number of such messages since it was last cleared |
| `Preview.CountAfterSync` | clawchat-ios/clawchat/SQLiteTest.swift:643-645 | an own message is told by the normalised ids; it, or one in the open conversation, makes the count zero, any other one more |
| `Preview.RemoteUnread` | clawchat-ios/clawchat/SQLiteTest.swift:368-382 | a list of the server's leaves a zero count zero, clears it with a zero, and else sets it to the last count it has |

## Left out

- Foreign code: HTTP handlers beyond limits and cursors, gin, gorm, JWT, object storage, audit logs, SQL and JSON encodings. Tables are sequences and maps.
- The `is_deleted` filter of the queries: nothing in the repository deletes a message.
- `MarkAsRead`, conversation lists and unread counts on the server: they add only easy members.
- Message bodies and metadata: decoding content, assets, resolved URLs. `Routing` takes the body as given, and `Routing.Payload` leaves out the fields about neither peers nor ids.
- Field-level convergence of merged client messages over whole runs: an echo spreads an undefined `seq` over a stored one. What one merge leaves in every field is stated; over runs ids, row ids and flags are followed.
- React's batching: each update of the store is one step. A web conversation has one topic, as the client builds them.
- Echoes of other senders that do carry a `seq`: those of the senders in this repository do not.
- Indices are characters, where Go counts bytes and JavaScript UTF-16 units; strings are well-formed Unicode, except in percent-decoding, where a character stands for a byte. The two agree on percent-free strings.
- The white space and punctuation tables of Go and JavaScript differ in a few characters; the mention scanners are compared with one trimming function and one table.
- The MQTT wire protocol. A connection is up or not, a request is effective at once, a new connection starts from an empty session. The client library's own resubscription on reconnect is not part of this model.
- The reconnect backoff, credentials and connection promises of the MQTT client.
- `HandlersOf` order: the set of handlers a message reaches is modelled, not the order they are called in.
- Users' access to conversations through bots they own, and users' topic lists: the same case analysis as for bots.
- The extension's history recovery: it expects another response shape than the backend's and does not advance its checkpoints.
- iOS `highestSequence`, names, avatars and metadata of previews.
- 64-bit overflow of sequence numbers and unread counts.
- Group capacity: a count check without a shared transaction does not hold under concurrency.
- UnreadHasCause: one direction only, because a remote list may set a raised count to any value, zero included (`Preview.RemoteUnread` says which).
- The text of a preview: trimming, and the placeholders for messages without any.
