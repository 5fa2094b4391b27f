# slick, modelled in Dafny

slick is a ChatOps framework for Slack. A `Bot` keeps a directory cache of
the workspace's users and channels up to date from the real-time event
stream. It fans every event out to the registered listeners, normalises
incoming messages (mentions of the bot, messages the bot wrote, edits) and
queues outgoing replies. This project models that core sequentially:

- `option.dfy`: `Optional`, the usual Option type.
- `text.dfy`: `Text`, the Go `strings`/`strconv` behaviour the core relies
  on: `Contains`, `HasPrefix`, ASCII `ToLower`, `TrimLeft`, the first field
  of `Split`, `Join`, and `Atoi` with its fast path for short strings and
  `ParseInt`'s digit loop, which reports overflow as soon as it happens.
- `slack.dfy`: `SlackTypes`, the Slack records the bot reads (users,
  channels, messages, reactions) and the RTM events it handles.
- `dates.dfy`: `Dates`, `NextWeekdayTime` and `unixFromTimestamp` over
  integer seconds since the Unix epoch (a Thursday).
- `messages.dfy`: `Messages`, the message predicates, the hand-written
  scanner for the mention pattern `<@([A-Z0-9]+)(|([^>]+))>` together with a
  proof that it finds what the regular expression finds, the `Message`
  class with `applyMentionsMe`/`applyFromMe`, and the reply text.
- `directory.dfy`: `Directory`, the cache as values. It covers how a full
  reload builds the maps, how each event changes them, and which join
  requests a connection issues.
- `registry.dfy`: `Registry`, the listener registry. It covers listener
  identity, first-occurrence removal, the deletion drain, the fan-out trace
  of one event, and the reaction filter `ListenReaction` installs.
- `bot.dfy`: `Slick`, the `Bot` class. Its methods do in place what
  bot.go does: the cache loops, the lookup loops, `handleRTMEvent`, one
  pass of `messageHandler`, and the outgoing queue with one pass of
  `replyHandler`. Each is proved against the functions above.
- `healthy.dfy`: `Healthy`, the health-check plugin's `CheckAll` and
  `check`, with the HTTP fetch as an oracle parameter.

Behaviour of bot.go and message.go that the model keeps:

- One pass of `messageHandler` takes a single ready case (one add, one
  delete, or one event) and then drains the pending deletions. An event can
  therefore be handled
  while a listener is still waiting in the add queue, or while a deletion
  queued by another goroutine between passes is still pending. Deletions
  queued before or during a pass are always applied before the next pass.
- A presence change updates a local copy of the user in bot.go, so the
  `Users` map does not change.
- `FromMe` holds only for a non-empty author equal to the bot's id. For an
  edit it looks at the outer event's author, while `FromUser` is resolved
  from the sub-message's author.
- `MentionsMe` and `FromMe` are only ever set, never cleared.
- Handler panics are not recovered in bot.go; the model has no fault path.

## Model

| member | source | states |
|---|---|---|
| Text.IsSubstringIff | message.go:41 | `strings.Contains`' left-to-right scan finds `sub` exactly when it occurs at some offset of `s` |
| Text.ToLower | message.go:50 | lower-casing keeps the length and lowers each character |
| Text.LoweringKeepsSubstring | message.go:49-60 | lower-casing both sides keeps a case-sensitive hit |
| Text.TrimLeft | bot.go:753 | the result is a suffix; everything stripped is the trimmed character; the result does not start with it |
| Text.BeforeFirst | dates.go:39 | the first field of `Split(ts, ".")`: a prefix without '.', ending at the first '.' or at the end |
| Text.BeforeFirstOfJoined | dates.go:39 | splitting `x + "." + y` at the first '.' gives back `x` when `x` has no '.' |
| Text.DigitRun | dates.go:39 | the length of the leading run of digits: all digits before it, a non-digit (or the end) at it |
| Text.Atoi | dates.go:39 | `strconv.Atoi` as called here: a syntax error yields 0, a range error yields the int64 bound on the side of the sign, success only for an optional sign followed by digits, and the value always lies in the int64 range |
| Text.ScanUintOutcome | dates.go:39 | `ParseUint`'s loop stops with a range error exactly when the leading digit run exceeds maxUint64, whatever follows; otherwise it yields the value, or a syntax error at a non-digit |
| Text.AtoiOfDecimal | dates.go:39 | on an optional sign followed by digits, `Atoi` gives the signed value clamped to the int64 range, with a range error when clamped |
| Text.AtoiSyntaxIff | dates.go:39 | a syntax error exactly when no digit follows the sign, or when a non-digit follows a leading digit run that fits in a uint64 |
| Text.OverflowBeforeJunk | dates.go:39 | digits worth more than maxUint64 give (MaxInt64, range error) whatever text follows them |
| Text.AtoiOfRendering | dates.go:39 | `Atoi` reads back the decimal rendering of every int64 without error |
| Dates.NextWeekdayTime | dates.go:14-26 | the returned wait is the result minus `from` |
| Dates.DayOffsetInRange | dates.go:19 | the offset `(w - nowWeekday + 7) % 7` lies in 0..6 and lands on weekday `w` |
| Dates.NextWeekdayTimeLandsOnSlot | dates.go:14-26 | for a weekday in 0..6, hour in 0..23 and minute in 0..59 the result is on weekday `w` at hour:min:00 UTC; the wait is positive and at most a week, and exactly a week iff `from` is that slot |
| Dates.NextWeekdayTimeIsNext | dates.go:20-24 | no matching slot lies strictly between `from` and the result |
| Dates.NextTuesdayNoon | dates_test.go:11-21 | from Tuesday 2018-10-23 12:00 UTC the next Tuesday noon is 2018-10-30 12:00, a week later |
| Dates.NextSundayNoon | dates_test.go:23-40 | from the same instant the next Sunday noon is 2018-10-28 12:00 |
| Dates.UnixFromTimestamp | dates.go:38-41 | the result is in the int64 range; it is 0 when `Atoi` reports a syntax error on the part before the first '.', and the clamped value of that part when it is decimal |
| Dates.UnixFromTimestampWhole | dates.go:38-41 | a timestamp without a '.' reads back as the whole int64 it renders |
| Dates.UnixFromTimestampRoundTrip | dates.go:38-41 | a timestamp rendered as "seconds.fraction" reads back as its seconds, for any fraction |
| Dates.InvalidTimestampIsZero | dates_test.go:61-67 | "invalid" reads as 0 |
| Messages.IsPrivate | message.go:33-36 | private exactly when the channel id starts with 'D' |
| Messages.ContainsAnyCased | message.go:38-46 | true iff some listed string is a case-sensitive substring of the text; false for an empty list |
| Messages.ContainsAny | message.go:48-60 | true iff some listed string, lower-cased, is a substring of the lower-cased text |
| Messages.ContainsAll | message.go:62-75 | true iff every listed string, lower-cased, is a substring of the lower-cased text; true for an empty list |
| Messages.Contains | message.go:77-86 | true iff the lower-cased string occurs at some offset of the lower-cased text |
| Messages.HasPrefix | message.go:88-91 | true iff the text is at least as long as the prefix and agrees with it on every position of the prefix |
| Messages.ContainsIsContainsAnyOfOne | message.go:77-86 | `Contains(s)` answers what `ContainsAny([s])` answers |
| Messages.CasedImpliesUncased | message.go:39-60 | a case-sensitive hit is also a case-insensitive one |
| Messages.PrefixIsContained | message.go:88-91 | a prefix of the text is contained in it |
| Messages.TestMessageContainsThis | message_test.go:67-76 | the test message contains "This" case-sensitively and "this" case-insensitively |
| Messages.PrefixTestMessage | message_test.go:88-91 | the test message has prefix "This" but not "this", and its "C" channel is public |
| Messages.IdRunEnd | message.go:161 | the end of the maximal `[A-Z0-9]` run starting at `i` |
| Messages.NextClose | message.go:161 | the first '>' at or after `i`, or the end of the text |
| Messages.MentionAtIsPattern | message.go:161 | the scanner's test at a position holds iff the regular expression matches there; the maximal id run is a match, and no match captures more |
| Messages.MentionFrom | message.go:149 | the first position at or after `i` where the pattern matches, or none if it matches nowhere after `i` |
| Messages.LeftmostMentionIsRegexMatch | message.go:149-150 | the scanner finds nothing iff the regex matches nowhere; otherwise it captures what the leftmost regex match captures |
| Messages.PublicMentionOfSelf | message_test.go:29-34 | the test's public message "This is a test. <@U2147483697>" mentions the mocked bot U2147483697 |
| Messages.MentionAfterPlainText | message.go:149-150 | text without '<' followed by `<@id>` (a non-empty id of capitals and digits) has `id` as its leftmost mention |
| Messages.MentionFromSkips | message.go:149 | the leftmost-mention search passes over offsets where no mention starts |
| Messages.LaterSelfMentionIgnored | message.go:150-153 | only the leftmost mention counts: `<@U1> <@U97>` does not mention U97 |
| Messages.UnclosedMentionIgnored | message.go:161 | `<@U97` without a closing '>' is no mention |
| Messages.Message.constructor | bot.go:536-540 | a new Message carries the event's Msg and sub-message, with all flags false and nothing resolved |
| Messages.Message.ApplyMentionsMe | message.go:144-153 | MentionsMe becomes true when the message is private or its leftmost mention is the bot; otherwise it keeps its value |
| Messages.Message.ApplyFromMe | message.go:155-159 | FromMe becomes true when the author is non-empty and is the bot; otherwise it keeps its value |
| Messages.EditedMsg | bot.go:544-547 | an edit's text is the sub-message's; every other field is the outer event's |
| Messages.EditJudgedOnNewText | bot.go:542-547 | an edit is tested for mentions on its new text, FromMe still uses the outer author, and FromUser is resolved from the sub-message's author |
| Messages.ReplyTarget | message.go:111-118 | a reply goes to the channel when there is one, otherwise to the author |
| Messages.Format | message.go:166-172 | with no arguments the text comes back unchanged |
| Messages.ReplyMentionText | message.go:128-138 | the reply ends with the given text; "<@name> " is put before it exactly when the message is public and its author is known |
| Directory.IndexKeys | bot.go:257-262 | a rebuilt map has exactly the ids of its input as keys |
| Directory.IndexKeyed | bot.go:799-803 | every entry of a rebuilt map sits under its own id |
| Directory.IndexLastWins | bot.go:264-280 | on an id clash the later input wins |
| Directory.CachedUsersKeys | bot.go:257-262 | cacheUsers keys the map by exactly the fetched ids, each user under its own id, whatever the map held before |
| Directory.CachedChannelsKeys | bot.go:264-280 | cacheChannels keys the map by exactly the ids of channels, groups and IMs, each under its own id, whatever the map held before |
| Directory.CachedChannelsLastWins | bot.go:264-280 | the entry kept for an id is the last record with that id, in the order channels, groups, IMs |
| Directory.ChannelsAfterKeepsIds | bot.go:531-702 | every event keeps each channel stored under its own id |
| Directory.ChangeOfPutsUnderId | bot.go:531-702 | every map write an event makes stores the entry under the id it carries, as long as the map already keeps entries under their own ids |
| Directory.ApplyChangeKeepsIds | bot.go:799-809 | a reload, a write under the entry's own id or a delete keeps every entry under its own id |
| Directory.EditAfter | bot.go:617-682 | a rename, archive or unarchive copies the cached entry (the zero Channel when the id is not cached), changes one field and stores the copy under the id it carries |
| Directory.DropAfter | bot.go:636-702 | a channel delete, group close or IM close drops the entry under the id |
| Directory.StoreAfter | bot.go:622-699 | a join, create or IM open stores the channel the event describes under its own id |
| Directory.UsersAfterKeepsIds | bot.go:596-612 | every event keeps each user stored under its own id |
| Directory.RenameChangesOnlyName | bot.go:617-620 | renaming a cached channel or group changes its Name and nothing else |
| Directory.ArchiveChangesOnlyFlag | bot.go:639-647 | archiving or unarchiving a cached channel or group changes IsArchived and nothing else |
| Directory.UncachedChangeLandsUnderEmptyKey | bot.go:617-682 | renaming, archiving or unarchiving an uncached id stores a zero channel with just the new Name or IsArchived under the empty key |
| Directory.ChannelQuery | bot.go:753 | the query is the name with all leading '#' removed |
| Directory.JoinRequestsTargetNonMembers | bot.go:512-517 | at most one join request per configured name, each for a cached channel the bot is not a member of |
| Directory.LookupGivesOutcome | bot.go:513-516 | whatever the channel lookup may answer, the name's outcome is a request for a non-member hit and nothing otherwise |
| Directory.JoinRequestsExtend | bot.go:512-517 | one more configured name appends its outcome, if any, to the requests made for the earlier names |
| Registry.Listener.constructor | bot.go:717-727 | a listener records which handlers are set and, for a reaction listener, its binding |
| Registry.RemoveFirstSplices | bot.go:423-433 | removal cuts out the first occurrence and keeps both sides in order |
| Registry.RemoveFirstAbsent | bot.go:423-433 | removing an unregistered listener is a no-op |
| Registry.RemoveFirstCounts | bot.go:423-433 | removal shortens the slice by one exactly when the listener is present, dropping one copy of it |
| Registry.DrainAllCounts | bot.go:449-458 | draining removes one copy per queued deletion and nothing else |
| Registry.DrainedListenerIsGone | bot.go:449-458 | a listener deleted at least as often as it was added is gone after the drain |
| Registry.PayloadOf | bot.go:722-726 | an event handler gets the Message when one was built, the raw event otherwise |
| Registry.ReactionFires | bot.go:205-226 | the reaction handler fires iff the payload parses as a reaction, concerns the bound item (timestamp or file), is not the bot's own, and passes the listener's filter |
| Registry.FanOutAppend | bot.go:716-729 | fan-out visits listeners in slice order: over `a + b` it is the fan-out over `a` then over `b` |
| Registry.FanOutReachesOnlyListeners | bot.go:716-729 | only registered listeners receive anything |
| Registry.InFanOut | bot.go:716-729 | a delivery is made iff its listener is registered and that listener's own turn produces it |
| Registry.OfferedIff | bot.go:718-720 | a listener is offered the message iff a Message was built and it has a message handler |
| Registry.HandledIff | bot.go:722-727 | a listener's event handler runs iff it is set, and it gets the Message if one was built, the raw event otherwise |
| Registry.FiredIff | bot.go:203-226 | a reaction handler fires iff its listener is registered with an event handler and all four checks pass |
| Registry.ClosedListenerMissesNextEvent | bot.go:449-458 | a listener removed by the drain receives nothing from the next event |
| Slick.PresentAppend | bot.go:381-382 | queueing a message appends it to what will be sent |
| Slick.Bot.constructor | bot.go:63-75 | a new bot has empty caches, registry and queues |
| Slick.Bot.UpdateChannel | bot.go:799-803 | the channel is stored under its id; every other entry stays |
| Slick.Bot.DeleteChannel | bot.go:805-809 | the entry under the id is dropped (a no-op when absent); every other entry stays |
| Slick.Bot.CacheUsers | bot.go:257-262 | the loop rebuilds the user map to exactly the reload map |
| Slick.Bot.CacheChannels | bot.go:264-280 | the three loops rebuild the channel map to exactly the reload map of channels, then groups, then IMs |
| Slick.Bot.StoreChannels | bot.go:264-280 | one loop of cacheChannels extends the map built so far by its records, in order |
| Slick.Bot.GetUser | bot.go:741-750 | a returned user is cached and matches on email, id, name or real name; none is returned only when no cached user matches |
| Slick.Bot.GetChannelByName | bot.go:752-761 | a returned channel is cached and named like the query without leading '#'; none only when no cached channel is |
| Slick.Bot.GetIMChannelWith | bot.go:764-775 | a returned channel is a cached IM with the user; none only when there is none |
| Slick.Bot.AutoJoinRequests | bot.go:512-517 | per configured name, the id of a non-member channel the lookup found, or nothing when none was found or it is already joined |
| Slick.Bot.AutoJoinOne | bot.go:513-516 | one lookup extends the requests by the outcome for one more configured name |
| Slick.Bot.ApplyDirectoryEvent | bot.go:482-702 | the caches and own id after a non-message event are those the event-level functions give; a connection appends the join requests |
| Slick.Bot.Connect | bot.go:482-517 | a connection records the bot's own id, reloads both caches to exactly the reload maps, and appends the auto-join requests for the new cache |
| Slick.Bot.ApplyChannelChange | bot.go:617-702 | the channel, group and IM arms leave the channel map as the event-level function gives |
| Slick.Bot.RecordTopicChange | bot.go:548-565 | a topic or purpose change is recorded, with author and time, on a cached channel only |
| Slick.Bot.ResolveMessage | bot.go:536-594 | the built Message carries the edited text, IsEdit for edits, the author and channel found in the caches, and the mention and authorship flags |
| Slick.Bot.BuildMessage | bot.go:531-594 | the message arm: channel cache as the event-level function gives, and the resolved Message |
| Slick.Bot.DispatchListeners | bot.go:716-729 | the trace grows by exactly the fan-out over the listeners in order |
| Slick.Bot.Deliveries | bot.go:717-728 | one listener's turn: offered the Message when one was built and it has a message handler; its event handler run on the payload; its reaction handler fired when the filter passes |
| Slick.Bot.HandleRTMEvent | bot.go:462-731 | the new caches, own id and join requests; a Message exactly for message events, fully resolved; and the fan-out of the event appended to the trace |
| Slick.Bot.Listen | bot.go:187-199 | a listener whose parameters check out is queued for adding; otherwise the call fails and nothing is queued |
| Slick.Bot.ListenReaction | bot.go:203-228 | a fresh event-only listener bound to the item and filter is queued like any other |
| Slick.Bot.EnqueueRemoval | bot.go:442-443 | a deletion request joins the end of the delete queue |
| Slick.Bot.RemoveListener | bot.go:423-433 | the search loop and splice leave the slice with its first occurrence of the listener removed |
| Slick.Bot.Drain | bot.go:449-458 | the inner loop applies every queued deletion in order and empties the queue |
| Slick.Bot.Step | bot.go:435-460 | one pass: an add appends the oldest queued listener, a delete removes the oldest queued one, an event is handled and fanned out, with the caches, the bot's own id, the join requests and the built Message exactly as `handleRTMEvent` leaves them; then all queued deletions, including those the handlers made, are applied |
| Slick.Bot.SendOutgoingMessage | bot.go:373-385 | the message to the recipient joins the end of the outgoing queue |
| Slick.Bot.ReplyStep | bot.go:336-347 | the oldest queued entry leaves the queue and is sent unless it is nil; the sent messages stay, in order, the ones queued |
| Slick.Bot.SendToChannel | bot.go:350-371 | queues the text to a cached channel with that name, or queues nothing and returns none when there is no such channel, even with a full queue |
| Slick.Bot.Reply | message.go:111-118 | queues the text to the reply target |
| Slick.Bot.ReplyMention | message.go:128-138 | queues the reply-mention text to the reply target |
| Healthy.Check | healthy/healthy.go:67-81 | healthy iff both the request and the body read succeed and the status is 2xx |
| Healthy.FailedCounts | healthy/healthy.go:50-57 | the failed list holds each URL once per entry of it whose own fetch failed the check, and no other |
| Healthy.FailingEntriesStep | healthy/healthy.go:50-57 | one more entry adds its position to a URL's failing entries exactly when it is that URL and its fetch fails |
| Healthy.AllGreenIffNoneFailed | healthy/healthy.go:58-63 | nothing failed iff every entry's fetch checks out |
| Healthy.CheckAll | healthy/healthy.go:48-65 | with one fetch per entry: all green lists every URL, even for an empty list; otherwise the warning lists the entries that failed, in input order |

## Left out

- Goroutines, channel blocking and `channelUpdateLock`: every operation runs
  as one sequential step. A full outgoing queue would block the sender.
  `Slick.Bot.SendOutgoingMessage`, `Slick.Bot.Reply` and
  `Slick.Bot.ReplyMention` therefore require room in the queue.
  `Slick.Bot.SendToChannel` requires it only when a cached channel matches
  the name, since otherwise it returns before queueing.
- The 500-entry bound of the add and delete queues is not modelled; they are
  unbounded sequences.
- The 50 ms pause after each send in `replyHandler`.
- The Slack connection (`Run`, `ManageConnection`, `Disconnect`) and the bulk
  fetches on connection. The model takes their results as the fields of the
  `Connected` event; it does not model the panics when a fetch fails.
- `JoinChannel` and the send itself: they are recorded in `joinRequests` and
  `sent`.
- The message ids `NewOutgoingMessage` assigns.
- `OpenIMChannelWith`, `SendPrivateMessage` and `ReplyPrivately`: they call
  the Slack API to open a conversation.
- `AddReaction`, `RemoveReaction` and `Message.ListenReaction`: these are
  Slack API calls or a plain forward to `Bot.ListenReaction`.
- The Listener type and its methods (`checkParams`, `filterAndDispatchMessage`,
  `setupChannels`, `launchManager`, `Close`) are not part of this model.
  - `checkParams`' verdict is a parameter of `Slick.Bot.Listen`.
  - The message filter and handler appear only as `Offered` entries of the
    trace.
  - `Close` is `Slick.Bot.EnqueueRemoval`, or the `closes` of an event step.
- `ParseReactionEvent` and `filterReaction` are not part of this model. The
  bot takes the first as an oracle; the reaction binding carries the second.
- Slick.Bot.ListenReaction: assumes the listener `ReactionListener.newListener`
  builds has no message handler of its own. That file is not part of this
  model.
- The `ChannelFromSlack*` converters: connection and join events carry
  already-converted channels.
- Handler bodies, their panics, and the `PubSub`, `DB`, web server and mood
  plugins.
- Configuration loading, the PID file and logging (`logging.go`).
- `Format` with arguments (`fmt.Sprintf`), `Message.String`, and the `Match`
  field.
- Unicode case folding: `ToLower` is modelled on ASCII letters only.
- Dates.NextWeekdayTime: time is whole seconds since the epoch in UTC. The
  duration is in seconds rather than nanoseconds, sub-second parts of `from`
  are not modelled, and the lemmas assume a weekday in 0..6, an hour in
  0..23 and a minute in 0..59.
- `AfterNextWeekdayTime`: it only starts a timer.
- Healthy.CheckAll: fetching a URL is an oracle. The model takes one
  outcome per entry of the URL list, so a URL listed twice can pass once and
  fail once. The `result` map is built as in healthy.go but, as there, not
  returned.
- `message_changed` events without a sub-message make bot.go dereference nil.
  The model requires one (`WellFormed`).
- The case-sensitive negative examples of message_test.go (such as "this"
  not being found in "This is a test.") are not stated as lemmas. The iff
  contracts of the predicates cover them.
- mooder, example-bot, and the asana and plotberry tests.
