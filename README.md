# Room events of a chat-and-poll app, modelled in Dafny

This project models the room-event core of a small chat-and-poll application. It has three parts.

- **Server, chat commands** (`server/controllers/chatController.js`): room history, sending, editing,
  deleting and marking messages as seen.
- **Server, poll commands** (`server/controllers/pollController.js`): creating a poll, voting once per
  poll, and listing a room's polls.
- **Client feed** (`frontend/src/App.jsx`): the socket listeners as pure `prev -> next` updates of one
  feed of `chat`/`poll` events sorted by creation time. The poll form's check on submit and the poll
  widget's `hasVoted` guard are part of it too.

The two MongoDB collections are maps from id to document (`ChatController.ChatServer`,
`PollController.PollServer`). Each has a counter that issues ids, so ascending id is insertion order.
Each handler is one atomic step. It returns the events it emits. Each event is addressed to the
requesting connection (`Sender`) or to a room (`Room(name)`). Times, display clocks and the client's
`Date.now()` are parameters.

Files:

- `models.dfy`: the stored documents and what the schemas require.
- `protocol.dfy`: records on the wire, server events, and the two poll commands the client builds.
- `store.dfy`: the "filter, ascending id" query.
- `seqs.dfy`: duplicate-freedom, subsequences, and a stable insertion sort. The sort stands for both
  MongoDB's `sort({ createdAt: 1 })` and JavaScript's `Array.prototype.sort`.
- `chat_controller.dfy`, `poll_controller.dfy`: the handlers.
- `server.dfy`: the `join_room` listener.
- `client_feed.dfy`, `poll_form.dfy`, `poll_widget.dfy`: the client.

These behaviours of the code may be surprising; the model keeps them:

- The join history arrives as two events, not one merged history. First comes `chat_history` in id
  order, then `poll_history` in creation order. The client merges them, and `Server.JoinedFeed` proves
  the merged feed is sorted.
- The server accepts a poll with any number of options. The "at least two non-blank options" rule is
  enforced only by the client form (`PollForm.Submit`).
- `mark_seen` broadcasts `chat_history` alone. On every client in the room that replaces the whole feed,
  so the room's polls drop out of it (`ClientFeed.OnChatHistory`: `Polls(next) == []`).
- A failed save of a new message reports nothing to the sender.
- `update_message` and `delete_message` broadcast to the room named in the request, not to the stored
  message's room.
- The widget's `hasVoted` flag is never reset by a later `poll_updated`.

## Model

| member | source | states |
|---|---|---|
| Store.Select | server/controllers/chatController.js:10 | the ids below the counter whose document matches the filter: every one of them, only those, strictly ascending |
| ChatController.History | server/controllers/chatController.js:10-11 | the room's messages and no others, each serialised from the store, in strictly ascending id order, none missing |
| Models.MessageSaves | server/models/chatModel.js:4-10 | the chat schema's required strings `room`, `username`, `text` and `timestamp` are non-empty (a definition) |
| Models.PollSaves | server/models/pollModel.js:3-13 | the poll schema's required `room` and `question`, and every option's required label, are non-empty (a definition) |
| Protocol.MessageRecord | server/controllers/chatController.js:10-11 | a stored message as the server sends it, with its id and creation time (a definition) |
| Protocol.PollRecordOf | server/controllers/pollController.js:18 | a stored poll as the server sends it, with its id and creation time (a definition) |
| ChatController.Marked | server/controllers/chatController.js:78-81 | one message after the `$addToSet`: the user joins `seenBy` when the message is the room's and is not already in it (a definition) |
| ChatController.MarkSeen | server/controllers/chatController.js:78-81 | same ids; every message of the room has the user in `seenBy`; other rooms unchanged; only `seenBy` changes; old `seenBy` is a prefix of the new; a name is in it iff it was before or is the user in that room; no duplicates introduced |
| ChatController.MarkSeenIdempotent | server/controllers/chatController.js:78-81 | marking twice equals marking once |
| ChatController.ChatServer.JoinRoom | server/controllers/chatController.js:5-15 | exactly one event, to the joiner only: the room's history |
| ChatController.ChatServer.SendMessage | server/controllers/chatController.js:17-34 | a valid message is stored under a fresh id with empty `seenBy` and broadcast to the room with the same fields and no `createdAt`; an invalid one changes nothing and emits nothing; the store invariant is kept |
| ChatController.ChatServer.UpdateMessage | server/controllers/chatController.js:36-55 | missing id or non-author: error to sender, store unchanged; author: only `text` and `timestamp` of that message change and the edit goes to the requested room; an empty text fails the save with the update error and no change |
| ChatController.ChatServer.DeleteMessage | server/controllers/chatController.js:57-70 | same guard and error; on success exactly that id is removed and the deletion goes to the requested room |
| ChatController.ChatServer.MarkMessagesSeen | server/controllers/chatController.js:73-89 | the store becomes `MarkSeen` of the old store, and the room's refreshed history is broadcast to the room |
| PollController.NewOptions | server/controllers/pollController.js:8 | one option per label, same order, each with zero votes and empty `votedBy` |
| PollController.NewOptionsFresh | server/controllers/pollController.js:8 | a new poll satisfies the vote invariant and has total zero |
| PollController.HasVoted | server/controllers/pollController.js:42 | some option's `votedBy` holds the user (a definition) |
| PollController.Bump | server/controllers/pollController.js:64-65 | the option with one more vote and the user appended to `votedBy` (a definition) |
| PollController.FindOption | server/controllers/pollController.js:52 | the first option whose label equals the choice, or none when no label does |
| PollController.CastVote | server/controllers/pollController.js:40-65 | refused as already voted iff the user is in any option's `votedBy`; refused as unknown option iff not voted and no label matches; otherwise the first option with that label, and no other, gains one vote and the user, and all other options are unchanged |
| PollController.CountedKeepsInvariant | server/controllers/pollController.js:42-65 | a counted vote keeps every count equal to the length of its duplicate-free `votedBy`, and each user in at most one option |
| PollController.CountedAddsOneVote | server/controllers/pollController.js:64-65 | a counted vote raises the poll's total by exactly one |
| PollController.VoteOnce | server/controllers/pollController.js:42-47 | after a counted vote, any further vote by that user on that poll is refused as already voted |
| PollController.BallotsKeepInvariant | server/controllers/pollController.js:42-65 | over any sequence of votes the invariant holds, and the total grows by exactly the number of counted votes |
| PollController.ScanVotedBy | server/controllers/pollController.js:42 | the loop's answer is true iff some option's `votedBy` holds the user |
| PollController.ScanLabel | server/controllers/pollController.js:52 | the loop returns the index of the first option with the label, or none |
| PollController.RoomPollIds | server/controllers/pollController.js:78 | ids of the room's polls: all of them, only them, each once, ordered by `createdAt` |
| PollController.PollsByRoom | server/controllers/pollController.js:76-83 | every record is a stored poll of the room; every such poll is there, once; ascending `createdAt` |
| PollController.PollServer.CreatePoll | server/controllers/pollController.js:4-23 | a valid poll is stored under a fresh id with fresh options stamped with the server time and broadcast to its room; an invalid one is not stored and the sender gets the creation error |
| PollController.PollServer.VotePoll | server/controllers/pollController.js:25-73 | missing poll: "Poll not found." to sender, no change; otherwise the outcome of `CastVote` on the nested `option.option`: either error to sender with no change, or that poll alone takes the new options and is broadcast to the poll's own room; the vote invariant is kept |
| Server.JoinRoom | server/server.js:31-39 | two events to the joiner only: the chat history, then the room's polls |
| Server.JoinedFeed | server/server.js:31-39 | whatever the joiner's feed held, after both histories it is sorted, is a permutation of the room's tagged messages and polls, and holds events of that room only |
| ClientFeed.SortEvents | frontend/src/App.jsx:139-141 | a permutation of the feed, in ascending creation time, keeping the order of events with equal times |
| ClientFeed.InsertIntoSorted | frontend/src/App.jsx:27-35 | for a sorted feed, the new event lands in the one gap with every event no later than it before it and every later event after it; no other event moves |
| ClientFeed.OnReceiveMessage | frontend/src/App.jsx:27-35 | the feed plus exactly one chat event, stamped with `now` when the message has no creation time, sorted |
| ClientFeed.BroadcastMessageStampedNow | server/controllers/chatController.js:23-30 | a message as `send_message` broadcasts it has no creation time, so the receiving feed gains exactly that message keyed by the client's clock |
| ClientFeed.BroadcastMessageLandsAtNow | frontend/src/App.jsx:32-34 | in a sorted feed such a message is inserted after every event created no later than the client's clock and before every later one; nothing else moves |
| ClientFeed.OnPollCreated | frontend/src/App.jsx:58-66 | the feed plus exactly one poll event, sorted |
| ClientFeed.ChatEvents | frontend/src/App.jsx:39-43 | event `i` is chat record `i`, keyed by its own creation time or, without one, the client's clock; no poll |
| ClientFeed.PollEvents | frontend/src/App.jsx:50-54 | event `i` is poll record `i`, keyed by its own creation time or, without one, the client's clock; no chat |
| ClientFeed.OnChatHistory | frontend/src/App.jsx:37-45 | the feed becomes exactly the history, in its order, each message keyed by its own creation time or the client's clock, and no poll is left |
| ClientFeed.OnPollHistory | frontend/src/App.jsx:48-56 | the old feed plus all the polls, sorted; among equal times the old feed comes first, then the polls in the order sent |
| ClientFeed.OnPollUpdated | frontend/src/App.jsx:68-77 | same length; per position kind and creation time unchanged; matching poll events hold the new record; all others untouched |
| ClientFeed.OnMessageUpdated | frontend/src/App.jsx:80-88 | same length; matching chat events change in `text` and `timestamp` only; all others untouched |
| ClientFeed.OnMessageDeleted | frontend/src/App.jsx:90-94 | no matching chat event is left; every other event keeps its count; the result is a subsequence of the feed, never longer |
| ClientFeed.SameKeysKeepSorted | frontend/src/App.jsx:68-88 | an update that keeps every creation time keeps a sorted feed sorted |
| ClientFeed.PollUpdateKeepsChats | frontend/src/App.jsx:68-77 | a poll update leaves the feed's messages as they were, and the number of polls |
| ClientFeed.MessageUpdateKeepsPolls | frontend/src/App.jsx:80-88 | a message update leaves the feed's polls as they were, and the number of messages |
| ClientFeed.DeleteKeepsPolls | frontend/src/App.jsx:90-94 | a deletion keeps every poll, even one whose id equals the message id |
| ClientFeed.DeleteKeepsSorted | frontend/src/App.jsx:90-94 | a deletion keeps a sorted feed sorted |
| ClientFeed.Reduce | frontend/src/App.jsx:96-102 | the listener for each event kind; an error event has none and leaves the feed alone; a new message or poll adds one event; a poll history adds its polls; an edit keeps the length; a deletion never adds; a chat history leaves its messages and no poll |
| ClientFeed.ReduceAll | frontend/src/App.jsx:96-102 | the listeners applied in order; a run of error events leaves the feed as it was |
| ClientFeed.ReduceKeepsSorted | frontend/src/App.jsx:96-102 | every listener except `chat_history` keeps a sorted feed sorted |
| ClientFeed.ReduceAllKeepsSorted | frontend/src/App.jsx:96-102 | a sorted feed stays sorted over any run of events without `chat_history` |
| ClientFeed.HistoriesFeed | frontend/src/App.jsx:37-56 | chat history, then poll history, leave a sorted permutation of the tagged history and polls, whatever was there before |
| Seqs.SortBy | frontend/src/App.jsx:139-141 | a permutation of the input, sorted by the key |
| Seqs.SortByStable | frontend/src/App.jsx:139-141 | elements with equal keys keep their relative order |
| Seqs.AppendThenSort | frontend/src/App.jsx:34 | sorting a sorted sequence with one element appended inserts it into the one matching gap |
| PollForm.TrimStart | frontend/src/App.jsx:179-180 | a suffix of the string; every dropped character is ECMAScript whitespace; the result does not start with whitespace |
| PollForm.TrimEnd | frontend/src/App.jsx:179-180 | a prefix of the string; every dropped character is whitespace; the result does not end with whitespace |
| PollForm.Trim | frontend/src/App.jsx:179-180 | a slice of the string that neither starts nor ends with whitespace; everything cut off on either side is whitespace |
| PollForm.TrimEnds | frontend/src/App.jsx:179-180 | the start-then-end trim is the slice where the start trim begins, with no whitespace at either end |
| PollForm.TrimCutsWhitespace | frontend/src/App.jsx:179-180 | every character the start-then-end trim removes is whitespace |
| PollForm.Blank | frontend/src/App.jsx:179-180 | a string trims to "" iff all of its characters are whitespace |
| PollForm.NonBlank | frontend/src/App.jsx:179 | the non-blank options, unchanged, in order, each as often as before, and no blank one |
| PollForm.Submit | frontend/src/App.jsx:178-194 | refused with the alert iff the question is blank or fewer than two options are non-blank; otherwise sends the question as typed and the non-blank options stamped with `now`, and resets the form |
| PollForm.SentPollSaves | frontend/src/App.jsx:184-190 | a request sent from a named room has at least two options and becomes a poll the server's schema accepts |
| PollWidget.OnPick | frontend/src/App.jsx:415-416 | picking sets the selected option unless the widget has voted |
| PollWidget.OnVote | frontend/src/App.jsx:387-400 | emits the payload iff not yet voted and an option is picked, and then counts as voted; otherwise the matching alert and no change |
| PollWidget.NoCastAfterVote | frontend/src/App.jsx:387-400 | once voted, no run of gestures emits anything, and the widget stays voted |
| PollWidget.AtMostOneCast | frontend/src/App.jsx:387-400 | any run of gestures emits at most one payload, for the widget's poll and user and a non-empty option; none if already voted |
| PollWidget.Wrap | frontend/src/App.jsx:260-262 | the request carries the widget's payload as its `option` |
| PollWidget.WrappedChoice | frontend/src/App.jsx:260-262 | the choice the server reads (`option.option`) is the option the widget had picked |
| PollWidget.PollComponent.constructor | frontend/src/App.jsx:381-382 | a new widget has nothing picked and has not voted |
| PollWidget.PollComponent.Pick | frontend/src/App.jsx:415-416 | the state becomes `OnPick` of the old state |
| PollWidget.PollComponent.HandleVote | frontend/src/App.jsx:387-400 | the new state and the reaction are those of `OnVote` on the old state |

## Left out

- Socket.io transport: `socket.join`, room membership, delivery to the members of a room, connection
  and disconnection. An emitted event is a value addressed to `Sender` or `Room(name)`.
- MongoDB and Mongoose I/O. Failures of the database and the `catch` paths they trigger are not
  modelled: "Error deleting message.", "Error marking messages as seen.", "Error voting on poll.", and
  a failed history or poll query. `CastError` on a malformed id cannot happen, because ids are natural
  numbers. The one `catch` path decided by the data, a schema rejecting an empty required string, is
  modelled.
- Concurrency. Each handler is one atomic step, so the check-then-act race between two votes of one
  user (a read, then a save) cannot be expressed.
- Clocks and locale formatting: `Date.now()`, `toLocaleTimeString` and `toLocaleString` are parameters.
  `updatedAt` is not modelled.
- `createdAt` is an integer on both sides. In the source the server's dates reach the client as ISO
  strings. The comparator `a.createdAt - b.createdAt` would then not give a number, and the JavaScript
  truthiness test on `createdAt` would treat a time of 0 as absent. The model assumes numeric creation
  times.
- MongoDB breaks `createdAt` ties in an order it does not promise. The model breaks them by ascending id.
- `ClientFeed.OnChatHistory` and `ClientFeed.OnPollHistory`: each `map` call reads the client clock once
  per record. The model uses one `now` for the whole call.
- The `forEach` in `votePoll` that fills in a missing `votedBy`. Every stored option has one, so it does
  nothing in the model.
- `String(opt.option) === String(selectedOption)`: labels are strings in the model, so the conversion
  does nothing.
- The `createdAt` the client puts into `send_message` and `create_poll` is ignored by the server. The
  model's server commands do not take it.
- The client's `joinRoom`, `leaveRoom`, `sendMessage`, `updateMessage` and `deleteMessage` emitters,
  the `mark_seen` effect, React rendering, localStorage, auto-scroll and logging.
- Draft and UI-only files are not part of this model: `frontend/src/components/*`,
  `frontend/src/pages/*`, `frontend/src/context/*`, `frontend/src/hooks/*`, `server/routes/chatRoutes.js`.
- ClientFeed.PollUpdateKeepsChats: states only that the number of polls is unchanged, not which poll
  records replace which.
- ClientFeed.MessageUpdateKeepsPolls: states only that the number of messages is unchanged. The
  per-position contract of `OnMessageUpdated` says how they change.
