/** What travels over the socket: documents as the client receives them, the server's outbound events,
    who they go to, and the two poll commands whose payloads the core builds. */
module Protocol {
  import opened Models

  /** A chat message on the wire. `createdAt` is absent from `receive_message` payloads. */
  datatype ChatRecord = ChatRecord(
    id: MsgId, room: string, username: string, text: string, timestamp: string,
    seenBy: seq<string>, createdAt: Option<int>)

  /** A poll on the wire. */
  datatype PollRecord = PollRecord(
    id: PollId, room: string, question: string, options: seq<PollOption>, createdAt: Option<int>)

  /** A stored message serialised with its id and timestamps, as a query returns it. */
  function MessageRecord(id: MsgId, m: Message): ChatRecord
  {
    ChatRecord(id, m.room, m.username, m.text, m.timestamp, m.seenBy, Some(m.createdAt))
  }

  /** A stored poll serialised with its id and timestamps. */
  function PollRecordOf(id: PollId, p: Poll): PollRecord
  {
    PollRecord(id, p.room, p.question, p.options, Some(p.createdAt))
  }

  /** Server-to-client events. */
  datatype ServerEvent =
    | ChatHistory(messages: seq<ChatRecord>)
    | PollHistory(polls: seq<PollRecord>)
    | ReceiveMessage(chat: ChatRecord)
    | MessageUpdated(messageId: MsgId, newText: string, timestamp: string)
    | MessageDeleted(messageId: MsgId)
    | PollCreated(poll: PollRecord)
    | PollUpdated(poll: PollRecord)
    | ErrorEvent(message: string)

  /** `socket.emit` reaches the requesting connection only; `io.to(room).emit` reaches every member of the room. */
  datatype Target = Sender | Room(name: string)

  datatype Emit = Emit(to: Target, event: ServerEvent)

  /** What a poll component hands to its `votePoll` callback. */
  datatype VotePayload = VotePayload(pollId: PollId, option: string, username: string)

  /** The `vote_poll` command as the feed sends it: the component's whole payload travels in `option`. */
  datatype VoteRequest = VoteRequest(pollId: PollId, option: VotePayload, username: string)

  /** The `create_poll` command as the poll form sends it. */
  datatype CreatePollRequest = CreatePollRequest(room: string, question: string, options: seq<string>, createdAt: int)
}
