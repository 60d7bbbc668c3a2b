/** The stored documents of the two collections (server/models/chatModel.js, server/models/pollModel.js).
    A document's `_id` is the key it is stored under, not a field; `createdAt` is the creation time the
    schemas' `timestamps` option records. */
module Models {

  datatype Option<T> = None | Some(value: T)

  /** Document ids. The store hands them out from a counter, so ascending id is insertion order. */
  type MsgId = nat
  type PollId = nat

  /** A chat message. `timestamp` is the display time string the server formats; `seenBy` is the list of
      users who have seen the message. */
  datatype Message = Message(
    room: string, username: string, text: string, timestamp: string, seenBy: seq<string>, createdAt: int)

  /** One answer of a poll: its label, its vote count and who voted for it. */
  datatype PollOption = PollOption(option: string, votes: int, votedBy: seq<string>)

  datatype Poll = Poll(room: string, question: string, options: seq<PollOption>, createdAt: int)

  /** What a `required: true` String path accepts: a save fails on the empty string. */
  predicate Present(s: string) {
    s != ""
  }

  /** A chat message passes the schema's validation: room, username, text and timestamp are required. */
  predicate MessageSaves(m: Message) {
    Present(m.room) && Present(m.username) && Present(m.text) && Present(m.timestamp)
  }

  /** A poll passes the schema's validation: room, question and every option's label are required. */
  predicate PollSaves(p: Poll) {
    Present(p.room) && Present(p.question) && forall i :: 0 <= i < |p.options| ==> Present(p.options[i].option)
  }
}
