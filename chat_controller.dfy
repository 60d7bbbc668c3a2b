/** The chat command handlers (server/controllers/chatController.js) over an in-memory message
    collection. Each handler is one atomic step: it reads and updates the collection and returns the
    events it emits, each addressed to the requesting connection or to a room. */
module ChatController {
  import opened Models
  import opened Protocol
  import opened Seqs
  import Store

  const NotFoundOrUnauthorized := "Unauthorized or message not found."
  const UpdateFailed := "Error updating message."

  /** The history of `room` as `Chat.find({ room }).sort({ _id: 1 })` returns it from a collection whose
      ids are all below `n`: exactly the room's messages, in ascending id order. */
  function History(messages: map<MsgId, Message>, n: nat, room: string): (h: seq<ChatRecord>)
    ensures forall i :: 0 <= i < |h| ==>
      h[i].id < n && h[i].id in messages && h[i] == MessageRecord(h[i].id, messages[h[i].id]) && h[i].room == room
    ensures forall i, j :: 0 <= i < j < |h| ==> h[i].id < h[j].id
    ensures forall id :: id in messages && id < n && messages[id].room == room ==>
      exists i :: 0 <= i < |h| && h[i].id == id
  {
    var ids := Store.Select(messages, n, (m: Message) => m.room == room);
    var h := seq(|ids|, i requires 0 <= i < |ids| => MessageRecord(ids[i], messages[ids[i]]));
    assert forall id :: id in ids ==> exists i :: 0 <= i < |h| && h[i].id == id by {
      forall id | id in ids ensures exists i :: 0 <= i < |h| && h[i].id == id {
        var i :| 0 <= i < |ids| && ids[i] == id;
        assert h[i].id == id;
      }
    }
    h
  }

  /** One message after `updateMany({ room, seenBy: { $ne: u } }, { $addToSet: { seenBy: u } })`. */
  function Marked(m: Message, room: string, u: string): Message {
    if m.room == room && u !in m.seenBy then m.(seenBy := m.seenBy + [u]) else m
  }

  /** The whole collection after marking every message of `room` as seen by `u`: those messages have `u`
      in `seenBy`, nothing else changes, no name is removed or repeated. */
  function MarkSeen(messages: map<MsgId, Message>, room: string, u: string): (r: map<MsgId, Message>)
    ensures r.Keys == messages.Keys
    ensures forall id :: id in r && r[id].room == room ==> u in r[id].seenBy
    ensures forall id :: id in messages && messages[id].room != room ==> r[id] == messages[id]
    ensures forall id :: id in messages ==> r[id] == messages[id].(seenBy := r[id].seenBy)
    ensures forall id :: id in messages ==> messages[id].seenBy <= r[id].seenBy
    ensures forall id, v :: id in messages ==>
      (v in r[id].seenBy <==> v in messages[id].seenBy || (v == u && messages[id].room == room))
    ensures forall id :: id in messages && NoDup(messages[id].seenBy) ==> NoDup(r[id].seenBy)
  {
    map id | id in messages :: Marked(messages[id], room, u)
  }

  /** Marking twice has the effect of marking once. */
  lemma MarkSeenIdempotent(messages: map<MsgId, Message>, room: string, u: string)
    ensures MarkSeen(MarkSeen(messages, room, u), room, u) == MarkSeen(messages, room, u)
  {
  }

  /** The message collection and the counter that issues its ids. */
  class ChatServer {
    var messages: map<MsgId, Message>
    var nextId: MsgId

    /** Every stored id was issued, every stored message passed validation, and no name is in a
        `seenBy` list twice. */
    ghost predicate Valid()
      reads this
    {
      forall id :: id in messages ==> id < nextId && MessageSaves(messages[id]) && NoDup(messages[id].seenBy)
    }

    constructor ()
      ensures Valid() && messages == map[] && nextId == 0
    {
      messages, nextId := map[], 0;
    }

    /** The history part of `join_room`: the joiner alone receives the room's history. */
    method JoinRoom(room: string) returns (out: seq<Emit>)
      requires Valid()
      ensures |out| == 1 && out[0].to == Sender && out[0].event.ChatHistory?
      ensures out[0].event.messages == History(messages, nextId, room)
    {
      out := [Emit(Sender, ChatHistory(History(messages, nextId, room)))];
    }

    /** `send_message`: stores a new message with an empty `seenBy` under a fresh id and broadcasts it to
        the room, without `createdAt`. A message the schema rejects is neither stored nor broadcast. */
    method SendMessage(room: string, username: string, text: string, clock: string, now: int)
      returns (out: seq<Emit>)
      requires Valid()
      modifies this
      ensures Valid()
      ensures var m := Message(room, username, text, clock, [], now);
        if MessageSaves(m) then
          && old(nextId) !in old(messages)
          && messages == old(messages)[old(nextId) := m]
          && nextId == old(nextId) + 1
          && out == [Emit(Room(room), ReceiveMessage(ChatRecord(old(nextId), room, username, text, clock, [], None)))]
        else
          messages == old(messages) && nextId == old(nextId) && out == []
    {
      var m := Message(room, username, text, clock, [], now);
      if MessageSaves(m) {
        var id := nextId;
        messages := messages[id := m];
        nextId := nextId + 1;
        out := [Emit(Room(room), ReceiveMessage(ChatRecord(id, room, username, text, clock, [], None)))];
      } else {
        out := [];
      }
    }

    /** `update_message`: only the stored author may edit. A missing id or another requester gets an error
        and nothing changes; a text the schema rejects fails the save; otherwise only the text and the
        display time of that message change and the edit is broadcast to the requested room. */
    method UpdateMessage(messageId: MsgId, newText: string, room: string, username: string, clock: string)
      returns (out: seq<Emit>)
      requires Valid()
      modifies this
      ensures Valid() && nextId == old(nextId)
      ensures messageId !in old(messages) || old(messages)[messageId].username != username ==>
        messages == old(messages) && out == [Emit(Sender, ErrorEvent(NotFoundOrUnauthorized))]
      ensures messageId in old(messages) && old(messages)[messageId].username == username ==>
        var m := old(messages)[messageId];
        if Present(newText) && Present(clock) then
          && messages == old(messages)[messageId := m.(text := newText, timestamp := clock)]
          && out == [Emit(Room(room), MessageUpdated(messageId, newText, clock))]
        else
          messages == old(messages) && out == [Emit(Sender, ErrorEvent(UpdateFailed))]
    {
      if messageId !in messages || messages[messageId].username != username {
        out := [Emit(Sender, ErrorEvent(NotFoundOrUnauthorized))];
        return;
      }
      var m := messages[messageId];
      m := m.(text := newText);
      m := m.(timestamp := clock);
      if !MessageSaves(m) {
        out := [Emit(Sender, ErrorEvent(UpdateFailed))];
        return;
      }
      messages := messages[messageId := m];
      out := [Emit(Room(room), MessageUpdated(messageId, newText, clock))];
    }

    /** `delete_message`: the same guard as an edit; on success exactly that id goes and the deletion is
        broadcast to the requested room. */
    method DeleteMessage(messageId: MsgId, room: string, username: string) returns (out: seq<Emit>)
      requires Valid()
      modifies this
      ensures Valid() && nextId == old(nextId)
      ensures messageId !in old(messages) || old(messages)[messageId].username != username ==>
        messages == old(messages) && out == [Emit(Sender, ErrorEvent(NotFoundOrUnauthorized))]
      ensures messageId in old(messages) && old(messages)[messageId].username == username ==>
        messages == old(messages) - {messageId} && out == [Emit(Room(room), MessageDeleted(messageId))]
    {
      if messageId !in messages || messages[messageId].username != username {
        out := [Emit(Sender, ErrorEvent(NotFoundOrUnauthorized))];
        return;
      }
      messages := messages - {messageId};
      out := [Emit(Room(room), MessageDeleted(messageId))];
    }

    /** `mark_seen`: adds `username` to the `seenBy` of every message of the room, then broadcasts the
        room's refreshed history to the whole room. */
    method MarkMessagesSeen(room: string, username: string) returns (out: seq<Emit>)
      requires Valid()
      modifies this
      ensures Valid() && nextId == old(nextId)
      ensures messages == MarkSeen(old(messages), room, username)
      ensures out == [Emit(Room(room), ChatHistory(History(messages, nextId, room)))]
    {
      messages := MarkSeen(messages, room, username);
      out := [Emit(Room(room), ChatHistory(History(messages, nextId, room)))];
    }
  }
}
