/** The `join_room` listener (server/server.js): the joiner receives the room's chat history and then the
    room's poll history. The lemma below follows both events into the joiner's feed. */
module Server {
  import opened Models
  import opened Protocol
  import opened Seqs
  import ChatController
  import PollController
  import ClientFeed

  /** Both histories, in the order the listener sends them, to the joiner alone. */
  method JoinRoom(chat: ChatController.ChatServer, polls: PollController.PollServer, room: string)
    returns (out: seq<Emit>)
    requires chat.Valid() && polls.Valid()
    ensures |out| == 2 && out[0].to == Sender && out[1].to == Sender
    ensures out[0].event == ChatHistory(ChatController.History(chat.messages, chat.nextId, room))
    ensures out[1].event == PollHistory(PollController.PollsByRoom(polls.polls, polls.nextId, room))
  {
    var history := chat.JoinRoom(room);
    out := history + [Emit(Sender, PollHistory(PollController.PollsByRoom(polls.polls, polls.nextId, room)))];
  }

  /** Whatever the joiner's feed held before, after the two histories it holds exactly the room's
      messages and the room's polls, and it is sorted by creation time. */
  lemma JoinedFeed(messages: map<MsgId, Message>, mn: nat, polls: map<PollId, Poll>, pn: nat, room: string,
                   prev: seq<ClientFeed.FeedEvent>, now: int)
    ensures var h := ChatController.History(messages, mn, room);
      var ps := PollController.PollsByRoom(polls, pn, room);
      var feed := ClientFeed.ReduceAll(prev, [ChatHistory(h), PollHistory(ps)], now);
      && SortedBy(feed, ClientFeed.Key)
      && multiset(feed) == multiset(ClientFeed.ChatEvents(h, now)) + multiset(ClientFeed.PollEvents(ps, now))
      && forall e :: e in feed ==> if e.ChatEvent? then e.chat.room == room else e.poll.room == room
  {
    var h := ChatController.History(messages, mn, room);
    var ps := PollController.PollsByRoom(polls, pn, room);
    ClientFeed.HistoriesFeed(prev, h, ps, now);
    FeedOfRoom(h, ps, room, ClientFeed.ReduceAll(prev, [ChatHistory(h), PollHistory(ps)], now), now);
  }

  /** A feed made of tagged records of one room holds events of that room only. */
  lemma FeedOfRoom(h: seq<ChatRecord>, ps: seq<PollRecord>, room: string, feed: seq<ClientFeed.FeedEvent>, now: int)
    requires forall i :: 0 <= i < |h| ==> h[i].room == room
    requires forall i :: 0 <= i < |ps| ==> ps[i].room == room
    requires multiset(feed) == multiset(ClientFeed.ChatEvents(h, now)) + multiset(ClientFeed.PollEvents(ps, now))
    ensures forall e :: e in feed ==> if e.ChatEvent? then e.chat.room == room else e.poll.room == room
  {
    var chats := ClientFeed.ChatEvents(h, now);
    var pevs := ClientFeed.PollEvents(ps, now);
    assert multiset(chats + pevs) == multiset(chats) + multiset(pevs);
    PermutationSameMembers(feed, chats + pevs);
    forall e | e in feed ensures if e.ChatEvent? then e.chat.room == room else e.poll.room == room {
      assert e in chats + pevs;
      if e in chats {
        var i :| 0 <= i < |chats| && chats[i] == e;
      } else {
        var i :| 0 <= i < |pevs| && pevs[i] == e;
      }
    }
  }
}
