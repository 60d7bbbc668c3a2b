/** The client's event feed (frontend/src/App.jsx): one sequence of chat and poll events ordered by
    creation time, and the socket handlers as pure `prev -> next` updates of it. The client's clock is
    the parameter `now`, standing for `Date.now()`. */
module ClientFeed {
  import opened Models
  import opened Protocol
  import opened Seqs

  /** An entry of the feed: a record the server sent, tagged `chat` or `poll`, with the creation time the
      feed sorts by. */
  datatype FeedEvent =
    | ChatEvent(chat: ChatRecord, createdAt: int)
    | PollEvent(poll: PollRecord, createdAt: int)

  /** The key `sortEvents` compares. */
  function Key(e: FeedEvent): int {
    e.createdAt
  }

  /** `x.createdAt ? x.createdAt : Date.now()`. */
  function Stamp(createdAt: Option<int>, now: int): int {
    match createdAt
    case Some(c) => c
    case None => now
  }

  function AsChat(c: ChatRecord, now: int): FeedEvent {
    ChatEvent(c, Stamp(c.createdAt, now))
  }

  function AsPoll(p: PollRecord, now: int): FeedEvent {
    PollEvent(p, Stamp(p.createdAt, now))
  }

  /** The chat records of a feed, in feed order. */
  function Chats(feed: seq<FeedEvent>): seq<ChatRecord> {
    if feed == [] then []
    else (if feed[0].ChatEvent? then [feed[0].chat] else []) + Chats(feed[1..])
  }

  /** The poll records of a feed, in feed order. */
  function Polls(feed: seq<FeedEvent>): seq<PollRecord> {
    if feed == [] then []
    else (if feed[0].PollEvent? then [feed[0].poll] else []) + Polls(feed[1..])
  }

  /** `sortEvents`: a permutation of the feed in ascending creation time; events created at the same
      time keep their relative order. */
  function SortEvents(feed: seq<FeedEvent>): (r: seq<FeedEvent>)
    ensures multiset(r) == multiset(feed)
    ensures SortedBy(r, Key)
    ensures forall k :: WithKey(r, Key, k) == WithKey(feed, Key, k)
  {
    var r := SortBy(feed, Key);
    assert forall k :: WithKey(r, Key, k) == WithKey(feed, Key, k) by {
      forall k ensures WithKey(r, Key, k) == WithKey(feed, Key, k) {
        SortByStable(feed, Key, k);
      }
    }
    r
  }

  /** Sorting a feed after appending one event to a sorted feed: the event goes into the single gap
      between the events no later than it and those later than it, and no other event moves. */
  lemma InsertIntoSorted(prev: seq<FeedEvent>, e: FeedEvent) returns (i: nat)
    requires SortedBy(prev, Key)
    ensures i <= |prev| && SortEvents(prev + [e]) == prev[..i] + [e] + prev[i..]
    ensures forall j :: 0 <= j < i ==> prev[j].createdAt <= e.createdAt
    ensures forall j :: i <= j < |prev| ==> e.createdAt < prev[j].createdAt
  {
    i := AppendThenSort(prev, e, Key);
  }

  /** `receive_message`: the message, stamped `now` when it carries no creation time, joins the feed. */
  function OnReceiveMessage(prev: seq<FeedEvent>, c: ChatRecord, now: int): (next: seq<FeedEvent>)
    ensures multiset(next) == multiset(prev) + multiset{ChatEvent(c, Stamp(c.createdAt, now))}
    ensures SortedBy(next, Key)
  {
    SortEvents(prev + [AsChat(c, now)])
  }

  /** `poll_created`: the poll joins the feed. */
  function OnPollCreated(prev: seq<FeedEvent>, p: PollRecord, now: int): (next: seq<FeedEvent>)
    ensures multiset(next) == multiset(prev) + multiset{PollEvent(p, Stamp(p.createdAt, now))}
    ensures SortedBy(next, Key)
  {
    SortEvents(prev + [AsPoll(p, now)])
  }

  /** The history's messages tagged `chat`, in history order. */
  function ChatEvents(history: seq<ChatRecord>, now: int): (r: seq<FeedEvent>)
    ensures |r| == |history|
    ensures forall i :: 0 <= i < |r| ==> r[i] == ChatEvent(history[i], Stamp(history[i].createdAt, now))
    ensures Chats(r) == history && Polls(r) == []
  {
    if history == [] then []
    else [AsChat(history[0], now)] + ChatEvents(history[1..], now)
  }

  /** The polls tagged `poll`, in the order given. */
  function PollEvents(polls: seq<PollRecord>, now: int): (r: seq<FeedEvent>)
    ensures |r| == |polls|
    ensures forall i :: 0 <= i < |r| ==> r[i] == PollEvent(polls[i], Stamp(polls[i].createdAt, now))
    ensures Polls(r) == polls && Chats(r) == []
  {
    if polls == [] then []
    else [AsPoll(polls[0], now)] + PollEvents(polls[1..], now)
  }

  /** `chat_history`: the feed becomes the history alone, unsorted, with every earlier event, polls
      included, gone; each message is keyed by its own creation time, or by `now` when it has none. */
  function OnChatHistory(history: seq<ChatRecord>, now: int): (next: seq<FeedEvent>)
    ensures Chats(next) == history && Polls(next) == []
    ensures |next| == |history|
    ensures forall i :: 0 <= i < |next| ==> next[i] == ChatEvent(history[i], Stamp(history[i].createdAt, now))
  {
    ChatEvents(history, now)
  }

  /** `poll_history`: the polls join the feed, which is sorted again; among events created at the same
      time the earlier feed comes first and the polls follow in the order they were sent. */
  function OnPollHistory(prev: seq<FeedEvent>, polls: seq<PollRecord>, now: int): (next: seq<FeedEvent>)
    ensures multiset(next) == multiset(prev) + multiset(PollEvents(polls, now))
    ensures SortedBy(next, Key)
    ensures forall k :: WithKey(next, Key, k) == WithKey(prev, Key, k) + WithKey(PollEvents(polls, now), Key, k)
  {
    var next := SortEvents(prev + PollEvents(polls, now));
    assert forall k :: WithKey(next, Key, k) == WithKey(prev, Key, k) + WithKey(PollEvents(polls, now), Key, k) by {
      forall k ensures WithKey(next, Key, k) == WithKey(prev, Key, k) + WithKey(PollEvents(polls, now), Key, k) {
        WithKeyAppend(prev, PollEvents(polls, now), Key, k);
      }
    }
    next
  }

  /** One event under `poll_updated`: a poll event with the same id takes the new record and keeps its
      own creation time. */
  function RefreshPoll(ev: FeedEvent, p: PollRecord): FeedEvent {
    if ev.PollEvent? && ev.poll.id == p.id then PollEvent(p, ev.createdAt) else ev
  }

  /** `poll_updated`: same length and positions; every poll event with the record's id now holds the
      record, every other event is untouched, and no creation time changes. */
  function OnPollUpdated(prev: seq<FeedEvent>, p: PollRecord): (next: seq<FeedEvent>)
    ensures |next| == |prev|
    ensures forall i :: 0 <= i < |next| ==>
      next[i].createdAt == prev[i].createdAt && next[i].PollEvent? == prev[i].PollEvent?
    ensures forall i :: 0 <= i < |next| ==>
      if prev[i].PollEvent? && prev[i].poll.id == p.id then next[i].poll == p else next[i] == prev[i]
  {
    if prev == [] then [] else [RefreshPoll(prev[0], p)] + OnPollUpdated(prev[1..], p)
  }

  /** One event under `message_updated`: a chat event with that id takes the new text and display time. */
  function RefreshChat(ev: FeedEvent, messageId: MsgId, newText: string, timestamp: string): FeedEvent {
    if ev.ChatEvent? && ev.chat.id == messageId then ev.(chat := ev.chat.(text := newText, timestamp := timestamp))
    else ev
  }

  /** `message_updated`: same length and positions; chat events with that id change in `text` and
      `timestamp` only, every other event is untouched. */
  function OnMessageUpdated(prev: seq<FeedEvent>, messageId: MsgId, newText: string, timestamp: string)
    : (next: seq<FeedEvent>)
    ensures |next| == |prev|
    ensures forall i :: 0 <= i < |next| ==>
      if prev[i].ChatEvent? && prev[i].chat.id == messageId
      then next[i] == prev[i].(chat := prev[i].chat.(text := newText, timestamp := timestamp))
      else next[i] == prev[i]
  {
    if prev == [] then []
    else [RefreshChat(prev[0], messageId, newText, timestamp)] + OnMessageUpdated(prev[1..], messageId, newText, timestamp)
  }

  /** The events `message_deleted` removes. */
  predicate IsChatWithId(ev: FeedEvent, messageId: MsgId) {
    ev.ChatEvent? && ev.chat.id == messageId
  }

  /** `message_deleted`: the chat events with that id go; every other event stays, as often as it was
      there and in its order. */
  function OnMessageDeleted(prev: seq<FeedEvent>, messageId: MsgId): (next: seq<FeedEvent>)
    ensures forall e :: e in next ==> !IsChatWithId(e, messageId)
    ensures forall e :: multiset(next)[e] == if IsChatWithId(e, messageId) then 0 else multiset(prev)[e]
    ensures IsSubseq(next, prev)
    ensures |next| <= |prev|
  {
    if prev == [] then []
    else
      var rest := OnMessageDeleted(prev[1..], messageId);
      assert prev == [prev[0]] + prev[1..];
      if IsChatWithId(prev[0], messageId) then rest
      else
        assert ([prev[0]] + rest)[1..] == rest;
        [prev[0]] + rest
  }

  /** `poll_updated` and `message_updated` keep a sorted feed sorted. */
  lemma SameKeysKeepSorted(prev: seq<FeedEvent>, next: seq<FeedEvent>)
    requires |next| == |prev| && forall i :: 0 <= i < |next| ==> next[i].createdAt == prev[i].createdAt
    requires SortedBy(prev, Key)
    ensures SortedBy(next, Key)
  {
    forall i, j | 0 <= i < j < |next| ensures Key(next[i]) <= Key(next[j]) {
      assert Key(prev[i]) <= Key(prev[j]);
    }
  }

  /** A poll update leaves the feed's messages as they were. */
  lemma {:induction false} PollUpdateKeepsChats(prev: seq<FeedEvent>, p: PollRecord)
    ensures Chats(OnPollUpdated(prev, p)) == Chats(prev)
    ensures |Polls(OnPollUpdated(prev, p))| == |Polls(prev)|
    decreases |prev|
  {
    if prev != [] {
      PollUpdateKeepsChats(prev[1..], p);
      assert OnPollUpdated(prev, p)[1..] == OnPollUpdated(prev[1..], p);
    }
  }

  /** A message update leaves the feed's polls as they were. */
  lemma {:induction false} MessageUpdateKeepsPolls(prev: seq<FeedEvent>, messageId: MsgId, newText: string, timestamp: string)
    ensures Polls(OnMessageUpdated(prev, messageId, newText, timestamp)) == Polls(prev)
    ensures |Chats(OnMessageUpdated(prev, messageId, newText, timestamp))| == |Chats(prev)|
    decreases |prev|
  {
    if prev != [] {
      MessageUpdateKeepsPolls(prev[1..], messageId, newText, timestamp);
      assert OnMessageUpdated(prev, messageId, newText, timestamp)[1..] ==
        OnMessageUpdated(prev[1..], messageId, newText, timestamp);
    }
  }

  /** A deletion leaves the feed's polls as they were, including polls whose id equals the message id. */
  lemma {:induction false} DeleteKeepsPolls(prev: seq<FeedEvent>, messageId: MsgId)
    ensures Polls(OnMessageDeleted(prev, messageId)) == Polls(prev)
    decreases |prev|
  {
    if prev != [] {
      DeleteKeepsPolls(prev[1..], messageId);
      var rest := OnMessageDeleted(prev[1..], messageId);
      if !IsChatWithId(prev[0], messageId) {
        assert ([prev[0]] + rest)[1..] == rest;
      }
    }
  }

  /** A deletion keeps a sorted feed sorted. */
  lemma DeleteKeepsSorted(prev: seq<FeedEvent>, messageId: MsgId)
    requires SortedBy(prev, Key)
    ensures SortedBy(OnMessageDeleted(prev, messageId), Key)
  {
    SubseqSorted(OnMessageDeleted(prev, messageId), prev, Key);
  }

  /** The socket listeners: each server event applied to the feed. An error event has no listener, so
      it leaves the feed alone; a new message or poll adds one event; an edit keeps the length; a
      deletion never adds; a chat history replaces everything. */
  function Reduce(prev: seq<FeedEvent>, ev: ServerEvent, now: int): (next: seq<FeedEvent>)
    ensures ev.ErrorEvent? ==> next == prev
    ensures ev.ReceiveMessage? || ev.PollCreated? ==> |next| == |prev| + 1
    ensures ev.PollHistory? ==> |next| == |prev| + |ev.polls|
    ensures ev.PollUpdated? || ev.MessageUpdated? ==> |next| == |prev|
    ensures ev.MessageDeleted? ==> |next| <= |prev|
    ensures ev.ChatHistory? ==> Chats(next) == ev.messages && Polls(next) == []
  {
    match ev
    case ReceiveMessage(c) => OnReceiveMessage(prev, c, now)
    case ChatHistory(h) => OnChatHistory(h, now)
    case PollHistory(ps) => OnPollHistory(prev, ps, now)
    case PollCreated(p) => OnPollCreated(prev, p, now)
    case PollUpdated(p) => OnPollUpdated(prev, p)
    case MessageUpdated(id, t, ts) => OnMessageUpdated(prev, id, t, ts)
    case MessageDeleted(id) => OnMessageDeleted(prev, id)
    case ErrorEvent(_) => prev
  }

  /** Every listener but `chat_history` keeps a sorted feed sorted; `chat_history` installs the history
      in the order it arrives. */
  lemma ReduceKeepsSorted(prev: seq<FeedEvent>, ev: ServerEvent, now: int)
    requires SortedBy(prev, Key) && !ev.ChatHistory?
    ensures SortedBy(Reduce(prev, ev, now), Key)
  {
    match ev
    case PollUpdated(p) => SameKeysKeepSorted(prev, OnPollUpdated(prev, p));
    case MessageUpdated(id, t, ts) => SameKeysKeepSorted(prev, OnMessageUpdated(prev, id, t, ts));
    case MessageDeleted(id) => DeleteKeepsSorted(prev, id);
    case _ =>
  }

  /** The feed after a sequence of server events; a run of error events leaves it as it was. */
  function ReduceAll(prev: seq<FeedEvent>, evs: seq<ServerEvent>, now: int): (next: seq<FeedEvent>)
    ensures (forall i :: 0 <= i < |evs| ==> evs[i].ErrorEvent?) ==> next == prev
    decreases |evs|
  {
    if evs == [] then prev else ReduceAll(Reduce(prev, evs[0], now), evs[1..], now)
  }

  /** A sorted feed stays sorted over any run of events without a `chat_history`. */
  lemma {:induction false} ReduceAllKeepsSorted(prev: seq<FeedEvent>, evs: seq<ServerEvent>, now: int)
    requires SortedBy(prev, Key)
    requires forall i :: 0 <= i < |evs| ==> !evs[i].ChatHistory?
    ensures SortedBy(ReduceAll(prev, evs, now), Key)
    decreases |evs|
  {
    if evs != [] {
      ReduceKeepsSorted(prev, evs[0], now);
      ReduceAllKeepsSorted(Reduce(prev, evs[0], now), evs[1..], now);
    }
  }

  /** What joining a room delivers, chat history then poll history, leaves in the feed: the room's
      history and its polls, sorted, whatever the feed held before. */
  lemma HistoriesFeed(prev: seq<FeedEvent>, h: seq<ChatRecord>, ps: seq<PollRecord>, now: int)
    ensures var feed := ReduceAll(prev, [ChatHistory(h), PollHistory(ps)], now);
      && feed == OnPollHistory(OnChatHistory(h, now), ps, now)
      && SortedBy(feed, Key)
      && multiset(feed) == multiset(ChatEvents(h, now)) + multiset(PollEvents(ps, now))
  {
    var evs := [ChatHistory(h), PollHistory(ps)];
    var chats := OnChatHistory(h, now);
    assert ReduceAll(prev, evs, now) == ReduceAll(chats, evs[1..], now);
    assert evs[1..] == [PollHistory(ps)] && evs[1..][1..] == [];
    assert ReduceAll(chats, evs[1..], now) == ReduceAll(OnPollHistory(chats, ps, now), [], now);
  }

  /** A message as `send_message` broadcasts it carries no creation time, so the receiving client keys it
      by its own clock: the feed gains exactly that event. */
  lemma BroadcastMessageStampedNow(prev: seq<FeedEvent>, id: MsgId, room: string, username: string, text: string,
                                   clock: string, now: int)
    ensures var c := ChatRecord(id, room, username, text, clock, [], None);
      multiset(OnReceiveMessage(prev, c, now)) == multiset(prev) + multiset{ChatEvent(c, now)}
  {
  }

  /** In a sorted feed such a message lands after every event created no later than the client's clock
      and before every later one, and no other event moves. */
  lemma BroadcastMessageLandsAtNow(prev: seq<FeedEvent>, id: MsgId, room: string, username: string, text: string,
                                   clock: string, now: int) returns (i: nat)
    requires SortedBy(prev, Key)
    ensures var c := ChatRecord(id, room, username, text, clock, [], None);
      && i <= |prev| && OnReceiveMessage(prev, c, now) == prev[..i] + [ChatEvent(c, now)] + prev[i..]
      && (forall j :: 0 <= j < i ==> prev[j].createdAt <= now)
      && (forall j :: i <= j < |prev| ==> now < prev[j].createdAt)
  {
    var c := ChatRecord(id, room, username, text, clock, [], None);
    i := InsertIntoSorted(prev, AsChat(c, now));
  }
}
