/** The poll command handlers (server/controllers/pollController.js) over an in-memory poll collection.
    Creating a poll is a mapping over its labels and listing a room's polls is a query; a vote scans the
    stored poll and updates one option of it in place, in one atomic step. */
module PollController {
  import opened Models
  import opened Protocol
  import opened Seqs
  import Store

  const PollNotFound := "Poll not found."
  const AlreadyVotedOnPoll := "You have already voted on this poll."
  const OptionNotFound := "Option not found."
  const CreateFailed := "Error creating poll."

  /** The options of a new poll: one per label, in the labels' order, none with a vote. */
  function NewOptions(labels: seq<string>): (opts: seq<PollOption>)
    ensures |opts| == |labels|
    ensures forall i :: 0 <= i < |opts| ==> opts[i].option == labels[i] && opts[i].votes == 0 && opts[i].votedBy == []
  {
    if labels == [] then [] else [PollOption(labels[0], 0, [])] + NewOptions(labels[1..])
  }

  /** `u` is in the `votedBy` list of some option. */
  predicate HasVoted(opts: seq<PollOption>, u: string) {
    exists j :: 0 <= j < |opts| && u in opts[j].votedBy
  }

  /** The first option labelled `choice`, as `Array.prototype.find` picks it. */
  function FindOption(opts: seq<PollOption>, choice: string): (k: Option<nat>)
    ensures k.Some? ==> k.value < |opts| && opts[k.value].option == choice
    ensures k.Some? ==> forall j :: 0 <= j < k.value ==> opts[j].option != choice
    ensures k.None? ==> forall j :: 0 <= j < |opts| ==> opts[j].option != choice
  {
    if opts == [] then None
    else if opts[0].option == choice then Some(0)
    else match FindOption(opts[1..], choice)
      case None => None
      case Some(k) => Some(k + 1)
  }

  /** The sum of the options' vote counts. */
  function TotalVotes(opts: seq<PollOption>): int {
    if opts == [] then 0 else opts[0].votes + TotalVotes(opts[1..])
  }

  /** Every option's count is the length of its duplicate-free `votedBy` list, and no user is in the
      `votedBy` lists of two options. */
  predicate VoteInvariant(opts: seq<PollOption>) {
    && (forall i :: 0 <= i < |opts| ==> opts[i].votes == |opts[i].votedBy| && NoDup(opts[i].votedBy))
    && (forall i, j, u :: 0 <= i < |opts| && 0 <= j < |opts| && u in opts[i].votedBy && u in opts[j].votedBy ==> i == j)
  }

  /** An option with one more vote, cast by `u`. */
  function Bump(o: PollOption, u: string): PollOption {
    o.(votes := o.votes + 1, votedBy := o.votedBy + [u])
  }

  datatype VoteOutcome = RejectedAlreadyVoted | RejectedNoOption | Counted(options: seq<PollOption>)

  /** The decision `votePoll` takes on a stored poll's options: a user who is in any option's `votedBy`
      is refused; otherwise an unknown choice is refused; otherwise the first option with that choice
      gains the vote and no other option changes. */
  function CastVote(opts: seq<PollOption>, u: string, choice: string): (r: VoteOutcome)
    ensures r.RejectedAlreadyVoted? <==> HasVoted(opts, u)
    ensures r.RejectedNoOption? <==> !HasVoted(opts, u) && forall j :: 0 <= j < |opts| ==> opts[j].option != choice
    ensures r.Counted? ==> |r.options| == |opts|
    ensures r.Counted? ==>
      exists k :: 0 <= k < |opts| && opts[k].option == choice && r.options[k] == Bump(opts[k], u) &&
        (forall j :: 0 <= j < k ==> opts[j].option != choice) &&
        forall j :: 0 <= j < |opts| && j != k ==> r.options[j] == opts[j]
  {
    if HasVoted(opts, u) then RejectedAlreadyVoted
    else match FindOption(opts, choice)
      case None => RejectedNoOption
      case Some(k) => Counted(opts[k := Bump(opts[k], u)])
  }

  /** A new poll starts with no votes and satisfies the vote invariant. */
  lemma {:induction false} NewOptionsFresh(labels: seq<string>)
    ensures VoteInvariant(NewOptions(labels))
    ensures TotalVotes(NewOptions(labels)) == 0
    decreases |labels|
  {
    if labels != [] {
      NewOptionsFresh(labels[1..]);
    }
  }

  /** A counted vote keeps `votes == |votedBy|` and the one-vote-per-user rule. */
  lemma CountedKeepsInvariant(opts: seq<PollOption>, u: string, choice: string)
    requires VoteInvariant(opts)
    requires CastVote(opts, u, choice).Counted?
    ensures VoteInvariant(CastVote(opts, u, choice).options)
  {
    var r := CastVote(opts, u, choice).options;
    var k :| 0 <= k < |opts| && opts[k].option == choice && r[k] == Bump(opts[k], u) &&
      (forall j :: 0 <= j < k ==> opts[j].option != choice) &&
      forall j :: 0 <= j < |opts| && j != k ==> r[j] == opts[j];
    assert !HasVoted(opts, u);
    assert forall i :: 0 <= i < |r| && i != k ==> u !in r[i].votedBy;
    forall i, j, v | 0 <= i < |r| && 0 <= j < |r| && v in r[i].votedBy && v in r[j].votedBy
      ensures i == j
    {
      if v == u {
        assert i == k && j == k;
      } else {
        assert v in opts[i].votedBy && v in opts[j].votedBy;
      }
    }
  }

  lemma {:induction false} TotalVotesUpdate(opts: seq<PollOption>, k: nat, o: PollOption)
    requires k < |opts|
    ensures TotalVotes(opts[k := o]) == TotalVotes(opts) - opts[k].votes + o.votes
    decreases |opts|
  {
    if k > 0 {
      assert opts[k := o][1..] == opts[1..][k - 1 := o];
      TotalVotesUpdate(opts[1..], k - 1, o);
    }
  }

  /** A counted vote raises the poll's total by exactly one. */
  lemma CountedAddsOneVote(opts: seq<PollOption>, u: string, choice: string)
    requires CastVote(opts, u, choice).Counted?
    ensures TotalVotes(CastVote(opts, u, choice).options) == TotalVotes(opts) + 1
  {
    var k := FindOption(opts, choice).value;
    TotalVotesUpdate(opts, k, Bump(opts[k], u));
  }

  /** Once a user's vote is counted, every further vote of theirs on that poll is refused, whatever the choice. */
  lemma VoteOnce(opts: seq<PollOption>, u: string, choice: string, choice': string)
    requires CastVote(opts, u, choice).Counted?
    ensures CastVote(CastVote(opts, u, choice).options, u, choice') == RejectedAlreadyVoted
  {
    var k := FindOption(opts, choice).value;
    assert u in CastVote(opts, u, choice).options[k].votedBy;
  }

  /** A ballot: who votes, and for which choice. */
  datatype Ballot = Ballot(username: string, choice: string)

  /** The options after a sequence of ballots, each decided by `CastVote`; a refused ballot changes nothing. */
  function ApplyBallots(opts: seq<PollOption>, ballots: seq<Ballot>): seq<PollOption>
    decreases |ballots|
  {
    if ballots == [] then opts
    else
      var next := match CastVote(opts, ballots[0].username, ballots[0].choice)
        case Counted(o) => o
        case _ => opts;
      ApplyBallots(next, ballots[1..])
  }

  /** How many of the ballots are counted. */
  function CountedBallots(opts: seq<PollOption>, ballots: seq<Ballot>): nat
    decreases |ballots|
  {
    if ballots == [] then 0
    else match CastVote(opts, ballots[0].username, ballots[0].choice)
      case Counted(o) => 1 + CountedBallots(o, ballots[1..])
      case _ => CountedBallots(opts, ballots[1..])
  }

  /** Over any sequence of ballots the invariant holds throughout, and the total grows by exactly the
      number of ballots that were counted. */
  lemma {:induction false} BallotsKeepInvariant(opts: seq<PollOption>, ballots: seq<Ballot>)
    requires VoteInvariant(opts)
    ensures VoteInvariant(ApplyBallots(opts, ballots))
    ensures TotalVotes(ApplyBallots(opts, ballots)) == TotalVotes(opts) + CountedBallots(opts, ballots)
    decreases |ballots|
  {
    if ballots != [] {
      var b := ballots[0];
      match CastVote(opts, b.username, b.choice)
      case Counted(o) =>
        CountedKeepsInvariant(opts, b.username, b.choice);
        CountedAddsOneVote(opts, b.username, b.choice);
        BallotsKeepInvariant(o, ballots[1..]);
      case _ =>
        BallotsKeepInvariant(opts, ballots[1..]);
    }
  }

  /** The `some` scan of `votePoll`: stops at the first option whose `votedBy` holds `u`. */
  method ScanVotedBy(opts: seq<PollOption>, u: string) returns (found: bool)
    ensures found <==> HasVoted(opts, u)
  {
    found := false;
    var i := 0;
    while i < |opts| && !found
      invariant 0 <= i <= |opts|
      invariant found <==> exists j :: 0 <= j < i && u in opts[j].votedBy
    {
      found := u in opts[i].votedBy;
      i := i + 1;
    }
  }

  /** The `find` scan of `votePoll`: the index of the first option with that choice. */
  method ScanLabel(opts: seq<PollOption>, choice: string) returns (k: Option<nat>)
    ensures k == FindOption(opts, choice)
  {
    var i := 0;
    while i < |opts|
      invariant 0 <= i <= |opts|
      invariant forall j :: 0 <= j < i ==> opts[j].option != choice
    {
      if opts[i].option == choice {
        return Some(i);
      }
      i := i + 1;
    }
    return None;
  }

  /** The key `sort({ createdAt: 1 })` orders poll ids by. */
  function CreationKey(polls: map<PollId, Poll>): PollId -> int {
    id => if id in polls then polls[id].createdAt else 0
  }

  /** The creation time a serialised poll carries. */
  function RecordCreatedAt(p: PollRecord): int {
    if p.createdAt.Some? then p.createdAt.value else 0
  }

  /** The ids of the room's polls below `n`, each once, ordered by creation time; polls created in the
      same instant keep ascending id order. */
  function RoomPollIds(polls: map<PollId, Poll>, n: nat, room: string): (ids: seq<PollId>)
    ensures forall i :: 0 <= i < |ids| ==> ids[i] < n && ids[i] in polls && polls[ids[i]].room == room
    ensures forall id :: id in polls && id < n && polls[id].room == room ==> id in ids
    ensures NoDup(ids)
    ensures SortedBy(ids, CreationKey(polls))
  {
    var selected := Store.Select(polls, n, (p: Poll) => p.room == room);
    var ids: seq<PollId> := SortBy(selected, CreationKey(polls));
    PermutationSameMembers(selected, ids);
    PermutationKeepsNoDup(selected, ids);
    assert forall i :: 0 <= i < |ids| ==> ids[i] < n && ids[i] in polls && polls[ids[i]].room == room by {
      forall i | 0 <= i < |ids| ensures ids[i] < n && ids[i] in polls && polls[ids[i]].room == room {
        assert ids[i] in selected;
      }
    }
    ids
  }

  /** The serialised form of the polls with the given ids, in that order. */
  function Records(polls: map<PollId, Poll>, ids: seq<PollId>): (r: seq<PollRecord>)
    requires forall i :: 0 <= i < |ids| ==> ids[i] in polls
    ensures |r| == |ids|
    ensures forall i :: 0 <= i < |r| ==> r[i] == PollRecordOf(ids[i], polls[ids[i]])
  {
    seq(|ids|, i requires 0 <= i < |ids| => PollRecordOf(ids[i], polls[ids[i]]))
  }

  /** Records built from a duplicate-free id sequence have distinct ids, and every id has its record. */
  lemma RecordsKeepIds(polls: map<PollId, Poll>, ids: seq<PollId>, r: seq<PollRecord>)
    requires forall i :: 0 <= i < |ids| ==> ids[i] in polls
    requires NoDup(ids) && r == Records(polls, ids)
    ensures forall i, j :: 0 <= i < j < |r| ==> r[i].id != r[j].id
    ensures forall id :: id in ids ==> exists i :: 0 <= i < |r| && r[i].id == id
  {
    forall i, j | 0 <= i < j < |r| ensures r[i].id != r[j].id {
      assert r[i].id == ids[i] && r[j].id == ids[j];
    }
    forall id | id in ids ensures exists i :: 0 <= i < |r| && r[i].id == id {
      var i :| 0 <= i < |ids| && ids[i] == id;
      assert r[i].id == id;
    }
  }

  /** Records built from ids in creation order are in creation order. */
  lemma RecordsKeepOrder(polls: map<PollId, Poll>, ids: seq<PollId>, r: seq<PollRecord>)
    requires forall i :: 0 <= i < |ids| ==> ids[i] in polls
    requires SortedBy(ids, CreationKey(polls)) && r == Records(polls, ids)
    ensures SortedBy(r, RecordCreatedAt)
  {
    forall i, j | 0 <= i < j < |r| ensures RecordCreatedAt(r[i]) <= RecordCreatedAt(r[j]) {
      assert RecordCreatedAt(r[i]) == CreationKey(polls)(ids[i]);
      assert RecordCreatedAt(r[j]) == CreationKey(polls)(ids[j]);
    }
  }

  /** `getPollsByRoom(room)`: exactly the room's polls, each once, ordered by `createdAt` ascending. */
  function PollsByRoom(polls: map<PollId, Poll>, n: nat, room: string): (r: seq<PollRecord>)
    ensures forall i :: 0 <= i < |r| ==>
      r[i].id < n && r[i].id in polls && r[i] == PollRecordOf(r[i].id, polls[r[i].id]) && r[i].room == room
    ensures forall id :: id in polls && id < n && polls[id].room == room ==>
      exists i :: 0 <= i < |r| && r[i].id == id
    ensures forall i, j :: 0 <= i < j < |r| ==> r[i].id != r[j].id
    ensures SortedBy(r, RecordCreatedAt)
  {
    var ids: seq<PollId> := RoomPollIds(polls, n, room);
    var r := Records(polls, ids);
    RecordsKeepIds(polls, ids, r);
    RecordsKeepOrder(polls, ids, r);
    r
  }

  /** The poll collection and the counter that issues its ids. */
  class PollServer {
    var polls: map<PollId, Poll>
    var nextId: PollId

    /** Every stored id was issued, every stored poll passed validation and keeps the vote invariant. */
    ghost predicate Valid()
      reads this
    {
      forall id :: id in polls ==> id < nextId && PollSaves(polls[id]) && VoteInvariant(polls[id].options)
    }

    constructor ()
      ensures Valid() && polls == map[] && nextId == 0
    {
      polls, nextId := map[], 0;
    }

    /** `create_poll`: stores a poll whose options are the labels with no votes, stamped `now`, and
        broadcasts it to the room; a poll the schema rejects is not stored and the sender gets an error. */
    method CreatePoll(room: string, question: string, labels: seq<string>, now: int) returns (out: seq<Emit>)
      requires Valid()
      modifies this
      ensures Valid()
      ensures var p := Poll(room, question, NewOptions(labels), now);
        if PollSaves(p) then
          && old(nextId) !in old(polls)
          && polls == old(polls)[old(nextId) := p]
          && nextId == old(nextId) + 1
          && out == [Emit(Room(room), PollCreated(PollRecordOf(old(nextId), p)))]
        else
          polls == old(polls) && nextId == old(nextId) && out == [Emit(Sender, ErrorEvent(CreateFailed))]
    {
      var p := Poll(room, question, NewOptions(labels), now);
      if !PollSaves(p) {
        out := [Emit(Sender, ErrorEvent(CreateFailed))];
        return;
      }
      var id := nextId;
      polls := polls[id := p];
      nextId := nextId + 1;
      out := [Emit(Room(room), PollCreated(PollRecordOf(id, p)))];
    }

    /** `vote_poll`: the choice is read from the nested payload (`option.option`). Refusals go to the
        sender and change nothing; a counted vote updates that poll alone and is broadcast to the poll's
        own room. */
    method VotePoll(req: VoteRequest) returns (out: seq<Emit>)
      requires Valid()
      modifies this
      ensures Valid() && nextId == old(nextId)
      ensures req.pollId !in old(polls) ==>
        polls == old(polls) && out == [Emit(Sender, ErrorEvent(PollNotFound))]
      ensures req.pollId in old(polls) ==>
        var p := old(polls)[req.pollId];
        match CastVote(p.options, req.username, req.option.option)
        case RejectedAlreadyVoted =>
          polls == old(polls) && out == [Emit(Sender, ErrorEvent(AlreadyVotedOnPoll))]
        case RejectedNoOption =>
          polls == old(polls) && out == [Emit(Sender, ErrorEvent(OptionNotFound))]
        case Counted(opts) =>
          && polls == old(polls)[req.pollId := p.(options := opts)]
          && out == [Emit(Room(p.room), PollUpdated(PollRecordOf(req.pollId, p.(options := opts))))]
    {
      if req.pollId !in polls {
        out := [Emit(Sender, ErrorEvent(PollNotFound))];
        return;
      }
      var poll := polls[req.pollId];
      var alreadyVoted := ScanVotedBy(poll.options, req.username);
      if alreadyVoted {
        out := [Emit(Sender, ErrorEvent(AlreadyVotedOnPoll))];
        return;
      }
      var selected := req.option.option;
      var k := ScanLabel(poll.options, selected);
      if k.None? {
        out := [Emit(Sender, ErrorEvent(OptionNotFound))];
        return;
      }
      var opt := poll.options[k.value];
      opt := opt.(votes := opt.votes + 1);
      opt := opt.(votedBy := opt.votedBy + [req.username]);
      CountedKeepsInvariant(poll.options, req.username, selected);
      poll := poll.(options := poll.options[k.value := opt]);
      polls := polls[req.pollId := poll];
      out := [Emit(Room(poll.room), PollUpdated(PollRecordOf(req.pollId, poll)))];
    }
  }
}
