/** The client's poll widget (frontend/src/App.jsx, `PollComponent`) and the feed's wrapper around its
    vote callback. The widget remembers the picked option and whether it has voted; a vote goes out at
    most once per widget. */
module PollWidget {
  import opened Models
  import opened Protocol

  const AlreadyVotedAlert := "You have already voted."
  const PickFirstAlert := "Please select an option."

  /** The widget's two pieces of state. */
  datatype VoteState = VoteState(selectedOption: string, hasVoted: bool)

  const InitialState := VoteState("", false)

  /** What pressing the vote button does besides changing the state. */
  datatype Reaction = Alert(message: string) | Cast(payload: VotePayload)

  datatype Step = Step(state: VoteState, reaction: Reaction)

  /** Picking a radio button. The buttons are disabled once the widget has voted, so a pick then has no
      effect. */
  function OnPick(st: VoteState, value: string): (next: VoteState)
    ensures next.hasVoted == st.hasVoted
    ensures next.selectedOption == if st.hasVoted then st.selectedOption else value
  {
    if st.hasVoted then st else st.(selectedOption := value)
  }

  /** `handleVote`: after a vote, an alert and nothing else; with nothing picked, another alert; otherwise
      the payload with the picked option goes to the callback and the widget counts as having voted. */
  function OnVote(st: VoteState, pollId: PollId, username: string): (s: Step)
    ensures s.reaction.Cast? <==> !st.hasVoted && st.selectedOption != ""
    ensures s.reaction.Cast? ==> s.reaction.payload == VotePayload(pollId, st.selectedOption, username)
    ensures st.hasVoted ==> s == Step(st, Alert(AlreadyVotedAlert))
    ensures !st.hasVoted && st.selectedOption == "" ==> s == Step(st, Alert(PickFirstAlert))
    ensures s.reaction.Cast? ==> s.state == st.(hasVoted := true)
  {
    if !st.hasVoted then
      if st.selectedOption != "" then Step(st.(hasVoted := true), Cast(VotePayload(pollId, st.selectedOption, username)))
      else Step(st, Alert(PickFirstAlert))
    else Step(st, Alert(AlreadyVotedAlert))
  }

  /** What a user does to the widget. */
  datatype Gesture = Pick(value: string) | Press

  /** The payloads the widget hands to its callback over a run of gestures. */
  function Casts(st: VoteState, gs: seq<Gesture>, pollId: PollId, username: string): seq<VotePayload>
    decreases |gs|
  {
    if gs == [] then []
    else match gs[0]
      case Pick(v) => Casts(OnPick(st, v), gs[1..], pollId, username)
      case Press =>
        var s := OnVote(st, pollId, username);
        (if s.reaction.Cast? then [s.reaction.payload] else []) + Casts(s.state, gs[1..], pollId, username)
  }

  /** The state after a run of gestures. */
  function After(st: VoteState, gs: seq<Gesture>, pollId: PollId, username: string): VoteState
    decreases |gs|
  {
    if gs == [] then st
    else match gs[0]
      case Pick(v) => After(OnPick(st, v), gs[1..], pollId, username)
      case Press => After(OnVote(st, pollId, username).state, gs[1..], pollId, username)
  }

  /** Once the widget has voted, nothing it is asked to do sends another vote, and it stays voted. */
  lemma {:induction false} NoCastAfterVote(st: VoteState, gs: seq<Gesture>, pollId: PollId, username: string)
    requires st.hasVoted
    ensures Casts(st, gs, pollId, username) == []
    ensures After(st, gs, pollId, username).hasVoted
    decreases |gs|
  {
    if gs != [] {
      match gs[0]
      case Pick(v) => NoCastAfterVote(OnPick(st, v), gs[1..], pollId, username);
      case Press => NoCastAfterVote(OnVote(st, pollId, username).state, gs[1..], pollId, username);
    }
  }

  /** Whatever the gestures, a widget sends at most one vote, for a non-empty option of its own poll
      under its own user, and after it has sent one it counts as voted. */
  lemma {:induction false} AtMostOneCast(st: VoteState, gs: seq<Gesture>, pollId: PollId, username: string)
    ensures var cs := Casts(st, gs, pollId, username);
      && |cs| <= 1
      && (st.hasVoted ==> cs == [])
      && (forall i :: 0 <= i < |cs| ==> cs[i].pollId == pollId && cs[i].username == username && cs[i].option != "")
      && (|cs| == 1 ==> After(st, gs, pollId, username).hasVoted)
    decreases |gs|
  {
    if st.hasVoted {
      NoCastAfterVote(st, gs, pollId, username);
    } else if gs != [] {
      match gs[0]
      case Pick(v) => AtMostOneCast(OnPick(st, v), gs[1..], pollId, username);
      case Press =>
        var s := OnVote(st, pollId, username);
        if s.reaction.Cast? {
          NoCastAfterVote(s.state, gs[1..], pollId, username);
        } else {
          AtMostOneCast(s.state, gs[1..], pollId, username);
        }
    }
  }

  /** The feed's callback: `votePoll({ pollId: ev._id, option: payload, username })`, where `payload` is
      what the widget handed over. */
  function Wrap(feedPollId: PollId, payload: VotePayload, username: string): (req: VoteRequest)
    ensures req.option == payload
  {
    VoteRequest(feedPollId, payload, username)
  }

  /** The choice the server reads from a wrapped vote, `option.option`, is the option the widget had
      picked, and the poll it looks up is the feed event's. */
  lemma WrappedChoice(st: VoteState, pollId: PollId, username: string)
    requires OnVote(st, pollId, username).reaction.Cast?
    ensures var req := Wrap(pollId, OnVote(st, pollId, username).reaction.payload, username);
      req.option.option == st.selectedOption && req.pollId == pollId && req.username == username
  {
  }

  /** One mounted widget: the poll and user it was rendered for, and its state. */
  class PollComponent {
    const pollId: PollId
    const username: string
    var selectedOption: string
    var hasVoted: bool

    function State(): VoteState
      reads this
    {
      VoteState(selectedOption, hasVoted)
    }

    constructor (pollId: PollId, username: string)
      ensures this.pollId == pollId && this.username == username && State() == InitialState
    {
      this.pollId := pollId;
      this.username := username;
      selectedOption := "";
      hasVoted := false;
    }

    /** The radio button's `onChange`. */
    method Pick(value: string)
      modifies this
      ensures State() == OnPick(old(State()), value)
    {
      if !hasVoted {
        selectedOption := value;
      }
    }

    /** The vote button's `onClick`. */
    method HandleVote() returns (r: Reaction)
      modifies this
      ensures Step(State(), r) == OnVote(old(State()), pollId, username)
    {
      if !hasVoted {
        if selectedOption != "" {
          r := Cast(VotePayload(pollId, selectedOption, username));
          hasVoted := true;
        } else {
          r := Alert(PickFirstAlert);
        }
      } else {
        r := Alert(AlreadyVotedAlert);
      }
    }
  }
}
