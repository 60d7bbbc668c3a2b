/** The poll-creation form of the client (frontend/src/App.jsx, `createPoll`): the form's state, the
    check that runs when it is submitted and the `create_poll` command it sends. */
module PollForm {
  import opened Models
  import opened Protocol
  import opened Seqs
  import PollController

  const InvalidPollAlert := "Enter a valid poll question and at least two options."

  /** The characters `String.prototype.trim` strips: ECMAScript's WhiteSpace (tab, vertical tab, form
      feed, space, no-break space, the byte order mark and the other space separators) and
      LineTerminator (line feed, carriage return, line and paragraph separators) code points. */
  predicate IsTrimmed(c: char) {
    || c == '\t' || c == '\U{B}' || c == '\U{C}' || c == ' ' || c == '\U{A0}' || c == '\U{FEFF}'
    || c == '\U{1680}' || ('\U{2000}' <= c <= '\U{200A}') || c == '\U{202F}' || c == '\U{205F}'
    || c == '\U{3000}'
    || c == '\n' || c == '\r' || c == '\U{2028}' || c == '\U{2029}'
  }

  /** The string without its leading whitespace. */
  function TrimStart(s: string): (r: string)
    ensures |r| <= |s| && r == s[|s| - |r|..]
    ensures r != [] ==> !IsTrimmed(r[0])
    ensures forall i :: 0 <= i < |s| - |r| ==> IsTrimmed(s[i])
  {
    if s != [] && IsTrimmed(s[0]) then
      var r := TrimStart(s[1..]);
      assert s[1..][|s| - 1 - |r|..] == s[|s| - |r|..];
      r
    else s
  }

  /** The string without its trailing whitespace. */
  function TrimEnd(s: string): (r: string)
    ensures |r| <= |s| && r == s[..|r|]
    ensures r != [] ==> !IsTrimmed(r[|r| - 1])
    ensures forall i :: |r| <= i < |s| ==> IsTrimmed(s[i])
  {
    if s != [] && IsTrimmed(s[|s| - 1]) then
      var r := TrimEnd(s[..|s| - 1]);
      assert s[..|s| - 1][..|r|] == s[..|r|];
      r
    else s
  }

  /** `s.trim()`: a stretch of the string that neither starts nor ends with whitespace, with only
      whitespace cut off on either side of it. */
  function Trim(s: string): (r: string)
    ensures var k := |s| - |TrimStart(s)|; k + |r| <= |s| && r == s[k..k + |r|]
    ensures r != [] ==> !IsTrimmed(r[0]) && !IsTrimmed(r[|r| - 1])
    ensures var k := |s| - |TrimStart(s)|; forall i :: 0 <= i < |s| && !(k <= i < k + |r|) ==> IsTrimmed(s[i])
  {
    var t := TrimStart(s);
    var r := TrimEnd(t);
    TrimEnds(s, t, r);
    TrimCutsWhitespace(s, t, r);
    r
  }

  /** What is left of `s` once `t` is `s` with its start trimmed and `r` is `t` with its end trimmed: the
      slice of `s` where `t` starts, with no whitespace at either end. */
  lemma TrimEnds(s: string, t: string, r: string)
    requires t == TrimStart(s) && r == TrimEnd(t)
    ensures var k := |s| - |t|; k + |r| <= |s| && r == s[k..k + |r|]
    ensures r != [] ==> !IsTrimmed(r[0]) && !IsTrimmed(r[|r| - 1])
  {
    MiddleSlice(s, t, r);
    if r != [] {
      assert r[0] == t[0];
    }
  }

  /** Everything `Trim` cuts off `s`, on either side, is whitespace. */
  lemma TrimCutsWhitespace(s: string, t: string, r: string)
    requires t == TrimStart(s) && r == TrimEnd(t)
    ensures var k := |s| - |t|; forall i :: 0 <= i < |s| && !(k <= i < k + |r|) ==> IsTrimmed(s[i])
  {
    var k := |s| - |t|;
    assert t == s[k..];
    forall i | k + |r| <= i < |s| ensures IsTrimmed(s[i]) {
      assert IsTrimmed(t[i - k]);
    }
  }

  /** A prefix `r` of a suffix `t` of `s` is the slice of `s` that starts where `t` does. */
  lemma MiddleSlice(s: string, t: string, r: string)
    requires |t| <= |s| && t == s[|s| - |t|..]
    requires |r| <= |t| && r == t[..|r|]
    ensures var k := |s| - |t|; k + |r| <= |s| && r == s[k..k + |r|]
  {
  }

  /** `s.trim() === ""`: the string is empty or whitespace only. */
  predicate Blank(s: string): (b: bool)
    ensures b <==> forall i :: 0 <= i < |s| ==> IsTrimmed(s[i])
  {
    assert (forall i :: 0 <= i < |s| ==> IsTrimmed(s[i])) ==> TrimStart(s) == [];
    Trim(s) == ""
  }

  /** `pollOptions.filter(opt => opt.trim() !== "")`: the options that are not blank, unchanged and in
      their order, each as often as it was there. */
  function NonBlank(opts: seq<string>): (r: seq<string>)
    ensures forall o :: o in r ==> !Blank(o)
    ensures forall o :: multiset(r)[o] == if Blank(o) then 0 else multiset(opts)[o]
    ensures IsSubseq(r, opts)
  {
    if opts == [] then []
    else
      var rest := NonBlank(opts[1..]);
      assert opts == [opts[0]] + opts[1..];
      if Blank(opts[0]) then rest
      else
        assert ([opts[0]] + rest)[1..] == rest;
        [opts[0]] + rest
  }

  /** The form's state: whether it is shown, the question and the option inputs. */
  datatype Form = Form(shown: bool, question: string, options: seq<string>)

  /** The form as it starts out and as a successful submission leaves it: hidden, empty, two inputs. */
  const EmptyForm := Form(false, "", ["", ""])

  datatype Submission =
    | Refused(alert: string)
    | Sent(request: CreatePollRequest, form: Form)

  /** `createPoll`: a blank question, or fewer than two options that are not blank, raise the alert and
      send nothing; otherwise the question as typed and the non-blank options go out, stamped `now`, and
      the form is reset. */
  function Submit(room: string, form: Form, now: int): (s: Submission)
    ensures s.Refused? <==> Blank(form.question) || |NonBlank(form.options)| < 2
    ensures s.Refused? ==> s.alert == InvalidPollAlert
    ensures s.Sent? ==> s.form == EmptyForm
    ensures s.Sent? ==> s.request == CreatePollRequest(room, form.question, NonBlank(form.options), now)
  {
    var valid := NonBlank(form.options);
    if Blank(form.question) || |valid| < 2 then Refused(InvalidPollAlert)
    else Sent(CreatePollRequest(room, form.question, valid, now), EmptyForm)
  }

  /** A request the form sends from a room with a name becomes a poll the server stores: the question and
      every option label are non-empty, and there are at least two options. */
  lemma SentPollSaves(room: string, form: Form, now: int, serverNow: int)
    ensures Present(room) && Submit(room, form, now).Sent? ==>
      var req := Submit(room, form, now).request;
      && PollSaves(Poll(req.room, req.question, PollController.NewOptions(req.options), serverNow))
      && |req.options| >= 2
  {
    var s := Submit(room, form, now);
    if Present(room) && s.Sent? {
      var req := s.request;
      var opts := PollController.NewOptions(req.options);
      forall i | 0 <= i < |opts| ensures Present(opts[i].option) {
        var o := req.options[i];
        assert o in NonBlank(form.options);
      }
    }
  }
}
