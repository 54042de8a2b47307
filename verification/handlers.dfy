/** The request handlers: join, post, read and heartbeat. Each is a pure
    transition of the registry and the log; the clock reading `now` and the
    formatted time `clock` are passed in. */
module Handlers {
  import opened Options
  import opened Seqs
  import opened Chat
  import opened Schema

  /** The notice written when `name` joins. */
  function JoinNotice(name: string, clock: string): Message
  {
    Message(name, Everyone, JoinText, StatusNotice, clock)
  }

  /** POST /participants: validate the body, refuse a name already
      registered, otherwise register the name with `lastStatus = now` and
      announce it. */
  function Register(s: State, body: Body, now: int, clock: string): (r: Step)
    ensures r.outcome in {Created, Invalid, Conflict}
    ensures r.outcome == Invalid <==> CheckParticipant(body).None?
    ensures r.outcome == Conflict <==>
              CheckParticipant(body).Some?
              && exists p :: p in s.participants && p.name == CheckParticipant(body).value
    ensures r.outcome != Created ==> r.state == s
    ensures r.outcome == Created ==>
              var name := CheckParticipant(body).value;
              && |r.state.participants| == |s.participants| + 1
              && r.state.participants[..|s.participants|] == s.participants
              && var joined := r.state.participants[|s.participants|];
              && joined.name == name && joined.lastStatus == now
              && (forall p :: p in s.participants ==> p.id != joined.id)
              && r.state.messages == s.messages + [Message(name, "Todos", "entra na sala...", StatusNotice, clock)]
  {
    match CheckParticipant(body)
    case None => Step(s, Invalid)
    case Some(name) =>
      if FindName(s.participants, Some(name)).Some? then Step(s, Conflict)
      else
        var joined := Participant(FreshId(s.participants), name, now);
        Step(State(s.participants + [joined], s.messages + [JoinNotice(name, clock)]), Created)
  }

  /** POST /messages: validate the body, then require the `user` header to
      name a registered participant, then append the message from that
      participant. */
  function PostMessage(s: State, user: Option<string>, body: Body, clock: string): (r: Step)
    ensures r.outcome in {Created, Invalid}
    ensures r.state.participants == s.participants
    ensures r.outcome == Created <==>
              CheckMessage(body).Some? && user.Some?
              && exists p :: p in s.participants && p.name == user.value
    ensures r.outcome == Invalid ==> r.state == s
    ensures r.outcome == Created ==>
              var d := CheckMessage(body).value;
              && |r.state.messages| == |s.messages| + 1
              && r.state.messages[..|s.messages|] == s.messages
              && var m := r.state.messages[|s.messages|];
              && m.from == user.value && m.to == d.to && m.text == d.text && m.kind == d.kind
              && m.kind != StatusNotice && m.time == clock
  {
    match CheckMessage(body)
    case None => Step(s, Invalid)
    case Some(d) =>
      if FindName(s.participants, user).None? then Step(s, Invalid)
      else Step(State(s.participants, s.messages + [Message(user.value, d.to, d.text, d.kind, clock)]), Created)
  }

  /** The read filter: messages from or to `user`, and every public message
      and every notice. */
  predicate Visible(m: Message, user: Option<string>)
  {
    || (user.Some? && (m.from == user.value || m.to == user.value))
    || m.kind == PublicMessage
    || m.kind == StatusNotice
  }

  type PosNat = n: nat | n > 0 witness 1

  /** Every message `user` may read, in log order. */
  function AllVisible(s: State, user: Option<string>): (r: seq<Message>)
    ensures forall m :: m in r <==> m in s.messages && Visible(m, user)
  {
    Filter(s.messages, (m: Message) => Visible(m, user))
  }

  /** The readable messages are exactly the visible ones, in log order. */
  lemma AllVisibleInLogOrder(s: State, user: Option<string>)
    ensures IsOrderedSelection(AllVisible(s, user), s.messages, (m: Message) => Visible(m, user),
                               Positions(s.messages, (m: Message) => Visible(m, user)))
  {
    FilterIsOrderedSelection(s.messages, (m: Message) => Visible(m, user));
  }

  /** GET /messages: the visible messages in log order; with a limit, only
      the first `limit` of them, since the query has no sort. The state does
      not change. */
  function VisibleMessages(s: State, user: Option<string>, limit: Option<PosNat>): (r: seq<Message>)
    ensures forall m :: m in r ==> m in s.messages && Visible(m, user)
    ensures limit.None? ==> forall m :: m in s.messages && Visible(m, user) ==> m in r
    ensures r <= AllVisible(s, user)
    ensures limit.Some? ==> |r| <= limit.value
    ensures limit.None? || |r| < limit.value ==> r == AllVisible(s, user)
  {
    var all := AllVisible(s, user);
    match limit
    case None => all
    case Some(n) =>
      if n < |all| then
        assert forall m :: m in all[..n] ==> m in all;
        all[..n]
      else all
  }

  /** POST /status: refresh the first participant named by the `user`
      header, or report that there is none. */
  function Heartbeat(s: State, user: Option<string>, now: int): (r: Step)
    ensures r.outcome in {Ok, NotFound}
    ensures r.state.messages == s.messages
    ensures |r.state.participants| == |s.participants|
    ensures r.outcome == NotFound <==>
              user.None? || forall p :: p in s.participants ==> p.name != user.value
    ensures r.outcome == NotFound ==> r.state == s
    ensures r.outcome == Ok ==>
              exists k :: 0 <= k < |s.participants|
                && Some(s.participants[k].name) == user
                && (forall i :: 0 <= i < k ==> Some(s.participants[i].name) != user)
                && r.state.participants[k] == s.participants[k].(lastStatus := now)
                && forall i :: 0 <= i < |s.participants| && i != k ==>
                                 r.state.participants[i] == s.participants[i]
  {
    match FindName(s.participants, user)
    case None => Step(s, NotFound)
    case Some(k) =>
      var ps := s.participants[k := s.participants[k].(lastStatus := now)];
      Step(State(ps, s.messages), Ok)
  }
}
