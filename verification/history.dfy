/** The chat room as a whole: any interleaving of requests and sweeps, each
    applied atomically. Across every such run the log only grows and the
    registry keeps distinct identities and names. */
module History {
  import opened Options
  import opened Seqs
  import opened Chat
  import opened Schema
  import opened Handlers
  import opened Sweeper

  /** One request, or one firing of the sweep timer. */
  datatype Event =
    | Join(body: Body, now: int, clock: string)
    | Post(user: Option<string>, body: Body, clock: string)
    | Read(user: Option<string>, limit: Option<PosNat>)
    | Ping(user: Option<string>, now: int)
    | Tick(now: int, clock: string)

  function Apply(s: State, e: Event): State
  {
    match e
    case Join(body, now, clock) => Register(s, body, now, clock).state
    case Post(user, body, clock) => PostMessage(s, user, body, clock).state
    case Read(_, _) => s
    case Ping(user, now) => Heartbeat(s, user, now).state
    case Tick(now, clock) => Sweep(s, now, clock)
  }

  function Run(s: State, es: seq<Event>): State
    decreases |es|
  {
    if |es| == 0 then s else Run(Apply(s, es[0]), es[1..])
  }

  /** A successful registration keeps identities and names distinct: the new
      identity is unused and the name was checked to be free. */
  lemma RegisterPreservesWf(s: State, body: Body, now: int, clock: string)
    requires Wf(s)
    ensures Wf(Register(s, body, now, clock).state)
  {
  }

  /** A heartbeat changes only a timestamp. */
  lemma HeartbeatPreservesWf(s: State, user: Option<string>, now: int)
    requires Wf(s)
    ensures Wf(Heartbeat(s, user, now).state)
  {
  }

  lemma ApplyPreservesWf(s: State, e: Event)
    requires Wf(s)
    ensures Wf(Apply(s, e))
  {
    match e
    case Join(body, now, clock) => RegisterPreservesWf(s, body, now, clock);
    case Post(user, body, clock) =>
    case Read(_, _) =>
    case Ping(user, now) => HeartbeatPreservesWf(s, user, now);
    case Tick(now, clock) => SweepPreservesWf(s, now, clock);
  }

  /** No run of requests and sweeps can make two registered participants
      share an identity or a name. */
  lemma {:induction false} RunPreservesWf(s: State, es: seq<Event>)
    requires Wf(s)
    ensures Wf(Run(s, es))
    decreases |es|
  {
    if |es| > 0 {
      ApplyPreservesWf(s, es[0]);
      RunPreservesWf(Apply(s, es[0]), es[1..]);
    }
  }

  /** Every event leaves the old log as a prefix of the new one. */
  lemma ApplyIsAppendOnly(s: State, e: Event)
    ensures AppendOnly(s.messages, Apply(s, e).messages)
  {
  }

  /** No run of requests and sweeps removes or rewrites a logged message. */
  lemma {:induction false} RunIsAppendOnly(s: State, es: seq<Event>)
    ensures AppendOnly(s.messages, Run(s, es).messages)
    decreases |es|
  {
    if |es| > 0 {
      var s' := Apply(s, es[0]);
      ApplyIsAppendOnly(s, es[0]);
      RunIsAppendOnly(s', es[1..]);
      assert s.messages <= s'.messages <= Run(s, es).messages;
    }
  }

  /** A registered participant who heartbeats at `t` is still registered,
      with `lastStatus = t`, after a sweep at any `now` with
      `now - t <= StaleAfter`. */
  lemma RecentHeartbeatSurvivesSweep(s: State, name: string, t: int, now: int, clock: string)
    requires exists p :: p in s.participants && p.name == name
    requires now - t <= StaleAfter
    ensures Heartbeat(s, Some(name), t).outcome == Ok
    ensures exists p :: && p in Sweep(Heartbeat(s, Some(name), t).state, now, clock).participants
                        && p.name == name && p.lastStatus == t
  {
  }

  /** Example: Alice joins at 0 and is evicted by the sweep at
      15000; had she sent a heartbeat at 14000, that sweep would keep her. */
  lemma AliceScenario(clock: string)
    ensures var joined := Register(State([], []), JoinBody("Alice"), 0, clock);
            && joined.outcome == Created
            && Sweep(joined.state, 15000, clock).participants == []
            && Sweep(joined.state, 15000, clock).messages
                 == [JoinNotice("Alice", clock), LeaveNotice("Alice", clock)]
            && var pinged := Heartbeat(joined.state, Some("Alice"), 14000);
            && pinged.outcome == Ok
            && Sweep(pinged.state, 15000, clock).participants == [Participant(0, "Alice", 14000)]
            && Sweep(pinged.state, 15000, clock).messages == [JoinNotice("Alice", clock)]
  {
    JoinBodyRoundTrip("Alice");
    var joined := Register(State([], []), JoinBody("Alice"), 0, clock);
    assert joined.state.participants == [Participant(0, "Alice", 0)];
    var pinged := Heartbeat(joined.state, Some("Alice"), 14000);
    assert pinged.state.participants == [Participant(0, "Alice", 14000)];
  }
}
