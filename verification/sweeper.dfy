/** The presence sweep: one pass over a snapshot of the registry, taken at
    one clock reading, that deletes every participant silent for more than
    `StaleAfter` milliseconds and announces each departure. */
module Sweeper {
  import opened Options
  import opened Seqs
  import opened Chat

  predicate IsStale(p: Participant, now: int)
  {
    now - p.lastStatus > StaleAfter
  }

  /** The notice written when `name` is evicted. */
  function LeaveNotice(name: string, clock: string): Message
  {
    Message(name, Everyone, LeaveText, StatusNotice, clock)
  }

  function Survivors(ps: seq<Participant>, now: int): seq<Participant>
  {
    Filter(ps, (p: Participant) => !IsStale(p, now))
  }

  function Evicted(ps: seq<Participant>, now: int): seq<Participant>
  {
    Filter(ps, (p: Participant) => IsStale(p, now))
  }

  /** One leave notice per participant of `ps`, in the same order. */
  function Departures(ps: seq<Participant>, clock: string): seq<Message>
  {
    seq(|ps|, k requires 0 <= k < |ps| => LeaveNotice(ps[k].name, clock))
  }

  /** The effect of one sweep, stated as a whole: the fresh participants
      stay, in order, and each stale one is replaced by a leave notice
      appended to the log. */
  function Sweep(s: State, now: int, clock: string): (r: State)
    ensures forall p :: p in r.participants <==> p in s.participants && !IsStale(p, now)
    ensures AppendOnly(s.messages, r.messages)
    ensures |r.messages| - |s.messages| == |s.participants| - |r.participants|
    ensures forall k :: |s.messages| <= k < |r.messages| ==>
              && r.messages[k].to == Everyone && r.messages[k].text == LeaveText
              && r.messages[k].kind == StatusNotice && r.messages[k].time == clock
              && exists p :: p in s.participants && IsStale(p, now) && p.name == r.messages[k].from
  {
    var gone := Evicted(s.participants, now);
    FilterSplitsLength(s.participants, (p: Participant) => IsStale(p, now), (p: Participant) => !IsStale(p, now));
    var r := State(Survivors(s.participants, now), s.messages + Departures(gone, clock));
    assert forall k :: |s.messages| <= k < |r.messages| ==> r.messages[k] == LeaveNotice(gone[k - |s.messages|].name, clock);
    r
  }

  /** `deleteOne({_id: id})`: remove the first document with identity
      `id`, if there is one. */
  function DeleteOne(ps: seq<Participant>, id: nat): (r: seq<Participant>)
    ensures (forall p :: p in ps ==> p.id != id) ==> r == ps
    ensures (exists p :: p in ps && p.id == id) ==> |r| == |ps| - 1
    ensures forall p :: p in r ==> p in ps
  {
    match FindId(ps, id)
    case None => ps
    case Some(k) =>
      var r := ps[..k] + ps[k + 1..];
      assert forall p :: p in r ==> p in ps[..k] || p in ps[k + 1..];
      r
  }

  /** Since identities are unique, deleting by identity removes exactly the
      document that has it. */
  lemma DeleteOneRemovesExactly(ps: seq<Participant>, id: nat)
    requires DistinctIds(ps)
    ensures forall p :: p in DeleteOne(ps, id) <==> p in ps && p.id != id
  {
  }

  /** Deleting the identity at the head of the unvisited part removes just
      that entry, when no earlier entry shares it. */
  lemma DeleteNext(done: seq<Participant>, rest: seq<Participant>)
    requires |rest| > 0
    requires forall p :: p in done ==> p.id != rest[0].id
    ensures DeleteOne(done + rest, rest[0].id) == done + rest[1..]
  {
    var ps := done + rest;
    assert ps[|done|] == rest[0];
    assert forall i :: 0 <= i < |done| ==> ps[i] == done[i];
    assert FindId(ps, rest[0].id) == Some(|done|);
    assert ps[..|done|] == done;
    assert ps[|done| + 1..] == rest[1..];
  }

  /** The live registry and log once the pass over the snapshot
      `s.participants` has visited its first `i` entries. */
  function PassAfter(s: State, i: nat, now: int, clock: string): State
    requires i <= |s.participants|
  {
    var users := s.participants;
    State(Survivors(users[..i], now) + users[i..], s.messages + Departures(Evicted(users[..i], now), clock))
  }

  /** One iteration of the pass moves the live registry on by exactly
      entry `i` of the snapshot. */
  lemma PassStepRegistry(users: seq<Participant>, i: nat, now: int)
    requires DistinctIds(users)
    requires i < |users|
    ensures var live := Survivors(users[..i], now) + users[i..];
            (if IsStale(users[i], now) then DeleteOne(live, users[i].id) else live)
              == Survivors(users[..i + 1], now) + users[i + 1..]
  {
    var user := users[i];
    var done := Survivors(users[..i], now);
    assert users[..i + 1] == users[..i] + [user];
    FilterSnoc(users[..i], user, (p: Participant) => !IsStale(p, now));
    if IsStale(user, now) {
      assert Survivors(users[..i + 1], now) == done;
      forall p | p in done
        ensures p.id != user.id
      {
        assert p in users[..i];
        var j :| 0 <= j < i && users[..i][j] == p;
        assert users[j] == p;
      }
      DeleteNext(done, users[i..]);
      assert users[i..][1..] == users[i + 1..];
    } else {
      assert Survivors(users[..i + 1], now) == done + [user];
      assert users[i..] == [user] + users[i + 1..];
    }
  }

  /** One iteration of the pass appends exactly the leave notice of entry
      `i` of the snapshot, when it is stale. */
  lemma PassStepNotices(users: seq<Participant>, i: nat, now: int, clock: string)
    requires i < |users|
    ensures Departures(Evicted(users[..i + 1], now), clock)
              == Departures(Evicted(users[..i], now), clock)
                 + (if IsStale(users[i], now) then [LeaveNotice(users[i].name, clock)] else [])
  {
    assert users[..i + 1] == users[..i] + [users[i]];
    FilterSnoc(users[..i], users[i], (p: Participant) => IsStale(p, now));
  }

  /** One iteration of the pass, on the registry and the log together. */
  lemma PassStep(s: State, i: nat, now: int, clock: string)
    requires DistinctIds(s.participants)
    requires i < |s.participants|
    ensures var st := PassAfter(s, i, now, clock);
            var user := s.participants[i];
            (if IsStale(user, now)
             then State(DeleteOne(st.participants, user.id), st.messages + [LeaveNotice(user.name, clock)])
             else st)
              == PassAfter(s, i + 1, now, clock)
  {
    PassStepRegistry(s.participants, i, now);
    PassStepNotices(s.participants, i, now, clock);
  }

  /** `userOnline`: read the registry once, then, for each participant of
      that snapshot in turn, delete it by identity from the live registry and
      append its leave notice when it is stale at the single reading `now`. */
  method SweepPass(s: State, now: int, clock: string) returns (r: State)
    requires DistinctIds(s.participants)
    ensures r == Sweep(s, now, clock)
  {
    var users := s.participants;
    var ps := s.participants;
    var ms := s.messages;
    for i := 0 to |users|
      invariant State(ps, ms) == PassAfter(s, i, now, clock)
    {
      var user := users[i];
      PassStep(s, i, now, clock);
      if now - user.lastStatus > StaleAfter {
        ps := DeleteOne(ps, user.id);
        ms := ms + [LeaveNotice(user.name, clock)];
      }
    }
    assert users[..|users|] == users;
    r := State(ps, ms);
  }

  /** A sweep keeps the registry's identities and names distinct. */
  lemma SweepPreservesWf(s: State, now: int, clock: string)
    requires Wf(s)
    ensures Wf(Sweep(s, now, clock))
  {
    FilterKeepsKeysDistinct(s.participants, (p: Participant) => !IsStale(p, now), (p: Participant) => p.id);
    FilterKeepsKeysDistinct(s.participants, (p: Participant) => !IsStale(p, now), (p: Participant) => p.name);
  }

  /** The survivors keep their registry order, and the leave notices follow
      the registry order of the evicted participants. */
  lemma SweepFollowsRegistryOrder(s: State, now: int, clock: string)
    ensures IsOrderedSelection(Sweep(s, now, clock).participants, s.participants,
                               (p: Participant) => !IsStale(p, now),
                               Positions(s.participants, (p: Participant) => !IsStale(p, now)))
    ensures exists idx :: && IsOrderedSelection(Evicted(s.participants, now), s.participants,
                                                (p: Participant) => IsStale(p, now), idx)
                          && Sweep(s, now, clock).messages
                               == s.messages + seq(|idx|, k requires 0 <= k < |idx| =>
                                                     LeaveNotice(s.participants[idx[k]].name, clock))
  {
    FilterIsOrderedSelection(s.participants, (p: Participant) => !IsStale(p, now));
    FilterIsOrderedSelection(s.participants, (p: Participant) => IsStale(p, now));
  }

  /** With distinct names, every participant stale at `now` is gone after the
      sweep and exactly one of the notices it appends announces its
      departure. */
  lemma SweepAnnouncesEachEvictionOnce(s: State, now: int, clock: string, p: Participant)
    requires DistinctNames(s.participants)
    requires p in s.participants && IsStale(p, now)
    ensures var r := Sweep(s, now, clock);
            && (forall q :: q in r.participants ==> q.name != p.name)
            && exists k :: && |s.messages| <= k < |r.messages|
                           && r.messages[k] == LeaveNotice(p.name, clock)
                           && forall k' :: |s.messages| <= k' < |r.messages| && r.messages[k'].from == p.name ==> k' == k
  {
    var r := Sweep(s, now, clock);
    var gone := Evicted(s.participants, now);
    FilterKeepsKeysDistinct(s.participants, (q: Participant) => IsStale(q, now), (q: Participant) => q.name);
    var i :| 0 <= i < |s.participants| && s.participants[i] == p;
    forall q | q in r.participants
      ensures q.name != p.name
    {
      var j :| 0 <= j < |s.participants| && s.participants[j] == q;
      assert j != i;
    }
    var g :| 0 <= g < |gone| && gone[g] == p;
    var k := |s.messages| + g;
    assert r.messages[k] == LeaveNotice(p.name, clock);
    forall k' | |s.messages| <= k' < |r.messages| && r.messages[k'].from == p.name
      ensures k' == k
    {
      assert r.messages[k'] == LeaveNotice(gone[k' - |s.messages|].name, clock);
    }
  }
}
