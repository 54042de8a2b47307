/** The chat room's data: the participant registry, the message log and the
    replies a handler gives. Clock readings are milliseconds since the epoch,
    as `Date.now()` returns them; the human-readable `time` of a message is an
    opaque string produced by a formatter that is not modelled. */
module Chat {
  import opened Options
  import opened Seqs

  /** Milliseconds of silence after which the sweep evicts a participant. */
  const StaleAfter: int := 10000

  /** Recipient of every join and leave notice. */
  const Everyone: string := "Todos"
  const JoinText: string := "entra na sala..."
  const LeaveText: string := "sai da sala..."

  /** A registered occupant. `id` is the store's document identity, which
      no two documents of the collection share. */
  datatype Participant = Participant(id: nat, name: string, lastStatus: int)

  /** The `type` tag of a message: "message" (public), "private_message" or
      "status" (join and leave notices written by the server itself). */
  datatype MessageType = PublicMessage | PrivateMessage | StatusNotice

  datatype Message = Message(from: string, to: string, text: string, kind: MessageType, time: string)

  datatype State = State(participants: seq<Participant>, messages: seq<Message>)

  /** What a handler answers, in place of an HTTP status code. */
  datatype Outcome =
    | Created   // 201
    | Ok        // 200
    | Invalid   // 422: schema violation, or a message from an unregistered sender
    | Conflict  // 409: the name is already registered
    | NotFound  // 404: heartbeat for an unregistered name

  /** A transition's new state together with its reply. */
  datatype Step = Step(state: State, outcome: Outcome)

  /** A JSON body value, reduced to what the schemas look at: the text of a
      string; for a number, only whether it is finite and within the safe
      integer range of a JavaScript number (magnitude at most 2^53 - 1); and
      only the kind of any other value. */
  datatype Value = Str(s: string) | Num(safe: bool) | Other

  /** A parsed JSON request body. */
  type Body = map<string, Value>

  function TypeName(t: MessageType): string
  {
    match t
    case PublicMessage => "message"
    case PrivateMessage => "private_message"
    case StatusNotice => "status"
  }

  /** The first registered participant called `name`, if any. A missing
      `user` header (`None`) matches nobody, since every stored name is a
      string. */
  function FindName(ps: seq<Participant>, name: Option<string>): (r: Option<nat>)
    ensures r.None? <==> name.None? || forall p :: p in ps ==> p.name != name.value
    ensures r.Some? ==> r.value < |ps| && name == Some(ps[r.value].name)
                        && forall i :: 0 <= i < r.value ==> Some(ps[i].name) != name
  {
    if name.None? then None else FirstWhere(ps, (p: Participant) => p.name == name.value)
  }

  /** The position of the document with identity `id`, if any. */
  function FindId(ps: seq<Participant>, id: nat): Option<nat>
  {
    FirstWhere(ps, (p: Participant) => p.id == id)
  }

  /** One more than every identity in use: a stand-in for the identity the
      store generates for a new document. */
  function FreshId(ps: seq<Participant>): (r: nat)
    ensures forall p :: p in ps ==> p.id < r
    decreases |ps|
  {
    if |ps| == 0 then 0
    else
      var rest := FreshId(ps[1..]);
      assert forall p :: p in ps ==> p == ps[0] || p in ps[1..];
      if ps[0].id < rest then rest else ps[0].id + 1
  }

  ghost predicate DistinctIds(ps: seq<Participant>)
  {
    forall i, j :: 0 <= i < j < |ps| ==> ps[i].id != ps[j].id
  }

  ghost predicate DistinctNames(ps: seq<Participant>)
  {
    forall i, j :: 0 <= i < j < |ps| ==> ps[i].name != ps[j].name
  }

  /** What the store and the registration check keep true of the registry. */
  ghost predicate Wf(s: State)
  {
    DistinctIds(s.participants) && DistinctNames(s.participants)
  }

  /** The two inserts and the deletions never remove or rewrite a message. */
  ghost predicate AppendOnly(before: seq<Message>, after: seq<Message>)
  {
    before <= after
  }
}
