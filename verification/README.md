# Chat-room participant and message state machine

A Dafny model of the chat-room backend in `index.js`: a **participant
registry** (name, store identity, `lastStatus` clock reading) and an
**append-only message log** (`from`, `to`, `text`, `type`, `time`), changed
by four HTTP handlers and by the periodic presence sweep `userOnline`.

The state is `State(participants: seq<Participant>, messages: seq<Message>)`.
Every handler is a pure transition that takes the clock reading `now`
(milliseconds, what `Date.now()` returns) and the formatted time `clock` (the
opaque string stored in a message's `time`) as parameters, and returns the new
state with an `Outcome` (`Created`, `Ok`, `Invalid`, `Conflict`, `NotFound`) in
place of the HTTP status (201, 200, 422, 409, 404).

Files and modules:

- `options.dfy` (`Options`): the optional value used for headers, body
  fields and search hits.
- `seqs.dfy` (`Seqs`): order-preserving `Filter` (a store `find` with a
  filter), `FirstWhere` (the first matching document), and lemmas: a filter
  selects exactly the matching positions in increasing order, keeps distinct
  keys distinct, and splits a sequence's length between a predicate and its
  negation.
- `chat.dfy` (`Chat`): the entities, the constants (`StaleAfter = 10000`,
  `"Todos"`, `"entra na sala..."`, `"sai da sala..."`), name and identity
  lookup, the fresh identity of a new document, and the registry invariant
  `Wf` (distinct identities, distinct names).
- `schema.dfy` (`Schema`): the two request-body schemas with the validator's
  default rules (a string must be non-empty, required keys must be present,
  unknown keys are refused), with round-trip lemmas from a body a client
  would send.
- `handlers.dfy` (`Handlers`): `POST /participants`, `POST /messages`,
  `GET /messages`, `POST /status`.
- `sweeper.dfy` (`Sweeper`): the sweep, once as a whole-state function
  (`Sweep`) and once as the source's algorithm (`SweepPass`: one snapshot of
  the registry, then for each stale entry a delete by identity on the live
  registry and an appended leave notice), proved equal.
- `history.dfy` (`History`): arbitrary runs of requests and sweeps; the log
  is append-only and `Wf` holds throughout.

Behaviour of `index.js` worth noting:

- With a `limit`, `GET /messages` returns the **first** N visible messages in
  storage order, not the most recent N: the query has no sort.
- `POST /messages` always checks that the `user` header names a registered
  participant (422 otherwise); it is not optional.
- A missing `user` header matches no participant and no message's `from` or
  `to`: every stored name, sender and recipient is a string.

## Model

| member | source | states |
|---|---|---|
| Schema.CheckParticipant | index.js:15-18 | For every name `n`, the body is accepted with name `n` exactly when `n` is non-empty and the body is `{name: n}` or `{name: n, lastStatus: <a finite number of safe integer magnitude>}`; every other body (unknown key, empty or non-string name, other `lastStatus`) is refused. |
| Schema.ParseClientType | index.js:24 | A client `type` is accepted exactly when it is "message" or "private_message"; the parsed type names back to the same string and is never the status type. |
| Schema.CheckMessage | index.js:20-26 | For every draft `d`, the body is accepted as `d` exactly when `d` has non-empty `to` and `text` and a client type, the body without `from`/`time` is the client body `{to, text, type}` of `d`, and `from`/`time`, when present, are non-empty strings; every other body is refused. |
| Schema.JoinBodyRoundTrip | index.js:15-18 | The body `{name}` is accepted exactly when the name is non-empty, and reads back the same name. |
| Schema.DraftBodyRoundTrip | index.js:20-26 | The body `{to, text, type}` is accepted exactly when `to` and `text` are non-empty and the type is not "status", and reads back the same draft. |
| Chat.FindName | index.js:56-57 | The lookup by name finds nothing exactly when the header is missing or no participant has that name; otherwise it returns the first participant with that name. |
| Chat.FreshId | index.js:64 | The identity given to a new participant differs from every identity already in the registry. |
| Handlers.Register | index.js:48-72 | Invalid exactly when the body fails the schema; Conflict exactly when the name is already registered; on either the state is unchanged. On Created exactly one participant is appended with that name, `lastStatus = now` and an unused identity, and exactly the notice `{name, "Todos", "entra na sala...", status}` is appended to the log. |
| Handlers.PostMessage | index.js:74-94 | Created exactly when the body passes the schema and the `user` header names a registered participant; otherwise the state is unchanged. The registry never changes; on Created one message is appended, from the header's user, with the body's `to`, `text` and client `type`. |
| Handlers.AllVisible | index.js:103 | A message is returned exactly when it is in the log and is from the user, to the user, public or a status notice. |
| Handlers.AllVisibleInLogOrder | index.js:103 | The unlimited result lists exactly the visible log positions, in increasing order. |
| Handlers.VisibleMessages | index.js:96-104 | Every returned message is a visible log message; with no limit all of them are returned; with a limit N the result is a prefix of the unlimited result of length at most N, and the whole of it when shorter than N. |
| Handlers.Heartbeat | index.js:111-125 | NotFound exactly when the header is missing or names nobody, with the state unchanged. On Ok only the first participant with that name has `lastStatus := now`; every other participant and the log are unchanged. |
| Sweeper.Sweep | index.js:127-141 | With the single reading `now`, a participant remains exactly when `now - lastStatus <= 10000`; the log only grows, by as many notices as participants removed, each `{name, "Todos", "sai da sala...", status}` naming a stale participant of the old registry (the exact one-to-one, in-order correspondence is `Sweeper.SweepFollowsRegistryOrder`). |
| Sweeper.DeleteOne | index.js:132 | Deleting an identity that is absent changes nothing; deleting one that is present removes exactly one entry and adds none. |
| Sweeper.DeleteOneRemovesExactly | index.js:132 | With unique identities, deleting by identity removes exactly the participant with that identity. |
| Sweeper.SweepPass | index.js:127-144 | The snapshot loop that deletes each stale entry by identity and appends its notice ends in exactly the state the whole-state sweep describes. |
| Sweeper.SweepPreservesWf | index.js:130-132 | A sweep keeps identities and names distinct. |
| Sweeper.SweepFollowsRegistryOrder | index.js:129-139 | Survivors keep their registry order, and the leave notices follow the registry order of the evicted participants. |
| Sweeper.SweepAnnouncesEachEvictionOnce | index.js:130-139 | With distinct names, a participant stale at `now` is gone after the sweep and exactly one appended notice is from its name. |
| History.RegisterPreservesWf | index.js:56-64 | A registration keeps identities and names distinct, because the name was checked free and the identity is new. |
| History.HeartbeatPreservesWf | index.js:113-115 | A heartbeat keeps identities and names distinct. |
| History.ApplyPreservesWf | index.js:48-141 | Every request and every sweep keeps identities and names distinct. |
| History.RunPreservesWf | index.js:48-146 | Any sequence of requests and sweeps keeps identities and names distinct. |
| History.ApplyIsAppendOnly | index.js:48-141 | Every request and every sweep leaves the old log as a prefix of the new one. |
| History.RunIsAppendOnly | index.js:48-146 | Any sequence of requests and sweeps leaves the old log as a prefix of the new one. |
| History.RecentHeartbeatSurvivesSweep | index.js:111-141 | A registered participant who heartbeats at `t` is still registered, with `lastStatus = t`, after a sweep at any `now` no more than 10000 later. |
| History.AliceScenario | index.js:48-141 | Alice joining at 0 is evicted with a leave notice by a sweep at 15000; after a heartbeat at 14000 the same sweep keeps her and appends nothing. |

## Left out

- Express routing, the HTTP listener, `cors` and `dotenv`: request plumbing; outcomes are the `Outcome` datatype.
- `GET /participants` (index.js:36-46): a plain read that returns the registry as it is; it changes nothing.
- Store and connection failures and the `catch` branches answering 500 or 422: infrastructure errors, not modelled.
- The reply bodies of validation failures (the validator's error messages), and the reply being sent before its status is set (index.js:53, 79): response serialisation.
- Schema.CheckParticipant: the validator's conversion of a numeric string such as "123" to a number for `lastStatus` is not modelled, so such a body is refused by the model and accepted by the source; `lastStatus` from the body is never stored either way. A number is reduced to one flag, whether it is finite with magnitude at most 2^53 - 1, which is the range the validator accepts by default.
- Schema.CheckMessage: a body that is not a JSON object, and the validator's other conversions, are not modelled; values are reduced to a string's text or the kind of a non-string value.
- Formatting of the `time` field: it is the opaque `clock` argument. Within one sweep every leave notice gets the same `clock`, while the source formats the time once per notice.
- The clock: `now` is a parameter; integers are unbounded, so the floating-point nature of JavaScript numbers is not modelled.
- Scheduling by `setInterval` every 15000 ms (index.js:146), the un-awaited delete and insert in the sweep, and races between handlers, sweeps and the check-then-insert of registration: concurrency; each sweep and each request is one atomic, sequential step.
- Store identities are modelled as naturals, the fresh one being one more than the largest in use, in place of generated object identities.
- The store driver's `update` call is modelled as an update of the first matching document; differences between driver versions are not modelled.
- A `limit` of 0, a negative or a non-numeric limit: the model takes a positive natural or no limit.
