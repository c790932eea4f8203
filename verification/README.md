# Chat room relay: a Dafny model of the room coordinator

The service is a small multi-client chat relay. Clients join with an
identifier, send short text messages that are broadcast to everyone in the
room, poll for their next pending message and leave. The core is the
`ChatRoom` in `services/chat.go`. It keeps a registry from client identifier
to that client's delivery queue, a buffered channel of 100 messages. Join,
leave and broadcast go through one select loop, and poll reads the client's
own channel. Without goroutines, channels and HTTP, this is a sequential
state machine over the registry, and that is what this project models.

- `chat_model.dfy` (module `ChatModel`) holds the values: `Message`, the
  abstract `Outcome` of a call (`Ok`, `Duplicate`, `NotFound`,
  `Delivered(m)`, `Empty`, `BadInput`) and the `Registry`. Each of the four
  operations is a pure transition function. `Bounded` is the capacity
  invariant and `Fanout` is the drop-newest broadcast.
- `services.dfy` (module `Services`) holds the class `ChatRoom`. Its
  `clients` map is updated in place by `Join`, `Leave`, `Send` and `Poll`.
  Each method keeps the capacity invariant `Valid()`, and its `ensures`
  ties the outcome and the new registry to the matching transition
  function. `Send` keeps the service's loop over the clients, with its
  invariants.
- `chat_traces.dfy` (module `ChatTraces`) runs sequences of calls one at a
  time, in sequence, each as one atomic step. It proves the properties that span
  several calls: overflow drops only the newest messages, polls deliver in
  FIFO order, a broadcast reaches every client including the sender, and a
  client that leaves and joins again starts with an empty queue.

Three details of the code that the model keeps as written:
- Polling a client that has left returns not-found, not "closed". The leave
  deletes the entry (services/chat.go:58), and the poll looks the client up
  again (services/chat.go:197). "Closed" is only possible for a poll that
  fetched the client before a concurrent leave.
- The body of the empty-poll reply is spelled "now new messages"
  (services/chat.go:230). It is kept as `ChatModel.NoNewMessagesBody`, and
  `ChatModel.PollReply` uses it as the reply text of the `Empty` outcome.
- An empty identifier, or an empty message for a send, is rejected as bad
  input by the handlers themselves. This check comes before any lookup or
  state change.

## Model

| member | source | states |
|---|---|---|
| `ChatModel.Fanout` | services/chat.go:63-73 | Broadcasting keeps the same set of clients. Each client gets one non-blocking send (`Deliver`). A queue with room gets the message appended at its end. A full queue keeps exactly what it held (drop-newest). The capacity bound is preserved. |
| `ChatModel.JoinStep` | services/chat.go:81-99 | An empty id is bad input and a registered id is a duplicate. Both leave the registry unchanged. Otherwise the result is Ok: exactly `id` is added, with an empty queue, and every other entry is unchanged. Capacity is preserved. |
| `ChatModel.LeaveStep` | services/chat.go:117-130 | An empty id is bad input and an unregistered id is not found. Both leave the registry unchanged. Otherwise exactly `id` is removed and the other entries are unchanged. |
| `ChatModel.SendStep` | services/chat.go:149-171 | An empty sender or message is bad input and an unregistered sender is not found. No state changes in those cases. Otherwise the result is Ok and the new registry is the broadcast of `Message(id, content, time)` to all clients, the sender included. Membership never changes. |
| `ChatModel.PollStep` | services/chat.go:189-239 | Bad input for an empty id. Not found for an unregistered id. Empty, with no change, when the queue is empty. Otherwise the oldest message is delivered and only that message is removed. Membership never changes. |
| `Services.ChatRoom.constructor` | services/chat.go:35-43 | A new room has no clients and satisfies the capacity invariant. |
| `Services.ChatRoom.Join` | services/chat.go:81-99 | The handler's checks and its new empty queue, together with the insert in the select loop (services/chat.go:48-51). Keeps the capacity invariant. The outcome and the new `clients` map are exactly `JoinStep` of the old map. |
| `Services.ChatRoom.Leave` | services/chat.go:117-135 | The handler's checks, together with the delete in the select loop (services/chat.go:54-59). Keeps the capacity invariant. The outcome and the new `clients` map are exactly `LeaveStep` of the old map. |
| `Services.ChatRoom.Send` | services/chat.go:152-171 | The handler's checks, together with the fan-out in the select loop (services/chat.go:63-74). The loop over clients offers the message to each one with a non-blocking send. It keeps the capacity invariant, and its outcome and new map are exactly `SendStep`, which is the `Fanout` of the old map. |
| `Services.ChatRoom.Poll` | services/chat.go:189-239 | Keeps the capacity invariant. The outcome and the new `clients` map are exactly `PollStep` of the old map. |
| `ChatModel.PollReplies` | services/chat.go:189-239 | The reply text of a poll, as `PollReply` renders it: "Client ID is required" for an empty id, "Client not found" for an unknown one, "now new messages" when the queue is empty, and otherwise the content of the oldest queued message. |
| `ChatTraces.Apply` | main.go:15-18 | Dispatches a call to its operation. The outcome is bad input exactly when a required field is empty. Every failing or empty outcome leaves the registry unchanged. Capacity is preserved. |
| `ChatTraces.Run` | services/chat.go:45-76 | Gives one outcome per call. The calls are applied one at a time, in the order they arrive; `RunStep` states the first step and `RunAppend` the composition. |
| `ChatTraces.RunStep` | services/chat.go:45-76 | Running `[req] + rest` is `Apply` of `req` followed by running `rest` from the registry it leaves. |
| `ChatTraces.RunKeepsCapacity` | services/chat.go:65-73 | Starting from a registry within capacity, no client holds more than 100 messages after any sequence of calls. |
| `ChatTraces.RunAppend` | services/chat.go:45-76 | Running two sequences of calls back to back gives the same outcomes and final registry as running their concatenation. |
| `ChatTraces.DeliverAllDropsNewest` | services/chat.go:65-73 | After any series of broadcasts, a queue within capacity holds the oldest messages that fit: the first 100 of its old contents and the offered messages, taken together in order. Every newer message is dropped. |
| `ChatTraces.RunSends` | services/chat.go:63-73 | Sends from registered senders all return Ok and keep the set of clients. Each client's queue depends only on its own old queue and the messages sent. |
| `ChatTraces.RunPolls` | services/chat.go:206-217 | n polls of a client that has at least n pending messages return the first n of them, in queue order. Exactly those are removed and no other client changes. |
| `ChatTraces.DrainThenEmpty` | services/chat.go:206-230 | Polling a client once per pending message returns all of them in queue order and leaves its queue empty. One more poll is Empty. |
| `ChatTraces.SendsFillEmptyQueue` | services/chat.go:63-73 | When at least 100 messages are sent to a client with an empty queue, all sends succeed and the client ends up holding exactly the first 100. |
| `ChatTraces.OverflowDropsOnlyNewest` | services/chat.go:63-73 | A client with an empty queue is sent 100 or more messages (101 in the overflow case) without polling. All sends succeed. Its next 100 polls return the first 100 messages in order, and the poll after that is Empty, because every newer message was dropped. |
| `ChatTraces.BroadcastReachesEveryone` | services/chat.go:65-73 | Clients a and b join and a sends. a's poll and then b's poll each return the message, so the sender gets its own message. A second poll by a is Empty. |
| `ChatTraces.JoinTwiceIsDuplicate` | services/chat.go:87-93 | A second join of the same id with no leave in between is a duplicate and leaves the registry as the first join made it. |
| `ChatTraces.LeaveThenJoinStartsEmpty` | services/chat.go:54-59 | Leaving and joining again succeeds. The client's queue is empty, with no pre-leave messages carried over, and every other client is unchanged. |
| `ChatTraces.JoinThenLeaveRestores` | services/chat.go:48-59 | A join of a new id followed by its leave restores the registry exactly. |
| `ChatTraces.LeftClientIsNotFound` | services/chat.go:196-203 | After a leave, a poll, a second leave and a send by that id are all not found. |
| `ChatTraces.SendThenPollRoundTrip` | services/chat.go:206-217 | A message sent while a client's queue is empty is exactly what that client's next poll returns. The poll empties the queue again, and the set of clients is unchanged. |

## Left out

- HTTP parsing, status codes, JSON bodies and their marshalling errors (services/chat.go:103-113 and the like) are transport glue. Each call keeps only its abstract `Outcome`.
- logrus logging has no behavioural content.
- Goroutines, the `join`/`leave`/`broadcast` channels, the select loop and the read-write lock are not modelled. Each handler checks the registry under the read lock and releases it, and the select loop applies the effect later under the write lock: the check and the effect are two separate critical sections. The model makes each operation one atomic check-and-effect step, so the interleavings below are not captured.
- Poll's "closed" outcome (services/chat.go:208-211) needs a poll that fetched its client before a concurrent leave closed the channel. The sequential model has no such interleaving, so that outcome does not appear.
- Two concurrent leaves of one id can both pass the check at services/chat.go:124-131 and both send on the `leave` channel. The `exists` test at services/chat.go:56 absorbs the second, and both callers get success. The model answers the second leave with not-found.
- A send whose sender leaves between the check at services/chat.go:158-165 and the broadcast is still delivered to the remaining clients. The model has no such interleaving.
- The gap between the duplicate check (services/chat.go:87-93) and the unconditional insert (services/chat.go:50) is a race between concurrent joins. Join is modelled as one atomic check-and-insert, so the overwrite that race can cause is not captured.
- The `time.Now()` stamp becomes the caller-supplied `time` argument of Send. The 30-second wait of a poll is modelled as "the queue is empty at poll time". A message that arrives during the wait is not delivered by that poll in the model.
- Aliasing of the `*Client` pointers held by the map is not modelled: each client's queue is a value inside the registry map.
- main.go beyond its routing of the four handlers (server start-up, listen errors) is I/O and is not part of this model.
