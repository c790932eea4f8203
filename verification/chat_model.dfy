/** Values of the in-memory chat room and the effect of each of its four
    operations on the client registry, stated as pure transitions.

    The registry maps a client identifier to that client's delivery queue,
    the buffered channel the service creates on join. The transport layer
    (query parsing, HTTP status, JSON) is reduced to the abstract Outcome. */
module ChatModel {

  /** Capacity of every client's delivery queue (buffer size of its channel). */
  const Capacity: nat := 100

  /** Body text of the poll reply when nothing arrives before the wait ends,
      spelled exactly as the service spells it. */
  const NoNewMessagesBody: string := "now new messages"

  /** A chat message. `time` stands for the wall-clock stamp taken at send
      time; the model treats it as an opaque value supplied by the caller. */
  datatype Message = Message(senderId: string, content: string, time: int)

  /** The abstract result of one call. */
  datatype Outcome =
    | Ok                      // join, leave or send accepted
    | Duplicate               // join of an identifier already registered
    | NotFound                // leave, send or poll naming an unregistered identifier
    | Delivered(msg: Message) // poll handed out the oldest queued message
    | Empty                   // poll found nothing queued: the wait times out
    | BadInput                // a required query field is empty

  type Queue = seq<Message>

  /** Client identifier to pending messages, oldest first. */
  type Registry = map<string, Queue>

  /** What one call returns together with the registry it leaves behind. */
  datatype Transition = Transition(outcome: Outcome, next: Registry)

  /** The capacity invariant: no client holds more than Capacity messages. */
  predicate Bounded(reg: Registry) {
    forall id :: id in reg ==> |reg[id]| <= Capacity
  }

  /** Non-blocking send into one queue: a full queue drops the new message
      and keeps what it holds. */
  function Deliver(q: Queue, m: Message): Queue {
    if |q| < Capacity then q + [m] else q
  }

  /** Broadcast of `m` to every registered client, one Deliver per client. */
  function Fanout(reg: Registry, m: Message): (r: Registry)
    ensures r.Keys == reg.Keys
    ensures forall id :: id in reg && |reg[id]| < Capacity ==> r[id] == reg[id] + [m]
    ensures forall id :: id in reg && |reg[id]| >= Capacity ==> r[id] == reg[id]
    ensures Bounded(reg) ==> Bounded(r)
  {
    map id | id in reg :: Deliver(reg[id], m)
  }

  /** Join: an empty identifier is bad input, a registered one a duplicate;
      otherwise the client is added with an empty queue. */
  function JoinStep(reg: Registry, id: string): (t: Transition)
    ensures t.outcome in {Ok, Duplicate, BadInput}
    ensures t.outcome == BadInput <==> id == ""
    ensures t.outcome == Duplicate <==> id != "" && id in reg
    ensures t.outcome != Ok ==> t.next == reg
    ensures t.outcome == Ok ==>
              && t.next.Keys == reg.Keys + {id}
              && t.next[id] == []
              && forall other :: other in reg ==> t.next[other] == reg[other]
    ensures Bounded(reg) ==> Bounded(t.next)
  {
    if id == "" then Transition(BadInput, reg)
    else if id in reg then Transition(Duplicate, reg)
    else Transition(Ok, reg[id := []])
  }

  /** Leave: an empty identifier is bad input, an unregistered one not found;
      otherwise the client and its queue are removed. */
  function LeaveStep(reg: Registry, id: string): (t: Transition)
    ensures t.outcome in {Ok, NotFound, BadInput}
    ensures t.outcome == BadInput <==> id == ""
    ensures t.outcome == NotFound <==> id != "" && id !in reg
    ensures t.outcome != Ok ==> t.next == reg
    ensures t.outcome == Ok ==>
              && t.next.Keys == reg.Keys - {id}
              && forall other :: other in t.next ==> t.next[other] == reg[other]
    ensures Bounded(reg) ==> Bounded(t.next)
  {
    if id == "" then Transition(BadInput, reg)
    else if id !in reg then Transition(NotFound, reg)
    else Transition(Ok, reg - {id})
  }

  /** Send: an empty sender or message is bad input, an unregistered sender
      not found; otherwise the message is broadcast to every client,
      the sender included. Registry membership never changes. */
  function SendStep(reg: Registry, id: string, content: string, time: int): (t: Transition)
    ensures t.outcome in {Ok, NotFound, BadInput}
    ensures t.outcome == BadInput <==> id == "" || content == ""
    ensures t.outcome == NotFound <==> id != "" && content != "" && id !in reg
    ensures t.outcome != Ok ==> t.next == reg
    ensures t.outcome == Ok ==> t.next == Fanout(reg, Message(id, content, time))
    ensures t.next.Keys == reg.Keys
    ensures Bounded(reg) ==> Bounded(t.next)
  {
    if id == "" || content == "" then Transition(BadInput, reg)
    else if id !in reg then Transition(NotFound, reg)
    else Transition(Ok, Fanout(reg, Message(id, content, time)))
  }

  /** Poll: an empty identifier is bad input, an unregistered one not found;
      a non-empty queue gives up its oldest message, an empty one yields
      Empty and nothing changes. */
  function PollStep(reg: Registry, id: string): (t: Transition)
    ensures t.outcome == BadInput <==> id == ""
    ensures t.outcome == NotFound <==> id != "" && id !in reg
    ensures t.outcome == Empty <==> id != "" && id in reg && reg[id] == []
    ensures id != "" && id in reg && reg[id] != [] ==>
              t.outcome == Delivered(reg[id][0]) && t.next == reg[id := reg[id][1..]]
    ensures !t.outcome.Delivered? ==> t.next == reg
    ensures t.next.Keys == reg.Keys
    ensures Bounded(reg) ==> Bounded(t.next)
  {
    if id == "" then Transition(BadInput, reg)
    else if id !in reg then Transition(NotFound, reg)
    else if reg[id] == [] then Transition(Empty, reg)
    else Transition(Delivered(reg[id][0]), reg[id := reg[id][1..]])
  }

  /** The `message` text of a poll reply: the content of the delivered
      message, the no-new-messages text when the wait ends empty, or the
      error text the handler writes for bad input or an unknown client. */
  function PollReply(o: Outcome): string {
    match o
    case Delivered(m) => m.content
    case Empty => NoNewMessagesBody
    case BadInput => "Client ID is required"
    case NotFound => "Client not found"
    case _ => ""
  }

  /** What a poll writes back, case by case: the oldest queued message's
      content, or "now new messages" for a registered client whose queue is
      empty. */
  lemma PollReplies(reg: Registry, id: string)
    ensures id == "" ==> PollReply(PollStep(reg, id).outcome) == "Client ID is required"
    ensures id != "" && id !in reg ==> PollReply(PollStep(reg, id).outcome) == "Client not found"
    ensures id != "" && id in reg && reg[id] == [] ==>
              PollReply(PollStep(reg, id).outcome) == "now new messages"
    ensures id != "" && id in reg && reg[id] != [] ==>
              PollReply(PollStep(reg, id).outcome) == reg[id][0].content
  {
  }
}
