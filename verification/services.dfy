/** The chat room as the service keeps it: one object whose `clients`
    registry is updated in place by join, leave, broadcast and poll.
    The model treats each operation as one atomic check-and-effect step.
    In the service the check and the effect are two separate critical
    sections; README.md lists the interleavings this does not capture. */
module Services {
  import opened ChatModel

  class ChatRoom {
    /** Registered clients and their pending messages, oldest first. */
    var clients: Registry

    /** Object invariant: every delivery queue is within capacity. */
    ghost predicate Valid()
      reads this
    {
      Bounded(clients)
    }

    /** A room with nobody in it. */
    constructor ()
      ensures Valid()
      ensures clients == map[]
    {
      clients := map[];
    }

    /** Registers `id` with a fresh empty queue, unless it is empty or taken. */
    method Join(id: string) returns (out: Outcome)
      requires Valid()
      modifies this
      ensures Valid()
      ensures Transition(out, clients) == JoinStep(old(clients), id)
    {
      if id == "" {
        return BadInput;
      }
      if id in clients {
        return Duplicate;
      }
      clients := clients[id := []];
      out := Ok;
    }

    /** Removes `id` and discards its queue, if it is registered. */
    method Leave(id: string) returns (out: Outcome)
      requires Valid()
      modifies this
      ensures Valid()
      ensures Transition(out, clients) == LeaveStep(old(clients), id)
    {
      if id == "" {
        return BadInput;
      }
      if id !in clients {
        return NotFound;
      }
      clients := clients - {id};
      out := Ok;
    }

    /** Stamps the message with `now` and offers it to every registered
        client in turn; a client whose queue is full does not get it. */
    method Send(id: string, content: string, now: int) returns (out: Outcome)
      requires Valid()
      modifies this
      ensures Valid()
      ensures Transition(out, clients) == SendStep(old(clients), id, content, now)
    {
      if id == "" || content == "" {
        return BadInput;
      }
      if id !in clients {
        return NotFound;
      }
      var msg := Message(id, content, now);
      var pending := clients.Keys;
      while pending != {}
        invariant pending <= clients.Keys == old(clients).Keys
        invariant forall c :: c in clients ==>
                    clients[c] == if c in pending then old(clients)[c] else Deliver(old(clients)[c], msg)
        decreases pending
      {
        var c :| c in pending;
        var q := clients[c];
        if |q| < Capacity {
          clients := clients[c := q + [msg]];
        }
        pending := pending - {c};
      }
      assert clients == Fanout(old(clients), msg);
      out := Ok;
    }

    /** Hands out the oldest pending message of `id`, or Empty when its
        queue holds nothing (the wait for a message times out). */
    method Poll(id: string) returns (out: Outcome)
      requires Valid()
      modifies this
      ensures Valid()
      ensures Transition(out, clients) == PollStep(old(clients), id)
    {
      if id == "" {
        return BadInput;
      }
      if id !in clients {
        return NotFound;
      }
      var q := clients[id];
      if q == [] {
        return Empty;
      }
      clients := clients[id := q[1..]];
      out := Delivered(q[0]);
    }
  }
}
