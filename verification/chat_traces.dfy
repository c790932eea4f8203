/** Sequences of calls against the room, applied one at a time in the order
    the control path receives them, and what they guarantee: the capacity
    invariant, drop-newest overflow, FIFO delivery, fan-out to every client
    and a fresh queue after leaving and joining again. */
module ChatTraces {
  import opened ChatModel

  /** One call into the room. */
  datatype Request =
    | JoinReq(id: string)
    | LeaveReq(id: string)
    | SendReq(id: string, content: string, time: int)
    | PollReq(id: string)

  /** Every required field of the call is non-empty. */
  predicate WellFormed(req: Request) {
    match req
    case SendReq(id, content, _) => id != "" && content != ""
    case _ => req.id != ""
  }

  /** Dispatch of one call to its transition. */
  function Apply(reg: Registry, req: Request): (t: Transition)
    ensures t.outcome == BadInput <==> !WellFormed(req)
    ensures t.outcome in {BadInput, NotFound, Duplicate, Empty} ==> t.next == reg
    ensures Bounded(reg) ==> Bounded(t.next)
  {
    match req
    case JoinReq(id) => JoinStep(reg, id)
    case LeaveReq(id) => LeaveStep(reg, id)
    case SendReq(id, content, time) => SendStep(reg, id, content, time)
    case PollReq(id) => PollStep(reg, id)
  }

  /** The outcomes and final registry of a sequence of calls. */
  datatype Trace = Trace(outcomes: seq<Outcome>, final: Registry)

  /** The calls applied one at a time, in sequence, each as one atomic step. */
  function Run(reg: Registry, reqs: seq<Request>): (r: Trace)
    ensures |r.outcomes| == |reqs|
    decreases |reqs|
  {
    if reqs == [] then Trace([], reg)
    else
      var t := Apply(reg, reqs[0]);
      var rest := Run(t.next, reqs[1..]);
      Trace([t.outcome] + rest.outcomes, rest.final)
  }

  /** One call followed by the rest of a sequence. */
  lemma RunStep(reg: Registry, req: Request, rest: seq<Request>)
    ensures var t := Apply(reg, req);
            var r := Run(t.next, rest);
            Run(reg, [req] + rest) == Trace([t.outcome] + r.outcomes, r.final)
  {
  }

  /** The capacity invariant holds after any sequence of calls. */
  lemma {:induction false} RunKeepsCapacity(reg: Registry, reqs: seq<Request>)
    requires Bounded(reg)
    ensures Bounded(Run(reg, reqs).final)
    decreases |reqs|
  {
    if reqs != [] {
      RunKeepsCapacity(Apply(reg, reqs[0]).next, reqs[1..]);
    }
  }

  /** Running two sequences back to back is running their concatenation. */
  lemma {:induction false} RunAppend(reg: Registry, a: seq<Request>, b: seq<Request>)
    ensures var first := Run(reg, a);
            var second := Run(first.final, b);
            Run(reg, a + b) == Trace(first.outcomes + second.outcomes, second.final)
    decreases |a|
  {
    if a == [] {
      assert a + b == b;
    } else {
      var t := Apply(reg, a[0]);
      var first := Run(t.next, a[1..]);
      var second := Run(first.final, b);
      assert Run(reg, a) == Trace([t.outcome] + first.outcomes, first.final);
      assert Run(reg, a + b) == Trace([t.outcome] + Run(t.next, a[1..] + b).outcomes, Run(t.next, a[1..] + b).final) by {
        assert (a + b)[0] == a[0];
        assert (a + b)[1..] == a[1..] + b;
      }
      assert Run(t.next, a[1..] + b) == Trace(first.outcomes + second.outcomes, second.final) by {
        RunAppend(t.next, a[1..], b);
      }
      assert [t.outcome] + (first.outcomes + second.outcomes) == ([t.outcome] + first.outcomes) + second.outcomes;
    }
  }

  // ---- Drop-newest delivery into one queue ----

  function Min(x: int, y: int): int {
    if x <= y then x else y
  }

  /** One queue after a series of broadcasts, oldest message first. */
  function DeliverAll(q: Queue, ms: seq<Message>): Queue
    decreases |ms|
  {
    if ms == [] then q else DeliverAll(Deliver(q, ms[0]), ms[1..])
  }

  /** A queue within capacity keeps the oldest messages that fit and drops
      every newer one: it ends as the first Capacity messages of its old
      contents and the messages offered to it, taken together in order. */
  lemma {:induction false} DeliverAllDropsNewest(q: Queue, ms: seq<Message>)
    requires |q| <= Capacity
    ensures DeliverAll(q, ms) == (q + ms)[..Min(Capacity, |q| + |ms|)]
    decreases |ms|
  {
    if ms == [] {
      assert q + ms == q;
    } else {
      var q' := Deliver(q, ms[0]);
      DeliverAllDropsNewest(q', ms[1..]);
      if |q| < Capacity {
        assert q' + ms[1..] == q + ms;
      } else {
        assert (q' + ms[1..])[..Capacity] == q == (q + ms)[..Capacity];
      }
    }
  }

  // ---- Broadcasts ----

  /** A message its sender may broadcast from `reg`. */
  predicate Sendable(reg: Registry, m: Message) {
    m.senderId != "" && m.content != "" && m.senderId in reg
  }

  function SendRequests(ms: seq<Message>): (reqs: seq<Request>)
    ensures |reqs| == |ms|
  {
    if ms == [] then []
    else [SendReq(ms[0].senderId, ms[0].content, ms[0].time)] + SendRequests(ms[1..])
  }

  function Oks(n: nat): (r: seq<Outcome>)
    ensures |r| == n && forall i :: 0 <= i < n ==> r[i] == Ok
  {
    if n == 0 then [] else [Ok] + Oks(n - 1)
  }

  /** Every registered client's queue after a series of broadcasts. */
  function Broadcasts(reg: Registry, ms: seq<Message>): (r: Registry)
    ensures r.Keys == reg.Keys
  {
    map id | id in reg :: DeliverAll(reg[id], ms)
  }

  /** A series of sends from registered senders all succeed, keep the set of
      clients, and give each client exactly its own queue's deliveries:
      what one client holds does not depend on any other client. */
  lemma {:induction false} RunSends(reg: Registry, ms: seq<Message>)
    requires forall i :: 0 <= i < |ms| ==> Sendable(reg, ms[i])
    ensures Run(reg, SendRequests(ms)) == Trace(Oks(|ms|), Broadcasts(reg, ms))
    decreases |ms|
  {
    if ms != [] {
      var m := ms[0];
      var reqs := SendRequests(ms);
      assert reqs[0] == SendReq(m.senderId, m.content, m.time);
      assert reqs[1..] == SendRequests(ms[1..]);
      var next := Fanout(reg, m);
      assert Apply(reg, reqs[0]) == Transition(Ok, next);
      forall i | 0 <= i < |ms[1..]|
        ensures Sendable(next, ms[1..][i])
      {
        assert ms[1..][i] == ms[i + 1];
      }
      RunSends(next, ms[1..]);
      assert Broadcasts(next, ms[1..]) == Broadcasts(reg, ms);
      assert [Ok] + Oks(|ms| - 1) == Oks(|ms|);
    }
  }

  // ---- Polls ----

  function PollRequests(id: string, n: nat): (reqs: seq<Request>)
    ensures |reqs| == n
  {
    if n == 0 then [] else [PollReq(id)] + PollRequests(id, n - 1)
  }

  function DeliveredAll(ms: seq<Message>): (r: seq<Outcome>)
    ensures |r| == |ms|
  {
    if ms == [] then [] else [Delivered(ms[0])] + DeliveredAll(ms[1..])
  }

  /** Polling a registered client n times hands out the first n messages of
      its queue in the order they were queued, removes exactly those, and
      leaves every other client alone. */
  lemma {:induction false} RunPolls(reg: Registry, id: string, n: nat)
    requires id != "" && id in reg && n <= |reg[id]|
    ensures Run(reg, PollRequests(id, n)) == Trace(DeliveredAll(reg[id][..n]), reg[id := reg[id][n..]])
    decreases n
  {
    var q := reg[id];
    if n == 0 {
      assert reg[id := q[0..]] == reg;
    } else {
      var next := reg[id := q[1..]];
      var rest := Run(next, PollRequests(id, n - 1));
      assert PollRequests(id, n) == [PollReq(id)] + PollRequests(id, n - 1);
      assert Run(reg, PollRequests(id, n)) == Trace([Delivered(q[0])] + rest.outcomes, rest.final) by {
        assert Apply(reg, PollReq(id)) == Transition(Delivered(q[0]), next);
        RunStep(reg, PollReq(id), PollRequests(id, n - 1));
      }
      assert rest == Trace(DeliveredAll(q[1..][..n - 1]), next[id := q[1..][n - 1..]]) by {
        RunPolls(next, id, n - 1);
      }
      assert q[1..][..n - 1] == q[..n][1..];
      assert q[1..][n - 1..] == q[n..];
      assert next[id := q[n..]] == reg[id := q[n..]];
      assert [Delivered(q[0])] + DeliveredAll(q[..n][1..]) == DeliveredAll(q[..n]);
    }
  }

  /** Polling a client until its queue is empty, and once more: every
      pending message comes out in queue order, then the poll finds nothing. */
  lemma DrainThenEmpty(reg: Registry, c: string)
    requires c != "" && c in reg
    ensures var r := Run(reg, PollRequests(c, |reg[c]|) + [PollReq(c)]);
            r == Trace(DeliveredAll(reg[c]) + [Empty], reg[c := []])
  {
    var q := reg[c];
    var polls := PollRequests(c, |q|);
    var drained := reg[c := []];
    assert Run(reg, polls) == Trace(DeliveredAll(q), drained) by {
      RunPolls(reg, c, |q|);
      assert q[..|q|] == q;
      assert q[|q|..] == [];
    }
    assert Run(drained, [PollReq(c)]) == Trace([Empty], drained) by {
      RunStep(drained, PollReq(c), []);
    }
    RunAppend(reg, polls, [PollReq(c)]);
  }

  /** Sends of at least Capacity messages to a client with an empty queue
      all succeed and leave it holding exactly the first Capacity of them. */
  lemma SendsFillEmptyQueue(reg: Registry, c: string, ms: seq<Message>)
    requires c in reg && reg[c] == []
    requires |ms| >= Capacity
    requires forall i :: 0 <= i < |ms| ==> Sendable(reg, ms[i])
    ensures var r := Run(reg, SendRequests(ms));
            r.outcomes == Oks(|ms|) && c in r.final && r.final[c] == ms[..Capacity]
  {
    RunSends(reg, ms);
    DeliverAllDropsNewest([], ms);
    assert [] + ms == ms;
  }

  /** Overflow: a client with an empty queue is sent at least Capacity
      messages without polling. The sends all succeed; the client's polls
      then return exactly the first Capacity messages in order and then
      nothing, because every newer message was dropped. */
  lemma OverflowDropsOnlyNewest(reg: Registry, c: string, ms: seq<Message>)
    requires c != "" && c in reg && reg[c] == []
    requires |ms| >= Capacity
    requires forall i :: 0 <= i < |ms| ==> Sendable(reg, ms[i])
    ensures Run(reg, SendRequests(ms) + PollRequests(c, Capacity) + [PollReq(c)]).outcomes
            == Oks(|ms|) + DeliveredAll(ms[..Capacity]) + [Empty]
  {
    var sends := SendRequests(ms);
    var polls := PollRequests(c, Capacity);
    var drain := polls + [PollReq(c)];
    var first := Run(reg, sends);
    var oks, delivered := Oks(|ms|), DeliveredAll(ms[..Capacity]);
    assert first.outcomes == oks && c in first.final && first.final[c] == ms[..Capacity] by {
      SendsFillEmptyQueue(reg, c, ms);
    }
    assert Run(first.final, drain).outcomes == delivered + [Empty] by {
      assert |first.final[c]| == Capacity;
      DrainThenEmpty(first.final, c);
    }
    assert Run(reg, sends + drain).outcomes == oks + (delivered + [Empty]) by {
      RunAppend(reg, sends, drain);
    }
    assert sends + drain == sends + polls + [PollReq(c)];
    assert oks + (delivered + [Empty]) == oks + delivered + [Empty];
  }

  // ---- Short scenarios ----

  /** Two clients join and the first one sends: both queues hold the message. */
  lemma JoinTwoThenSend(a: string, b: string, content: string, time: int)
    requires a != "" && b != "" && a != b && content != ""
    ensures var m := Message(a, content, time);
            Run(map[], [JoinReq(a), JoinReq(b), SendReq(a, content, time)])
            == Trace([Ok, Ok, Ok], map[a := [m], b := [m]])
  {
    var m := Message(a, content, time);
    var r1: Registry := map[a := []];
    var r2 := r1[b := []];
    var r3 := map[a := [m], b := [m]];
    assert Fanout(r2, m) == r3 by {
      var sent := Fanout(r2, m);
      assert sent.Keys == {a, b} == r3.Keys;
      assert [] + [m] == [m];
      assert sent[a] == [m] && sent[b] == [m];
    }
    RunStep(r2, SendReq(a, content, time), []);
    RunStep(r1, JoinReq(b), [SendReq(a, content, time)]);
    assert [JoinReq(b)] + [SendReq(a, content, time)] == [JoinReq(b), SendReq(a, content, time)];
    RunStep(map[], JoinReq(a), [JoinReq(b), SendReq(a, content, time)]);
    assert [JoinReq(a)] + [JoinReq(b), SendReq(a, content, time)]
        == [JoinReq(a), JoinReq(b), SendReq(a, content, time)];
  }

  /** Each of two clients holding one message polls it; a second poll by the
      first finds nothing. */
  lemma PollEachOnce(a: string, b: string, m: Message)
    requires a != "" && b != "" && a != b
    ensures Run(map[a := [m], b := [m]], [PollReq(a), PollReq(b), PollReq(a)]).outcomes
            == [Delivered(m), Delivered(m), Empty]
  {
    var r3: Registry := map[a := [m], b := [m]];
    var r4 := r3[a := []];
    var r5 := r4[b := []];
    assert Run(r5, [PollReq(a)]).outcomes == [Empty] by {
      RunStep(r5, PollReq(a), []);
    }
    assert Run(r4, [PollReq(b), PollReq(a)]).outcomes == [Delivered(m), Empty] by {
      assert [PollReq(b)] + [PollReq(a)] == [PollReq(b), PollReq(a)];
      RunStep(r4, PollReq(b), [PollReq(a)]);
    }
    assert [PollReq(a)] + [PollReq(b), PollReq(a)] == [PollReq(a), PollReq(b), PollReq(a)];
    RunStep(r3, PollReq(a), [PollReq(b), PollReq(a)]);
  }

  /** Two clients join; one sends; each of them, the sender included, polls
      the message once, and a second poll by the sender finds nothing. */
  lemma BroadcastReachesEveryone(a: string, b: string, content: string, time: int)
    requires a != "" && b != "" && a != b && content != ""
    ensures var m := Message(a, content, time);
            Run(map[], [JoinReq(a), JoinReq(b), SendReq(a, content, time), PollReq(a), PollReq(b), PollReq(a)]).outcomes
            == [Ok, Ok, Ok, Delivered(m), Delivered(m), Empty]
  {
    var m := Message(a, content, time);
    var setup := [JoinReq(a), JoinReq(b), SendReq(a, content, time)];
    var polls := [PollReq(a), PollReq(b), PollReq(a)];
    JoinTwoThenSend(a, b, content, time);
    PollEachOnce(a, b, m);
    RunAppend(map[], setup, polls);
    assert setup + polls == [JoinReq(a), JoinReq(b), SendReq(a, content, time), PollReq(a), PollReq(b), PollReq(a)];
  }

  /** Joining twice without leaving in between: the second join is a
      duplicate and the client keeps the queue from the first. */
  lemma JoinTwiceIsDuplicate(reg: Registry, id: string)
    requires id != "" && id !in reg
    ensures Run(reg, [JoinReq(id), JoinReq(id)]) == Trace([Ok, Duplicate], reg[id := []])
  {
    assert Run(reg[id := []], [JoinReq(id)]) == Trace([Duplicate], reg[id := []]);
  }

  /** Leaving and joining again gives a fresh empty queue: nothing queued
      before the leave is carried over, and nobody else changes. */
  lemma LeaveThenJoinStartsEmpty(reg: Registry, id: string)
    requires id != "" && id in reg
    ensures Run(reg, [LeaveReq(id), JoinReq(id)]) == Trace([Ok, Ok], reg[id := []])
  {
    var gone := reg - {id};
    assert Run(gone, [JoinReq(id)]) == Trace([Ok], gone[id := []]);
    assert gone[id := []] == reg[id := []];
  }

  /** Joining and leaving again restores the registry exactly. */
  lemma JoinThenLeaveRestores(reg: Registry, id: string)
    requires id != "" && id !in reg
    ensures Run(reg, [JoinReq(id), LeaveReq(id)]) == Trace([Ok, Ok], reg)
  {
    var joined := reg[id := []];
    assert joined - {id} == reg;
    assert Run(joined, [LeaveReq(id)]) == Trace([Ok], reg);
  }

  /** Once a client has left, polling it is not found (its entry is gone),
      and so are a second leave and a send from it. */
  lemma LeftClientIsNotFound(reg: Registry, id: string, content: string, time: int)
    requires id != "" && id in reg && content != ""
    ensures Run(reg, [LeaveReq(id), PollReq(id), LeaveReq(id), SendReq(id, content, time)]).outcomes
            == [Ok, NotFound, NotFound, NotFound]
  {
    var gone := reg - {id};
    assert Run(gone, [SendReq(id, content, time)]).outcomes == [NotFound];
    assert Run(gone, [LeaveReq(id), SendReq(id, content, time)]).outcomes == [NotFound, NotFound];
    assert Run(gone, [PollReq(id), LeaveReq(id), SendReq(id, content, time)]).outcomes
        == [NotFound, NotFound, NotFound];
  }

  /** A message sent to a client with an empty queue is what that client's
      next poll returns, and the poll leaves its queue empty again. */
  lemma SendThenPollRoundTrip(reg: Registry, sender: string, c: string, content: string, time: int)
    requires sender != "" && sender in reg && content != ""
    requires c != "" && c in reg && reg[c] == []
    ensures var r := Run(reg, [SendReq(sender, content, time), PollReq(c)]);
            && r.outcomes == [Ok, Delivered(Message(sender, content, time))]
            && c in r.final && r.final[c] == []
            && r.final.Keys == reg.Keys
  {
    var m := Message(sender, content, time);
    var sent := Fanout(reg, m);
    assert sent[c] == [m];
    assert Run(sent, [PollReq(c)]) == Trace([Delivered(m)], sent[c := []]);
  }
}
