/** The messaging service's callbacks, one method each, over a channel whose calls do not throw. */
module RabbitMQ {
  import opened Wrappers
  import opened RpcProtocol

  /** The broker as one channel shows it. */
  class Channel {
    var work: map<nat, seq<Message>>
    var replies: map<nat, seq<Message>>
    var requests: map<nat, Request>
    var deliveries: map<nat, Delivery>
    var acked: multiset<nat>
    var nacked: multiset<nat>
    ghost var settled: multiset<nat>
    ghost var answered: multiset<nat>
    ghost var handled: seq<Handling>

    ghost function State(): World
      reads this
    {
      World(work, replies, requests, deliveries, settled, acked, nacked, answered, handled)
    }

    constructor (queues: set<nat>)
      ensures Init(State()) && work.Keys == queues
    {
      work := map q | q in queues :: [];
      replies, requests, deliveries := map[], map[], map[];
      acked, nacked, settled, answered, handled := multiset{}, multiset{}, multiset{}, multiset{}, [];
    }

    method Publish(targets: set<nat>, m: Message)
      modifies `work
      ensures State() == old(State()).(work := Route(old(work), targets, m))
      ensures work.Keys == old(work).Keys
      ensures forall q :: q in work ==> work[q] == old(work)[q] + if q in targets then [m] else []
    {
      work := map q | q in work :: if q in targets then work[q] + [m] else work[q];
    }

    method SendToQueue(queue: nat, m: Message, ghost tag: nat)
      modifies `replies, `answered
      ensures State() == old(State()).(
        replies := SendTo(old(replies), queue, m), answered := old(answered) + multiset{tag})
    {
      if queue in replies { replies := replies[queue := replies[queue] + [m]]; }
      answered := answered + multiset{tag};
    }

    method Ack(tag: nat)
      modifies `acked
      ensures State() == old(State()).(acked := old(acked) + multiset{tag})
    {
      acked := acked + multiset{tag};
    }

    /** nack without requeue. */
    method Nack(tag: nat)
      modifies `nacked
      ensures State() == old(State()).(nacked := old(nacked) + multiset{tag})
    {
      nacked := nacked + multiset{tag};
    }
  }

  class RabbitMQService {
    const channel: Channel

    constructor (channel: Channel)
      ensures this.channel == channel
    {
      this.channel := channel;
    }

    /** request, up to its first wait on the reply: fresh id, private queue, no message yet. */
    method Open(rid: nat, text: Option<Body>, correlation: nat, replyQueue: nat, targets: set<nat>)
      requires Enabled(channel.State(), Step.Open(rid, text, correlation, replyQueue, targets))
      modifies channel
      ensures channel.State() == Next(old(channel.State()), Step.Open(rid, text, correlation, replyQueue, targets))
    {
      channel.replies := channel.replies[replyQueue := []];
      var r := Request(text, correlation, replyQueue, targets, false, true, true, Pending);
      channel.requests := channel.requests[rid := r];
    }

    /** The consumer is registered: publish, whether or not the caller is still waiting. A message that cannot be
        serialised throws before it reaches the channel. */
    method OnConsuming(rid: nat)
      requires Enabled(channel.State(), Send(rid))
      modifies channel
      ensures channel.State() == Next(old(channel.State()), Send(rid))
    {
      var r := channel.requests[rid];
      channel.requests := channel.requests[rid := r.(sent := true)];
      match r.text {
        case None =>
        case Some(body) => channel.Publish(r.targets, Message(body, Some(r.replyQueue), Some(r.correlation)));
      }
    }

    /** A message on the private reply queue; the broker forgets it at once. One with the request's id goes to the
        subscriber, which ignores it when it has been closed before. */
    method OnReply(rid: nat)
      requires Enabled(channel.State(), Receive(rid))
      modifies channel
      ensures channel.State() == Next(old(channel.State()), Receive(rid))
    {
      var r := channel.requests[rid];
      var m := channel.replies[r.replyQueue][0];
      channel.replies := channel.replies[r.replyQueue := channel.replies[r.replyQueue][1..]];
      if m.correlation == Some(r.correlation) && r.open {
        channel.requests := channel.requests[rid := Settle(r, Resolved(m.body))];
        channel.settled := channel.settled + multiset{rid};
      }
    }

    method OnTimeout(rid: nat)
      requires Enabled(channel.State(), Expire(rid))
      modifies channel
      ensures channel.State() == Next(old(channel.State()), Expire(rid))
    {
      channel.requests := channel.requests[rid := Settle(channel.requests[rid], TimedOut)];
      channel.settled := channel.settled + multiset{rid};
    }

    /** The teardown: the private queue goes, with whatever late replies it still holds. */
    method TearDown(rid: nat)
      requires Enabled(channel.State(), Close(rid))
      modifies channel
      ensures channel.State() == Next(old(channel.State()), Close(rid))
    {
      channel.replies := channel.replies - {channel.requests[rid].replyQueue};
    }

    /** consumeRPC's callback, from the handler's turn to the end. A result that cannot be serialised throws before
        anything is sent, so the one answer comes from the error branch; and where that branch cannot read or
        serialise the message of what was thrown, it throws itself, and the delivery is neither answered nor acked.
        */
    method OnRpcHandled(tag: nat, result: HandlerResult)
      requires Enabled(channel.State(), EndRpc(tag, result))
      modifies channel
      ensures channel.State() == Next(old(channel.State()), EndRpc(tag, result))
      ensures var m := old(channel.deliveries[tag].message);
        && channel.acked == old(channel.acked) + (if Strands(m, result) then multiset{} else multiset{tag})
        && channel.answered ==
           old(channel.answered) + (if m.replyTo.None? || Unanswerable(result) then multiset{} else multiset{tag})
      ensures var m := old(channel.deliveries[tag].message);
        if m.replyTo.Some? then Answered(old(channel.replies), channel.replies, m, result)
        else channel.replies == old(channel.replies)
    {
      EndRpcEffect(channel.State(), tag, result);
      AnswersExactly(channel.State(), tag, result);
      var m := channel.deliveries[tag].message;
      channel.deliveries := channel.deliveries[tag := channel.deliveries[tag].(turn := RpcEnded(result))];
      channel.handled := channel.handled + [Handling(tag, m, result)];
      var thrown: Option<Thrown> := None;
      match result {
        case BadJson(e) => thrown := Some(Error(Some(e)));
        case Threw(t) => thrown := Some(t);
        case Returned(value) =>
          if m.replyTo.Some? {
            match value {
              case Json(text) => channel.SendToQueue(m.replyTo.value, Message(Value(text), None, m.correlation), tag);
              case Undefined => thrown := Some(Error(Some(UNSERIALISABLE)));
              case Refuses(t) => thrown := Some(t);
            }
          }
          if thrown.None? { channel.Ack(tag); }
      }
      if thrown.Some? {
        if m.replyTo.Some? {
          if !thrown.value.Error? { return; }
          channel.SendToQueue(
            m.replyTo.value, Message(ErrorReply(thrown.value.message), None, m.correlation), tag);
        }
        channel.Ack(tag);
      }
    }

    /** consume's callback: the handler is not awaited, so having returned is enough for an ack. The error branch
        logs the thrown value's message before it nacks. */
    method OnEvent(tag: nat, event: EventResult)
      requires Enabled(channel.State(), EndEvent(tag, event))
      modifies channel
      ensures channel.State() == Next(old(channel.State()), EndEvent(tag, event))
    {
      channel.deliveries := channel.deliveries[tag := channel.deliveries[tag].(turn := EventEnded(event))];
      match event {
        case Started(_) => channel.Ack(tag);
        case Unparsable => channel.Nack(tag);
        case Raised(t) =>
          if t.Unreadable? { return; }
          channel.Nack(tag);
      }
    }
  }
}
