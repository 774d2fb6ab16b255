/** Request and reply over a message broker, as a protocol of steps. Any number of requests and consumers
    interleave; each step is what one callback does between two waits. */
module RpcProtocol {
  import opened Wrappers

  /** A body as it travels: serialised JSON, or the error object that a failed handler is answered with. An error
      whose message is undefined is answered with an empty object. */
  datatype Body = Value(json: string) | ErrorReply(message: Option<string>)

  datatype Message = Message(body: Body, replyTo: Option<nat>, correlation: Option<nat>)

  datatype Outcome = Pending | Resolved(body: Body) | TimedOut

  /** A call of request(). `text` is None for a message that cannot be serialised. The subscription on the reply queue
      is open until a first matching reply or the timer closes it; `outcome` is what the caller's promise says. */
  datatype Request = Request(
    text: Option<Body>, correlation: nat, replyQueue: nat, targets: set<nat>, sent: bool,
    open: bool, timer: bool, outcome: Outcome)

  /** A thrown value as an error branch sees it: no property of it can be read (null, undefined, a throwing getter),
      its message cannot be put into JSON, or its message is some JSON text or undefined. */
  datatype Thrown = Unreadable | Unspeakable | Error(message: Option<string>)

  /** A handler's return value when it is serialised for a reply: text, undefined, or a value whose serialisation
      throws. */
  datatype Serialised = Json(text: string) | Undefined | Refuses(thrown: Thrown)

  /** How an RPC handler's turn ended: the body was not JSON, the handler threw or rejected, or it returned. */
  datatype HandlerResult = BadJson(error: string) | Threw(thrown: Thrown) | Returned(value: Serialised)

  /** How an event handler's turn ended: the body was not JSON, the handler threw before it returned, or it returned.
      Nobody waits for the promise that it may have returned, so `fails` comes too late to matter. */
  datatype EventResult = Unparsable | Raised(thrown: Thrown) | Started(fails: bool)

  datatype Turn = Running | RpcEnded(result: HandlerResult) | EventEnded(event: EventResult)

  /** A message in a consumer's hands. */
  datatype Delivery = Delivery(message: Message, rpc: bool, turn: Turn)

  datatype Handling = Handling(tag: nat, message: Message, result: HandlerResult)

  /** What the run-time complains of when it is asked for the bytes of undefined. */
  const UNSERIALISABLE: string :=
    "The first argument must be of type string or an instance of Buffer, ArrayBuffer, or Array or an "
    + "Array-like Object. Received undefined"

  /** The error branch's answer, when it gets as far as having one. */
  function Complaint(t: Thrown): Option<Body> {
    match t
    case Error(message) => Some(ErrorReply(message))
    case _ => None
  }

  /** What a caller that asked for a reply is sent. */
  function Reply(r: HandlerResult): Option<Body> {
    match r
    case BadJson(e) => Some(ErrorReply(Some(e)))
    case Threw(t) => Complaint(t)
    case Returned(Json(text)) => Some(Value(text))
    case Returned(Undefined) => Some(ErrorReply(Some(UNSERIALISABLE)))
    case Returned(Refuses(t)) => Complaint(t)
  }

  /** Work queues by name, private reply queues by name, every request and delivery so far, how often each request was
      settled and each delivery acked, nacked and answered, and every RPC handler's turn. */
  datatype World = World(
    work: map<nat, seq<Message>>, replies: map<nat, seq<Message>>,
    requests: map<nat, Request>, deliveries: map<nat, Delivery>,
    settled: multiset<nat>, acked: multiset<nat>, nacked: multiset<nat>, answered: multiset<nat>,
    handled: seq<Handling>)

  ghost predicate Init(w: World) {
    && w == World(w.work, map[], map[], map[], multiset{}, multiset{}, multiset{}, multiset{}, [])
    && forall q :: q in w.work ==> w.work[q] == []
  }

  datatype Step =
    | Open(rid: nat, text: Option<Body>, correlation: nat, replyQueue: nat, targets: set<nat>)
    | Send(rid: nat)
    | Receive(rid: nat)
    | Expire(rid: nat)
    | Close(rid: nat)
    | PublishEvent(body: Body, targets: set<nat>)
    | Deliver(queue: nat, tag: nat, rpc: bool)
    | EndRpc(tag: nat, result: HandlerResult)
    | EndEvent(tag: nat, event: EventResult)

  /** Correlation ids and server-named reply queues are fresh; everything else may happen whenever it can. The timer
      may go off while it is armed; the teardown runs once the subscription is closed. */
  ghost predicate Enabled(w: World, s: Step) {
    match s
    case Open(rid, _, correlation, replyQueue, _) =>
      && rid !in w.requests && replyQueue !in w.replies
      && (forall r :: r in w.requests ==>
            w.requests[r].correlation != correlation && w.requests[r].replyQueue != replyQueue)
    case Send(rid) => rid in w.requests && !w.requests[rid].sent
    case Receive(rid) =>
      rid in w.requests && w.requests[rid].replyQueue in w.replies && w.replies[w.requests[rid].replyQueue] != []
    case Expire(rid) => rid in w.requests && w.requests[rid].timer
    case Close(rid) => rid in w.requests && !w.requests[rid].open && w.requests[rid].replyQueue in w.replies
    case PublishEvent(_, _) => true
    case Deliver(queue, tag, _) => queue in w.work && w.work[queue] != [] && tag !in w.deliveries
    case EndRpc(tag, _) => tag in w.deliveries && w.deliveries[tag].rpc && w.deliveries[tag].turn.Running?
    case EndEvent(tag, _) => tag in w.deliveries && !w.deliveries[tag].rpc && w.deliveries[tag].turn.Running?
  }

  ghost function Route(work: map<nat, seq<Message>>, targets: set<nat>, m: Message): map<nat, seq<Message>> {
    map q | q in work :: if q in targets then work[q] + [m] else work[q]
  }

  /** sendToQueue: a queue that has been deleted swallows the message. */
  function SendTo(replies: map<nat, seq<Message>>, q: nat, m: Message): map<nat, seq<Message>> {
    if q in replies then replies[q := replies[q] + [m]] else replies
  }

  /** The first value or the timer, whichever comes first, closes the subscription and disarms the timer. */
  function Settle(r: Request, outcome: Outcome): Request {
    r.(open := false, timer := false, outcome := outcome)
  }

  /** A handler's turn is over; what follows may still fail. */
  function End(w: World, tag: nat, turn: Turn): World
    requires tag in w.deliveries
  {
    w.(deliveries := w.deliveries[tag := w.deliveries[tag].(turn := turn)])
  }

  ghost function Next(w: World, s: Step): World
    requires Enabled(w, s)
  {
    match s
    case Open(rid, text, correlation, replyQueue, targets) =>
      w.(requests := w.requests[rid := Request(text, correlation, replyQueue, targets, false, true, true, Pending)],
         replies := w.replies[replyQueue := []])
    case Send(rid) =>
      var r := w.requests[rid];
      var sent := w.(requests := w.requests[rid := r.(sent := true)]);
      if r.text.None? then sent
      else sent.(work := Route(w.work, r.targets, Message(r.text.value, Some(r.replyQueue), Some(r.correlation))))
    case Receive(rid) =>
      var r := w.requests[rid];
      var m := w.replies[r.replyQueue][0];
      var popped := w.(replies := w.replies[r.replyQueue := w.replies[r.replyQueue][1..]]);
      if m.correlation == Some(r.correlation) && r.open
      then popped.(requests := w.requests[rid := Settle(r, Resolved(m.body))], settled := w.settled + multiset{rid})
      else popped
    case Expire(rid) =>
      w.(requests := w.requests[rid := Settle(w.requests[rid], TimedOut)], settled := w.settled + multiset{rid})
    case Close(rid) => w.(replies := w.replies - {w.requests[rid].replyQueue})
    case PublishEvent(body, targets) => w.(work := Route(w.work, targets, Message(body, None, None)))
    case Deliver(queue, tag, rpc) =>
      w.(work := w.work[queue := w.work[queue][1..]],
         deliveries := w.deliveries[tag := Delivery(w.work[queue][0], rpc, Running)])
    case EndRpc(tag, result) =>
      var m := w.deliveries[tag].message;
      var ended := End(w, tag, RpcEnded(result)).(handled := w.handled + [Handling(tag, m, result)]);
      if m.replyTo.None? then ended.(acked := w.acked + multiset{tag})
      else
        (match Reply(result)
         case None => ended
         case Some(body) =>
           ended.(replies := SendTo(w.replies, m.replyTo.value, Message(body, None, m.correlation)),
                  answered := w.answered + multiset{tag}, acked := w.acked + multiset{tag}))
    case EndEvent(tag, event) =>
      var ended := End(w, tag, EventEnded(event));
      match event
      case Started(_) => ended.(acked := w.acked + multiset{tag})
      case Raised(Unreadable) => ended
      case _ => ended.(nacked := w.nacked + multiset{tag})
  }

  // ---------------------------------------------------------------- runs

  ghost predicate CanRun(w: World, run: seq<Step>)
    decreases |run|
  {
    run == [] || (Enabled(w, run[0]) && CanRun(Next(w, run[0]), run[1..]))
  }

  ghost function Run(w: World, run: seq<Step>): World
    requires CanRun(w, run)
    decreases |run|
  {
    if run == [] then w else Run(Next(w, run[0]), run[1..])
  }

  // ---------------------------------------------------------------- invariants

  predicate Clash(a: Request, b: Request) {
    a.correlation == b.correlation || a.replyQueue == b.replyQueue
  }

  /** No two requests share a correlation id or a reply queue. */
  ghost predicate Private(requests: map<nat, Request>) {
    forall a, b :: a in requests && b in requests && Clash(requests[a], requests[b]) ==> a == b
  }

  ghost predicate SentBy(requests: map<nat, Request>, rid: nat, m: Message) {
    && rid in requests && m.replyTo == Some(requests[rid].replyQueue)
    && m.correlation == Some(requests[rid].correlation) && requests[rid].text == Some(m.body)
  }

  /** A message that wants a reply was sent by the request that owns the reply queue, and carries its text. */
  ghost predicate Own(requests: map<nat, Request>, m: Message) {
    m.replyTo.Some? ==> exists rid :: SentBy(requests, rid, m)
  }

  ghost predicate AllOwn(requests: map<nat, Request>, ms: seq<Message>) {
    forall i :: 0 <= i < |ms| ==> Own(requests, ms[i])
  }

  ghost predicate WorkOwn(requests: map<nat, Request>, work: map<nat, seq<Message>>) {
    forall q :: q in work ==> AllOwn(requests, work[q])
  }

  ghost predicate DeliveriesOwn(requests: map<nat, Request>, deliveries: map<nat, Delivery>) {
    forall tag :: tag in deliveries ==> Own(requests, deliveries[tag].message)
  }

  predicate AnswersBy(h: Handling, r: Request, body: Body) {
    h.message.correlation == Some(r.correlation) && r.text == Some(h.message.body) && Reply(h.result) == Some(body)
  }

  /** Some handler's turn on the request's own message produced this body. */
  ghost predicate Answers(handled: seq<Handling>, r: Request, body: Body) {
    exists i :: 0 <= i < |handled| && AnswersBy(handled[i], r, body)
  }

  ghost predicate ReplyOwn(handled: seq<Handling>, r: Request, m: Message) {
    m.correlation == Some(r.correlation) && Answers(handled, r, m.body)
  }

  ghost predicate AllReplyOwn(handled: seq<Handling>, r: Request, ms: seq<Message>) {
    forall i :: 0 <= i < |ms| ==> ReplyOwn(handled, r, ms[i])
  }

  /** Whatever lies in a request's reply queue answers that request's own message. */
  ghost predicate RepliesOwn(requests: map<nat, Request>, replies: map<nat, seq<Message>>, handled: seq<Handling>) {
    forall rid :: rid in requests && requests[rid].replyQueue in replies ==>
      AllReplyOwn(handled, requests[rid], replies[requests[rid].replyQueue])
  }

  ghost predicate ResolvedOwn(requests: map<nat, Request>, handled: seq<Handling>) {
    forall rid :: rid in requests && requests[rid].outcome.Resolved? ==>
      Answers(handled, requests[rid], requests[rid].outcome.body)
  }

  /** The handler threw, or its result's serialisation did, something that the error branch cannot tell of. */
  predicate Unanswerable(r: HandlerResult) {
    match r
    case Threw(t) => !t.Error?
    case Returned(Refuses(t)) => !t.Error?
    case _ => false
  }

  /** The error branch fails before it acks: a reply was asked for, and none can be made. */
  predicate Strands(m: Message, r: HandlerResult) {
    m.replyTo.Some? && Unanswerable(r)
  }

  predicate Accounted(d: Delivery, acked: nat, nacked: nat, answered: nat) {
    match d.turn
    case Running => acked == nacked == answered == 0
    case RpcEnded(result) =>
      && d.rpc && nacked == 0 && acked == (if Strands(d.message, result) then 0 else 1)
      && answered == (if d.message.replyTo.Some? then acked else 0)
    case EventEnded(event) =>
      && !d.rpc && answered == 0 && acked == (if event.Started? then 1 else 0)
      && nacked == (if event.Started? || event == Raised(Unreadable) then 0 else 1)
  }

  /** Each delivery's account: nothing while its handler runs; afterwards what its turn's end allows. */
  ghost predicate Accounts(
      deliveries: map<nat, Delivery>, acked: multiset<nat>, nacked: multiset<nat>, answered: multiset<nat>) {
    && (forall tag :: tag in deliveries ==> Accounted(deliveries[tag], acked[tag], nacked[tag], answered[tag]))
    && (forall tag :: tag in acked || tag in nacked || tag in answered ==> tag in deliveries)
  }

  ghost predicate AllAccounted(w: World) {
    Accounts(w.deliveries, w.acked, w.nacked, w.answered)
  }

  /** A request's subscription is open, its timer armed and its promise pending all at once, and it has been settled
      as often as it is not pending. */
  predicate Subscribed(r: Request, settled: nat) {
    r.open == r.timer == r.outcome.Pending? && settled == if r.outcome.Pending? then 0 else 1
  }

  ghost predicate AllSubscribed(requests: map<nat, Request>, settled: multiset<nat>) {
    && (forall rid :: rid in requests ==> Subscribed(requests[rid], settled[rid]))
    && (forall rid :: rid in settled ==> rid in requests)
  }

  /** Every message is with the request it belongs to. */
  ghost predicate MailOwn(w: World) {
    && Private(w.requests)
    && WorkOwn(w.requests, w.work)
    && DeliveriesOwn(w.requests, w.deliveries)
    && RepliesOwn(w.requests, w.replies, w.handled)
    && ResolvedOwn(w.requests, w.handled)
  }

  ghost predicate Inv(w: World) {
    MailOwn(w) && AllAccounted(w) && AllSubscribed(w.requests, w.settled)
  }

  // ---------------------------------------------------------------- how the pieces age

  predicate SameCall(a: Request, b: Request) {
    a.text == b.text && a.correlation == b.correlation && a.replyQueue == b.replyQueue
  }

  /** Requests keep their text, correlation and reply queue for good. */
  ghost predicate Ages(a: map<nat, Request>, b: map<nat, Request>) {
    forall rid :: rid in a ==> rid in b && SameCall(a[rid], b[rid])
  }

  lemma OwnAges(a: map<nat, Request>, b: map<nat, Request>, m: Message)
    requires Ages(a, b) && Own(a, m)
    ensures Own(b, m)
  {
    if m.replyTo.Some? {
      var rid :| SentBy(a, rid, m);
      assert SentBy(b, rid, m);
    }
  }

  lemma WorkAges(a: map<nat, Request>, b: map<nat, Request>, work: map<nat, seq<Message>>)
    requires Ages(a, b) && WorkOwn(a, work)
    ensures WorkOwn(b, work)
  {
    forall q, i | q in work && 0 <= i < |work[q]|
      ensures Own(b, work[q][i])
    {
      assert AllOwn(a, work[q]);
      OwnAges(a, b, work[q][i]);
    }
  }

  lemma DeliveriesAge(a: map<nat, Request>, b: map<nat, Request>, deliveries: map<nat, Delivery>)
    requires Ages(a, b) && DeliveriesOwn(a, deliveries)
    ensures DeliveriesOwn(b, deliveries)
  {
    forall tag | tag in deliveries
      ensures Own(b, deliveries[tag].message)
    {
      OwnAges(a, b, deliveries[tag].message);
    }
  }

  lemma AnswersAge(handled: seq<Handling>, h: Handling, r: Request, body: Body)
    requires Answers(handled, r, body)
    ensures Answers(handled + [h], r, body)
  {
    var i :| 0 <= i < |handled| && AnswersBy(handled[i], r, body);
    assert AnswersBy((handled + [h])[i], r, body);
  }

  lemma RouteOwn(requests: map<nat, Request>, work: map<nat, seq<Message>>, targets: set<nat>, m: Message)
    requires WorkOwn(requests, work) && Own(requests, m)
    ensures WorkOwn(requests, Route(work, targets, m))
  {
    forall q, i | q in work && 0 <= i < |Route(work, targets, m)[q]|
      ensures Own(requests, Route(work, targets, m)[q][i])
    {
      assert AllOwn(requests, work[q]);
    }
  }

  // ---------------------------------------------------------------- the messages, step by step

  lemma OpenKeepsMail(w: World, rid: nat, text: Option<Body>, correlation: nat, replyQueue: nat, targets: set<nat>)
    requires MailOwn(w) && Enabled(w, Open(rid, text, correlation, replyQueue, targets))
    ensures MailOwn(Next(w, Open(rid, text, correlation, replyQueue, targets)))
  {
    var v := Next(w, Open(rid, text, correlation, replyQueue, targets));
    WorkAges(w.requests, v.requests, w.work);
    DeliveriesAge(w.requests, v.requests, w.deliveries);
  }

  lemma SameAnswers(handled: seq<Handling>, r: Request, q: Request)
    requires SameCall(r, q)
    ensures forall body :: Answers(handled, r, body) ==> Answers(handled, q, body)
  {
    forall body | Answers(handled, r, body)
      ensures Answers(handled, q, body)
    {
      var i :| 0 <= i < |handled| && AnswersBy(handled[i], r, body);
      assert AnswersBy(handled[i], q, body);
    }
  }

  /** One request's own record moved on: whether it was sent, or how it ended. */
  lemma RequestKeepsMail(w: World, rid: nat, r: Request)
    requires MailOwn(w) && rid in w.requests && SameCall(w.requests[rid], r)
    requires r.outcome.Resolved? ==> Answers(w.handled, r, r.outcome.body)
    ensures MailOwn(w.(requests := w.requests[rid := r]))
  {
    var requests := w.requests[rid := r];
    WorkAges(w.requests, requests, w.work);
    DeliveriesAge(w.requests, requests, w.deliveries);
    forall x | x in requests && requests[x].replyQueue in w.replies
      ensures AllReplyOwn(w.handled, requests[x], w.replies[requests[x].replyQueue])
    {
      assert AllReplyOwn(w.handled, w.requests[x], w.replies[w.requests[x].replyQueue]);
      SameAnswers(w.handled, w.requests[x], requests[x]);
    }
  }

  lemma SendKeepsMail(w: World, rid: nat)
    requires MailOwn(w) && Enabled(w, Send(rid))
    ensures MailOwn(Next(w, Send(rid)))
  {
    var r := w.requests[rid].(sent := true);
    if r.outcome.Resolved? { SameAnswers(w.handled, w.requests[rid], r); }
    RequestKeepsMail(w, rid, r);
    if r.text.Some? {
      var requests := w.requests[rid := r];
      var m := Message(r.text.value, Some(r.replyQueue), Some(r.correlation));
      assert SentBy(requests, rid, m);
      RouteOwn(requests, w.work, r.targets, m);
    }
  }

  lemma PopKeeps(w: World, rid: nat)
    requires MailOwn(w) && Enabled(w, Receive(rid))
    ensures var q := w.requests[rid].replyQueue; MailOwn(w.(replies := w.replies[q := w.replies[q][1..]]))
    ensures var r := w.requests[rid]; ReplyOwn(w.handled, r, w.replies[r.replyQueue][0])
  {
    var r := w.requests[rid];
    assert AllReplyOwn(w.handled, r, w.replies[r.replyQueue]);
    var replies := w.replies[r.replyQueue := w.replies[r.replyQueue][1..]];
    forall x | x in w.requests && w.requests[x].replyQueue in replies
      ensures AllReplyOwn(w.handled, w.requests[x], replies[w.requests[x].replyQueue])
    {
      assert AllReplyOwn(w.handled, w.requests[x], w.replies[w.requests[x].replyQueue]);
    }
  }

  lemma DeliverKeepsMail(w: World, queue: nat, tag: nat, rpc: bool)
    requires MailOwn(w) && Enabled(w, Deliver(queue, tag, rpc))
    ensures MailOwn(Next(w, Deliver(queue, tag, rpc)))
  {
    var v := Next(w, Deliver(queue, tag, rpc));
    assert AllOwn(w.requests, w.work[queue]);
    assert AllOwn(w.requests, v.work[queue]);
  }

  lemma HandleKeepsReplies(w: World, h: Handling)
    requires RepliesOwn(w.requests, w.replies, w.handled) && ResolvedOwn(w.requests, w.handled)
    ensures RepliesOwn(w.requests, w.replies, w.handled + [h]) && ResolvedOwn(w.requests, w.handled + [h])
  {
    forall rid, i | rid in w.requests && w.requests[rid].replyQueue in w.replies
                    && 0 <= i < |w.replies[w.requests[rid].replyQueue]|
      ensures ReplyOwn(w.handled + [h], w.requests[rid], w.replies[w.requests[rid].replyQueue][i])
    {
      var m := w.replies[w.requests[rid].replyQueue][i];
      assert AllReplyOwn(w.handled, w.requests[rid], w.replies[w.requests[rid].replyQueue]);
      assert ReplyOwn(w.handled, w.requests[rid], m);
      AnswersAge(w.handled, h, w.requests[rid], m.body);
    }
    forall rid | rid in w.requests && w.requests[rid].outcome.Resolved?
      ensures Answers(w.handled + [h], w.requests[rid], w.requests[rid].outcome.body)
    {
      AnswersAge(w.handled, h, w.requests[rid], w.requests[rid].outcome.body);
    }
  }

  /** The answer goes into the reply queue of the one request that sent the message. */
  lemma AnswerKeepsReplies(
      requests: map<nat, Request>, replies: map<nat, seq<Message>>, handled: seq<Handling>, h: Handling, body: Body)
    requires Private(requests) && Own(requests, h.message) && h.message.replyTo.Some? && h in handled
    requires Reply(h.result) == Some(body) && RepliesOwn(requests, replies, handled)
    ensures RepliesOwn(
      requests, SendTo(replies, h.message.replyTo.value, Message(body, None, h.message.correlation)), handled)
  {
    var q, m := h.message.replyTo.value, Message(body, None, h.message.correlation);
    var owner :| SentBy(requests, owner, h.message);
    var i :| 0 <= i < |handled| && handled[i] == h;
    assert AnswersBy(handled[i], requests[owner], m.body);
    forall rid | rid in requests && requests[rid].replyQueue in SendTo(replies, q, m)
      ensures AllReplyOwn(handled, requests[rid], SendTo(replies, q, m)[requests[rid].replyQueue])
    {
      assert AllReplyOwn(handled, requests[rid], replies[requests[rid].replyQueue]);
      if requests[rid].replyQueue == q { assert Clash(requests[rid], requests[owner]); }
    }
  }

  /** A turn's end leaves every message where it was. */
  lemma EndKeepsMail(w: World, tag: nat, turn: Turn)
    requires MailOwn(w) && tag in w.deliveries
    ensures MailOwn(End(w, tag, turn))
  {
    assert Own(w.requests, w.deliveries[tag].message);
  }

  lemma EndRpcKeepsMail(w: World, tag: nat, result: HandlerResult)
    requires MailOwn(w) && Enabled(w, EndRpc(tag, result))
    ensures MailOwn(Next(w, EndRpc(tag, result)))
  {
    var v := Next(w, EndRpc(tag, result));
    var m := w.deliveries[tag].message;
    var h := Handling(tag, m, result);
    assert Own(w.requests, m);
    EndKeepsMail(w, tag, RpcEnded(result));
    HandleKeepsReplies(End(w, tag, RpcEnded(result)), h);
    if m.replyTo.Some? && Reply(result).Some? {
      AnswerKeepsReplies(w.requests, w.replies, v.handled, h, Reply(result).value);
    }
  }

  lemma ReceiveKeepsMail(w: World, rid: nat)
    requires MailOwn(w) && Enabled(w, Receive(rid))
    ensures MailOwn(Next(w, Receive(rid)))
  {
    var r := w.requests[rid];
    PopKeeps(w, rid);
    var popped := w.(replies := w.replies[r.replyQueue := w.replies[r.replyQueue][1..]]);
    if r.open && w.replies[r.replyQueue][0].correlation == Some(r.correlation) {
      var resolved := Settle(r, Resolved(w.replies[r.replyQueue][0].body));
      SameAnswers(w.handled, r, resolved);
      RequestKeepsMail(popped, rid, resolved);
    }
  }

  lemma CloseKeepsMail(w: World, rid: nat)
    requires MailOwn(w) && Enabled(w, Close(rid))
    ensures MailOwn(Next(w, Close(rid)))
  {}

  lemma ExpireKeepsMail(w: World, rid: nat)
    requires MailOwn(w) && Enabled(w, Expire(rid))
    ensures MailOwn(Next(w, Expire(rid)))
  {
    RequestKeepsMail(w, rid, Settle(w.requests[rid], TimedOut));
  }

  lemma PublishKeepsMail(w: World, body: Body, targets: set<nat>)
    requires MailOwn(w)
    ensures MailOwn(Next(w, PublishEvent(body, targets)))
  {
    RouteOwn(w.requests, w.work, targets, Message(body, None, None));
  }

  lemma EndEventKeepsMail(w: World, tag: nat, event: EventResult)
    requires MailOwn(w) && Enabled(w, EndEvent(tag, event))
    ensures MailOwn(Next(w, EndEvent(tag, event)))
  {
    EndKeepsMail(w, tag, EventEnded(event));
  }

  lemma NextKeepsMail(w: World, s: Step)
    requires MailOwn(w) && Enabled(w, s)
    ensures MailOwn(Next(w, s))
  {
    match s {
      case Open(rid, text, correlation, replyQueue, targets) =>
        OpenKeepsMail(w, rid, text, correlation, replyQueue, targets);
      case Send(rid) => SendKeepsMail(w, rid);
      case Receive(rid) => ReceiveKeepsMail(w, rid);
      case Expire(rid) => ExpireKeepsMail(w, rid);
      case Close(rid) => CloseKeepsMail(w, rid);
      case PublishEvent(body, targets) => PublishKeepsMail(w, body, targets);
      case Deliver(queue, tag, rpc) => DeliverKeepsMail(w, queue, tag, rpc);
      case EndRpc(tag, result) => EndRpcKeepsMail(w, tag, result);
      case EndEvent(tag, event) => EndEventKeepsMail(w, tag, event);
    }
  }

  // ---------------------------------------------------------------- accounts and subscriptions, step by step

  /** A turn's end, with what it adds to the delivery's account. */
  lemma EndKeepsAccounts(w: World, v: World, tag: nat, turn: Turn, acked: nat, nacked: nat, answered: nat)
    requires AllAccounted(w) && tag in w.deliveries && w.deliveries[tag].turn.Running?
    requires v.deliveries == End(w, tag, turn).deliveries
    requires Accounted(v.deliveries[tag], acked, nacked, answered)
    requires v.acked == w.acked[tag := w.acked[tag] + acked]
    requires v.nacked == w.nacked[tag := w.nacked[tag] + nacked]
    requires v.answered == w.answered[tag := w.answered[tag] + answered]
    ensures AllAccounted(v)
  {
    assert Accounted(w.deliveries[tag], w.acked[tag], w.nacked[tag], w.answered[tag]);
  }

  /** What the end of an RPC handler's turn adds to the delivery's account, told from its message and result alone. */
  lemma EndRpcEffect(w: World, tag: nat, result: HandlerResult)
    requires Enabled(w, EndRpc(tag, result))
    ensures var v, m := Next(w, EndRpc(tag, result)), w.deliveries[tag].message;
      && v.deliveries == End(w, tag, RpcEnded(result)).deliveries && v.nacked == w.nacked
      && v.acked == (if Strands(m, result) then w.acked else w.acked + multiset{tag})
      && v.answered == (if m.replyTo.None? || Unanswerable(result) then w.answered else w.answered + multiset{tag})
  {}

  lemma EndRpcKeepsAccounts(w: World, tag: nat, result: HandlerResult)
    requires AllAccounted(w) && Enabled(w, EndRpc(tag, result))
    ensures AllAccounted(Next(w, EndRpc(tag, result)))
  {
    var v, m := Next(w, EndRpc(tag, result)), w.deliveries[tag].message;
    EndRpcEffect(w, tag, result);
    var acked := if Strands(m, result) then 0 else 1;
    EndKeepsAccounts(w, v, tag, RpcEnded(result), acked, 0, if m.replyTo.Some? then acked else 0);
  }

  lemma EndEventKeepsAccounts(w: World, tag: nat, event: EventResult)
    requires AllAccounted(w) && Enabled(w, EndEvent(tag, event))
    ensures AllAccounted(Next(w, EndEvent(tag, event)))
  {
    var acked := if event.Started? then 1 else 0;
    var nacked := if event.Started? || event == Raised(Unreadable) then 0 else 1;
    EndKeepsAccounts(w, Next(w, EndEvent(tag, event)), tag, EventEnded(event), acked, nacked, 0);
  }

  lemma DeliverKeepsAccounts(w: World, queue: nat, tag: nat, rpc: bool)
    requires AllAccounted(w) && Enabled(w, Deliver(queue, tag, rpc))
    ensures AllAccounted(Next(w, Deliver(queue, tag, rpc)))
  {
    assert tag !in w.acked && tag !in w.nacked && tag !in w.answered;
  }

  lemma QuietForDeliveries(w: World, s: Step)
    requires Enabled(w, s) && !s.Deliver? && !s.EndRpc? && !s.EndEvent?
    ensures var v := Next(w, s);
      v.deliveries == w.deliveries && v.acked == w.acked && v.nacked == w.nacked && v.answered == w.answered
  {}

  lemma NextKeepsAccounts(w: World, s: Step)
    requires AllAccounted(w) && Enabled(w, s)
    ensures AllAccounted(Next(w, s))
  {
    match s {
      case Deliver(queue, tag, rpc) => DeliverKeepsAccounts(w, queue, tag, rpc);
      case EndRpc(tag, result) => EndRpcKeepsAccounts(w, tag, result);
      case EndEvent(tag, event) => EndEventKeepsAccounts(w, tag, event);
      case _ => QuietForDeliveries(w, s);
    }
  }

  lemma QuietForRequests(w: World, s: Step)
    requires Enabled(w, s) && !s.Open? && !s.Send? && !s.Receive? && !s.Expire?
    ensures Next(w, s).requests == w.requests && Next(w, s).settled == w.settled
  {}

  lemma SettleKeepsSubscribed(requests: map<nat, Request>, settled: multiset<nat>, rid: nat, outcome: Outcome)
    requires AllSubscribed(requests, settled) && rid in requests && requests[rid].outcome.Pending? && !outcome.Pending?
    ensures AllSubscribed(requests[rid := Settle(requests[rid], outcome)], settled + multiset{rid})
  {
    assert Subscribed(requests[rid], settled[rid]);
  }

  lemma ReceiveKeepsSubscribed(w: World, rid: nat)
    requires AllSubscribed(w.requests, w.settled) && Enabled(w, Receive(rid))
    ensures AllSubscribed(Next(w, Receive(rid)).requests, Next(w, Receive(rid)).settled)
  {
    var r := w.requests[rid];
    assert Subscribed(r, w.settled[rid]);
    if r.open { SettleKeepsSubscribed(w.requests, w.settled, rid, Resolved(w.replies[r.replyQueue][0].body)); }
  }

  lemma OpenKeepsSubscribed(requests: map<nat, Request>, settled: multiset<nat>, rid: nat, r: Request)
    requires AllSubscribed(requests, settled) && rid !in requests && Subscribed(r, 0)
    ensures AllSubscribed(requests[rid := r], settled)
  {
    assert rid !in settled;
  }

  lemma SendKeepsSubscribed(requests: map<nat, Request>, settled: multiset<nat>, rid: nat)
    requires AllSubscribed(requests, settled) && rid in requests
    ensures AllSubscribed(requests[rid := requests[rid].(sent := true)], settled)
  {
    assert Subscribed(requests[rid], settled[rid]);
  }

  /** A reply or the timer settles a request only while it is pending: each of the two closes the door on the other.
      */
  lemma NextKeepsSubscribed(w: World, s: Step)
    requires AllSubscribed(w.requests, w.settled) && Enabled(w, s)
    ensures AllSubscribed(Next(w, s).requests, Next(w, s).settled)
  {
    match s {
      case Open(rid, _, _, _, _) => OpenKeepsSubscribed(w.requests, w.settled, rid, Next(w, s).requests[rid]);
      case Send(rid) => SendKeepsSubscribed(w.requests, w.settled, rid);
      case Receive(rid) => ReceiveKeepsSubscribed(w, rid);
      case Expire(rid) =>
        assert Subscribed(w.requests[rid], w.settled[rid]);
        SettleKeepsSubscribed(w.requests, w.settled, rid, TimedOut);
      case _ => QuietForRequests(w, s);
    }
  }

  lemma NextKeepsInv(w: World, s: Step)
    requires Inv(w) && Enabled(w, s)
    ensures Inv(Next(w, s))
  {
    NextKeepsMail(w, s);
    NextKeepsAccounts(w, s);
    NextKeepsSubscribed(w, s);
  }

  lemma {:induction false} RunKeepsInv(w: World, run: seq<Step>)
    requires Inv(w) && CanRun(w, run)
    ensures Inv(Run(w, run))
    decreases |run|
  {
    if run != [] {
      NextKeepsInv(w, run[0]);
      RunKeepsInv(Next(w, run[0]), run[1..]);
    }
  }

  // ---------------------------------------------------------------- what every interleaving guarantees

  /** A handler's turn on the request's own message ended like this. */
  ghost predicate EndedLike(handled: seq<Handling>, r: Request, result: HandlerResult) {
    exists i :: 0 <= i < |handled| && handled[i].message.correlation == Some(r.correlation)
      && r.text == Some(handled[i].message.body) && handled[i].result == result
  }

  /** The turns that lead to an answer, each with the answer it leads to. */
  ghost predicate Explains(handled: seq<Handling>, r: Request, body: Body) {
    match body
    case Value(json) => EndedLike(handled, r, Returned(Json(json)))
    case ErrorReply(message) =>
      || (message.Some? && EndedLike(handled, r, BadJson(message.value)))
      || EndedLike(handled, r, Threw(Error(message)))
      || EndedLike(handled, r, Returned(Refuses(Error(message))))
      || (message == Some(UNSERIALISABLE) && EndedLike(handled, r, Returned(Undefined)))
  }

  lemma AnswersExplained(handled: seq<Handling>, r: Request, body: Body)
    requires Answers(handled, r, body)
    ensures Explains(handled, r, body)
  {
    var i :| 0 <= i < |handled| && AnswersBy(handled[i], r, body);
    assert EndedLike(handled, r, handled[i].result);
  }

  /** A request is resolved only with what a handler made of that request's own message: with the very text that it
      returned, or with the error that its body, its throw or its result's serialisation gave rise to. */
  lemma RpcIsolation(w: World, run: seq<Step>, rid: nat)
    requires Init(w) && CanRun(w, run)
    requires rid in Run(w, run).requests && Run(w, run).requests[rid].outcome.Resolved?
    ensures var v := Run(w, run); Explains(v.handled, v.requests[rid], v.requests[rid].outcome.body)
  {
    RunKeepsInv(w, run);
    var v := Run(w, run);
    AnswersExplained(v.handled, v.requests[rid], v.requests[rid].outcome.body);
  }

  /** Of all reply queues, only the one that m names has got a message more, and that one is the given body under m's
      own id. */
  ghost predicate Sent(before: map<nat, seq<Message>>, after: map<nat, seq<Message>>, m: Message, body: Body) {
    && after.Keys == before.Keys
    && forall q :: q in before ==>
         after[q] == before[q] + if m.replyTo == Some(q) then [Message(body, None, m.correlation)] else []
  }

  /** What each end of a handler's turn sends to a caller that asked for a reply. */
  ghost predicate Answered(
      before: map<nat, seq<Message>>, after: map<nat, seq<Message>>, m: Message, r: HandlerResult) {
    match r
    case BadJson(e) => Sent(before, after, m, ErrorReply(Some(e)))
    case Threw(Error(message)) => Sent(before, after, m, ErrorReply(message))
    case Returned(Json(text)) => Sent(before, after, m, Value(text))
    case Returned(Undefined) => Sent(before, after, m, ErrorReply(Some(UNSERIALISABLE)))
    case Returned(Refuses(Error(message))) => Sent(before, after, m, ErrorReply(message))
    case _ => after == before
  }

  /** The end of a handler's turn sends exactly the answer that its result calls for, and nothing where no reply was
      asked for. */
  lemma AnswersExactly(w: World, tag: nat, result: HandlerResult)
    requires Enabled(w, EndRpc(tag, result))
    ensures var m, v := w.deliveries[tag].message, Next(w, EndRpc(tag, result));
      if m.replyTo.Some? then Answered(w.replies, v.replies, m, result) else v.replies == w.replies
  {}

  /** However replies, duplicates and the timer interleave, a request is settled at most once, and exactly once when
      it is no longer pending. */
  lemma SettledAtMostOnce(w: World, run: seq<Step>, rid: nat)
    requires Init(w) && CanRun(w, run)
    ensures var v := Run(w, run);
      v.settled[rid] <= 1 && (v.settled[rid] == 1 <==> rid in v.requests && !v.requests[rid].outcome.Pending?)
  {
    RunKeepsInv(w, run);
    var v := Run(w, run);
    if rid in v.requests { assert Subscribed(v.requests[rid], v.settled[rid]); }
  }

  /** What a step does to one request's record. */
  lemma RequestMoves(w: World, s: Step, rid: nat)
    requires Enabled(w, s) && rid in w.requests
    ensures var r, v := w.requests[rid], Next(w, s);
      && rid in v.requests && SameCall(r, v.requests[rid])
      && (v.requests[rid].outcome != r.outcome ==> (s == Receive(rid) && r.open) || (s == Expire(rid) && r.timer))
  {
    if !s.Open? && !s.Send? && !s.Receive? && !s.Expire? { QuietForRequests(w, s); }
  }

  lemma StepKeepsOutcome(w: World, s: Step, rid: nat)
    requires AllSubscribed(w.requests, w.settled) && Enabled(w, s)
    requires rid in w.requests && !w.requests[rid].outcome.Pending?
    ensures rid in Next(w, s).requests && SameCall(w.requests[rid], Next(w, s).requests[rid])
    ensures Next(w, s).requests[rid].outcome == w.requests[rid].outcome
  {
    assert Subscribed(w.requests[rid], w.settled[rid]);
    RequestMoves(w, s, rid);
  }

  lemma StepKeepsTornDown(w: World, s: Step, rid: nat)
    requires Enabled(w, s) && rid in w.requests && w.requests[rid].replyQueue !in w.replies
    ensures w.requests[rid].replyQueue !in Next(w, s).replies
  {}

  /** Once a request has ended, nothing changes how: its subscription is closed and its timer disarmed. Once its reply
      queue has been torn down, it never comes back. */
  lemma {:induction false} OutcomeIsFinal(w: World, run: seq<Step>, rid: nat)
    requires Inv(w) && CanRun(w, run) && rid in w.requests && !w.requests[rid].outcome.Pending?
    ensures rid in Run(w, run).requests && Run(w, run).requests[rid].outcome == w.requests[rid].outcome
    ensures w.requests[rid].replyQueue !in w.replies ==> w.requests[rid].replyQueue !in Run(w, run).replies
    decreases |run|
  {
    if run != [] {
      NextKeepsInv(w, run[0]);
      StepKeepsOutcome(w, run[0], rid);
      if w.requests[rid].replyQueue !in w.replies { StepKeepsTornDown(w, run[0], rid); }
      OutcomeIsFinal(Next(w, run[0]), run[1..], rid);
    }
  }

  predicate CleanlySettled(d: Delivery, acked: nat, nacked: nat, answered: nat) {
    acked == 1 && nacked == 0 && answered == if d.message.replyTo.Some? then 1 else 0
  }

  /** A delivery whose RPC handler's turn has ended is acked once, and answered once when it names a reply queue, if
      and only if not both a reply was asked for and the handler failed with something that cannot be told of.
      Otherwise, and before the turn's end, it is neither acked nor answered. */
  lemma DeliveriesSettleOnce(w: World, run: seq<Step>, tag: nat)
    requires Init(w) && CanRun(w, run) && tag in Run(w, run).deliveries && Run(w, run).deliveries[tag].rpc
    ensures var v := Run(w, run); var d := v.deliveries[tag];
      var clean := CleanlySettled(d, v.acked[tag], v.nacked[tag], v.answered[tag]);
      && (clean <==> d.turn.RpcEnded? && !(d.message.replyTo.Some? && Unanswerable(d.turn.result)))
      && (!clean ==> v.acked[tag] == v.nacked[tag] == v.answered[tag] == 0)
  {
    RunKeepsInv(w, run);
    var v := Run(w, run);
    assert Accounted(v.deliveries[tag], v.acked[tag], v.nacked[tag], v.answered[tag]);
  }

  /** An event delivery is never answered. It is acked as soon as its handler has returned, whether or not the
      promise it returned fails later, and nacked exactly when its body is not JSON or the handler threw something
      readable before it returned. */
  lemma EventsSettleOnce(w: World, run: seq<Step>, tag: nat)
    requires Init(w) && CanRun(w, run) && tag in Run(w, run).deliveries && !Run(w, run).deliveries[tag].rpc
    ensures var v := Run(w, run); var t := v.deliveries[tag].turn;
      && v.answered[tag] == 0 && v.acked[tag] + v.nacked[tag] <= 1
      && (v.acked[tag] == 1 <==> t.EventEnded? && t.event.Started?)
      && (v.nacked[tag] == 1 <==>
            t.EventEnded? && (t.event.Unparsable? || (t.event.Raised? && !t.event.thrown.Unreadable?)))
  {
    RunKeepsInv(w, run);
    var v := Run(w, run);
    assert Accounted(v.deliveries[tag], v.acked[tag], v.nacked[tag], v.answered[tag]);
  }

  lemma StepKeepsTurn(w: World, s: Step, tag: nat)
    requires Enabled(w, s) && tag in w.deliveries && !w.deliveries[tag].turn.Running?
    ensures tag in Next(w, s).deliveries && Next(w, s).deliveries[tag] == w.deliveries[tag]
  {}

  lemma {:induction false} TurnIsFinal(w: World, run: seq<Step>, tag: nat)
    requires CanRun(w, run) && tag in w.deliveries && !w.deliveries[tag].turn.Running?
    ensures tag in Run(w, run).deliveries && Run(w, run).deliveries[tag] == w.deliveries[tag]
    decreases |run|
  {
    if run != [] {
      StepKeepsTurn(w, run[0], tag);
      TurnIsFinal(Next(w, run[0]), run[1..], tag);
    }
  }

  /** A stranded delivery stays so: whatever happens afterwards, it is never acked, nacked or answered. */
  lemma StrandedForGood(w: World, run: seq<Step>, tag: nat)
    requires Inv(w) && CanRun(w, run) && tag in w.deliveries && w.deliveries[tag].turn.RpcEnded?
    requires Strands(w.deliveries[tag].message, w.deliveries[tag].turn.result)
    ensures var v := Run(w, run); v.acked[tag] == v.nacked[tag] == v.answered[tag] == 0
  {
    TurnIsFinal(w, run, tag);
    RunKeepsInv(w, run);
    var v := Run(w, run);
    assert Accounted(v.deliveries[tag], v.acked[tag], v.nacked[tag], v.answered[tag]);
  }

  lemma RunFirst(w: World, s: Step, rest: seq<Step>)
    requires Enabled(w, s) && CanRun(Next(w, s), rest)
    ensures CanRun(w, [s] + rest) && Run(w, [s] + rest) == Run(Next(w, s), rest)
  {
    assert ([s] + rest)[1..] == rest;
  }

  /** A handler throws null, and then the caller's timer goes off. */
  lemma StrandedEnd(w: World, rid: nat, tag: nat)
    requires tag in w.deliveries && w.deliveries[tag].rpc && w.deliveries[tag].turn.Running?
    requires w.deliveries[tag].message.replyTo.Some? && rid in w.requests && w.requests[rid].timer
    ensures var run := [EndRpc(tag, Threw(Unreadable))] + ([Expire(rid)] + []);
      && CanRun(w, run)
      && var v := Run(w, run);
      && v.deliveries == End(w, tag, RpcEnded(Threw(Unreadable))).deliveries
      && v.acked == w.acked && v.nacked == w.nacked && v.answered == w.answered
      && v.requests == w.requests[rid := Settle(w.requests[rid], TimedOut)]
  {
    var end, expire := EndRpc(tag, Threw(Unreadable)), Expire(rid);
    var w1 := Next(w, end);
    RunFirst(w1, expire, []);
    RunFirst(w, end, [expire] + []);
  }

  /** One such run: a request is sent and delivered, its handler throws null, the delivery stays unsettled, and the
      caller learns of nothing but the timeout. */
  lemma StrandedRun(text: Body) returns (w: World, run: seq<Step>)
    ensures Init(w) && CanRun(w, run)
    ensures var v := Run(w, run);
      && 0 in v.deliveries && v.deliveries[0].turn == RpcEnded(Threw(Unreadable))
      && v.acked[0] == v.nacked[0] == v.answered[0] == 0
      && 0 in v.requests && v.requests[0].outcome == TimedOut
  {
    w := World(map[0 := []], map[], map[], map[], multiset{}, multiset{}, multiset{}, multiset{}, []);
    var open, send, deliver := Open(0, Some(text), 0, 0, {0}), Send(0), Deliver(0, 0, true);
    var w1 := Next(w, open);
    var w2 := Next(w1, send);
    var w3 := Next(w2, deliver);
    var end := [EndRpc(0, Threw(Unreadable))] + ([Expire(0)] + []);
    StrandedEnd(w3, 0, 0);
    RunFirst(w2, deliver, end);
    RunFirst(w1, send, [deliver] + end);
    run := [open] + ([send] + ([deliver] + end));
    RunFirst(w, open, [send] + ([deliver] + end));
  }
}
