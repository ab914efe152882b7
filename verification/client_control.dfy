/**
  The client side of the control channel: a table correlating outstanding
  connect requests with the one-shot result slots their callers wait on,
  filled by connect acknowledgements, plus the forwarding of heartbeats to
  the watchdog and of completions to a handler.

  Every result slot ever created is kept in `sinks`, in creation order; the
  table maps a request id to the index of its slot there.
 */
module ClientControl {
  import opened Wrappers
  import opened ControlMessages
  import HeartbeatWatchdog

  /** The answer a connect acknowledgement carries. */
  datatype Ack = Ack(sessionId: int, serverSessionStreamId: int)

  /** The state of a one-shot result slot. Once resolved or cancelled it
      keeps its state: a value arriving after cancellation is dropped. */
  datatype SinkState = Waiting | Resolved(ack: Ack) | Cancelled

  /** A result slot and the request id it was created for. */
  datatype Sink = Sink(requestId: Uuid, state: SinkState)

  datatype Client = Client(
    sinks: seq<Sink>,
    table: map<Uuid, nat>,
    watchdog: HeartbeatWatchdog.Watchdog,
    completed: seq<int>)  // the session ids handed to the completion handler

  /** What `subscribeForConnectAck` hands back: the request id and its slot. */
  datatype Subscription = Subscription(requestId: Uuid, sink: nat)

  function Init(w: HeartbeatWatchdog.Watchdog): (c: Client)
    ensures c.table == map[] && c.sinks == [] && c.completed == []
  {
    Client([], map[], w, [])
  }

  /** Fills a slot with a value and completes it, unless it already holds
      one or was cancelled. */
  function Resolve(s: SinkState, a: Ack): (r: SinkState)
    ensures s.Waiting? ==> r == Resolved(a)
    ensures !s.Waiting? ==> r == s
  {
    if s.Waiting? then Resolved(a) else s
  }

  /** Cancels a slot still waiting; a finished slot is unaffected. */
  function CancelSink(s: SinkState): (r: SinkState)
    ensures s.Waiting? ==> r == Cancelled
    ensures !s.Waiting? ==> r == s
  {
    if s.Waiting? then Cancelled else s
  }

  /** `subscribeForConnectAck`: creates a waiting slot and registers it under
      the request id, replacing any slot registered before under that id. */
  function SubscribeForConnectAck(c: Client, id: Uuid): (r: (Client, Subscription))
    ensures r.1 == Subscription(id, |c.sinks|)
    ensures r.0.sinks == c.sinks + [Sink(id, Waiting)]
    ensures r.0.table == c.table[id := |c.sinks|]
    ensures r.0.watchdog == c.watchdog && r.0.completed == c.completed
  {
    (c.(sinks := c.sinks + [Sink(id, Waiting)], table := c.table[id := |c.sinks|]),
     Subscription(id, |c.sinks|))
  }

  /** Every table entry names an existing slot, created for that id. */
  ghost predicate TableInRange(c: Client) {
    forall id :: id in c.table ==> c.table[id] < |c.sinks| && c.sinks[c.table[id]].requestId == id
  }

  /** `onConnectAck`: takes the entry of the request id out of the table and
      resolves its slot with the acknowledgement. An id with no entry changes
      nothing. */
  function OnConnectAck(c: Client, id: Uuid, sessionId: int, serverSessionStreamId: int): (r: Client)
    requires TableInRange(c)
    ensures r.table == c.table - {id}
    ensures |r.sinks| == |c.sinks|
    ensures forall k :: 0 <= k < |c.sinks| ==>
      r.sinks[k] == (if id in c.table && k == c.table[id]
                     then c.sinks[k].(state := Resolve(c.sinks[k].state, Ack(sessionId, serverSessionStreamId)))
                     else c.sinks[k])
    ensures id !in c.table ==> r == c
    ensures r.watchdog == c.watchdog && r.completed == c.completed
  {
    if id in c.table then
      var k := c.table[id];
      c.(table := c.table - {id},
         sinks := c.sinks[k := c.sinks[k].(state := Resolve(c.sinks[k].state, Ack(sessionId, serverSessionStreamId)))])
    else c
  }

  /** A subscription this client handed out. */
  predicate Issued(c: Client, sub: Subscription) {
    sub.sink < |c.sinks| && c.sinks[sub.sink].requestId == sub.requestId
  }

  /** `ConnectAckSubscription.dispose`: removes the table entry for the
      subscription's request id, whichever slot it names, and cancels the
      subscription's own slot. */
  function Dispose(c: Client, sub: Subscription): (r: Client)
    requires Issued(c, sub)
    ensures r.table == c.table - {sub.requestId}
    ensures |r.sinks| == |c.sinks|
    ensures r.sinks[sub.sink] == c.sinks[sub.sink].(state := CancelSink(c.sinks[sub.sink].state))
    ensures forall k :: 0 <= k < |c.sinks| && k != sub.sink ==> r.sinks[k] == c.sinks[k]
    ensures r.watchdog == c.watchdog && r.completed == c.completed
  {
    c.(table := c.table - {sub.requestId},
       sinks := c.sinks[sub.sink := c.sinks[sub.sink].(state := CancelSink(c.sinks[sub.sink].state))])
  }

  /** `onHeartbeat`: forwards the session id to the watchdog. */
  function OnHeartbeat(c: Client, sessionId: int, now: int): (r: Client)
    ensures r == c.(watchdog := HeartbeatWatchdog.HeartbeatReceived(c.watchdog, sessionId, now))
  {
    c.(watchdog := HeartbeatWatchdog.HeartbeatReceived(c.watchdog, sessionId, now))
  }

  /** `onComplete`: hands the session id to the completion handler. */
  function OnComplete(c: Client, sessionId: int): (r: Client)
    ensures r.completed == c.completed + [sessionId]
    ensures r == c.(completed := r.completed)
  {
    c.(completed := c.completed + [sessionId])
  }

  /** Dispatches one control message. A connect request is not meant for a
      client and is only logged. `now` is the clock reading the watchdog
      stamps a heartbeat with. */
  function Handle(c: Client, m: ControlMessage, now: int): (r: Client)
    requires TableInRange(c)
    ensures m.Connect? ==> r == c
    ensures !m.ConnectAck? ==> r.table == c.table && r.sinks == c.sinks
    ensures m.ConnectAck? ==> r.table == c.table - {m.connectRequestId} && |r.sinks| == |c.sinks|
    ensures m.ConnectAck? && m.connectRequestId in c.table ==>
      var k := c.table[m.connectRequestId];
      r.sinks[k].state == Resolve(c.sinks[k].state, Ack(m.sessionId, m.serverSessionStreamId))
    ensures !m.Heartbeat? ==> r.watchdog == c.watchdog
    ensures !m.Complete? ==> r.completed == c.completed
  {
    match m
    case Connect(_, _, _, _) => c
    case ConnectAck(id, sessionId, streamId) => OnConnectAck(c, id, sessionId, streamId)
    case Heartbeat(sessionId) => OnHeartbeat(c, sessionId, now)
    case Complete(sessionId) => OnComplete(c, sessionId)
  }

  /** Dispatches control messages in order, all at the clock reading `now`. */
  function HandleAll(c: Client, ms: seq<ControlMessage>, now: int): (r: Client)
    requires Valid(c)
    ensures Valid(r)
    ensures |r.sinks| == |c.sinks|
    decreases |ms|
  {
    if ms == [] then c
    else
      HandleKeepsValid(c, ms[0], now);
      HandleAll(Handle(c, ms[0], now), ms[1..], now)
  }

  // ---------------------------------------------------------------------
  // Invariant and properties

  /** The table names existing slots created for its ids, each of them still
      waiting. */
  ghost predicate Valid(c: Client) {
    && TableInRange(c)
    && (forall id :: id in c.table ==> c.sinks[c.table[id]].state.Waiting?)
  }

  /** No two ids share a slot: each slot records the one id it was created for. */
  lemma ValidSlotsAreDistinct(c: Client, a: Uuid, b: Uuid)
    requires TableInRange(c) && a in c.table && b in c.table && a != b
    ensures c.table[a] != c.table[b]
  {
  }

  lemma HandleKeepsValid(c: Client, m: ControlMessage, now: int)
    requires Valid(c)
    ensures Valid(Handle(c, m, now))
  {
  }

  lemma ValidIsInvariant(c: Client, id: Uuid, sub: Subscription, sessionId: int, streamId: int)
    requires Valid(c)
    ensures Valid(SubscribeForConnectAck(c, id).0)
    ensures Valid(OnConnectAck(c, id, sessionId, streamId))
    ensures Issued(c, sub) ==> Valid(Dispose(c, sub))
  {
  }

  /** An acknowledgement for a registered id resolves exactly that id's slot
      with its contents, and a repeated acknowledgement is ignored. */
  lemma AckResolvesOnce(c: Client, id: Uuid, sessionId: int, streamId: int, sessionId2: int, streamId2: int)
    requires Valid(c) && id in c.table
    ensures var r := OnConnectAck(c, id, sessionId, streamId);
      && r.sinks[c.table[id]].state == Resolved(Ack(sessionId, streamId))
      && OnConnectAck(r, id, sessionId2, streamId2) == r
  {
  }

  /** A slot, once resolved or cancelled, keeps its state whatever control
      messages follow. */
  lemma {:induction false} FinishedSinkStays(c: Client, ms: seq<ControlMessage>, now: int, k: nat)
    requires Valid(c) && k < |c.sinks| && !c.sinks[k].state.Waiting?
    ensures HandleAll(c, ms, now).sinks[k] == c.sinks[k]
    decreases |ms|
  {
    if ms != [] {
      HandleKeepsValid(c, ms[0], now);
      var d := Handle(c, ms[0], now);
      assert d.sinks[k] == c.sinks[k];
      FinishedSinkStays(d, ms[1..], now, k);
    }
  }

  /** After `dispose`, an acknowledgement for the disposed id changes
      nothing. */
  lemma DisposeThenAckIsIgnored(c: Client, sub: Subscription, sessionId: int, streamId: int)
    requires Valid(c) && Issued(c, sub)
    ensures var d := Dispose(c, sub);
      && d.sinks[sub.sink].state != Waiting
      && OnConnectAck(d, sub.requestId, sessionId, streamId) == d
  {
  }

  /** Disposing a subscription whose id was registered again afterwards
      removes the newer registration too: the newer slot keeps waiting, and
      an acknowledgement for the id no longer reaches it. */
  lemma StaleDisposeOrphansNewer(c: Client, id: Uuid, sessionId: int, streamId: int)
    requires Valid(c)
    ensures var (c1, s1) := SubscribeForConnectAck(c, id);
      var (c2, s2) := SubscribeForConnectAck(c1, id);
      var d := Dispose(c2, s1);
      var r := OnConnectAck(d, id, sessionId, streamId);
      && s1.sink != s2.sink
      && r.sinks[s2.sink].state == Waiting
      && r.sinks[s1.sink].state == Cancelled
  {
  }

  /** Heartbeat and completion messages reach the watchdog and the handler
      with exactly their session id, and nothing else. */
  lemma ForwardingIsExact(c: Client, sessionId: int, now: int, id: Uuid, serverSessionStreamId: int)
    requires Valid(c)
    ensures Handle(c, ConnectAck(id, sessionId, serverSessionStreamId), now) ==
      OnConnectAck(c, id, sessionId, serverSessionStreamId)
    ensures Handle(c, Heartbeat(sessionId), now).watchdog ==
      HeartbeatWatchdog.HeartbeatReceived(c.watchdog, sessionId, now)
    ensures Handle(c, Complete(sessionId), now).completed == c.completed + [sessionId]
  {
  }
}
