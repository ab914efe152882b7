/**
  The per-send state machine of `MessagePublication.PublisherProcessor`: a
  subscriber to one upstream publisher that holds at most one buffer at a time,
  asks the upstream for one buffer at a time, timestamps the first offer of a
  buffer, and fires its done signal once.

  The base-subscriber and one-shot-processor behaviour the class inherits is
  written out here as the functions `Finally`, `OnError`, `OnComplete`,
  `Cancel` and `Fire`.
 */
module PublisherProcessor {
  import opened Wrappers
  import opened Failures

  /** A buffer produced by the upstream publisher; only its identity matters. */
  type Buffer = nat

  /** The state of the done signal handed to the caller of `publish`. */
  datatype Done = Pending | Completed | Failed(error: Error)

  /** A one-shot signal keeps its first terminal value and drops later ones. */
  function Fire(d: Done, s: Done): (r: Done)
    requires !s.Pending?
    ensures !r.Pending?
    ensures !d.Pending? ==> r == d
    ensures d.Pending? ==> r == s
  {
    if d.Pending? then s else d
  }

  /** What the upstream publisher delivers. */
  datatype Signal = Emit(buffer: Buffer) | Finish | Raise(error: Error)

  datatype Processor = Processor(
    buffer: Option<Buffer>,   // the buffer waiting to be offered
    requested: bool,          // a request(1) is outstanding
    start: int,               // millis of the first offer of `buffer`; 0 = not yet offered
    error: Option<Error>,     // the upstream error, once one arrived
    subscribed: bool,         // the upstream subscription has arrived
    disposed: bool,           // terminated or cancelled
    done: Done,               // the caller-facing done signal
    requests: nat,            // request(1) calls issued to the upstream so far
    released: seq<Buffer>)    // buffers handed to the buffer handler's dispose, in order

  /** A processor just created by `publish(publisher, bufferHandler)`. */
  function Fresh(subscribed: bool): (p: Processor)
    ensures p.buffer.None? && p.start == 0 && !p.requested && !p.disposed
    ensures p.done.Pending? && p.requests == 0 && p.released == []
  {
    Processor(None, false, 0, None, subscribed, false, Pending, 0, [])
  }

  /** A processor never records an upstream error without being disposed. */
  predicate Consistent(p: Processor) {
    p.error.Some? ==> p.disposed
  }

  /** The held buffer, as a sequence of length zero or one. */
  function Held(p: Processor): (h: seq<Buffer>) {
    if p.buffer.Some? then [p.buffer.value] else []
  }

  /** The terminal signal a disposed processor reports. */
  function Terminal(p: Processor): (d: Done)
    ensures !d.Pending?
  {
    if p.error.Some? then Failed(p.error.value) else Completed
  }

  /** `resetBuffer`: drops the held buffer, disposing it exactly once. */
  function ResetBuffer(p: Processor): (r: Processor)
    ensures r.buffer.None?
    ensures r.released == p.released + Held(p)
    ensures r == p.(buffer := None, released := r.released)
  {
    p.(buffer := None, released := p.released + Held(p))
  }

  /** `reset`: after a successful offer, or when the upstream terminates with
      nothing held. A live processor rearms its clock and its request; a
      disposed one fires its done signal. */
  function Reset(p: Processor): (r: Processor)
    ensures r.buffer.None? && r.released == p.released + Held(p)
    ensures !p.disposed ==> r.start == 0 && !r.requested && r.done == p.done
    ensures p.disposed ==> !r.done.Pending? && r.start == p.start && r.requested == p.requested
    ensures r.done != p.done ==> p.disposed && p.done.Pending? && r.done == Terminal(p)
    ensures r.disposed == p.disposed && r.error == p.error && r.subscribed == p.subscribed
    ensures r.requests == p.requests
  {
    var q := ResetBuffer(p);
    if q.disposed then q.(done := Fire(q.done, Terminal(q)))
    else q.(start := 0, requested := false)
  }

  /** `request`: asks the upstream for one more buffer, unless a request is
      outstanding, the processor is disposed, or no subscription has arrived. */
  function Request(p: Processor): (r: Processor)
    ensures r.requests == p.requests + 1 <==> !p.requested && !p.disposed && p.subscribed
    ensures r.requests != p.requests + 1 ==> r == p
    ensures r.requests > p.requests ==> r.requested
    ensures r == p.(requested := r.requested, requests := r.requests)
  {
    if p.requested || p.disposed || !p.subscribed then p
    else p.(requested := true, requests := p.requests + 1)
  }

  /** `hookFinally`: a terminated processor with nothing held resets at once. */
  function Finally(p: Processor): (r: Processor)
    ensures p.buffer.Some? ==> r == p
    ensures p.buffer.None? ==> r == Reset(p)
    ensures p.buffer.None? && p.disposed ==> r.done == Fire(p.done, Terminal(p))
  {
    if p.buffer.None? then Reset(p) else p
  }

  /** The upstream subscription arrives; a second one, or one after
      cancellation, is refused. */
  function OnSubscribe(p: Processor): (r: Processor)
    ensures r == p.(subscribed := r.subscribed)
    ensures r.subscribed == (p.subscribed || !p.disposed)
  {
    if p.subscribed || p.disposed then p else p.(subscribed := true)
  }

  /** The upstream terminates with an error; ignored once disposed. */
  function OnError(p: Processor, e: Error): (r: Processor)
    ensures r.disposed
    ensures p.disposed ==> r == p
    ensures !p.disposed ==> r.error == Some(e)
    ensures !p.done.Pending? ==> r.done == p.done
    ensures r.done != p.done ==> !p.disposed && p.buffer.None? && r.done == Failed(e)
    ensures !p.disposed && p.buffer.None? && p.done.Pending? ==> r.done == Failed(e)
    ensures p.buffer.Some? ==> r.buffer == p.buffer && r.released == p.released
    ensures r.requested == p.requested && r.requests == p.requests && r.start == p.start
  {
    if p.disposed then p
    else Finally(p.(disposed := true, error := Some(e)))
  }

  /** The upstream completes; ignored once disposed. */
  function OnComplete(p: Processor): (r: Processor)
    ensures r.disposed && r.error == p.error
    ensures p.disposed ==> r == p
    ensures !p.done.Pending? ==> r.done == p.done
    ensures r.done != p.done ==> !p.disposed && p.buffer.None? && r.done == Terminal(p)
    ensures Consistent(p) && !p.disposed && p.buffer.None? && p.done.Pending? ==> r.done == Completed
    ensures p.buffer.Some? ==> r.buffer == p.buffer && r.released == p.released
    ensures r.requested == p.requested && r.requests == p.requests && r.start == p.start
  {
    if p.disposed then p
    else Finally(p.(disposed := true))
  }

  /** `hookOnNext`: stores the buffer; a second buffer while one is held is
      disposed at once and the processor fails with an overflow. */
  function OnNext(p: Processor, v: Buffer): (r: Processor)
    ensures p.buffer.None? ==> r == p.(buffer := Some(v))
    ensures p.buffer.Some? ==> r.buffer == p.buffer && r.released == p.released + [v]
    ensures p.buffer.Some? ==> r.disposed && (!p.disposed ==> r.error == Some(Overflow))
    ensures p.buffer.Some? ==> r.done == p.done
    ensures r.requested == p.requested && r.requests == p.requests && r.start == p.start
  {
    if p.buffer.Some? then OnError(p.(released := p.released + [v]), Overflow)
    else p.(buffer := Some(v))
  }

  /** `cancel`: disposes the processor; the finally hook runs only when a live
      upstream subscription was actually cancelled. */
  function Cancel(p: Processor): (r: Processor)
    ensures r.disposed && r.error == p.error
    ensures p.disposed ==> r == p
    ensures !p.done.Pending? ==> r.done == p.done
    ensures r.done != p.done ==> !p.disposed && p.subscribed && p.buffer.None? && r.done == Terminal(p)
    ensures Consistent(p) && !p.disposed && p.subscribed && p.buffer.None? && p.done.Pending? ==>
      r.done == Completed
    ensures r.requested == p.requested && r.requests == p.requests
  {
    if p.disposed then p
    else if !p.subscribed then p.(disposed := true)
    else Finally(p.(disposed := true))
  }

  /** `onParentError`: the owning publication is going away. */
  function OnParentError(p: Processor, e: Error): (r: Processor)
    ensures r.buffer.None? && r.released == p.released + Held(p)
    ensures r.done == Fire(p.done, Failed(e))
    ensures r.disposed == p.disposed && r.error == p.error
  {
    var q := ResetBuffer(p);
    q.(done := Fire(q.done, Failed(e)))
  }

  /** Delivers one upstream signal. */
  function Receive(p: Processor, s: Signal): (r: Processor)
    ensures !p.done.Pending? ==> r.done == p.done
    ensures p.disposed || !s.Emit? ==> r.disposed
    ensures s.Emit? && p.buffer.None? ==> r == p.(buffer := Some(s.buffer))
    ensures p.buffer.Some? ==> r.buffer == p.buffer
    ensures !s.Emit? && p.buffer.None? ==> r.buffer.None?
    ensures s.Raise? && !p.disposed ==> r.error == Some(s.error)
    ensures s.Raise? && !p.disposed && p.buffer.None? && p.done.Pending? ==> r.done == Failed(s.error)
    ensures s.Finish? ==> r.error == p.error
    ensures p.disposed ==> r.error == p.error
    ensures r.requested == p.requested && r.requests == p.requests && r.start == p.start
  {
    match s
    case Emit(b) => OnNext(p, b)
    case Finish => OnComplete(p)
    case Raise(e) => OnError(p, e)
  }

  /** Delivers upstream signals in order. A held buffer stays held; with
      none held, the first buffer emitted is the one kept. */
  function ReceiveAll(p: Processor, ss: seq<Signal>): (r: Processor)
    ensures !p.done.Pending? ==> r.done == p.done
    ensures p.disposed ==> r.disposed
    ensures p.buffer.Some? ==> r.buffer == p.buffer
    ensures p.buffer.None? && ss != [] && ss[0].Emit? ==> r.buffer == Some(ss[0].buffer)
    ensures p.disposed ==> r.error == p.error
    ensures !p.disposed && ss != [] && ss[0].Raise? ==> r.error == Some(ss[0].error)
    ensures r.requested == p.requested && r.requests == p.requests && r.start == p.start
    decreases |ss|
  {
    if ss == [] then p else ReceiveAll(Receive(p, ss[0]), ss[1..])
  }

  /** After a run of upstream signals the processor holds a buffer exactly
      when it held one before or some signal emitted one: no signal drops a
      held buffer. */
  lemma {:induction false} ReceiveAllHoldsIffEmitted(p: Processor, ss: seq<Signal>)
    ensures ReceiveAll(p, ss).buffer.Some? <==> p.buffer.Some? || exists k :: 0 <= k < |ss| && ss[k].Emit?
    decreases |ss|
  {
    if ss != [] {
      ReceiveAllHoldsIffEmitted(Receive(p, ss[0]), ss[1..]);
      if ss[0].Emit? {
        assert Receive(p, ss[0]).buffer.Some?;
      }
      forall k | 1 <= k < |ss| && ss[k].Emit?
        ensures ss[1..][k - 1].Emit?
      {
      }
    }
  }

  /** The clock stamp taken by `publish(buffer)` before offering: only the
      first offer of a buffer records the time. */
  function Stamp(p: Processor, now: int): (r: Processor)
    ensures r == p.(start := r.start)
    ensures p.start != 0 ==> r.start == p.start
    ensures p.start == 0 ==> r.start == now
  {
    if p.start == 0 then p.(start := now) else p
  }

  /** `isTimeoutElapsed` on a processor whose current buffer was first
      offered at `start`: strictly more than `timeout` millis have passed by
      the clock reading `now`. */
  predicate TimeoutElapsed(start: int, now: int, timeout: int) {
    now - start > timeout
  }

  // ---------------------------------------------------------------------
  // Properties relating several steps

  /** Everything that can happen to a processor between two resets. */
  datatype Event = Ask | Deliver(signal: Signal) | Offer(now: int)

  function Step(p: Processor, e: Event): (q: Processor) {
    match e
    case Ask => Request(p)
    case Deliver(s) => Receive(p, s)
    case Offer(now) => Stamp(p, now)
  }

  function Run(p: Processor, es: seq<Event>): (q: Processor)
    decreases |es|
  {
    if es == [] then p else Run(Step(p, es[0]), es[1..])
  }

  /** One request in flight: however many requests, signals and offers occur
      before the next reset, at most one request(1) reaches the upstream, and a
      disposed processor issues none. */
  lemma {:induction false} AtMostOneRequestBetweenResets(p: Processor, es: seq<Event>)
    ensures Run(p, es).requests <= p.requests + 1
    ensures p.requested ==> Run(p, es).requests == p.requests
    ensures p.disposed ==> Run(p, es).requests == p.requests
    ensures Run(p, es).requests > p.requests ==> Run(p, es).requested
    ensures p.requested ==> Run(p, es).requested
    decreases |es|
  {
    if es != [] {
      var q := Step(p, es[0]);
      AtMostOneRequestBetweenResets(q, es[1..]);
      match es[0]
      case Ask => {
        assert q.requests > p.requests ==> q.requested;
      }
      case Deliver(s) => {
        assert q.requested == p.requested && q.requests == p.requests;
        if p.disposed {
          DisposedStaysDisposed(p, s);
        }
      }
      case Offer(now) => {}
    }
  }

  lemma DisposedStaysDisposed(p: Processor, s: Signal)
    requires p.disposed
    ensures Receive(p, s).disposed
  {
  }

  /** The first offer of a buffer fixes the clock; later offers of the same
      buffer leave it alone, provided the clock did not read zero. */
  lemma StartStampedOnce(p: Processor, t1: int, t2: int)
    requires p.start == 0 && t1 != 0
    ensures Stamp(p, t1).start == t1
    ensures Stamp(Stamp(p, t1), t2).start == t1
  {
  }

  /** A reset of a live processor rearms the clock for the next buffer. */
  lemma ResetRearmsClock(p: Processor, t: int)
    requires !p.disposed
    ensures Stamp(Reset(p), t).start == t
    ensures !Reset(p).requested
  {
  }

  /** A buffer dropped twice is disposed only once. */
  lemma ResetBufferIdempotent(p: Processor)
    ensures ResetBuffer(ResetBuffer(p)) == ResetBuffer(p)
    ensures |ResetBuffer(p).released| <= |p.released| + 1
  {
  }

  /** The done signal, once fired, never changes again, whatever the
      upstream does. */
  lemma {:induction false} DoneIsWriteOnce(p: Processor, es: seq<Event>)
    requires !p.done.Pending?
    ensures Run(p, es).done == p.done
    decreases |es|
  {
    if es != [] {
      DoneIsWriteOnce(Step(p, es[0]), es[1..]);
    }
  }

  /** Every step keeps an upstream error paired with disposal. */
  lemma {:induction false} RunKeepsConsistent(p: Processor, es: seq<Event>)
    requires Consistent(p)
    ensures Consistent(Run(p, es))
    decreases |es|
  {
    if es != [] {
      var q := Step(p, es[0]);
      match es[0] {
        case Ask =>
        case Offer(now) =>
        case Deliver(s) =>
          match s {
            case Emit(b) =>
            case Finish =>
            case Raise(e) =>
          }
      }
      RunKeepsConsistent(q, es[1..]);
    }
  }
}
