/**
  `MessagePublication`: many sends multiplexed over one outbound publication.
  A pass of `publish()` walks a fixed working set of 256 slots, backfills empty
  slots from a FIFO queue of waiting sends, shifts live sends left into
  vacancies, asks each send for at most one buffer, offers it, and sorts the
  offer's result into success, retry or failure. The first failure ends the
  pass and asks the event loop to dispose the whole publication.

  The pass is modelled as the function `Scan` over a `Cursor` holding the
  loop's locals, one `Visit` per loop iteration. The transport, the upstream
  publishers and the clock are an `Env` of oracles.
 */
module MessagePublication {
  import opened Wrappers
  import opened Failures
  import opened PublisherProcessor

  /** The length of the working-set array. */
  const Capacity: nat := 256

  /** The negative results of an Aeron `Publication.offer`. */
  const NotConnectedCode: int := -1
  const BackPressuredCode: int := -2
  const AdminActionCode: int := -3
  const ClosedCode: int := -4
  const MaxPositionExceededCode: int := -5

  /** The retry interval of `ensureConnected`, in millis. */
  const RetryIntervalMillis: int := 100

  /** The three timeouts, in millis. */
  datatype Config = Config(connectTimeout: int, backpressureTimeout: int, adminActionTimeout: int)

  /** What one offer returned: a position or code, or an exception raised
      while mapping the buffer or offering it. */
  datatype Reply = Position(value: int) | Threw(error: Error)

  /** How the pass treats an offer. */
  datatype Verdict = Sent | Retry | Fail(error: Error)

  // ---------------------------------------------------------------------
  // Offer-outcome policy

  /** Codes that fail the publication at once. */
  predicate Fatal(r: int) {
    r == ClosedCode || r == MaxPositionExceededCode
  }

  /** Codes that are retried until their own timeout has elapsed. */
  predicate Transient(r: int) {
    r == NotConnectedCode || r == BackPressuredCode || r == AdminActionCode
  }

  function TimeoutFor(r: int, cfg: Config): (t: int)
    requires Transient(r)
  {
    if r == NotConnectedCode then cfg.connectTimeout
    else if r == BackPressuredCode then cfg.backpressureTimeout
    else cfg.adminActionTimeout
  }

  function ErrorFor(r: int): (err: Error)
    requires Fatal(r) || Transient(r)
  {
    if r == ClosedCode then PublicationClosed
    else if r == MaxPositionExceededCode then MaxPositionExceeded
    else if r == NotConnectedCode then NotConnectedTimeout
    else if r == BackPressuredCode then BackPressuredTimeout
    else AdminActionTimeout
  }

  /** What the pass makes of an offer that returned `r`, for a send whose
      current buffer was first offered at `start`, with the clock reading
      `now` taken by `isTimeoutElapsed`. The contract spells out the code's
      chain of checks one code at a time. */
  function Classify(r: int, now: int, start: int, cfg: Config): (v: Verdict)
    ensures v.Sent? <==> r > 0
    ensures v.Fail? <==> Fatal(r) || (Transient(r) && now - start > TimeoutFor(r, cfg))
    ensures r == ClosedCode ==> v == Fail(PublicationClosed)
    ensures r == MaxPositionExceededCode ==> v == Fail(MaxPositionExceeded)
    ensures r == NotConnectedCode ==>
      v == (if now - start > cfg.connectTimeout then Fail(NotConnectedTimeout) else Retry)
    ensures r == BackPressuredCode ==>
      v == (if now - start > cfg.backpressureTimeout then Fail(BackPressuredTimeout) else Retry)
    ensures r == AdminActionCode ==>
      v == (if now - start > cfg.adminActionTimeout then Fail(AdminActionTimeout) else Retry)
    ensures r <= 0 && !Fatal(r) && !Transient(r) ==> v == Retry
  {
    if r > 0 then Sent
    else if Fatal(r) || (Transient(r) && TimeoutElapsed(start, now, TimeoutFor(r, cfg))) then Fail(ErrorFor(r))
    else Retry
  }

  /** The first offer of a buffer stamps the clock, and the check after a
      transient reply reads it again: the first offer fails exactly when more
      than the code's timeout passed between the two readings. */
  lemma FirstOfferFailsOnlyWhenSlow(p: Processor, r: int, offeredAt: int, checkedAt: int, cfg: Config)
    requires p.start == 0 && Transient(r)
    ensures Classify(r, checkedAt, Stamp(p, offeredAt).start, cfg).Fail? <==>
      checkedAt - offeredAt > TimeoutFor(r, cfg)
    ensures checkedAt - offeredAt <= TimeoutFor(r, cfg) ==>
      Classify(r, checkedAt, Stamp(p, offeredAt).start, cfg) == Retry
  {
  }

  /** A transient code that keeps coming back fails exactly once the clock
      is past its timeout, and from then on at every later offer. */
  lemma TransientFailsOnceElapsed(r: int, now: int, later: int, start: int, cfg: Config)
    requires Transient(r) && now <= later
    ensures Classify(r, now, start, cfg).Fail? ==> Classify(r, later, start, cfg).Fail?
    ensures now - start <= TimeoutFor(r, cfg) ==> Classify(r, now, start, cfg) == Retry
  {
  }

  // ---------------------------------------------------------------------
  // The pass

  /** The outside world seen by one pass, indexed by the slot `i` being
      visited: the clock reading `publish(buffer)` takes before offering, the
      clock reading `isTimeoutElapsed` takes after a transient reply, the
      timeouts, what the upstream delivers in answer to a request, and what
      the publication answers to the offer. */
  datatype Env = Env(
    offeredAt: nat -> int,
    checkedAt: nat -> int,
    cfg: Config,
    respond: nat -> seq<Signal>,
    offer: nat -> Reply)

  /** One offer made by the pass: the slot the send is kept at, the millis of
      the first offer of its buffer, the clock reading of the timeout check,
      the reply and the verdict. */
  datatype Attempt = Attempt(slot: nat, start: int, checkedAt: int, reply: Reply, verdict: Verdict)

  /** A thrown exception fails the offer; a position or code is classified. */
  function Judge(reply: Reply, start: int, now: int, cfg: Config): (v: Verdict)
    ensures reply.Threw? ==> v == Fail(reply.error)
    ensures reply.Position? ==> v == Classify(reply.value, now, start, cfg)
  {
    match reply
    case Threw(e) => Fail(e)
    case Position(r) => Classify(r, now, start, cfg)
  }

  predicate Judged(a: Attempt, env: Env) {
    a.verdict == Judge(a.reply, a.start, a.checkedAt, env.cfg)
  }

  predicate Positive(a: Attempt) {
    a.reply.Position? && a.reply.value > 0
  }

  /** The number of offers in `t` that returned a positive position. */
  function Successes(t: seq<Attempt>): nat
  {
    if t == [] then 0 else Successes(t[..|t| - 1]) + (if Positive(t[|t| - 1]) then 1 else 0)
  }

  lemma SuccessesSnoc(t: seq<Attempt>, a: Attempt)
    ensures Successes(t + [a]) == Successes(t) + (if Positive(a) then 1 else 0)
  {
    assert (t + [a])[..|t|] == t;
  }

  predicate NoFailure(t: seq<Attempt>) {
    forall k :: 0 <= k < |t| ==> !t[k].verdict.Fail?
  }

  /** The locals of one `publish()` pass. */
  datatype Cursor = Cursor(
    slots: seq<Option<Processor>>,  // the working-set array
    size: int,                      // the `size` field
    queue: seq<Processor>,          // the waiting sends at the start of the pass, head first
    polled: nat,                    // how many of them the pass has taken
    availableToAddNew: bool,
    lastAvailableIndex: int,
    result: nat,                    // the progress count returned
    trace: seq<Attempt>,            // the offers made so far
    ex: Option<Error>,              // the error that ends the pass
    retired: seq<Processor>)        // sends dropped from the working set

  /** What one iteration may do to the offers, the count, the error and the
      retired sends: at most one offer, judged by the policy, counted when it
      returned a positive position, recorded as the pass's error when it
      failed; a send leaves the working set only with its done signal fired. */
  ghost predicate Advance(c: Cursor, d: Cursor, env: Env) {
    && |c.retired| <= |d.retired| && d.retired[..|c.retired|] == c.retired
    && (forall k :: |c.retired| <= k < |d.retired| ==> !d.retired[k].done.Pending?)
    && if d.trace == c.trace then d.result == c.result && d.ex == c.ex
       else
         && |d.trace| == |c.trace| + 1 && d.trace[..|c.trace|] == c.trace
         && Judged(d.trace[|c.trace|], env)
         && d.result == c.result + (if Positive(d.trace[|c.trace|]) then 1 else 0)
         && d.ex == (if d.trace[|c.trace|].verdict.Fail? then Some(d.trace[|c.trace|].verdict.error) else c.ex)
  }


  /** The offers made so far are judged by the policy, counted when positive,
      and the pass's error is the verdict of the last offer and of no other. */
  ghost predicate Accounted(c: Cursor, env: Env) {
    && c.result == Successes(c.trace)
    && (forall k :: 0 <= k < |c.trace| ==> Judged(c.trace[k], env))
    && (c.ex.None? ==> NoFailure(c.trace))
    && (c.ex.Some? ==>
          && |c.trace| > 0
          && c.trace[|c.trace| - 1].verdict == Fail(c.ex.value)
          && NoFailure(c.trace[..|c.trace| - 1]))
  }

  lemma AdvanceKeepsAccounted(c: Cursor, d: Cursor, env: Env)
    requires Accounted(c, env) && c.ex.None? && Advance(c, d, env)
    ensures Accounted(d, env)
  {
    if d.trace != c.trace {
      var a := d.trace[|c.trace|];
      assert d.trace == c.trace + [a];
      SuccessesSnoc(c.trace, a);
      assert d.trace[..|d.trace| - 1] == c.trace;
    }
  }

  /** Which version of the pass runs. `AsWritten` follows the code. `Corrected`
      admits every waiting send that fits, keeps the FIRST vacancy met after
      the queue ran dry as the target of later shifts, and retires a send that
      has finished without holding a buffer. */
  datatype Variant = AsWritten | Corrected

  /** What serving one send yields: the send to keep in its slot, if any,
      the offer made, if any, and the sends that leave the working set. */
  datatype Outcome = Outcome(keep: Option<Processor>, attempt: Option<Attempt>, retire: seq<Processor>)

  /** `processor.request()` at slot `i`: a request(1) goes out exactly when
      none is outstanding, the send is live and its subscription has
      arrived, and the upstream's answer is delivered at once. */
  function Asked(p: Processor, i: nat, env: Env): (q: Processor)
    ensures q.requests == p.requests + 1 <==> !p.requested && !p.disposed && p.subscribed
    ensures q.requests <= p.requests + 1
    ensures p.requested || p.disposed || !p.subscribed ==> q == p
    ensures p.disposed ==> q.disposed
    ensures p.buffer.Some? ==> q.buffer == p.buffer
    ensures (!p.requested && !p.disposed && p.subscribed && p.buffer.None? &&
             env.respond(i) != [] && env.respond(i)[0].Emit?) ==>
            q.buffer == Some(env.respond(i)[0].buffer)
  {
    var asked := Request(p);
    if asked.requests > p.requests then ReceiveAll(asked, env.respond(i)) else asked
  }

  /** After `request()` a send holds a buffer exactly when it held one
      already, or the request went out and the upstream's answer emitted one. */
  lemma AskedHoldsIffEmitted(p: Processor, i: nat, env: Env)
    ensures Asked(p, i, env).buffer.Some? <==>
            (p.buffer.Some? ||
             (!p.requested && !p.disposed && p.subscribed &&
              exists k :: 0 <= k < |env.respond(i)| && env.respond(i)[k].Emit?))
  {
    ReceiveAllHoldsIffEmitted(Request(p), env.respond(i));
  }

  /** Serving the send `p` found at slot `i`, to be kept at slot `index`:
      request a buffer, then offer the held buffer if there is one. After a
      successful offer the send is reset, and leaves the working set if it
      has finished. */
  function Tend(p: Processor, i: nat, index: nat, env: Env, mode: Variant): (o: Outcome)
    ensures o.keep.None? <==> |o.retire| == 1
    ensures o.keep.Some? ==> o.retire == []
    ensures forall k :: 0 <= k < |o.retire| ==> !o.retire[k].done.Pending?
    ensures o.attempt.Some? ==> Judged(o.attempt.value, env)
    ensures o.attempt.Some? && o.attempt.value.verdict.Sent? ==> Positive(o.attempt.value)
    ensures o.attempt.Some? && Positive(o.attempt.value) ==> o.attempt.value.verdict.Sent?
    ensures mode.AsWritten? && o.attempt.None? ==> o.retire == []
    // a held buffer is offered, and only then
    ensures o.attempt.Some? <==> Asked(p, i, env).buffer.Some?
    ensures var q := Asked(p, i, env); var q2 := Stamp(q, env.offeredAt(i));
      q.buffer.Some? ==>
        && o.attempt.value == Attempt(index, q2.start, env.checkedAt(i), env.offer(i),
                                      Judge(env.offer(i), q2.start, env.checkedAt(i), env.cfg))
        && (o.attempt.value.verdict.Sent? && !q.disposed ==> o.keep == Some(Reset(q2)))
        && (o.attempt.value.verdict.Sent? && q.disposed ==> o.retire == [Reset(q2)])
        && (!o.attempt.value.verdict.Sent? ==> o.keep == Some(q2))
    // a send with nothing to offer stays, except a finished one under the correction
    ensures var q := Asked(p, i, env);
      q.buffer.None? && (mode.AsWritten? || !q.disposed || q.done.Pending?) ==> o.keep == Some(q)
  {
    var q := Asked(p, i, env);
    if q.buffer.None? then
      if mode.Corrected? && q.disposed && !q.done.Pending? then Outcome(None, None, [q])
      else Outcome(Some(q), None, [])
    else
      var q2 := Stamp(q, env.offeredAt(i));
      var reply := env.offer(i);
      var a := Attempt(index, q2.start, env.checkedAt(i), reply, Judge(reply, q2.start, env.checkedAt(i), env.cfg));
      if a.verdict.Sent? then
        var q3 := Reset(q2);
        if q3.disposed then Outcome(None, Some(a), [q3]) else Outcome(Some(q3), Some(a), [])
      else Outcome(Some(q2), Some(a), [])
  }

  /** The body of the loop for an occupied slot `i` (after any backfill):
      shift the send left into `lastAvailableIndex` when a vacancy was
      recorded there, then serve it. */
  function Serve(c: Cursor, i: nat, env: Env, mode: Variant): (d: Cursor)
    requires i < |c.slots| && c.slots[i].Some?
    requires c.polled <= |c.queue|
    requires -1 <= c.lastAvailableIndex < i
    ensures |d.slots| == |c.slots|
    ensures d.queue == c.queue && d.polled == c.polled
    ensures d.size == c.size && d.availableToAddNew == c.availableToAddNew
    ensures c.lastAvailableIndex > -1 ==>
      && d.lastAvailableIndex == c.lastAvailableIndex + 1
      && d.slots[i].None?
      && forall k :: 0 <= k < |c.slots| && k != i && k != c.lastAvailableIndex ==> d.slots[k] == c.slots[k]
    ensures c.lastAvailableIndex == -1 ==>
      && d.lastAvailableIndex == -1
      && forall k :: 0 <= k < |c.slots| && k != i ==> d.slots[k] == c.slots[k]
    ensures var index := if c.lastAvailableIndex > -1 then c.lastAvailableIndex else i;
      |d.retired| == |c.retired| + (if d.slots[index].None? then 1 else 0)
    ensures mode.AsWritten? && d.trace == c.trace ==> d.retired == c.retired
    ensures |d.trace| > |c.trace| ==> d.trace[|c.trace|].slot <= i
    ensures Advance(c, d, env)
  {
    var shift := c.lastAvailableIndex > -1;
    var index := if shift then c.lastAvailableIndex else i;
    var slots := if shift then c.slots[index := c.slots[i]][i := None] else c.slots;
    var o := Tend(c.slots[i].value, i, index, env, mode);
    assert (c.retired + o.retire)[..|c.retired|] == c.retired;
    c.(lastAvailableIndex := if shift then index + 1 else c.lastAvailableIndex,
       slots := slots[index := o.keep],
       retired := c.retired + o.retire,
       trace := c.trace + (if o.attempt.Some? then [o.attempt.value] else []),
       result := c.result + (if o.attempt.Some? && o.attempt.value.verdict.Sent? then 1 else 0),
       ex := if o.attempt.Some? && o.attempt.value.verdict.Fail? then Some(o.attempt.value.verdict.error) else c.ex)
  }

  /** One iteration of the loop, at slot `i`. */
  function Visit(c: Cursor, i: nat, env: Env, mode: Variant): (d: Cursor)
    requires i < |c.slots| && c.polled <= |c.queue|
    requires -1 <= c.lastAvailableIndex < i
    ensures |d.slots| == |c.slots|
    ensures -1 <= d.lastAvailableIndex <= i
    ensures c.size - 1 <= d.size <= c.size
    ensures d.queue == c.queue && c.polled <= d.polled <= |d.queue|
    ensures c.slots[i].Some? ==> d.polled == c.polled && d.size == c.size
    ensures d.polled <= c.polled + 1
    ensures forall k :: i < k < |c.slots| ==> d.slots[k] == c.slots[k]
    ensures |d.trace| > |c.trace| ==> d.trace[|c.trace|].slot <= i
    ensures Advance(c, d, env)
  {
    if c.slots[i].Some? then Serve(c, i, env, mode)
    else if c.availableToAddNew && c.polled < |c.queue| then
      // size is decremented for the vacancy and incremented for the backfill
      Serve(c.(slots := c.slots[i := Some(c.queue[c.polled])], polled := c.polled + 1), i, env, mode)
    else if c.availableToAddNew then
      c.(size := c.size - 1, availableToAddNew := false, lastAvailableIndex := i)
    else
      c.(size := c.size - 1,
         lastAvailableIndex :=
           if mode.Corrected? && c.lastAvailableIndex > -1 then c.lastAvailableIndex else i)
  }

  /** The loop from slot `i` up to `bound`, stopping at the first error. */
  function Scan(c: Cursor, i: nat, bound: nat, env: Env, mode: Variant): (d: Cursor)
    requires i <= bound <= |c.slots| && c.polled <= |c.queue|
    requires -1 <= c.lastAvailableIndex < i || (i == 0 && c.lastAvailableIndex == -1)
    ensures |d.slots| == |c.slots|
    ensures d.queue == c.queue && c.polled <= d.polled <= |d.queue|
    decreases bound - i
  {
    if i == bound || c.ex.Some? then c
    else Scan(Visit(c, i, env, mode), i + 1, bound, env, mode)
  }

  // ---------------------------------------------------------------------
  // The publication

  datatype Publication = Publication(
    slots: seq<Option<Processor>>,  // `wipProcessors`
    size: int,
    pending: seq<Processor>,        // `pendingProcessors`, head first
    lastError: Option<Error>,
    disposeRequested: bool,         // `dispose()` asked the event loop to dispose it
    closed: bool,                   // the underlying publication was closed
    done: Done,                     // the publication's own done signal
    retired: seq<Processor>)        // sends that left the working set

  predicate Wf(st: Publication) {
    |st.slots| == Capacity && 0 <= st.size <= Capacity
  }

  function Init(): (st: Publication)
    ensures Wf(st) && Idle(st)
    ensures forall k :: 0 <= k < Capacity ==> st.slots[k].None?
    ensures st.lastError.None? && !st.disposeRequested && !st.closed && st.done.Pending? && st.retired == []
  {
    Publication(seq(Capacity, _ => None), 0, [], None, false, false, Pending, [])
  }

  /** `publish(publisher, bufferHandler)`, once its handle is subscribed: the
      new send joins the tail of the queue. */
  function Enqueue(st: Publication, p: Processor): (r: Publication)
    ensures r.pending == st.pending + [p]
    ensures r == st.(pending := r.pending)
  {
    st.(pending := st.pending + [p])
  }

  predicate Idle(st: Publication) {
    st.size == 0 && st.pending == []
  }

  function Start(slots: seq<Option<Processor>>, size: int, queue: seq<Processor>, polled: nat): (c: Cursor) {
    Cursor(slots, size, queue, polled, true, -1, 0, [], None, [])
  }

  /** Fills free slots from index `size` on while sends wait (corrected
      rule); `polled` of the queue are already taken. */
  function Admit(slots: seq<Option<Processor>>, size: nat, queue: seq<Processor>, polled: nat)
    : (r: (seq<Option<Processor>>, nat, nat))
    requires size <= |slots| && polled <= |queue|
    ensures |r.0| == |slots| && size <= r.1 <= |slots|
    ensures polled <= r.2 <= |queue| && r.1 - size == r.2 - polled
    ensures r.2 < |queue| ==> r.1 == |slots|
    ensures forall k :: 0 <= k < size ==> r.0[k] == slots[k]
    ensures forall k :: size <= k < r.1 ==> r.0[k] == Some(queue[polled + k - size])
    ensures forall k :: r.1 <= k < |slots| ==> r.0[k] == slots[k]
    decreases |queue| - polled
  {
    if size < |slots| && polled < |queue| then
      Admit(slots[size := Some(queue[polled])], size + 1, queue, polled + 1)
    else (slots, size, polled)
  }

  /** The working set the loop starts from, and how many waiting sends it
      took. As written, the queue is polled up front only when the working
      set is empty, and then only once. */
  function Admission(st: Publication, mode: Variant): (r: (seq<Option<Processor>>, nat, nat))
    requires Wf(st) && !Idle(st)
    ensures |r.0| == Capacity && 0 < r.1 <= Capacity && r.2 <= |st.pending|
    ensures mode.AsWritten? && st.size == 0 ==>
      && r.1 == 1 && r.2 == 1 && r.0[0] == Some(st.pending[0])
      && forall k :: 1 <= k < Capacity ==> r.0[k] == st.slots[k]
    ensures mode.AsWritten? && st.size != 0 ==> r.0 == st.slots && r.1 == st.size && r.2 == 0
  {
    match mode
    case AsWritten =>
      if st.size == 0 then (st.slots[0 := Some(st.pending[0])], 1, 1)
      else (st.slots, st.size, 0)
    case Corrected => Admit(st.slots, st.size, st.pending, 0)
  }

  /** The loop's locals at the end of a pass over a non-idle publication. */
  function Pass(st: Publication, env: Env, mode: Variant): (c: Cursor)
    requires Wf(st) && !Idle(st)
    ensures c.queue == st.pending && c.polled <= |c.queue| && |c.slots| == Capacity
  {
    var a := Admission(st, mode);
    Scan(Start(a.0, a.1, st.pending, a.2), 0, a.1, env, mode)
  }

  /** Writes the pass back: the working set, and on an error `lastError` and
      a disposal request for the whole publication. */
  function WriteBack(st: Publication, c: Cursor): (r: Publication)
    requires c.polled <= |c.queue|
    ensures r.slots == c.slots && r.size == c.size
    ensures |r.pending| + c.polled == |c.queue| && r.pending == c.queue[|c.queue| - |r.pending|..]
    ensures c.ex.Some? ==> r.lastError == c.ex && r.disposeRequested
    ensures c.ex.None? ==> r.lastError == st.lastError && r.disposeRequested == st.disposeRequested
    ensures r.done == st.done && r.closed == st.closed
  {
    st.(slots := c.slots, size := c.size, pending := c.queue[c.polled..],
        retired := st.retired + c.retired,
        lastError := if c.ex.Some? then c.ex else st.lastError,
        disposeRequested := st.disposeRequested || c.ex.Some?)
  }

  /** `publish()`: one scheduling pass, returning the publication after it
      and the progress count. */
  function Publish(st: Publication, env: Env): (r: (Publication, nat))
    requires Wf(st)
    ensures Idle(st) ==> r == (st, 0)
    ensures r.0.done == st.done && r.0.closed == st.closed
  {
    if Idle(st) then (st, 0)
    else
      var c := Pass(st, env, AsWritten);
      (WriteBack(st, c), c.result)
  }

  /** The pass with admission of every waiting send that fits and with the
      compaction rule corrected. */
  function PublishCorrected(st: Publication, env: Env): (r: (Publication, nat))
    requires Wf(st)
    ensures Idle(st) ==> r == (st, 0)
    ensures r.0.done == st.done && r.0.closed == st.closed
  {
    if Idle(st) then (st, 0)
    else
      var c := Pass(st, env, Corrected);
      (WriteBack(st, c), c.result)
  }

  /** The number of slots a pass visits at most: `size`, or the one slot
      filled up front when the working set was empty. */
  function Bound(st: Publication): (n: nat)
    requires Wf(st)
    ensures 1 <= n <= Capacity
  {
    if st.size == 0 then 1 else st.size
  }

  /** What the loop of `PublishLoop` keeps at slot `i`, having started from
      the admission `a`: the offers so far are accounted for, at most one per
      visited slot and kept below `i`; the queue is polled once up front on an
      empty working set and at most once per visited slot otherwise; the
      slots from `i` on are as admitted. */
  ghost predicate Looping(st: Publication, a: (seq<Option<Processor>>, nat, nat), c: Cursor, i: nat, env: Env)
    requires Wf(st)
  {
    && 0 <= i <= a.1 == Bound(st)
    && |a.0| == Capacity && (st.size == 0 ==> a.0[0].Some?)
    && |c.slots| == Capacity && c.polled <= |c.queue| && c.queue == st.pending
    && (-1 <= c.lastAvailableIndex < i || (i == 0 && c.lastAvailableIndex == -1))
    && Accounted(c, env)
    && |c.trace| <= i && (forall k :: 0 <= k < |c.trace| ==> c.trace[k].slot < i)
    && (if st.size == 0 then c.polled == 1 else c.polled <= i)
    && (i == 0 ==> c.slots == a.0)
    && (forall k :: i <= k < Capacity ==> c.slots[k] == a.0[k])
  }

  /** The loop's bookkeeping holds at slot `i`, and the rest of the loop
      computes the pass. */
  ghost predicate OnTrack(st: Publication, a: (seq<Option<Processor>>, nat, nat), c: Cursor, i: nat, env: Env)
    requires Wf(st)
  {
    Looping(st, a, c, i, env) && Scan(c, i, a.1, env, AsWritten) == Pass(st, env, AsWritten)
  }

  lemma LoopStep(st: Publication, a: (seq<Option<Processor>>, nat, nat), c: Cursor, i: nat, env: Env)
    requires Wf(st) && Looping(st, a, c, i, env) && i < a.1 && c.ex.None?
    ensures Looping(st, a, Visit(c, i, env, AsWritten), i + 1, env)
    ensures Scan(c, i, a.1, env, AsWritten) == Scan(Visit(c, i, env, AsWritten), i + 1, a.1, env, AsWritten)
  {
    var v := Visit(c, i, env, AsWritten);
    AdvanceKeepsAccounted(c, v, env);
    if v.trace != c.trace {
      assert v.trace == c.trace + [v.trace[|c.trace|]];
    }
  }

  /** What a finished loop reports about its offers. */
  lemma LoopReportsOffers(st: Publication, a: (seq<Option<Processor>>, nat, nat), c: Cursor, i: nat, env: Env)
    requires Wf(st) && Looping(st, a, c, i, env)
    ensures var r := WriteBack(st, c); var offers := c.trace;
      && c.result == Successes(offers) && |offers| <= Bound(st)
      && (forall k :: 0 <= k < |offers| ==> Judged(offers[k], env) && offers[k].slot < Bound(st))
      && (forall k :: 0 <= k < |offers| - 1 ==> !offers[k].verdict.Fail?)
      && (offers != [] && offers[|offers| - 1].verdict.Fail? ==>
            r.lastError == Some(offers[|offers| - 1].verdict.error) && r.disposeRequested)
      && (offers == [] || !offers[|offers| - 1].verdict.Fail? ==>
            r.lastError == st.lastError && r.disposeRequested == st.disposeRequested)
  {
    if c.ex.None? {
      assert NoFailure(c.trace);
    }
  }

  /** What a finished loop did to the queue and to the slots it never visited. */
  lemma LoopReportsQueue(st: Publication, a: (seq<Option<Processor>>, nat, nat), c: Cursor, i: nat, env: Env)
    requires Wf(st) && !Idle(st) && a == Admission(st, AsWritten) && Looping(st, a, c, i, env)
    ensures var r := WriteBack(st, c);
      && |r.pending| <= |st.pending| && r.pending == st.pending[|st.pending| - |r.pending|..]
      && |st.pending| - |r.pending| <= Bound(st)
      && (forall k :: Bound(st) <= k < Capacity ==> r.slots[k] == st.slots[k])
  {
    forall k | Bound(st) <= k < Capacity
      ensures c.slots[k] == st.slots[k]
    {
      assert c.slots[k] == a.0[k];
    }
  }

  lemma LoopStarts(st: Publication, a: (seq<Option<Processor>>, nat, nat), env: Env)
    requires Wf(st) && !Idle(st) && a == Admission(st, AsWritten)
    ensures OnTrack(st, a, Start(a.0, a.1, st.pending, a.2), 0, env)
  {
  }

  /** A loop that ran out of slots or met an error has computed `publish()`. */
  lemma LoopEnds(st: Publication, a: (seq<Option<Processor>>, nat, nat), c: Cursor, i: nat, env: Env)
    requires Wf(st) && !Idle(st) && a == Admission(st, AsWritten) && OnTrack(st, a, c, i, env)
    requires !(i < a.1 && c.ex.None?)
    ensures (WriteBack(st, c), c.result) == Publish(st, env)
    ensures var r := WriteBack(st, c); var offers := c.trace;
      && c.result == Successes(offers) && |offers| <= Bound(st)
      && (forall k :: 0 <= k < |offers| ==> Judged(offers[k], env) && offers[k].slot < Bound(st))
      && (forall k :: 0 <= k < |offers| - 1 ==> !offers[k].verdict.Fail?)
      && (offers != [] && offers[|offers| - 1].verdict.Fail? ==>
            r.lastError == Some(offers[|offers| - 1].verdict.error) && r.disposeRequested)
      && (offers == [] || !offers[|offers| - 1].verdict.Fail? ==>
            r.lastError == st.lastError && r.disposeRequested == st.disposeRequested)
      && |r.pending| <= |st.pending| && r.pending == st.pending[|st.pending| - |r.pending|..]
      && |st.pending| - |r.pending| <= Bound(st)
      && (forall k :: Bound(st) <= k < Capacity ==> r.slots[k] == st.slots[k])
  {
    LoopReportsOffers(st, a, c, i, env);
    LoopReportsQueue(st, a, c, i, env);
  }

  /** The `for` loop of `publish()`: visits the slots from 0 until the
      bound or the first error. */
  method Slots(st: Publication, a: (seq<Option<Processor>>, nat, nat), env: Env) returns (c: Cursor, i: nat)
    requires Wf(st) && !Idle(st) && a == Admission(st, AsWritten)
    ensures OnTrack(st, a, c, i, env) && !(i < a.1 && c.ex.None?)
  {
    c := Start(a.0, a.1, st.pending, a.2);
    i := 0;
    LoopStarts(st, a, env);
    while i < a.1 && c.ex.None?
      invariant OnTrack(st, a, c, i, env)
      decreases a.1 - i
    {
      c := VisitSlot(st, a, c, i, env);
      i := i + 1;
    }
  }

  /** One iteration of the `for` loop: slot `i` is visited, the loop's
      bookkeeping moves on to slot `i + 1`, and the rest of the loop computes
      what it would have computed from slot `i`. */
  method VisitSlot(st: Publication, a: (seq<Option<Processor>>, nat, nat), c: Cursor, i: nat, env: Env)
    returns (d: Cursor)
    requires Wf(st) && OnTrack(st, a, c, i, env) && i < a.1 && c.ex.None?
    ensures OnTrack(st, a, d, i + 1, env)
  {
    LoopStep(st, a, c, i, env);
    d := Visit(c, i, env, AsWritten);
  }

  /** What one `publish()` pass reports, given the offers it made: at
      most one offer per visited slot, and the count is the number of offers
      that returned a positive position. An offer fails only as the last
      one, and then its error becomes `lastError` and disposal is requested.
      Waiting sends are taken from the head of the queue, at most one per
      visited slot, and no slot beyond the visited ones changes. */
  predicate LoopReport(st: Publication, env: Env, r: Publication, progress: nat, offers: seq<Attempt>)
    requires Wf(st)
  {
    && |r.slots| == Capacity
    && (Idle(st) ==> r == st && progress == 0 && offers == [])
    && progress == Successes(offers) && |offers| <= Bound(st)
    && (forall k :: 0 <= k < |offers| ==> Judged(offers[k], env) && offers[k].slot < Bound(st))
    && (forall k :: 0 <= k < |offers| - 1 ==> !offers[k].verdict.Fail?)
    && (offers != [] && offers[|offers| - 1].verdict.Fail? ==>
          r.lastError == Some(offers[|offers| - 1].verdict.error) && r.disposeRequested)
    && (offers == [] || !offers[|offers| - 1].verdict.Fail? ==>
          r.lastError == st.lastError && r.disposeRequested == st.disposeRequested)
    && |r.pending| <= |st.pending| && r.pending == st.pending[|st.pending| - |r.pending|..]
    && |st.pending| - |r.pending| <= Bound(st)
    && (forall k :: Bound(st) <= k < Capacity ==> r.slots[k] == st.slots[k])
    && r.done == st.done && r.closed == st.closed
  }

  /** `publish()` as the loop it is, slot by slot. Besides the publication
      and the progress count it returns the offers it made. */
  method PublishLoop(st: Publication, env: Env) returns (r: Publication, progress: nat, offers: seq<Attempt>)
    requires Wf(st)
    ensures LoopReport(st, env, r, progress, offers)
    ensures (r, progress) == Publish(st, env)
  {
    if Idle(st) {
      return st, 0, [];
    }
    var a := Admission(st, AsWritten);
    var c, i := Slots(st, a, env);
    LoopEnds(st, a, c, i, env);
    r := WriteBack(st, c);
    progress := c.result;
    offers := c.trace;
  }

  // ---------------------------------------------------------------------
  // Disposal

  function ErrorOrCancel(e: Option<Error>): (err: Error) {
    if e.Some? then e.value else Cancelled
  }

  /** What `disposeProcessors` does to one send: cancel, then fail. The
      send ends disposed, holding nothing, its held buffer released once and
      its done signal fired; a signal fired before keeps its value. */
  function Dismiss(p: Processor, err: Error): (r: Processor)
    ensures r.disposed && r.buffer.None? && !r.done.Pending?
    ensures r.released == p.released + Held(p)
    ensures !p.done.Pending? ==> r.done == p.done
  {
    OnParentError(Cancel(p), err)
  }

  /** The sends of the working set, dismissed in slot order. */
  function DismissAll(slots: seq<Option<Processor>>, err: Error): (r: seq<Processor>)
    ensures |r| <= |slots|
    ensures forall k :: 0 <= k < |r| ==> !r[k].done.Pending? && r[k].buffer.None?
    decreases |slots|
  {
    if slots == [] then []
    else (if slots[0].Some? then [Dismiss(slots[0].value, err)] else []) + DismissAll(slots[1..], err)
  }

  /** No send of the working set is forgotten by the disposal, and nothing
      else is dismissed: the dismissed sends are exactly the occupied slots'
      sends, each dismissed with the same error. */
  lemma {:induction false} DismissAllCoversSlots(slots: seq<Option<Processor>>, err: Error)
    ensures forall k :: 0 <= k < |slots| && slots[k].Some? ==>
      Dismiss(slots[k].value, err) in DismissAll(slots, err)
    ensures forall r :: r in DismissAll(slots, err) ==>
      exists k :: 0 <= k < |slots| && slots[k].Some? && r == Dismiss(slots[k].value, err)
    decreases |slots|
  {
    if slots != [] {
      DismissAllCoversSlots(slots[1..], err);
      var head := if slots[0].Some? then [Dismiss(slots[0].value, err)] else [];
      assert DismissAll(slots, err) == head + DismissAll(slots[1..], err);
      forall k | 0 <= k < |slots| && slots[k].Some?
        ensures Dismiss(slots[k].value, err) in DismissAll(slots, err)
      {
        if k > 0 {
          assert slots[1..][k - 1] == slots[k];
        }
      }
      forall r | r in DismissAll(slots, err)
        ensures exists k :: 0 <= k < |slots| && slots[k].Some? && r == Dismiss(slots[k].value, err)
      {
        if r in head {
          assert slots[0].Some? && r == Dismiss(slots[0].value, err);
        } else {
          var j :| 0 <= j < |slots[1..]| && slots[1..][j].Some? && r == Dismiss(slots[1..][j].value, err);
          assert slots[j + 1] == slots[1..][j];
        }
      }
    }
  }

  /** `disposeProcessors`: every slot is emptied and every send in the
      working set is dismissed with `lastError`, or with a cancellation error
      when there is none; nothing else is dismissed. The waiting queue is
      left as it is. */
  function DisposeProcessors(st: Publication): (r: Publication)
    requires Wf(st)
    ensures Wf(r) && r.size == 0
    ensures forall k :: 0 <= k < Capacity ==> r.slots[k].None?
    ensures r.pending == st.pending && r.lastError == st.lastError && r.done == st.done
    ensures |st.retired| <= |r.retired| && r.retired[..|st.retired|] == st.retired
    ensures forall k :: |st.retired| <= k < |r.retired| ==> !r.retired[k].done.Pending?
    ensures forall k :: 0 <= k < Capacity && st.slots[k].Some? ==>
      Dismiss(st.slots[k].value, ErrorOrCancel(st.lastError)) in r.retired[|st.retired|..]
    ensures forall q :: q in r.retired[|st.retired|..] ==>
      exists k :: 0 <= k < Capacity && st.slots[k].Some? && q == Dismiss(st.slots[k].value, ErrorOrCancel(st.lastError))
  {
    var err := ErrorOrCancel(st.lastError);
    DismissAllCoversSlots(st.slots, err);
    var r := st.(slots := seq(Capacity, _ => None), size := 0,
                 retired := st.retired + DismissAll(st.slots, err));
    assert r.retired[|st.retired|..] == DismissAll(st.slots, err);
    r
  }

  // ---------------------------------------------------------------------
  // Signals between passes

  /** The send an upstream signal is addressed to: the one in a working-set
      slot, or one still waiting in the queue. */
  datatype Target = InSlot(slot: nat) | InQueue(position: nat)

  /** An upstream signal that arrives outside a pass, on the publisher's own
      thread: only the addressed send takes it; no slot is filled or
      emptied, and the queue keeps its length and order. A target with no
      send there changes nothing. */
  function Arrive(st: Publication, t: Target, s: Signal): (r: Publication)
    ensures r == st.(slots := r.slots, pending := r.pending)
    ensures |r.slots| == |st.slots| && |r.pending| == |st.pending|
    ensures forall k :: 0 <= k < |st.slots| ==> (r.slots[k].Some? <==> st.slots[k].Some?)
    ensures forall k :: 0 <= k < |st.slots| && t != InSlot(k) ==> r.slots[k] == st.slots[k]
    ensures forall k :: 0 <= k < |st.pending| && t != InQueue(k) ==> r.pending[k] == st.pending[k]
    ensures t.InSlot? && t.slot < |st.slots| && st.slots[t.slot].Some? ==>
      r.slots[t.slot] == Some(Receive(st.slots[t.slot].value, s))
    ensures t.InQueue? && t.position < |st.pending| ==>
      r.pending[t.position] == Receive(st.pending[t.position], s)
  {
    match t
    case InSlot(k) =>
      if k < |st.slots| && st.slots[k].Some? then
        st.(slots := st.slots[k := Some(Receive(st.slots[k].value, s))])
      else st
    case InQueue(k) =>
      if k < |st.pending| then st.(pending := st.pending[k := Receive(st.pending[k], s)])
      else st
  }

  /** `close()`: refused off the event-loop thread; otherwise closes the
      underlying publication (which may throw `thrown`), then disposes the
      working set and completes the done signal whatever happened. */
  function Close(st: Publication, inEventLoop: bool, thrown: Option<Error>): (r: (Publication, Option<Error>))
    requires Wf(st)
    ensures !inEventLoop ==> r == (st, Some(ResourceDisposal))
    ensures inEventLoop ==> r.1 == thrown && Wf(r.0) && r.0.size == 0
    ensures inEventLoop ==> forall k :: 0 <= k < Capacity ==> r.0.slots[k].None?
    ensures inEventLoop ==> r.0.done == Fire(st.done, Completed) && r.0.pending == st.pending
    ensures inEventLoop ==> r.0.lastError == st.lastError
    ensures inEventLoop ==> |st.retired| <= |r.0.retired| && r.0.retired[..|st.retired|] == st.retired
    ensures inEventLoop ==> forall k :: 0 <= k < Capacity && st.slots[k].Some? ==>
      Dismiss(st.slots[k].value, ErrorOrCancel(st.lastError)) in r.0.retired[|st.retired|..]
    ensures inEventLoop ==> forall q :: q in r.0.retired[|st.retired|..] ==>
      exists k :: 0 <= k < Capacity && st.slots[k].Some? && q == Dismiss(st.slots[k].value, ErrorOrCancel(st.lastError))
  {
    if !inEventLoop then (st, Some(ResourceDisposal))
    else
      var d := DisposeProcessors(st.(closed := st.closed || thrown.None?));
      (d.(done := Fire(d.done, Completed)), thrown)
  }

  // ---------------------------------------------------------------------
  // ensureConnected

  /** `max(connectTimeout / 100, 1)`. */
  function RetryCount(connectTimeout: int): (n: int)
    ensures n >= 1
    ensures connectTimeout >= RetryIntervalMillis ==>
      n * RetryIntervalMillis <= connectTimeout < (n + 1) * RetryIntervalMillis
    ensures connectTimeout < 2 * RetryIntervalMillis ==> n == 1
  {
    var q := if connectTimeout >= 0 then connectTimeout / RetryIntervalMillis
             else -((-connectTimeout) / RetryIntervalMillis);
    if q > 1 then q else 1
  }

  /** `ensureConnected()`: probes `isConnected` once and then once more every
      100 millis, at most `RetryCount` more times. Returns the index of the
      first successful probe and the millis waited before it. */
  method EnsureConnected(connectTimeout: int, isConnected: nat -> bool)
    returns (r: Result<nat, Error>, waited: nat)
    ensures r.Success? ==> isConnected(r.value) && r.value <= RetryCount(connectTimeout)
    ensures r.Success? ==> forall k :: 0 <= k < r.value ==> !isConnected(k)
    ensures r.Success? ==> waited == r.value * RetryIntervalMillis
    ensures r.Failure? ==> r.error == RetriesExhausted
    ensures r.Failure? ==> forall k :: 0 <= k <= RetryCount(connectTimeout) ==> !isConnected(k)
    ensures r.Failure? ==> waited == RetryCount(connectTimeout) * RetryIntervalMillis
    ensures connectTimeout >= RetryIntervalMillis ==> waited <= connectTimeout
  {
    var retries := RetryCount(connectTimeout);
    var attempt: nat := 0;
    waited := 0;
    while attempt <= retries && !isConnected(attempt)
      invariant attempt <= retries + 1
      invariant forall k :: 0 <= k < attempt ==> !isConnected(k)
      invariant waited == (if attempt <= retries then attempt else retries) * RetryIntervalMillis
      decreases retries + 1 - attempt
    {
      attempt := attempt + 1;
      if attempt <= retries {
        waited := waited + RetryIntervalMillis;
      }
    }
    if attempt <= retries {
      r := Success(attempt);
    } else {
      r := Failure(RetriesExhausted);
    }
  }
}
