/**
  Properties of the `publish()` pass, of disposal and of `close()`, proved
  by induction over the loop of `MessagePublication.Scan`.
 */
module PublicationProofs {
  import opened Wrappers
  import opened Failures
  import opened PublisherProcessor
  import opened MessagePublication

  /** The shape `Scan` needs at slot `i`. */
  ghost predicate Shaped(c: Cursor, i: nat, bound: nat) {
    && i <= bound <= |c.slots|
    && c.polled <= |c.queue|
    && (-1 <= c.lastAvailableIndex < i || (i == 0 && c.lastAvailableIndex == -1))
  }

  /** A vacancy is backfilled from the head of the queue while sends wait,
      leaving `size` as it was; otherwise it is counted out of `size` and
      becomes the target of later shifts, and nothing is offered. */
  lemma VisitBackfills(c: Cursor, i: nat, env: Env, mode: Variant)
    requires i < |c.slots| && c.polled <= |c.queue| && -1 <= c.lastAvailableIndex < i
    requires c.slots[i].None?
    ensures var d := Visit(c, i, env, mode);
      && (c.availableToAddNew && c.polled < |c.queue| ==> d.polled == c.polled + 1 && d.size == c.size)
      && (!(c.availableToAddNew && c.polled < |c.queue|) ==>
            && d.polled == c.polled && d.size == c.size - 1 && !d.availableToAddNew
            && d.slots == c.slots && d.trace == c.trace && d.retired == c.retired
            && d.lastAvailableIndex ==
                 (if mode.Corrected? && !c.availableToAddNew && c.lastAvailableIndex > -1
                  then c.lastAvailableIndex else i))
  {
  }

  /** The send a visit serves is the one in the slot, or else the head of
      the queue backfilled into it; it is served as `Tend` says, at the slot
      it shifts to. */
  lemma VisitServes(c: Cursor, i: nat, env: Env, mode: Variant)
    requires i < |c.slots| && c.polled <= |c.queue| && -1 <= c.lastAvailableIndex < i
    requires c.slots[i].Some? || (c.availableToAddNew && c.polled < |c.queue|)
    ensures var p := if c.slots[i].Some? then c.slots[i].value else c.queue[c.polled];
      var index := if c.lastAvailableIndex > -1 then c.lastAvailableIndex else i;
      var o := Tend(p, i, index, env, mode);
      var d := Visit(c, i, env, mode);
      && d.trace == c.trace + (if o.attempt.Some? then [o.attempt.value] else [])
      && d.slots[index] == o.keep
      && d.retired == c.retired + o.retire
  {
  }

  /** Over a whole scan the accounting of offers is kept: every offer is
      judged, the count is the number of positive offers, and the pass's
      error is the verdict of its last offer and of no other. */
  lemma {:induction false} ScanAccounts(c: Cursor, i: nat, bound: nat, env: Env, mode: Variant)
    requires Shaped(c, i, bound)
    requires Accounted(c, env)
    ensures Accounted(Scan(c, i, bound, env, mode), env)
    decreases bound - i
  {
    if i < bound && c.ex.None? {
      var v := Visit(c, i, env, mode);
      AdvanceKeepsAccounted(c, v, env);
      ScanAccounts(v, i + 1, bound, env, mode);
    }
  }

  /** A scan leaves the slots at or beyond `bound` untouched, and each slot
      visited lowers `size` by one at most. */
  lemma {:induction false} ScanFrame(c: Cursor, i: nat, bound: nat, env: Env, mode: Variant)
    requires Shaped(c, i, bound)
    ensures var d := Scan(c, i, bound, env, mode);
      && (forall k :: bound <= k < |c.slots| ==> d.slots[k] == c.slots[k])
      && c.size - (bound - i) <= d.size <= c.size
    decreases bound - i
  {
    if i < bound && c.ex.None? {
      var v := Visit(c, i, env, mode);
      ScanFrame(v, i + 1, bound, env, mode);
      var d := Scan(v, i + 1, bound, env, mode);
      forall k | bound <= k < |c.slots|
        ensures d.slots[k] == c.slots[k]
      {
        assert v.slots[k] == c.slots[k];
      }
    }
  }

  /** A scan retires a send only once its done signal has fired. */
  lemma {:induction false} ScanRetiresFinished(c: Cursor, i: nat, bound: nat, env: Env, mode: Variant)
    requires Shaped(c, i, bound)
    ensures var d := Scan(c, i, bound, env, mode);
      && |c.retired| <= |d.retired| && d.retired[..|c.retired|] == c.retired
      && (forall k :: |c.retired| <= k < |d.retired| ==> !d.retired[k].done.Pending?)
    decreases bound - i
  {
    if i < bound && c.ex.None? {
      var v := Visit(c, i, env, mode);
      ScanRetiresFinished(v, i + 1, bound, env, mode);
      RetiredChain(c.retired, v.retired, Scan(v, i + 1, bound, env, mode).retired);
    }
  }

  /** Two extensions by fired sends compose into one. */
  lemma RetiredChain(a: seq<Processor>, b: seq<Processor>, d: seq<Processor>)
    requires |a| <= |b| && b[..|a|] == a && (forall k :: |a| <= k < |b| ==> !b[k].done.Pending?)
    requires |b| <= |d| && d[..|b|] == b && (forall k :: |b| <= k < |d| ==> !d[k].done.Pending?)
    ensures |a| <= |d| && d[..|a|] == a && (forall k :: |a| <= k < |d| ==> !d[k].done.Pending?)
  {
    assert d[..|a|] == d[..|b|][..|a|];
    forall k | |a| <= k < |d|
      ensures !d[k].done.Pending?
    {
      if k < |b| {
        assert d[k] == b[k];
      }
    }
  }

  /** The corrected compaction's bookkeeping at slot `i`, for a scan that
      started with `size == s0`: the vacancies met and not backfilled form one
      run of empty slots ending just before `i`, and `size` has dropped by
      exactly their number. */
  ghost predicate Compacted(c: Cursor, i: nat, s0: int) {
    && i <= |c.slots|
    && (c.availableToAddNew <==> c.lastAvailableIndex == -1)
    && (c.lastAvailableIndex == -1 ==> c.size == s0)
    && (c.lastAvailableIndex > -1 ==>
          && c.size == s0 - (i - c.lastAvailableIndex)
          && forall k :: c.lastAvailableIndex <= k < i ==> c.slots[k].None?)
  }

  lemma CorrectedVisitCompacts(c: Cursor, i: nat, s0: int, env: Env)
    requires i < |c.slots| && -1 <= c.lastAvailableIndex < i && c.polled <= |c.queue|
    requires Compacted(c, i, s0)
    ensures Compacted(Visit(c, i, env, Corrected), i + 1, s0)
  {
    var d := Visit(c, i, env, Corrected);
    if c.slots[i].Some? {
    } else if c.availableToAddNew && c.polled < |c.queue| {
      var c1 := c.(slots := c.slots[i := Some(c.queue[c.polled])], polled := c.polled + 1);
      assert Compacted(c1, i, s0);
    } else {
    }
  }

  /** Under the corrected rule, a scan that ends without an error leaves no
      send at or beyond the new `size`. */
  lemma {:induction false} CorrectedScanLeavesNoStray(c: Cursor, i: nat, bound: nat, env: Env)
    requires Shaped(c, i, bound)
    requires Compacted(c, i, bound)
    requires forall k :: bound <= k < |c.slots| ==> c.slots[k].None?
    ensures var d := Scan(c, i, bound, env, Corrected);
      d.ex.None? ==> 0 <= d.size && forall k :: d.size <= k < |d.slots| ==> d.slots[k].None?
    decreases bound - i
  {
    if i < bound && c.ex.None? {
      var v := Visit(c, i, env, Corrected);
      CorrectedVisitCompacts(c, i, bound, env);
      CorrectedScanLeavesNoStray(v, i + 1, bound, env);
    } else if c.ex.None? {
      if c.lastAvailableIndex > -1 {
        assert c.size == c.lastAvailableIndex;
      }
    }
  }

  // ---------------------------------------------------------------------
  // One pass of publish(), as written

  lemma StartAccounted(a: (seq<Option<Processor>>, nat, nat), queue: seq<Processor>, env: Env)
    ensures Accounted(Start(a.0, a.1, queue, a.2), env)
  {
  }

  /** An empty working set with an empty queue: nothing happens, no progress. */
  lemma PublishIdle(st: Publication, env: Env)
    requires Wf(st) && Idle(st)
    ensures Publish(st, env) == (st, 0)
    ensures PublishCorrected(st, env) == (st, 0)
  {
  }

  /** On an empty working set a pass serves the head of the queue in slot 0:
      it asks it for a buffer, offers the buffer it then holds and only
      then, and counts a positive position as the pass's progress. A send
      with nothing to offer stays in slot 0. */
  lemma PublishServesHead(st: Publication, env: Env)
    requires Wf(st) && st.size == 0 && st.pending != []
    ensures var q := Asked(st.pending[0], 0, env);
      var start := Stamp(q, env.offeredAt(0)).start;
      var c := Pass(st, env, AsWritten);
      && (q.buffer.Some? <==> c.trace != [])
      && (q.buffer.Some? ==>
            && c.trace == [Attempt(0, start, env.checkedAt(0), env.offer(0),
                                   Judge(env.offer(0), start, env.checkedAt(0), env.cfg))]
            && Publish(st, env).1 == (if Positive(c.trace[0]) then 1 else 0))
      && (q.buffer.None? ==> Publish(st, env).0.slots[0] == Some(q) && Publish(st, env).1 == 0)
  {
    var a := Admission(st, AsWritten);
    var c0 := Start(a.0, a.1, st.pending, a.2);
    assert Scan(c0, 0, 1, env, AsWritten) == Visit(c0, 0, env, AsWritten);
    VisitServes(c0, 0, env, AsWritten);
  }

  /** A waiting send whose upstream answers the pass's `request(1)` with a
      buffer has that buffer offered in the same pass, at slot 0. */
  lemma AnsweredRequestIsOffered(st: Publication, env: Env, b: Buffer)
    requires Wf(st) && st.size == 0 && st.pending != []
    requires var p := st.pending[0];
      !p.requested && !p.disposed && p.subscribed && p.buffer.None?
    requires env.respond(0) != [] && env.respond(0)[0] == Emit(b)
    ensures Asked(st.pending[0], 0, env).buffer == Some(b)
    ensures |Pass(st, env, AsWritten).trace| == 1 && Pass(st, env, AsWritten).trace[0].slot == 0
    ensures Pass(st, env, AsWritten).trace[0].reply == env.offer(0)
  {
    PublishServesHead(st, env);
  }

  /** The progress count is the number of offers of the pass that returned a
      positive position, and every offer was judged by the outcome policy. */
  lemma PublishCountsPositiveOffers(st: Publication, env: Env, mode: Variant)
    requires Wf(st) && !Idle(st)
    ensures var c := Pass(st, env, mode);
      && Publish(st, env).1 == Successes(Pass(st, env, AsWritten).trace)
      && PublishCorrected(st, env).1 == Successes(Pass(st, env, Corrected).trace)
      && forall k :: 0 <= k < |c.trace| ==> Judged(c.trace[k], env)
  {
    var a := Admission(st, mode);
    StartAccounted(a, st.pending, env);
    ScanAccounts(Start(a.0, a.1, st.pending, a.2), 0, a.1, env, mode);
    var w := Admission(st, AsWritten);
    StartAccounted(w, st.pending, env);
    ScanAccounts(Start(w.0, w.1, st.pending, w.2), 0, w.1, env, AsWritten);
    var r := Admission(st, Corrected);
    StartAccounted(r, st.pending, env);
    ScanAccounts(Start(r.0, r.1, st.pending, r.2), 0, r.1, env, Corrected);
  }

  /** The first failing offer ends the pass: it is the last offer made, no
      earlier offer failed, its error becomes `lastError` and the disposal of
      the whole publication is requested, whether the failure was fatal or a
      timeout. A pass without a failing offer leaves both alone. */
  lemma PublishFirstErrorDisposes(st: Publication, env: Env)
    requires Wf(st) && !Idle(st)
    ensures var c := Pass(st, env, AsWritten);
      var st' := Publish(st, env).0;
      && (NoFailure(c.trace) ==>
            st'.lastError == st.lastError && st'.disposeRequested == st.disposeRequested)
      && (!NoFailure(c.trace) ==>
            && |c.trace| > 0
            && c.trace[|c.trace| - 1].verdict.Fail?
            && NoFailure(c.trace[..|c.trace| - 1])
            && st'.lastError == Some(c.trace[|c.trace| - 1].verdict.error)
            && st'.disposeRequested)
  {
    var a := Admission(st, AsWritten);
    StartAccounted(a, st.pending, env);
    ScanAccounts(Start(a.0, a.1, st.pending, a.2), 0, a.1, env, AsWritten);
  }

  /** A pass takes waiting sends from the head of the queue only, and a send
      leaves the working set only with its done signal fired. */
  lemma PublishIsFifoAndRetiresFinished(st: Publication, env: Env, mode: Variant)
    requires Wf(st)
    ensures var st' := if mode.AsWritten? then Publish(st, env).0 else PublishCorrected(st, env).0;
      && |st'.pending| <= |st.pending| && st'.pending == st.pending[|st.pending| - |st'.pending|..]
      && |st.retired| <= |st'.retired| && st'.retired[..|st.retired|] == st.retired
      && (forall k :: |st.retired| <= k < |st'.retired| ==> !st'.retired[k].done.Pending?)
  {
    if !Idle(st) {
      if mode.AsWritten? {
        PassKeepsOrder(st, env, AsWritten, Publish(st, env).0);
      } else {
        PassKeepsOrder(st, env, Corrected, PublishCorrected(st, env).0);
      }
    } else {
      assert st.pending[|st.pending| - |st.pending|..] == st.pending;
      assert st.retired[..|st.retired|] == st.retired;
    }
  }

  /** The publication written back after a loop keeps the queue a suffix
      and appends only fired sends to the retired ones. */
  lemma PassKeepsOrder(st: Publication, env: Env, mode: Variant, st': Publication)
    requires Wf(st) && !Idle(st) && st' == WriteBack(st, Pass(st, env, mode))
    ensures && |st'.pending| <= |st.pending| && st'.pending == st.pending[|st.pending| - |st'.pending|..]
            && |st.retired| <= |st'.retired| && st'.retired[..|st.retired|] == st.retired
            && (forall k :: |st.retired| <= k < |st'.retired| ==> !st'.retired[k].done.Pending?)
  {
    PassRetiresFinished(st, env, mode);
    WriteBackKeepsOrder(st, Pass(st, env, mode), st');
  }

  /** Every send a pass retires has fired its done signal. */
  lemma PassRetiresFinished(st: Publication, env: Env, mode: Variant)
    requires Wf(st) && !Idle(st)
    ensures forall k :: 0 <= k < |Pass(st, env, mode).retired| ==> !Pass(st, env, mode).retired[k].done.Pending?
  {
    var a := Admission(st, mode);
    var c0 := Start(a.0, a.1, st.pending, a.2);
    ScanRetiresFinished(c0, 0, a.1, env, mode);
  }

  /** Writing a loop's result back keeps the queue a suffix and appends the
      retired sends after the earlier ones. */
  lemma WriteBackKeepsOrder(st: Publication, c: Cursor, st': Publication)
    requires c.polled <= |c.queue| && c.queue == st.pending
    requires forall k :: 0 <= k < |c.retired| ==> !c.retired[k].done.Pending?
    requires st' == WriteBack(st, c)
    ensures && |st'.pending| <= |st.pending| && st'.pending == st.pending[|st.pending| - |st'.pending|..]
      && |st.retired| <= |st'.retired| && st'.retired[..|st.retired|] == st.retired
      && (forall k :: |st.retired| <= k < |st'.retired| ==> !st'.retired[k].done.Pending?)
  {
    assert st'.retired == st.retired + c.retired;
    assert st'.retired[..|st.retired|] == st.retired;
    forall k | |st.retired| <= k < |st'.retired|
      ensures !st'.retired[k].done.Pending?
    {
      assert st'.retired[k] == c.retired[k - |st.retired|];
    }
  }


  // ---------------------------------------------------------------------
  // Finding: the working set never holds more than one send

  /** At most one send in the working set: `size` is 0 or 1 and only slot 0
      can be occupied. */
  ghost predicate AtMostOneInFlight(st: Publication) {
    && Wf(st)
    && st.size <= 1
    && forall k :: 1 <= k < Capacity ==> st.slots[k].None?
  }

  /** As written, a pass never lets a second send into the working set: the
      queue is polled up front only when `size` is 0, and a backfill during
      the scan replaces a vacancy it has just counted out of `size`. */
  lemma {:induction false} PublishKeepsAtMostOneInFlight(st: Publication, env: Env)
    requires AtMostOneInFlight(st)
    ensures AtMostOneInFlight(Publish(st, env).0)
    ensures |st.pending| - |Publish(st, env).0.pending| <= 1
  {
    if !Idle(st) {
      var a := Admission(st, AsWritten);
      var c0 := Start(a.0, a.1, st.pending, a.2);
      ScanFrame(c0, 0, a.1, env, AsWritten);
      var c := Scan(c0, 0, a.1, env, AsWritten);
      assert a.1 == 1;
      assert c == Visit(c0, 0, env, AsWritten);
      if st.size == 0 {
        assert c0.slots[0].Some?;
      }
    }
  }

  /** While a send occupies the working set, no waiting send is admitted,
      however many of the 256 slots are free. */
  lemma BusySlotBlocksQueue(st: Publication, env: Env)
    requires AtMostOneInFlight(st) && st.size == 1 && st.slots[0].Some?
    ensures Publish(st, env).0.pending == st.pending
  {
    var a := Admission(st, AsWritten);
    var c0 := Start(a.0, a.1, st.pending, a.2);
    assert Scan(c0, 0, 1, env, AsWritten) == Visit(c0, 0, env, AsWritten);
  }

  /** The states reachable from `Init` by enqueues, passes and closes keep at
      most one send in flight. */
  lemma AtMostOneInFlightIsInvariant(st: Publication, p: Processor, inEventLoop: bool, thrown: Option<Error>,
                                     t: Target, s: Signal)
    ensures AtMostOneInFlight(Init())
    ensures AtMostOneInFlight(st) ==> AtMostOneInFlight(Enqueue(st, p))
    ensures AtMostOneInFlight(st) ==> AtMostOneInFlight(Close(st, inEventLoop, thrown).0)
    ensures AtMostOneInFlight(st) ==> AtMostOneInFlight(Arrive(st, t, s))
  {
  }

  /** A signal between passes keeps the working set well formed and every
      send below `size`. */
  lemma ArriveKeepsShape(st: Publication, t: Target, s: Signal)
    ensures Wf(st) ==> Wf(Arrive(st, t, s))
    ensures NoStray(st) ==> NoStray(Arrive(st, t, s))
  {
  }

  // ---------------------------------------------------------------------
  // Finding: the compaction can strand a send beyond `size`

  /** Every occupied slot lies below `size`, so the next pass visits it. */
  ghost predicate NoStray(st: Publication) {
    && Wf(st)
    && forall k :: st.size <= k < Capacity ==> st.slots[k].None?
  }

  /** Three idle sends at slots 0, 2 and 4 with `size == 5` and nothing
      waiting: as written, the second vacancy overwrites `lastAvailableIndex`
      and the send from slot 4 lands at slot 3 while `size` drops to 3, so
      no later pass visits it again. */
  function StrayExample(): (st: Publication)
    ensures NoStray(st) && !Idle(st)
  {
    var p := Fresh(false);
    Publication(seq(Capacity, k => if k == 0 || k == 2 || k == 4 then Some(p) else None),
                5, [], None, false, false, Pending, [])
  }

  lemma AsWrittenCompactionStrandsSend(env: Env)
    ensures Pass(StrayExample(), env, AsWritten).ex.None?
    ensures Publish(StrayExample(), env).0.size == 3
    ensures Publish(StrayExample(), env).0.slots[3].Some?
    ensures !NoStray(Publish(StrayExample(), env).0)
  {
    var st := StrayExample();
    var p := Fresh(false);
    var c0 := Start(st.slots, 5, [], 0);
    var c1 := Visit(c0, 0, env, AsWritten);
    assert c1.slots == c0.slots && c1.lastAvailableIndex == -1 && c1.trace == [] && c1.size == 5;
    var c2 := Visit(c1, 1, env, AsWritten);
    assert c2.size == 4 && c2.lastAvailableIndex == 1 && !c2.availableToAddNew && c2.slots == c1.slots;
    var c3 := Visit(c2, 2, env, AsWritten);
    assert c3.lastAvailableIndex == 2 && c3.slots[4] == Some(p) && c3.slots[3].None? && c3.trace == [];
    var c4 := Visit(c3, 3, env, AsWritten);
    assert c4.size == 3 && c4.lastAvailableIndex == 3 && c4.slots == c3.slots;
    var c5 := Visit(c4, 4, env, AsWritten);
    assert c5.slots[3].Some? && c5.size == 3 && c5.ex.None?;
    assert Scan(c0, 0, 5, env, AsWritten) == c5;
  }

  /** With admission of every waiting send that fits, a pass leaves no send
      waiting while a slot was free at its start. */
  lemma PublishCorrectedAdmits(st: Publication, env: Env)
    requires Wf(st)
    ensures var st' := PublishCorrected(st, env).0;
      && |st'.pending| <= |st.pending| && st'.pending == st.pending[|st.pending| - |st'.pending|..]
      && |st.pending| - |st'.pending| >= Min(|st.pending|, Capacity - st.size)
  {
    if !Idle(st) {
      var a := Admission(st, Corrected);
      assert a.2 >= Min(|st.pending|, Capacity - st.size);
      var c := Pass(st, env, Corrected);
      assert c.polled >= a.2;
      var st' := PublishCorrected(st, env).0;
      assert st'.pending == st.pending[c.polled..];
    }
  }

  function Min(a: int, b: int): (m: int) {
    if a <= b then a else b
  }

  /** With the corrected compaction, a pass that ends without an error leaves
      every send below `size`. */
  lemma PublishCorrectedLeavesNoStray(st: Publication, env: Env)
    requires NoStray(st) && !Idle(st)
    requires Pass(st, env, Corrected).ex.None?
    ensures NoStray(PublishCorrected(st, env).0)
  {
    var a := Admission(st, Corrected);
    var c0 := Start(a.0, a.1, st.pending, a.2);
    assert Compacted(c0, 0, a.1);
    ScanFrame(c0, 0, a.1, env, Corrected);
    CorrectedScanLeavesNoStray(c0, 0, a.1, env);
  }

  /** The pass keeps the working set well formed. */
  lemma PublishKeepsWf(st: Publication, env: Env)
    requires Wf(st)
    ensures Wf(Publish(st, env).0) && Wf(PublishCorrected(st, env).0)
  {
    if !Idle(st) {
      var w := Admission(st, AsWritten);
      ScanFrame(Start(w.0, w.1, st.pending, w.2), 0, w.1, env, AsWritten);
      var r := Admission(st, Corrected);
      ScanFrame(Start(r.0, r.1, st.pending, r.2), 0, r.1, env, Corrected);
    }
  }

  // ---------------------------------------------------------------------
  // Finding: a send that finishes without a buffer never leaves its slot

  /** As written, a send that is disposed and holds no buffer is never taken
      out of its slot: a pass that meets it alone in the working set changes
      nothing and makes no progress, however many sends wait behind it. */
  lemma FinishedIdleSendBlocksForever(st: Publication, env: Env, p: Processor)
    requires AtMostOneInFlight(st) && st.size == 1 && st.slots[0] == Some(p)
    requires p.disposed && p.buffer.None?
    ensures Publish(st, env) == (st, 0)
  {
    var a := Admission(st, AsWritten);
    var c0 := Start(a.0, a.1, st.pending, a.2);
    var v := Visit(c0, 0, env, AsWritten);
    assert Scan(c0, 0, 1, env, AsWritten) == v;
    assert v.slots == st.slots;
    assert st.pending[0..] == st.pending && st.retired + [] == st.retired;
  }

  /** A send whose publisher completes without emitting (it does so while
      being subscribed, before the send is queued): disposed, no buffer,
      done signal completed. */
  function EmptySend(): (p: Processor)
    ensures p.disposed && p.buffer.None? && p.done == Completed
  {
    Receive(OnSubscribe(Fresh(false)), Finish)
  }

  /** As written, queueing a send of an empty publisher ahead of any other
      send blocks the publication: the first pass puts it in slot 0, and from
      then on every pass leaves the state as it is, with the other send
      still waiting. */
  lemma EmptyPublisherBlocksQueue(q: Processor, env: Env, env2: Env)
    ensures var st1 := Publish(Enqueue(Enqueue(Init(), EmptySend()), q), env).0;
      && st1.slots[0] == Some(EmptySend()) && st1.size == 1 && st1.pending == [q]
      && Publish(st1, env2) == (st1, 0)
  {
    var e := EmptySend();
    var st0 := Enqueue(Enqueue(Init(), e), q);
    assert st0.pending == [e, q];
    var a := Admission(st0, AsWritten);
    var c0 := Start(a.0, a.1, st0.pending, a.2);
    var v := Visit(c0, 0, env, AsWritten);
    assert Scan(c0, 0, 1, env, AsWritten) == v;
    assert v.slots == c0.slots && v.size == 1 && v.polled == 1;
    var st1 := Publish(st0, env).0;
    assert st1.slots == c0.slots && st1.pending == [q];
    FinishedIdleSendBlocksForever(st1, env2, e);
  }

  /** The stall is reached by an ordinary publisher too: its completion
      arrives between passes, after its last buffer was sent and the send
      was reset. The send finishes successfully, and as written it then
      holds slot 0 for good. */
  lemma LateCompletionBlocksQueue(st: Publication, p: Processor, env: Env)
    requires AtMostOneInFlight(st) && st.size == 1 && st.slots[0] == Some(p)
    requires Consistent(p) && !p.disposed && p.buffer.None? && p.done.Pending?
    ensures var st' := Arrive(st, InSlot(0), Finish);
      && st'.slots[0] == Some(Receive(p, Finish))
      && Receive(p, Finish).done == Completed
      && Publish(st', env) == (st', 0)
  {
    var st' := Arrive(st, InSlot(0), Finish);
    FinishedIdleSendBlocksForever(st', env, Receive(p, Finish));
  }

  /** Serving a finished send with no buffer under the corrected pass
      retires it. */
  lemma CorrectedServeRetires(c: Cursor, i: nat, env: Env, p: Processor)
    requires i < |c.slots| && c.slots[i] == Some(p) && c.polled <= |c.queue|
    requires -1 <= c.lastAvailableIndex < i
    requires p.disposed && p.buffer.None? && !p.done.Pending?
    ensures Visit(c, i, env, Corrected).retired == c.retired + [p]
  {
    var index := if c.lastAvailableIndex > -1 then c.lastAvailableIndex else i;
    assert Request(p) == p;
    assert Tend(p, i, index, env, Corrected).retire == [p];
  }

  /** The corrected pass retires a finished send that holds no buffer the
      first time it meets it. */
  lemma CorrectedRetiresFinishedIdleSend(st: Publication, env: Env, p: Processor)
    requires Wf(st) && st.size >= 1 && st.slots[0] == Some(p)
    requires p.disposed && p.buffer.None? && !p.done.Pending?
    ensures var r := PublishCorrected(st, env).0;
      |st.retired| <= |r.retired| && p in r.retired[|st.retired|..]
  {
    var a := Admission(st, Corrected);
    var c0 := Start(a.0, a.1, st.pending, a.2);
    assert c0.slots[0] == Some(p);
    CorrectedServeRetires(c0, 0, env, p);
    var v := Visit(c0, 0, env, Corrected);
    ScanRetiresFinished(v, 1, a.1, env, Corrected);
    var d := Scan(v, 1, a.1, env, Corrected);
    assert Scan(c0, 0, a.1, env, Corrected) == d;
    assert d.retired[0] == d.retired[..1][0] == p;
    assert (st.retired + d.retired)[|st.retired|..] == d.retired;
  }

  // ---------------------------------------------------------------------
  // disposeProcessors and close()

  /** Dismissing one send fires its done signal, disposes it and releases a
      held buffer exactly once. The cancellation comes first: a live,
      subscribed send with no buffer is reset by it and completes
      successfully, so the publication's error does not reach it; every
      other pending send fails with that error. */
  lemma DismissSignals(p: Processor, err: Error)
    requires Consistent(p)
    ensures var r := Dismiss(p, err);
      && r.disposed && r.buffer.None? && !r.done.Pending?
      && r.released == p.released + Held(p)
      && (!p.done.Pending? ==> r.done == p.done)
      && (p.done.Pending? && !p.disposed && p.subscribed && p.buffer.None? ==> r.done == Completed)
      && (p.done.Pending? && !(!p.disposed && p.subscribed && p.buffer.None?) ==> r.done == Failed(err))
  {
  }

  /** A working set with no occupied slot dismisses nothing. */
  lemma {:induction false} DismissAllEmpty(slots: seq<Option<Processor>>, err: Error)
    requires forall k :: 0 <= k < |slots| ==> slots[k].None?
    ensures DismissAll(slots, err) == []
    decreases |slots|
  {
    if slots != [] {
      DismissAllEmpty(slots[1..], err);
    }
  }

  /** `close()` on the event loop is idempotent: a second call changes
      nothing further, the done signal keeps its first value and the queue is
      still not drained. */
  lemma CloseIsIdempotent(st: Publication, thrown: Option<Error>, thrown2: Option<Error>)
    requires Wf(st)
    ensures var once := Close(st, true, thrown).0;
      var twice := Close(once, true, thrown2).0;
      && twice.slots == once.slots && twice.size == once.size && twice.done == once.done
      && twice.retired == once.retired && twice.pending == st.pending
  {
    var once := Close(st, true, thrown).0;
    DismissAllEmpty(once.slots, ErrorOrCancel(once.lastError));
  }
}
