/**
  The liveness watchdog of a session: one periodic check per registered
  session, which runs the session's "heartbeat lost" callback when neither a
  heartbeat nor (when the session reports one) a data signal was seen for
  longer than one and a half heartbeat intervals.

  Timers are never forgotten: `timers` lists every periodic check ever
  scheduled, by handle, with a flag saying whether it was disposed. The
  scheduler itself is left out; `Check` is what one run of a timer's check
  decides, at the time `now` and with the session's last data signal time
  `lastSignal` (both in nanoseconds) as inputs.
 */
module HeartbeatWatchdog {
  import opened Wrappers
  import opened JavaLong

  /** One periodic check, scheduled every `periodMillis` for `sessionId`. */
  datatype Timer = Timer(sessionId: int, periodMillis: int, disposed: bool)

  datatype Watchdog = Watchdog(
    heartbeatTimeoutMillis: int,
    timeoutNs: int,
    lastTimeNs: map<int, int>,  // last heartbeat time by session
    handles: map<int, nat>,     // the registered timer of each session
    timers: seq<Timer>)

  /** `timeoutNs`: one and a half heartbeat intervals, computed on longs in
      whole milliseconds and converted to nanoseconds. */
  function TimeoutNs(heartbeatTimeoutMillis: int): (r: int)
    requires IsLong(heartbeatTimeoutMillis)
    ensures IsLong(r)
  {
    MillisToNanos(Quot(Mul(heartbeatTimeoutMillis, 3), 2))
  }

  /** For every interval up to about 71 days, `timeoutNs` is one and a half
      intervals rounded down to a whole millisecond; for longer ones up to a
      third of the long range the conversion saturates. */
  lemma TimeoutNsScales(ms: int)
    requires 0 <= ms <= Max / 3
    ensures var r := TimeoutNs(ms);
      && r >= 0
      && (ms <= 6_148_914_691_236 ==>
            r % NanosPerMilli == 0 && 2 * r <= 3 * ms * NanosPerMilli < 2 * r + 2 * NanosPerMilli)
      && (ms > 6_148_914_691_236 ==> r == Max)
  {
    assert IsLong(ms * 3);
    var h := Quot(Mul(ms, 3), 2);
    assert 2 * h <= 3 * ms < 2 * h + 2;
    if ms <= 6_148_914_691_236 {
      assert 0 <= h <= Max / NanosPerMilli;
      assert TimeoutNs(ms) == h * NanosPerMilli;
    } else {
      assert h > Max / NanosPerMilli;
    }
  }

  /** A one-second interval gives a timeout of 1.5 seconds. */
  lemma OneSecondInterval()
    ensures TimeoutNs(1000) == 1_500_000_000
  {
  }

  function New(heartbeatTimeoutMillis: int): (w: Watchdog)
    requires IsLong(heartbeatTimeoutMillis)
    ensures w.timeoutNs == TimeoutNs(heartbeatTimeoutMillis)
    ensures w.lastTimeNs == map[] && w.handles == map[] && w.timers == []
  {
    Watchdog(heartbeatTimeoutMillis, TimeoutNs(heartbeatTimeoutMillis), map[], map[], [])
  }

  /** `add`: stamps the session's heartbeat time with `now` and schedules a
      new check every two intervals, registered as the session's handle. A
      check already registered for the session is not disposed. */
  function Add(w: Watchdog, sessionId: int, now: int): (r: Watchdog)
    ensures r.lastTimeNs == w.lastTimeNs[sessionId := now]
    ensures |r.timers| == |w.timers| + 1 && r.timers[..|w.timers|] == w.timers
    ensures r.timers[|w.timers|] == Timer(sessionId, Mul(w.heartbeatTimeoutMillis, 2), false)
    ensures r.handles == w.handles[sessionId := |w.timers|]
    ensures r.heartbeatTimeoutMillis == w.heartbeatTimeoutMillis && r.timeoutNs == w.timeoutNs
  {
    w.(lastTimeNs := w.lastTimeNs[sessionId := now],
       timers := w.timers + [Timer(sessionId, Mul(w.heartbeatTimeoutMillis, 2), false)],
       handles := w.handles[sessionId := |w.timers|])
  }

  /** `remove`: drops the session's handle and disposes its timer; an unknown
      session is ignored. The heartbeat time stays recorded. */
  function Remove(w: Watchdog, sessionId: int): (r: Watchdog)
    requires forall s :: s in w.handles ==> w.handles[s] < |w.timers|
    ensures sessionId !in r.handles && r.handles == w.handles - {sessionId}
    ensures r.lastTimeNs == w.lastTimeNs
    ensures |r.timers| == |w.timers|
    ensures forall t :: 0 <= t < |w.timers| ==>
      r.timers[t] == (if sessionId in w.handles && t == w.handles[sessionId]
                      then w.timers[t].(disposed := true) else w.timers[t])
    ensures sessionId !in w.handles ==> r == w
    ensures r.heartbeatTimeoutMillis == w.heartbeatTimeoutMillis && r.timeoutNs == w.timeoutNs
  {
    if sessionId in w.handles then
      var h := w.handles[sessionId];
      w.(handles := w.handles - {sessionId}, timers := w.timers[h := w.timers[h].(disposed := true)])
    else w
  }

  /** `heartbeatReceived`: moves the session's heartbeat time to `now` when
      one is recorded, and never records a new one. */
  function HeartbeatReceived(w: Watchdog, sessionId: int, now: int): (r: Watchdog)
    ensures r.lastTimeNs.Keys == w.lastTimeNs.Keys
    ensures sessionId in w.lastTimeNs ==> r.lastTimeNs[sessionId] == now
    ensures forall s :: s in w.lastTimeNs && s != sessionId ==> r.lastTimeNs[s] == w.lastTimeNs[s]
    ensures r == w.(lastTimeNs := r.lastTimeNs)
  {
    if sessionId in w.lastTimeNs then w.(lastTimeNs := w.lastTimeNs[sessionId := now]) else w
  }

  /** The loss predicate of the periodic check, on longs: the heartbeat is
      older than the timeout and either the session reports no data signal
      (`lastSignal == 0`) or its last data signal is older than the timeout
      too. A negative `lastSignal` never counts as silence. */
  predicate Lost(now: int, lastHb: int, lastSignal: int, timeoutNs: int)
    ensures Lost(now, lastHb, lastSignal, timeoutNs) ==> lastSignal >= 0
  {
    && Sub(now, lastHb) > timeoutNs
    && (lastSignal == 0 || (lastSignal > 0 && Sub(now, lastSignal) > timeoutNs))
  }

  /** One run of timer `t`'s check. `None` when the session's heartbeat time
      is missing (the periodic check would fail unboxing it); otherwise whether the lost
      callback runs. A disposed timer no longer runs. */
  function Check(w: Watchdog, t: nat, now: int, lastSignal: int): (r: Option<bool>)
    requires t < |w.timers|
    ensures w.timers[t].disposed ==> r == Some(false)
    ensures r.None? <==> !w.timers[t].disposed && w.timers[t].sessionId !in w.lastTimeNs
    ensures r == Some(true) <==>
      && !w.timers[t].disposed
      && w.timers[t].sessionId in w.lastTimeNs
      && Lost(now, w.lastTimeNs[w.timers[t].sessionId], lastSignal, w.timeoutNs)
  {
    var sid := w.timers[t].sessionId;
    if w.timers[t].disposed then Some(false)
    else if sid !in w.lastTimeNs then None
    else Some(Lost(now, w.lastTimeNs[sid], lastSignal, w.timeoutNs))
  }

  // ---------------------------------------------------------------------
  // The loss predicate

  /** A session reporting a negative data signal time is never lost. */
  lemma NegativeSignalNeverLost(now: int, lastHb: int, lastSignal: int, timeoutNs: int)
    requires lastSignal < 0
    ensures !Lost(now, lastHb, lastSignal, timeoutNs)
  {
  }

  /** While no subtraction overflows, the predicate is the plain comparison of
      elapsed times. */
  lemma LostWithoutOverflow(now: int, lastHb: int, lastSignal: int, timeoutNs: int)
    requires IsLong(now - lastHb) && IsLong(now - lastSignal)
    ensures Lost(now, lastHb, lastSignal, timeoutNs) <==>
      && now - lastHb > timeoutNs
      && (lastSignal == 0 || (lastSignal > 0 && now - lastSignal > timeoutNs))
  {
  }

  /** Once lost, a session stays lost as time goes on, as long as no newer
      heartbeat or data signal arrives and no subtraction overflows. */
  lemma LossPersists(now: int, later: int, lastHb: int, lastSignal: int, timeoutNs: int)
    requires now <= later
    requires IsLong(later - lastHb) && IsLong(now - lastHb)
    requires IsLong(later - lastSignal) && IsLong(now - lastSignal)
    requires Lost(now, lastHb, lastSignal, timeoutNs)
    ensures Lost(later, lastHb, lastSignal, timeoutNs)
  {
    LostWithoutOverflow(now, lastHb, lastSignal, timeoutNs);
    LostWithoutOverflow(later, lastHb, lastSignal, timeoutNs);
  }

  /** A data signal no older than the timeout keeps a session alive, however
      long the heartbeat has been silent. */
  lemma RecentDataKeepsAlive(now: int, lastHb: int, lastSignal: int, timeoutNs: int)
    requires lastSignal != 0 && IsLong(now - lastSignal) && now - lastSignal <= timeoutNs
    ensures !Lost(now, lastHb, lastSignal, timeoutNs)
  {
  }

  /** The worked example: with a one-second interval, 1.6 seconds of
      heartbeat silence is a loss when the session reports no data, and not
      when data arrived half a second ago. */
  lemma WorkedExample(now: int)
    requires 1_600_000_000 <= now <= Max
    ensures Lost(now, now - 1_600_000_000, 0, TimeoutNs(1000))
    ensures !Lost(now, now - 1_600_000_000, now - 500_000_000, TimeoutNs(1000))
  {
    OneSecondInterval();
  }

  // ---------------------------------------------------------------------
  // The tables

  /** Every timer's session has a heartbeat time (so no check fails), and
      every handle names a live timer of its own session. */
  ghost predicate Valid(w: Watchdog) {
    && (forall t :: 0 <= t < |w.timers| ==> w.timers[t].sessionId in w.lastTimeNs)
    && (forall s :: s in w.handles ==>
          && w.handles[s] < |w.timers|
          && w.timers[w.handles[s]].sessionId == s
          && !w.timers[w.handles[s]].disposed)
  }

  /** Every live timer is its session's registered handle. */
  ghost predicate SingleTimer(w: Watchdog) {
    forall t :: 0 <= t < |w.timers| && !w.timers[t].disposed ==>
      w.timers[t].sessionId in w.handles && w.handles[w.timers[t].sessionId] == t
  }

  lemma ValidIsInvariant(w: Watchdog, sessionId: int, now: int)
    requires Valid(w)
    ensures Valid(Add(w, sessionId, now))
    ensures Valid(Remove(w, sessionId))
    ensures Valid(HeartbeatReceived(w, sessionId, now))
  {
    var a := Add(w, sessionId, now);
    forall t | 0 <= t < |a.timers|
      ensures a.timers[t].sessionId in a.lastTimeNs
    {
      if t < |w.timers| {
        assert a.timers[t] == w.timers[t];
      }
    }
  }

  /** A valid watchdog never fails a check. */
  lemma ValidChecksDecide(w: Watchdog, t: nat, now: int, lastSignal: int)
    requires Valid(w) && t < |w.timers|
    ensures Check(w, t, now, lastSignal).Some?
  {
  }

  /** `remove` does not forget the heartbeat time, so a heartbeat arriving
      after it still moves that time. */
  lemma RemoveKeepsTimestamp(w: Watchdog, sessionId: int, now: int)
    requires Valid(w) && sessionId in w.lastTimeNs
    ensures var r := HeartbeatReceived(Remove(w, sessionId), sessionId, now);
      sessionId in r.lastTimeNs && r.lastTimeNs[sessionId] == now
  {
  }

  /** A heartbeat received at `now` makes a check at `now` find the session
      alive, whatever its data signal, as long as the timeout is not
      negative. */
  lemma HeartbeatDefersLoss(w: Watchdog, t: nat, now: int, lastSignal: int)
    requires Valid(w) && t < |w.timers| && w.timeoutNs >= 0
    ensures Check(HeartbeatReceived(w, w.timers[t].sessionId, now), t, now, lastSignal) == Some(false)
  {
  }

  /** With one timer per session, `remove` silences the session: none of its
      timers runs the lost callback again. */
  lemma RemoveSilences(w: Watchdog, sessionId: int, now: int, lastSignal: int)
    requires Valid(w) && SingleTimer(w)
    ensures var r := Remove(w, sessionId);
      forall t :: 0 <= t < |r.timers| && r.timers[t].sessionId == sessionId ==>
        Check(r, t, now, lastSignal) == Some(false)
  {
    var r := Remove(w, sessionId);
    forall t | 0 <= t < |r.timers| && r.timers[t].sessionId == sessionId
      ensures r.timers[t].disposed
    {
    }
  }

  /** A second `add` for a registered session breaks the one-timer shape: the
      first timer stays live but is no longer anyone's handle, so `remove`
      cannot reach it and it keeps checking the session. */
  lemma DoubleAddLeaksTimer(w: Watchdog, sessionId: int, now: int, later: int)
    requires Valid(w)
    ensures var w2 := Add(Add(w, sessionId, now), sessionId, later);
      var r := Remove(w2, sessionId);
      && !SingleTimer(w2)
      && r.timers[|w.timers|] == Timer(sessionId, Mul(w.heartbeatTimeoutMillis, 2), false)
      && sessionId !in r.handles
  {
    var w1 := Add(w, sessionId, now);
    var w2 := Add(w1, sessionId, later);
    assert w2.timers[|w.timers|] == w1.timers[|w.timers|];
  }

  /** `add` that first disposes the timer already registered for the
      session, so each session has at most one live check. */
  function AddReplacing(w: Watchdog, sessionId: int, now: int): (r: Watchdog)
    requires forall s :: s in w.handles ==> w.handles[s] < |w.timers|
    ensures r.lastTimeNs == w.lastTimeNs[sessionId := now]
    ensures r.handles == w.handles[sessionId := |w.timers|]
  {
    Add(Remove(w, sessionId), sessionId, now)
  }

  /** With `AddReplacing`, every session keeps at most one live timer, so
      `remove` always silences it. */
  lemma AddReplacingKeepsSingleTimer(w: Watchdog, sessionId: int, now: int)
    requires Valid(w) && SingleTimer(w)
    ensures Valid(AddReplacing(w, sessionId, now)) && SingleTimer(AddReplacing(w, sessionId, now))
  {
    var m := Remove(w, sessionId);
    ValidIsInvariant(w, sessionId, now);
    ValidIsInvariant(m, sessionId, now);
    var r := Add(m, sessionId, now);
    forall t | 0 <= t < |r.timers| && !r.timers[t].disposed
      ensures r.timers[t].sessionId in r.handles && r.handles[r.timers[t].sessionId] == t
    {
      if t < |m.timers| {
        assert r.timers[t] == m.timers[t];
      }
    }
  }
}
