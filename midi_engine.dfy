// `MidiEngine`: the start/stop state machine over the session fields, and one
// playback pass run sequentially against an abstract clock, an abstract
// interruption oracle and an event chain that records what it receives.
module Engine {
  import opened MidiEvents
  import opened ReduceTracks

  /** Extra wait before the first event (`200` in `playMidiStream`). */
  const LeadInMillis: int := 200
  /** The coarse sleep stops this many milliseconds before the deadline. */
  const ChurnWindowMillis: int := 5
  /** Hold after the last event, for trailing echo. */
  const TrailingHoldMillis: int := 1000

  /** `MidiEventChain`, a foreign sink: each delivery is appended to `delivered`. */
  class EventChain {
    var delivered: seq<Delivered>

    constructor ()
      ensures delivered == []
    {
      delivered := [];
    }

    method SendEventToNext(e: Delivered)
      modifies this
      ensures delivered == old(delivered) + [e]
    {
      delivered := delivered + [e];
    }
  }

  /**
   * What the engine thread sees of the world: the millisecond timer, which
   * never runs backwards, and the thread's interruption status, which other
   * threads may set at any time and is therefore an oracle here.
   */
  class Host {
    var now: int

    constructor (now: int)
      ensures this.now == now
    {
      this.now := now;
    }

    /** `Timer.getInstance().getValue(MILLISECONDS)`. */
    method CurrentMillis() returns (t: int)
      modifies this
      ensures old(now) <= now && t == now
    {
      var elapsed: nat :| true;
      now := now + elapsed;
      t := now;
    }

    /** `Thread.interrupted()`: any answer is possible. */
    method Interrupted() returns (b: bool)
    {
      b :| true;
    }

    /** `Thread.sleep(millis)`, which rejects a negative length; the sleep may be cut short by an interruption. */
    method Sleep(millis: int) returns (interrupted: bool)
      requires millis >= 0
      modifies this
      ensures old(now) <= now
    {
      var elapsed: nat :| true;
      now := now + elapsed;
      interrupted :| true;
    }

    /** The busy-wait `while (eventMillis - getCurrentMillis() > 0) {}`, reduced to what it achieves. */
    method ChurnUntil(deadline: int)
      modifies this
      ensures old(now) <= now && deadline <= now
    {
      var elapsed: nat :| true;
      now := (if now < deadline then deadline else now) + elapsed;
    }
  }

  /** `Math.max(millisDiff - 5, 0)`: the length of the coarse sleep. */
  function SleepMillis(millisDiff: int): (d: int)
    ensures d >= 0
    ensures millisDiff > 0 ==> d < millisDiff
    ensures millisDiff > ChurnWindowMillis ==> d == millisDiff - ChurnWindowMillis
    ensures millisDiff <= ChurnWindowMillis ==> d == 0
  {
    if millisDiff - ChurnWindowMillis > 0 then millisDiff - ChurnWindowMillis else 0
  }

  /**
   * `eventMillis` of `waitForEvent`: the completion time of the previous
   * event plus the timing model's distance between the two ticks, with
   * `tickBase + tickDelta` computed in Java `int` arithmetic.
   */
  function EventDeadline(timing: Timing, tickBase: Int32, tickDelta: Int32, lastMillis: int): (r: int)
    ensures tickDelta == 0 ==> r == lastMillis
  {
    lastMillis + (timing.millisecondOffset(Wrap32(tickBase + tickDelta)) - timing.millisecondOffset(tickBase))
  }

  lemma WrapShift(x: int, m: int)
    ensures Wrap32(x + m * 0x1_0000_0000) == Wrap32(x)
  {
    var y := x + 0x8000_0000;
    assert (y + m * 0x1_0000_0000) % 0x1_0000_0000 == y % 0x1_0000_0000 by {
      var q := y / 0x1_0000_0000;
      var r := y % 0x1_0000_0000;
      assert y + m * 0x1_0000_0000 == (q + m) * 0x1_0000_0000 + r;
    }
  }

  /** Adding back a wrapped difference gives the original tick: `a + (b - a)` is `b` in `int` arithmetic. */
  lemma WrapRoundTrip(a: Int32, b: Int32)
    ensures Wrap32(a + Wrap32(b - a)) == b
  {
    var w := Wrap32(b - a);
    var m := (w - (b - a)) / 0x1_0000_0000;
    assert w == b - a + m * 0x1_0000_0000;
    WrapShift(b, m);
  }

  /** The deadline of an event only depends on the two ticks: the wrapped delta cancels out. */
  lemma DeadlineOfTick(timing: Timing, lastTick: Int32, tick: Int32, lastMillis: int)
    ensures EventDeadline(timing, lastTick, Wrap32(tick - lastTick), lastMillis)
            == lastMillis + timing.millisecondOffset(tick) - timing.millisecondOffset(lastTick)
  {
    WrapRoundTrip(lastTick, tick);
  }

  /** `startMillis`: the clock reading plus the lead-in, less the offset tick's millisecond position. */
  function StartAnchor(timing: Timing, clock: int): (r: int)
    ensures timing.millisecondOffset(timing.offsetTicks) == 0 ==> r == clock + LeadInMillis
  {
    clock + (LeadInMillis - timing.millisecondOffset(timing.offsetTicks))
  }

  /** The tick before the `i`-th delivered event: the offset tick for the first. */
  function PrevTick(timing: Timing, sent: seq<MidiEvent>, i: nat): Int32
    requires i <= |sent|
  {
    if i == 0 then timing.offsetTicks else sent[i - 1].tick
  }

  /** The completion time before the `i`-th delivered event: `startMillis` for the first. */
  function PrevComplete(startMillis: int, completes: seq<int>, i: nat): int
    requires i <= |completes|
  {
    if i == 0 then startMillis else completes[i - 1]
  }

  /** The deadline of the `i`-th delivered event. */
  function DeadlineAt(timing: Timing, startMillis: int, sent: seq<MidiEvent>, completes: seq<int>, i: nat): int
    requires i < |sent| && i <= |completes|
  {
    PrevComplete(startMillis, completes, i)
      + timing.millisecondOffset(sent[i].tick) - timing.millisecondOffset(PrevTick(timing, sent, i))
  }

  /**
   * Delivery `i` of a pass: handed to the chain at `sentAt[i]`, no earlier
   * than its deadline and no earlier than the previous completion, after
   * which the clock read `completes[i]`.
   */
  ghost predicate OnTimeAt(timing: Timing, startMillis: int, sent: seq<MidiEvent>, sentAt: seq<int>, completes: seq<int>, i: nat)
    requires i < |sent| && i < |sentAt| && i < |completes|
  {
    DeadlineAt(timing, startMillis, sent, completes, i) <= sentAt[i] <= completes[i] &&
    (i > 0 ==> completes[i - 1] <= sentAt[i])
  }

  /** The delivery times of a pass: every delivery on time, so the times never run backwards. */
  ghost predicate OnSchedule(timing: Timing, startMillis: int, sent: seq<MidiEvent>, sentAt: seq<int>, completes: seq<int>)
  {
    |sentAt| == |sent| && |completes| == |sent| &&
    forall i :: 0 <= i < |sent| ==> OnTimeAt(timing, startMillis, sent, sentAt, completes, i)
  }

  /** Total lateness of the first `n` deliveries: how much later than its deadline each one completed. */
  function Lateness(timing: Timing, startMillis: int, sent: seq<MidiEvent>, completes: seq<int>, n: nat): int
    requires n <= |sent| && n <= |completes|
  {
    if n == 0 then 0
    else Lateness(timing, startMillis, sent, completes, n - 1)
         + (completes[n - 1] - DeadlineAt(timing, startMillis, sent, completes, n - 1))
  }

  /**
   * Deadlines are relative to the previous completion, so each one is the
   * ideal position of its tick after `startMillis` shifted by all earlier
   * lateness: an early delay carries over to every later event.
   */
  lemma {:induction false} DeadlineDrift(timing: Timing, startMillis: int, sent: seq<MidiEvent>, completes: seq<int>, i: nat)
    requires i < |sent| && i <= |completes|
    ensures DeadlineAt(timing, startMillis, sent, completes, i)
            == startMillis
               + (timing.millisecondOffset(sent[i].tick) - timing.millisecondOffset(timing.offsetTicks))
               + Lateness(timing, startMillis, sent, completes, i)
  {
    if i > 0 {
      DeadlineDrift(timing, startMillis, sent, completes, i - 1);
    }
  }

  lemma {:induction false} LatenessNonNegative(timing: Timing, startMillis: int, sent: seq<MidiEvent>, sentAt: seq<int>, completes: seq<int>, n: nat)
    requires OnSchedule(timing, startMillis, sent, sentAt, completes) && n <= |sent|
    ensures Lateness(timing, startMillis, sent, completes, n) >= 0
  {
    if n > 0 {
      LatenessNonNegative(timing, startMillis, sent, sentAt, completes, n - 1);
      assert OnTimeAt(timing, startMillis, sent, sentAt, completes, n - 1);
    }
  }

  /** No event of a pass is delivered before its tick's position on the timeline anchored at `startMillis`. */
  lemma NeverEarly(timing: Timing, startMillis: int, sent: seq<MidiEvent>, sentAt: seq<int>, completes: seq<int>)
    requires OnSchedule(timing, startMillis, sent, sentAt, completes)
    ensures forall i :: 0 <= i < |sent| ==>
              sentAt[i] >= startMillis + timing.millisecondOffset(sent[i].tick)
                                       - timing.millisecondOffset(timing.offsetTicks)
  {
    forall i | 0 <= i < |sent|
      ensures sentAt[i] >= startMillis + timing.millisecondOffset(sent[i].tick)
                                       - timing.millisecondOffset(timing.offsetTicks)
    {
      DeadlineDrift(timing, startMillis, sent, completes, i);
      LatenessNonNegative(timing, startMillis, sent, sentAt, completes, i);
      assert OnTimeAt(timing, startMillis, sent, sentAt, completes, i);
    }
  }

  /**
   * The first deadline is measured from the offset tick at `startMillis`,
   * and `startMillis` already subtracts the offset tick's position, so an
   * event at the offset tick gets the full 200 ms lead-in only when that
   * position is 0 ms.
   */
  lemma FirstDeadline(timing: Timing, clock: int, e: MidiEvent)
    ensures DeadlineAt(timing, StartAnchor(timing, clock), [e], [], 0)
            == clock + LeadInMillis + timing.millisecondOffset(e.tick)
               - 2 * timing.millisecondOffset(timing.offsetTicks)
  {
  }

  datatype PassOutcome =
    | Completed       // the stream ran dry; the trailing hold was taken
    | ReturnedEarly   // a cancellation point fired (`EarlyReturnError`)
    | Failed          // a session field was null (`NullPointerException`)

  /** What a pass observed: the clock when it anchored `startMillis`, and each delivered event with its times. */
  datatype PassTrace = PassTrace(clockAtStart: int, sent: seq<MidiEvent>, sentAt: seq<int>, completes: seq<int>)

  /** The engine's fields as one value. */
  datatype EngineState = EngineState(
    alive: bool, running: bool, timing: Option<Timing>,
    chain: EventChain?, stream: TrackCursor?, startMillis: int)

  /** The state `start` leaves: the session installed and running, unless the thread is dead. */
  function Started(s: EngineState, timing: Timing, chain: EventChain, stream: TrackCursor): EngineState
  {
    if s.alive then s.(running := true, timing := Some(timing), chain := chain, stream := stream) else s
  }

  /** The state `stop` leaves: not running, no session. */
  function Stopped(s: EngineState): EngineState
  {
    s.(running := false, timing := None, chain := null, stream := null)
  }

  /** Stopping twice is stopping once, and stopping discards whatever `start` installed. */
  lemma StopIdempotent(s: EngineState, timing: Timing, chain: EventChain, stream: TrackCursor)
    ensures Stopped(Stopped(s)) == Stopped(s)
    ensures Stopped(Started(s, timing, chain, stream)) == Stopped(s)
    ensures !Stopped(s).running && Stopped(s).timing.None? && Stopped(s).chain == null && Stopped(s).stream == null
    ensures s.alive ==> Started(s, timing, chain, stream).running
  {
  }

  class MidiEngine {
    /** `thread.isAlive()`. */
    var alive: bool
    var running: bool
    var startMillis: int
    var chain: EventChain?
    var timing: Option<Timing>
    var stream: TrackCursor?

    function State(): EngineState
      reads this
    {
      EngineState(alive, running, timing, chain, stream, startMillis)
    }

    /** The constructor starts the engine thread, which then waits for a session. */
    constructor ()
      ensures State() == EngineState(true, false, None, null, null, 0)
    {
      alive := true;
      running := false;
      startMillis := 0;
      chain := null;
      timing := None;
      stream := null;
    }

    /** `start`: rejected (`checkState`) when the thread is dead; otherwise installs the session and sets `running`. */
    method Start(timing: Timing, chain: EventChain, stream: TrackCursor) returns (ok: bool)
      modifies this
      ensures ok == old(alive)
      ensures State() == Started(old(State()), timing, chain, stream)
    {
      if !alive {
        return false;
      }
      this.timing := Some(timing);
      this.chain := chain;
      this.stream := stream;
      SetRunning(true);
      ok := true;
    }

    /** `stop`: clears `running` and the session fields; the interrupt it sends is part of the oracle. */
    method Stop()
      modifies this
      ensures State() == Stopped(old(State()))
    {
      SetRunning(false);
      chain := null;
      timing := None;
      stream := null;
    }

    /** `setRunning`: the write under the lock; the signal wakes a waiter and changes no state. */
    method SetRunning(running: bool)
      modifies this
      ensures State() == old(State()).(running := running)
    {
      this.running := running;
    }

    /** The thread ending (the `InterruptedException` path of `run`), whose `finally` calls `stop`. */
    method ThreadExit()
      modifies this
      ensures State() == Stopped(old(State())).(alive := false)
    {
      Stop();
      alive := false;
    }

    /** `checkIfShouldReturn`: return early when not running or when the thread was interrupted. */
    method CheckIfShouldReturn(host: Host) returns (shouldReturn: bool)
      ensures !running ==> shouldReturn
    {
      var interrupted := host.Interrupted();
      shouldReturn := !running || interrupted;
    }

    /**
     * `waitForEvent`: when the deadline is ahead, sleep to within 5 ms of
     * it and then spin until it is reached. An interrupted sleep is an early
     * return, possible only when the deadline was ahead.
     */
    method WaitForEvent(host: Host, tickBase: Int32, tickDelta: Int32, timing: Timing, lastMillis: int)
      returns (interrupted: bool)
      modifies host
      ensures old(host.now) <= host.now
      ensures !interrupted ==> host.now >= EventDeadline(timing, tickBase, tickDelta, lastMillis)
      ensures interrupted ==> old(host.now) < EventDeadline(timing, tickBase, tickDelta, lastMillis)
    {
      var lastMillisEstimate := timing.millisecondOffset(tickBase);
      var nextMillisEstimate := timing.millisecondOffset(Wrap32(tickBase + tickDelta));
      var realDelay := nextMillisEstimate - lastMillisEstimate;
      var eventMillis := lastMillis + realDelay;
      var now := host.CurrentMillis();
      var millisDiff := eventMillis - now;
      interrupted := false;
      if millisDiff > 0 {
        interrupted := host.Sleep(SleepMillis(millisDiff));
        if interrupted {
          return;
        }
        host.ChurnUntil(eventMillis);
      }
    }

    ghost function PassFrame(): set<object>
      reads this
    {
      {this} + (if chain == null then {} else {chain})
             + (if stream == null then {} else {stream, stream.indexes, stream.control})
    }

    /**
     * `playMidiStream`: one playback pass over the installed session. The
     * Start marker goes first, then events in stream order, each at or after
     * its deadline, then the Stop marker, also when a cancellation point cuts
     * the pass short (the `finally`).
     */
    method PlayMidiStream(host: Host) returns (outcome: PassOutcome, ghost trace: PassTrace)
      requires stream != null ==> stream.Valid()
      modifies PassFrame(), host
      ensures alive == old(alive) && running == old(running)
      ensures timing == old(timing) && chain == old(chain) && stream == old(stream)
      // `timing.getMillisecondOffset` on a null timing: nothing is sent
      ensures old(timing).None? ==>
                outcome == Failed && startMillis == old(startMillis) &&
                (chain != null ==> chain.delivered == old(chain.delivered)) &&
                (stream != null ==> stream.indexes[..] == old(stream.indexes[..]) &&
                                    stream.control.scheduledReplays == old(stream.control.scheduledReplays))
      ensures old(timing).Some? ==>
                old(host.now) <= trace.clockAtStart &&
                startMillis == StartAnchor(old(timing).value, trace.clockAtStart)
      // a null chain fails at the Start marker, before the stream is touched
      ensures old(timing).Some? && chain == null ==>
                outcome == Failed &&
                (stream != null ==> stream.indexes[..] == old(stream.indexes[..]) &&
                                    stream.control.scheduledReplays == old(stream.control.scheduledReplays))
      // a null stream fails after the Start marker; the `finally` still sends Stop
      ensures old(timing).Some? && chain != null && stream == null ==>
                outcome == Failed &&
                chain.delivered == old(chain.delivered) + [StartEvent(MinInt32, startMillis), StopEvent]
      ensures old(timing).Some? && chain != null && stream != null ==>
                outcome != Failed && stream.Valid() &&
                chain.delivered == old(chain.delivered) + [StartEvent(MinInt32, startMillis)]
                                   + Wrapped(trace.sent) + [StopEvent] &&
                trace.sent <= old(stream.Remaining()) &&
                (outcome == Completed <==> trace.sent == old(stream.Remaining())) &&
                (outcome == Completed ==> stream.Remaining() == []) &&
                |trace.sent| + |stream.Remaining()| <= |old(stream.Remaining())|
                                                      <= |trace.sent| + |stream.Remaining()| + 1 &&
                stream.control.looping == old(stream.control.looping) &&
                stream.control.scheduledReplays
                  == old(stream.control.scheduledReplays)
                     + (if outcome == Completed && stream.control.looping && !old(stream.done) then 1 else 0) &&
                OnSchedule(old(timing).value, startMillis, trace.sent, trace.sentAt, trace.completes) &&
                (!running ==> trace.sent == [])
    {
      var stream := this.stream;
      var timing := this.timing;
      var chain := this.chain;
      trace := PassTrace(0, [], [], []);
      if timing.None? {
        return Failed, trace;
      }
      var t := timing.value;
      var offsetMillis := LeadInMillis - t.millisecondOffset(t.offsetTicks);
      var clock := host.CurrentMillis();
      var anchor := clock + offsetMillis;
      this.startMillis := anchor;
      trace := trace.(clockAtStart := clock);
      if chain == null {
        return Failed, trace;
      }
      chain.SendEventToNext(StartEvent(MinInt32, anchor));
      if stream == null {
        chain.SendEventToNext(StopEvent);
        return Failed, trace;
      }
      ghost var sent, sentAt, completes;
      outcome, sent, sentAt, completes := DeliverStream(host, t, chain, stream, anchor);
      if outcome == Completed {
        // the trailing hold; an interruption only ends it early
        var _ := host.Sleep(TrailingHoldMillis);
      }
      chain.SendEventToNext(StopEvent);
      trace := trace.(sent := sent, sentAt := sentAt, completes := completes);
    }

    /**
     * The `while (stream.hasNext())` loop of `playMidiStream`: check for
     * cancellation, pull the next event, wait for its deadline, check again,
     * deliver it and note its tick and the completion time. The events
     * delivered are a prefix of what the stream had left, all of it exactly
     * when the stream ran dry, which is also when the replay hook ran; at
     * most one event pulled from the stream is lost, the one a cancellation
     * at the second check drops.
     */
    method DeliverStream(host: Host, t: Timing, chain: EventChain, stream: TrackCursor, anchor: int)
      returns (outcome: PassOutcome, ghost sent: seq<MidiEvent>, ghost sentAt: seq<int>, ghost completes: seq<int>)
      requires stream.Valid()
      modifies stream, stream.indexes, stream.control, chain, host
      ensures stream.Valid() && outcome != Failed
      ensures chain.delivered == old(chain.delivered) + Wrapped(sent)
      ensures sent <= old(stream.Remaining())
      ensures outcome == Completed <==> sent == old(stream.Remaining())
      ensures outcome == Completed ==> stream.Remaining() == []
      ensures |sent| + |stream.Remaining()| <= |old(stream.Remaining())| <= |sent| + |stream.Remaining()| + 1
      ensures stream.control.looping == old(stream.control.looping)
      ensures stream.control.scheduledReplays
              == old(stream.control.scheduledReplays)
                 + (if outcome == Completed && stream.control.looping && !old(stream.done) then 1 else 0)
      ensures OnSchedule(t, anchor, sent, sentAt, completes)
      ensures !running ==> sent == []
    {
      var lastEventTick: Int32 := t.offsetTicks;
      var lastEventCompleteMillis := anchor;
      ghost var delivered0 := chain.delivered;
      ghost var all := stream.Remaining();
      ghost var replays0 := stream.control.scheduledReplays;
      sent, sentAt, completes := [], [], [];
      outcome := Completed;
      while true
        invariant stream.Valid()
        invariant all == sent + stream.Remaining()
        invariant chain.delivered == delivered0 + Wrapped(sent)
        invariant stream.control.looping == old(stream.control.looping)
        invariant stream.control.scheduledReplays == replays0
        invariant stream.done == old(stream.done)
        invariant OnSchedule(t, anchor, sent, sentAt, completes)
        invariant lastEventTick == PrevTick(t, sent, |sent|)
        invariant lastEventCompleteMillis == PrevComplete(anchor, completes, |sent|)
        invariant |sent| > 0 ==> completes[|sent| - 1] <= host.now
        invariant !running ==> sent == []
        decreases |stream.Remaining()|
      {
        var r, cancelled := PullUnlessCancelled(host, stream);
        if cancelled {
          outcome := ReturnedEarly;
          break;
        }
        if r.None? {
          break;
        }
        var next := r.value;
        ghost var rest := stream.Remaining();
        assert sent + ([next] + rest) == (sent + [next]) + rest;
        var delivered;
        delivered, lastEventTick, lastEventCompleteMillis, sent, sentAt, completes :=
          RecordDelivery(host, t, chain, anchor, next, lastEventTick, lastEventCompleteMillis,
                         delivered0, sent, sentAt, completes);
        if !delivered {
          outcome := ReturnedEarly;
          break;
        }
        assert stream.Remaining() == rest;
      }
    }

    /**
     * `stream.hasNext()`, the first cancellation point, then `stream.next()`:
     * the head of what the stream has left, nothing once it is exhausted, or
     * a cancellation that leaves the stream as it was.
     */
    method PullUnlessCancelled(host: Host, stream: TrackCursor) returns (r: Option<MidiEvent>, cancelled: bool)
      requires stream.Valid()
      modifies stream, stream.indexes, stream.control
      ensures stream.Valid()
      ensures stream.control.looping == old(stream.control.looping)
      ensures cancelled ==>
                r.None? && old(stream.Remaining()) != [] && stream.Remaining() == old(stream.Remaining()) &&
                stream.done == old(stream.done) &&
                stream.control.scheduledReplays == old(stream.control.scheduledReplays)
      ensures !running && old(stream.Remaining()) != [] ==> cancelled
      ensures !cancelled ==> (r.None? <==> old(stream.Remaining()) == [])
      ensures r.Some? ==>
                old(stream.Remaining()) == [r.value] + stream.Remaining() &&
                stream.done == old(stream.done) &&
                stream.control.scheduledReplays == old(stream.control.scheduledReplays)
      ensures !cancelled && r.None? ==>
                stream.Remaining() == [] &&
                stream.control.scheduledReplays
                  == old(stream.control.scheduledReplays)
                     + (if !old(stream.done) && stream.control.looping then 1 else 0)
    {
      var hasNext := stream.HasNext();
      if !hasNext {
        return None, false;
      }
      cancelled := CheckIfShouldReturn(host);
      if cancelled {
        return None, true;
      }
      label pulled:
      r := stream.Next();
      assert old@pulled(stream.Remaining()) == [r.value] + stream.Remaining();
    }

    /**
     * A delivery attempt together with the trace it extends: when the event
     * is delivered it joins `sent`, at or after its deadline, and becomes the
     * reference for the next deadline.
     */
    method RecordDelivery(host: Host, t: Timing, chain: EventChain, anchor: int, next: MidiEvent,
                          lastEventTick: Int32, lastEventCompleteMillis: int, ghost delivered0: seq<Delivered>,
                          ghost sent: seq<MidiEvent>, ghost sentAt: seq<int>, ghost completes: seq<int>)
      returns (delivered: bool, tick: Int32, completeMillis: int,
               ghost sent': seq<MidiEvent>, ghost sentAt': seq<int>, ghost completes': seq<int>)
      requires chain.delivered == delivered0 + Wrapped(sent)
      requires OnSchedule(t, anchor, sent, sentAt, completes)
      requires lastEventTick == PrevTick(t, sent, |sent|)
      requires lastEventCompleteMillis == PrevComplete(anchor, completes, |sent|)
      requires |sent| > 0 ==> completes[|sent| - 1] <= host.now
      modifies host, chain
      ensures !delivered ==> chain.delivered == old(chain.delivered) && sent' == sent
      ensures !running ==> !delivered
      ensures delivered ==> sent' == sent + [next]
      ensures chain.delivered == delivered0 + Wrapped(sent')
      ensures OnSchedule(t, anchor, sent', sentAt', completes')
      ensures tick == PrevTick(t, sent', |sent'|)
      ensures completeMillis == PrevComplete(anchor, completes', |sent'|)
      ensures |sent'| > 0 ==> completes'[|sent'| - 1] <= host.now
    {
      ghost var at;
      delivered, completeMillis, at := DeliverEvent(host, t, chain, next, lastEventTick, lastEventCompleteMillis);
      if !delivered {
        return false, lastEventTick, lastEventCompleteMillis, sent, sentAt, completes;
      }
      tick := next.tick;
      OnScheduleExtend(t, anchor, sent, sentAt, completes, next, at, completeMillis);
      sent', sentAt', completes' := sent + [next], sentAt + [at], completes + [completeMillis];
      WrappedSnoc(sent, next);
    }

    /**
     * The rest of a turn once the stream has yielded `next`: the wait for
     * the deadline, the second cancellation point, the delivery, and the clock reading that becomes the next reference.
     * `delivered` is false when the pass is to return early.
     */
    method DeliverEvent(host: Host, t: Timing, chain: EventChain, next: MidiEvent, lastEventTick: Int32, lastEventCompleteMillis: int)
      returns (delivered: bool, completeMillis: int, ghost at: int)
      modifies host, chain
      ensures old(host.now) <= host.now
      ensures !delivered ==> chain.delivered == old(chain.delivered)
      ensures !running ==> !delivered
      ensures delivered ==>
                chain.delivered == old(chain.delivered) + [Event(next)] &&
                at >= lastEventCompleteMillis + t.millisecondOffset(next.tick) - t.millisecondOffset(lastEventTick) &&
                old(host.now) <= at <= completeMillis && completeMillis == host.now
    {
      at := host.now;
      completeMillis := host.now;
      var interrupted := WaitForEvent(host, lastEventTick, Wrap32(next.tick - lastEventTick), t, lastEventCompleteMillis);
      if interrupted {
        return false, completeMillis, at;
      }
      var shouldReturn := CheckIfShouldReturn(host);
      if shouldReturn {
        return false, completeMillis, at;
      }
      DeadlineOfTick(t, lastEventTick, next.tick, lastEventCompleteMillis);
      at := host.now;
      chain.SendEventToNext(Event(next));
      completeMillis := host.CurrentMillis();
      delivered := true;
    }
  }

  /** A delivery at or after its deadline, followed by a later clock reading, extends an on-schedule trace. */
  lemma OnScheduleExtend(timing: Timing, startMillis: int, sent: seq<MidiEvent>, sentAt: seq<int>, completes: seq<int>,
                         next: MidiEvent, at: int, complete: int)
    requires OnSchedule(timing, startMillis, sent, sentAt, completes)
    requires at >= PrevComplete(startMillis, completes, |sent|)
                   + timing.millisecondOffset(next.tick)
                   - timing.millisecondOffset(PrevTick(timing, sent, |sent|))
    requires |sent| > 0 ==> completes[|sent| - 1] <= at
    requires at <= complete
    ensures OnSchedule(timing, startMillis, sent + [next], sentAt + [at], completes + [complete])
  {
    var s', a', c' := sent + [next], sentAt + [at], completes + [complete];
    forall i | 0 <= i < |s'|
      ensures OnTimeAt(timing, startMillis, s', a', c', i)
    {
      if i < |sent| {
        assert OnTimeAt(timing, startMillis, sent, sentAt, completes, i);
        assert PrevTick(timing, s', i) == PrevTick(timing, sent, i);
        assert PrevComplete(startMillis, c', i) == PrevComplete(startMillis, completes, i);
      } else {
        assert PrevTick(timing, s', i) == PrevTick(timing, sent, i);
        assert PrevComplete(startMillis, c', i) == PrevComplete(startMillis, completes, i);
      }
    }
  }
}
