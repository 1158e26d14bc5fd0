# MidiShapes2 player core in Dafny

This project models the two pieces of sequential logic inside the MidiShapes2
real-time MIDI player and proves properties about them.

- **The track merger.** `MidiPlayer.reduceTracks` returns an iterator that
  merges the tracks of a MIDI file into one stream. It keeps one cursor per
  track in an `int[] indexes` array. On each step it scans every track's
  head and emits the event with the smallest tick, keeping the lowest track
  index on ties. It then advances only that track's cursor. When every track
  is exhausted and looping is on, it asks the scheduler to replay the file.
- **The player façade.** `play`, `stop`, `isRunning`, the sound sink, the
  `looping` flag, and the scheduled replay task all act on the remembered
  `midiFile` and the engine.
- **The engine.** `MidiEngine.start`, `stop` and `setRunning` form a state
  machine over the session fields `running`, `timing`, `chain` and `stream`.
  `playMidiStream` is one playback pass:
  - It anchors `startMillis` and sends a Start marker.
  - It delivers the stream's events one by one. Each waits for its deadline
    in `waitForEvent`, and each is preceded by cancellation checks.
  - It sends a Stop marker from its `finally`.

Modules, one file each:

- `MidiEvents` (`events.dfy`): the values the player passes around.
  - Events with 32-bit ticks.
  - Tracks and files.
  - The three kinds of delivered item.
  - Java `int` wrap-around, as `Wrap32`.
  - The timing model: an uninterpreted tick-to-millisecond function and the
    offset tick.
- `TrackMerge` (`track_merge.dfy`): the merge stated over values.
  - `Merge(tracks, cur)` is the sequence of `(track, event)` pairs the
    iterator will emit from the cursors `cur`.
  - `Choose` is the track it advances next.
  - The lemmas state the ordering and permutation properties.
- `ReduceTracks` (`reduce_tracks.dfy`): the iterator itself.
  - A `TrackCursor` class owns the `indexes` array, updated in place.
  - `ListGet`, the scan loop and `ComputeNext` are proved against `Merge`.
  - `HasNext`/`Next` model the one-element look-ahead of Guava's
    `AbstractIterator`, which the iterator extends.
  - `LoopControl` holds the `looping` flag and counts the replay requests.
    The player and every iterator it builds share it, just as the anonymous
    inner class shares its enclosing player's state.
- `Engine` (`midi_engine.dfy`): the `MidiEngine` class and the playback pass.
  - A `Host` stands for the environment: a monotone millisecond clock and a
    nondeterministic interruption oracle.
  - An `EventChain` records every item it receives.
- `Player` (`midi_player.dfy`): the `MidiPlayer` class and a value-level
  specification of its state, `PlayerState`.

The Java loop `while (stream.hasNext()) { … }` of `playMidiStream` is split
into four methods:

- `DeliverStream`: the loop itself.
- `PullUnlessCancelled`: `hasNext`, the first cancellation check, and `next`.
- `RecordDelivery`: the delivery attempt together with the trace it extends.
- `DeliverEvent`: the wait, the second check and the send.

Read together, the four do what the one Java method does, in the same order.
Every delivery is recorded in a ghost trace, with one entry per event:

- `sent`: the event delivered;
- `sentAt`: the clock when it was handed to the chain;
- `completes`: the clock read right after.

`OnSchedule` says that each entry was on time.

## Model

| member | source | states |
|---|---|---|
| MidiEvents.Wrap32 | src/main/java/com/techshroom/midishapes/midi/player/MidiEngine.java:200 | the result is a Java `int` congruent to its argument modulo 2^32, and equal to it when it already fits |
| MidiEvents.Wrapped | src/main/java/com/techshroom/midishapes/midi/player/MidiEngine.java:177 | each delivered event reaches the chain as itself, in order, one item per event |
| MidiEvents.Zeros | MidiShapes2/src/main/java/com/techshroom/midishapes/midi/player/MidiPlayer.java:98 | `new int[n]`: n cursors, all at 0 |
| TrackMerge.PickSpec | MidiShapes2/src/main/java/com/techshroom/midishapes/midi/player/MidiPlayer.java:102-119 | scanning the first n tracks finds nothing exactly when they are all exhausted; otherwise it finds the track whose head has the minimum tick, with every lower-indexed head strictly greater |
| TrackMerge.Pick | MidiShapes2/src/main/java/com/techshroom/midishapes/midi/player/MidiPlayer.java:102-119 | scanning the first n tracks in index order yields, when it yields anything, one of those tracks that still has a head (its full selection rule is PickSpec) |
| TrackMerge.Choose | MidiShapes2/src/main/java/com/techshroom/midishapes/midi/player/MidiPlayer.java:102-119 | the scan over all tracks yields, when it yields anything, an existing track that still has a head (its full selection rule is ChooseSpec) |
| TrackMerge.Advance | MidiShapes2/src/main/java/com/techshroom/midishapes/midi/player/MidiPlayer.java:121 | `indexes[k]++`: cursor k moves up by one and every other cursor stays where it was |
| TrackMerge.Merge | MidiShapes2/src/main/java/com/techshroom/midishapes/midi/player/MidiPlayer.java:101-132 | no contract of its own: the stream of `(track, event)` pairs the iterator hands out from the cursors, one `Choose` and one `Advance` per step; MergeStep, MergeLength, MergeOnTrack, MergeSorted and MergeTieBreak state what it is |
| TrackMerge.ChoiceUnique | MidiShapes2/src/main/java/com/techshroom/midishapes/midi/player/MidiPlayer.java:114 | the strict `>` leaves at most one track that can be chosen, so ties are resolved deterministically |
| TrackMerge.ChooseSpec | MidiShapes2/src/main/java/com/techshroom/midishapes/midi/player/MidiPlayer.java:102-119 | no track is chosen exactly when every track is exhausted; otherwise the chosen track is the minimum-tick head with ties going to the lowest index, in both directions |
| TrackMerge.PendingAdvance | MidiShapes2/src/main/java/com/techshroom/midishapes/midi/player/MidiPlayer.java:120-122 | advancing the cursor of a track with a head keeps every cursor in range and lowers the number of pending events by one |
| TrackMerge.PendingZeros | MidiShapes2/src/main/java/com/techshroom/midishapes/midi/player/MidiPlayer.java:98 | the zeroed cursor array is valid, and the events pending under it are all the events of the tracks |
| TrackMerge.PendingZero | MidiShapes2/src/main/java/com/techshroom/midishapes/midi/player/MidiPlayer.java:135-141 | nothing is pending exactly when every cursor is at the end of its track |
| TrackMerge.MergeStep | MidiShapes2/src/main/java/com/techshroom/midishapes/midi/player/MidiPlayer.java:120-131 | the merge is empty when no track can be chosen; otherwise it is the chosen head followed by the merge from the cursors with only that track advanced |
| TrackMerge.MergeLength | MidiShapes2/src/main/java/com/techshroom/midishapes/midi/player/MidiPlayer.java:101-131 | the merge emits exactly as many events as are pending under the cursors |
| TrackMerge.MergeLengthFromStart | MidiShapes2/src/main/java/com/techshroom/midishapes/midi/player/MidiPlayer.java:95-131 | a fresh iterator emits exactly the sum of the track lengths |
| TrackMerge.MergeTracksInRange | MidiShapes2/src/main/java/com/techshroom/midishapes/midi/player/MidiPlayer.java:104-121 | every emitted event is tagged with an existing track |
| TrackMerge.MergeOnTrack | MidiShapes2/src/main/java/com/techshroom/midishapes/midi/player/MidiPlayer.java:120-122 | the emitted events of any one track are exactly that track's remaining events, in the track's order (with MergeLength: the output is a permutation of the input that keeps each track's order) |
| TrackMerge.MergeAtLeast | MidiShapes2/src/main/java/com/techshroom/midishapes/midi/player/MidiPlayer.java:102-119 | with sorted tracks, no emitted event has a smaller tick than a bound that every current head meets |
| TrackMerge.MergeSorted | MidiShapes2/src/main/java/com/techshroom/midishapes/midi/player/MidiPlayer.java:92-119 | if every track is tick-non-decreasing, the merged stream is tick-non-decreasing |
| TrackMerge.MergeTieBreakHead | MidiShapes2/src/main/java/com/techshroom/midishapes/midi/player/MidiPlayer.java:114-121 | the first two emitted events, when their ticks are equal, come from tracks in non-decreasing index order: the strict `>` keeps the lower index, and advancing one cursor leaves the others' heads alone |
| TrackMerge.MergeTieBreak | MidiShapes2/src/main/java/com/techshroom/midishapes/midi/player/MidiPlayer.java:101-131 | any two consecutive events of the merged stream with equal ticks come from tracks in non-decreasing index order |
| ReduceTracks.LoopControl.SetLooping | MidiShapes2/src/main/java/com/techshroom/midishapes/midi/player/MidiPlayer.java:80-83 | the flag takes the new value and no replay is requested |
| ReduceTracks.LoopControl.ScheduleReplay | MidiShapes2/src/main/java/com/techshroom/midishapes/midi/player/MidiPlayer.java:125-129 | one more replay is requested and the flag is unchanged |
| ReduceTracks.TrackCursor.constructor | MidiShapes2/src/main/java/com/techshroom/midishapes/midi/player/MidiPlayer.java:96-98 | a fresh cursor array of one zero per track, so the iterator will hand out the whole merge of the file's tracks |
| ReduceTracks.TrackCursor.ListGet | MidiShapes2/src/main/java/com/techshroom/midishapes/midi/player/MidiPlayer.java:134-142 | no event exactly when the track's cursor is at or past its end; otherwise the event under the cursor |
| ReduceTracks.TrackCursor.ScanHeads | MidiShapes2/src/main/java/com/techshroom/midishapes/midi/player/MidiPlayer.java:102-119 | -1 and no event exactly when every track is exhausted; otherwise the chosen track (minimum tick, lowest index on ties) and its head |
| ReduceTracks.TrackCursor.ComputeNext | MidiShapes2/src/main/java/com/techshroom/midishapes/midi/player/MidiPlayer.java:101-132 | emits the chosen head and advances only that track's cursor by one, or emits nothing and leaves the cursors alone when all are exhausted; a replay is requested exactly when nothing is emitted and looping is on; what is emitted is the head of `Merge`, and the rest of the merge comes from the new cursors |
| ReduceTracks.TrackCursor.HasNext | MidiShapes2/src/main/java/com/techshroom/midishapes/midi/player/MidiPlayer.java:96-132 | true exactly when events remain; the events still to be handed out are unchanged; a replay is requested only when the end is first discovered and looping is on |
| ReduceTracks.TrackCursor.Next | MidiShapes2/src/main/java/com/techshroom/midishapes/midi/player/MidiPlayer.java:96-132 | hands out the first remaining event and drops it from what remains, or nothing when nothing remains |
| Engine.EventChain.SendEventToNext | src/main/java/com/techshroom/midishapes/midi/player/MidiEngine.java:171-190 | the item is appended to what the chain has received |
| Engine.Host.CurrentMillis | src/main/java/com/techshroom/midishapes/midi/player/MidiEngine.java:194-196 | the clock never runs backwards, and the value read is the current time |
| Engine.Host.Interrupted | src/main/java/com/techshroom/midishapes/midi/player/MidiEngine.java:155 | no contract of its own: `Thread.interrupted()` is an oracle that may answer either way at every cancellation point |
| Engine.Host.Sleep | src/main/java/com/techshroom/midishapes/midi/player/MidiEngine.java:184-188 | the clock never runs backwards; the caller must pass a non-negative length |
| Engine.Host.ChurnUntil | src/main/java/com/techshroom/midishapes/midi/player/MidiEngine.java:211-213 | the busy-wait ends only when the clock has reached the deadline |
| Engine.SleepMillis | src/main/java/com/techshroom/midishapes/midi/player/MidiEngine.java:207 | the coarse sleep is never negative and is shorter than any positive distance to the deadline: 5 ms short of it, or none within 5 ms |
| Engine.EventDeadline | src/main/java/com/techshroom/midishapes/midi/player/MidiEngine.java:199-202 | `eventMillis`: an event at the same tick as the previous one is due at once, at the previous completion time (DeadlineOfTick gives the general deadline) |
| Engine.StartAnchor | src/main/java/com/techshroom/midishapes/midi/player/MidiEngine.java:166-167 | `startMillis`: with the offset tick at millisecond 0 the timeline starts 200 ms after the clock reading |
| Engine.WrapShift | src/main/java/com/techshroom/midishapes/midi/player/MidiEngine.java:175 | wrap-around ignores whole multiples of 2^32 |
| Engine.WrapRoundTrip | src/main/java/com/techshroom/midishapes/midi/player/MidiEngine.java:175 | adding back the wrapped `next.getTick() - lastEventTick` to `lastEventTick` gives the event's tick, whatever the overflow |
| Engine.DeadlineOfTick | src/main/java/com/techshroom/midishapes/midi/player/MidiEngine.java:198-202 | the deadline is the previous completion time plus the timing model's distance between the previous tick and the event's own tick |
| Engine.DeadlineDrift | src/main/java/com/techshroom/midishapes/midi/player/MidiEngine.java:168-179 | deadlines are relative to the previous completion, so each deadline is the tick's ideal position after `startMillis` shifted by the total lateness of all earlier deliveries |
| Engine.LatenessNonNegative | src/main/java/com/techshroom/midishapes/midi/player/MidiEngine.java:172-179 | in an on-schedule pass the accumulated lateness is never negative |
| Engine.NeverEarly | src/main/java/com/techshroom/midishapes/midi/player/MidiEngine.java:166-179 | no event of an on-schedule pass is delivered before its tick's position on the timeline anchored at `startMillis` |
| Engine.FirstDeadline | src/main/java/com/techshroom/midishapes/midi/player/MidiEngine.java:166-169 | the first deadline is the clock plus 200 plus the event's offset less twice the offset tick's offset, because the offset is subtracted once in `startMillis` and once more in the first delta |
| Engine.StopIdempotent | src/main/java/com/techshroom/midishapes/midi/player/MidiEngine.java:65-79 | stopping twice is stopping once; stopping after a start discards the session; a stopped engine neither runs nor holds a session; a started live engine runs |
| Engine.MidiEngine.constructor | src/main/java/com/techshroom/midishapes/midi/player/MidiEngine.java:59-63 | a live engine, not running, with no session |
| Engine.MidiEngine.Start | src/main/java/com/techshroom/midishapes/midi/player/MidiEngine.java:65-71 | rejected, with nothing changed, when the thread is dead; otherwise installs timing, chain and stream and sets running |
| Engine.MidiEngine.Stop | src/main/java/com/techshroom/midishapes/midi/player/MidiEngine.java:73-79 | clears running and the three session fields, and nothing else |
| Engine.MidiEngine.SetRunning | src/main/java/com/techshroom/midishapes/midi/player/MidiEngine.java:85-93 | only the running flag changes |
| Engine.MidiEngine.ThreadExit | src/main/java/com/techshroom/midishapes/midi/player/MidiEngine.java:139-147 | the thread's `finally` stops the engine, and the thread is then dead |
| Engine.MidiEngine.CheckIfShouldReturn | src/main/java/com/techshroom/midishapes/midi/player/MidiEngine.java:154-158 | a pass always returns early when the engine is not running |
| Engine.MidiEngine.WaitForEvent | src/main/java/com/techshroom/midishapes/midi/player/MidiEngine.java:198-215 | the clock never runs backwards; without an interruption the wait ends at or after the deadline; an interruption is possible only when the deadline was still ahead |
| Engine.MidiEngine.PlayMidiStream | src/main/java/com/techshroom/midishapes/midi/player/MidiEngine.java:160-192 | every null-session case as the exception it raises. Otherwise the chain receives one Start marker with tick `Integer.MIN_VALUE` and `startMillis`, then a prefix of what the stream had left in stream order, then one Stop marker, on early return too. At most one event taken from the stream is neither delivered nor left in it. All of the stream exactly when the pass completed, and then a replay request exactly when looping. Every delivery on schedule; nothing delivered when the engine is not running; `startMillis` is the clock plus 200 less the offset tick's position |
| Engine.MidiEngine.DeliverStream | src/main/java/com/techshroom/midishapes/midi/player/MidiEngine.java:172-180 | the events delivered are a prefix of the stream and all of it exactly when the stream ran dry; at most one event taken from the stream is neither delivered nor left in it; they are delivered on schedule; nothing is delivered when not running |
| Engine.MidiEngine.PullUnlessCancelled | src/main/java/com/techshroom/midishapes/midi/player/MidiEngine.java:172-174 | the head of what the stream has left, nothing when it is empty, or a cancellation that leaves the stream untouched; a non-running engine always cancels a non-empty stream |
| Engine.MidiEngine.RecordDelivery | src/main/java/com/techshroom/midishapes/midi/player/MidiEngine.java:175-179 | a delivered event extends the on-schedule trace and becomes the reference tick and completion time for the next deadline |
| Engine.MidiEngine.DeliverEvent | src/main/java/com/techshroom/midishapes/midi/player/MidiEngine.java:175-179 | the event is appended to the chain, no earlier than the previous completion plus the distance between the two ticks, or nothing is sent |
| Engine.OnScheduleExtend | src/main/java/com/techshroom/midishapes/midi/player/MidiEngine.java:175-179 | a delivery at or after its deadline, followed by a later clock reading, keeps the trace on schedule |
| Player.StopEndsPlayback | MidiShapes2/src/main/java/com/techshroom/midishapes/midi/player/MidiPlayer.java:146-153 | after `stop` the player is not running, the engine holds no session, and stopping again changes nothing |
| Player.PlayStartsPlayback | MidiShapes2/src/main/java/com/techshroom/midishapes/midi/player/MidiPlayer.java:85-90 | after `play` the player is running; the engine runs the file's timing, the sink and the new stream exactly when its thread is alive |
| Player.PlayReplaces | MidiShapes2/src/main/java/com/techshroom/midishapes/midi/player/MidiPlayer.java:85-90 | a second `play` leaves nothing of the first |
| Player.StopAfterPlay | MidiShapes2/src/main/java/com/techshroom/midishapes/midi/player/MidiPlayer.java:85-90 | stopping after a play gives the state that stopping before it would |
| Player.ReplayAfterStop | MidiShapes2/src/main/java/com/techshroom/midishapes/midi/player/MidiPlayer.java:125-129 | a replay that runs after `stop` changes nothing; one that finds a file plays that same file again |
| Player.Running | MidiShapes2/src/main/java/com/techshroom/midishapes/midi/player/MidiPlayer.java:146-148 | no contract of its own: `isRunning` holds exactly when a file is remembered, whatever the engine is doing; StopEndsPlayback, PlayStartsPlayback and ReplayAfterStop state how `stop`, `play` and the replay move it |
| Player.MidiPlayer.constructor | MidiShapes2/src/main/java/com/techshroom/midishapes/midi/player/MidiPlayer.java:52-62 | a fresh engine, no file, not looping |
| Player.MidiPlayer.SetSounds | MidiShapes2/src/main/java/com/techshroom/midishapes/midi/player/MidiPlayer.java:64-66 | only the sink changes |
| Player.MidiPlayer.GetSounds | MidiShapes2/src/main/java/com/techshroom/midishapes/midi/player/MidiPlayer.java:68-70 | the current sink |
| Player.MidiPlayer.SetLooping | MidiShapes2/src/main/java/com/techshroom/midishapes/midi/player/MidiPlayer.java:80-83 | the flag the iterators read takes the new value |
| Player.MidiPlayer.ReduceTracksOf | MidiShapes2/src/main/java/com/techshroom/midishapes/midi/player/MidiPlayer.java:95-98 | a fresh iterator over the file's tracks that will hand out their whole merge |
| Player.MidiPlayer.Play | MidiShapes2/src/main/java/com/techshroom/midishapes/midi/player/MidiPlayer.java:85-90 | stop, remember the file, start the engine on a fresh merged stream of the file; rejected when the engine thread is dead, with the file still remembered |
| Player.MidiPlayer.Replay | MidiShapes2/src/main/java/com/techshroom/midishapes/midi/player/MidiPlayer.java:125-129 | plays the current file again, or changes nothing when there is none |
| Player.MidiPlayer.Stop | MidiShapes2/src/main/java/com/techshroom/midishapes/midi/player/MidiPlayer.java:150-153 | stops the engine and forgets the file |

## Left out

- Threads. The engine thread's creation, daemon flag and priority are not
  modelled. Neither are `run`'s loop around `awaitRunning` and
  `playMidiStream`, the condition variable, the read-write lock and the
  atomic references. The model runs one pass at a time, in sequence.
  `ThreadExit` stands for the `InterruptedException` exit of `run` and its
  `finally`. In `run` that `finally { stop(); }` also follows every pass,
  whether it completed, returned early or failed, so the engine clears
  `running` and the session after each pass. `PlayMidiStream` models the pass
  alone and leaves those fields as they were; `Stop` is the step that
  follows it.
- Thread interruption. Whether another thread has called `interrupt`, or
  `stop` has interrupted the engine, is an oracle consulted at each
  cancellation point (`Host.Interrupted`) and at each sleep (`Host.Sleep`).
- Engine.Host.Sleep: how long a sleep lasts is not modelled, only that time
  does not run backwards. The one-second trailing hold after a completed
  pass is therefore only a call.
- Engine.MidiEngine.CheckIfShouldReturn: it states only that a non-running
  engine returns early. The interruption status is an oracle, so nothing
  more can be said.
- Java `long` overflow. The millisecond arithmetic of `playMidiStream` and
  `waitForEvent` uses unbounded integers. The two `int` tick computations
  are wrapped with `Wrap32`: the difference `next.getTick() - lastEventTick`
  in `playMidiStream` (`DeliverEvent`, with `WrapRoundTrip` for the round
  trip) and the sum `tickBase + tickDelta` in `waitForEvent`
  (`EventDeadline`).
- The internals of `MidiTiming`. `getMillisecondOffset` is an uninterpreted
  function and `getOffsetTicks` a constant.
- `MidiEventChain` and `MidiSoundPlayer` are foreign sinks. A send appends to
  `EventChain.delivered`. Exceptions thrown by a sink are not modelled. The
  default sink `MidiSoundPlayer.getDefault()` is a constructor argument.
- Null session fields. The `NullPointerException`s of `playMidiStream` on a
  null timing, chain or stream are the bare `Failed` outcome. What was sent
  before the failure is stated by `EventChain.delivered` in
  `PlayMidiStream`'s postcondition.
- `play(null)`. The Java `play` with a null file stops, sets `midiFile` to
  null and then throws a `NullPointerException` at `file.getTimingData()`.
  `Play` takes a `MidiFile`, which cannot be null, so that path is not
  modelled.
- Engine.MidiEngine.DeliverStream and Engine.MidiEngine.PlayMidiStream: the
  event lost to a cancellation at the second check is bounded by length
  (at most one) rather than named as the stream's next event.
- `ScheduledExecutorService.schedule`. A replay request is a counter in
  `LoopControl`. The 2-second delay and the concurrent run of the task are
  not modelled. `MidiPlayer.Replay` is the task's body, run on its own.
- `AbstractIterator.next` throwing `NoSuchElementException` on an exhausted
  iterator is `Next` returning no event.
- The listener set (`addMidiEventListener`, `removeMidiEventListener`). It is
  a foreign thread-safe identity set that nothing in this core reads.
  `play` passes it to the engine as a fourth argument of `start`, but the
  engine's `start` takes three. `Start` follows the engine's three-argument
  form.
- `getStartMillis` and `getCurrentMillis` are plain reads. `startMillis` is a
  field of the engine, and the clock is `Host.CurrentMillis`.
- Logging and dependency injection.
