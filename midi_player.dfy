// `MidiPlayer`: the façade that owns the engine, remembers the file being
// played, builds the merged event stream of a file and re-plays it when
// looping.
module Player {
  import opened MidiEvents
  import opened TrackMerge
  import opened ReduceTracks
  import opened Engine

  /** What `isRunning` and the engine observe of a player. */
  datatype PlayerState = PlayerState(file: Option<MidiFile>, engine: EngineState)

  /** `isRunning`: a file is set, whatever the engine is doing. */
  predicate Running(s: PlayerState)
  {
    s.file.Some?
  }

  /** The state `stop` leaves: the engine stopped and no file. */
  function StoppedPlayer(s: PlayerState): PlayerState
  {
    PlayerState(None, Stopped(s.engine))
  }

  /** The state `play(file)` leaves: a stop, the file remembered, then the engine started on `stream`. */
  function PlayedPlayer(s: PlayerState, file: MidiFile, sounds: EventChain, stream: TrackCursor): PlayerState
  {
    PlayerState(Some(file), Started(StoppedPlayer(s).engine, file.timing, sounds, stream))
  }

  /** The scheduled replay task: play the current file again, or nothing once the player was stopped. */
  function ReplayedPlayer(s: PlayerState, sounds: EventChain, stream: TrackCursor): PlayerState
  {
    if s.file.Some? then PlayedPlayer(s, s.file.value, sounds, stream) else s
  }

  /** After `stop` nothing runs: the player reports stopped and the engine holds no session. */
  lemma StopEndsPlayback(s: PlayerState)
    ensures !Running(StoppedPlayer(s))
    ensures var e := StoppedPlayer(s).engine;
            !e.running && e.timing.None? && e.chain == null && e.stream == null
    ensures StoppedPlayer(StoppedPlayer(s)) == StoppedPlayer(s)
    ensures StoppedPlayer(s).engine.alive == s.engine.alive
  {
  }

  /**
   * After `play` the player reports running; the engine runs the file's
   * timing, the sink and the new stream exactly when its thread is alive,
   * and otherwise holds no session although `isRunning` says true.
   */
  lemma PlayStartsPlayback(s: PlayerState, file: MidiFile, sounds: EventChain, stream: TrackCursor)
    ensures var p := PlayedPlayer(s, file, sounds, stream);
            Running(p) && p.file == Some(file) && p.engine.alive == s.engine.alive
    ensures var e := PlayedPlayer(s, file, sounds, stream).engine;
            s.engine.alive ==>
              e.running && e.timing == Some(file.timing) && e.chain == sounds && e.stream == stream
    ensures var e := PlayedPlayer(s, file, sounds, stream).engine;
            !s.engine.alive ==>
              !e.running && e.timing.None? && e.chain == null && e.stream == null
  {
    StopIdempotent(s.engine, file.timing, sounds, stream);
  }

  /** Playing again replaces the earlier session: nothing of the first `play` survives the second. */
  lemma PlayReplaces(s: PlayerState, f1: MidiFile, c1: EventChain, i1: TrackCursor,
                     f2: MidiFile, c2: EventChain, i2: TrackCursor)
    ensures PlayedPlayer(PlayedPlayer(s, f1, c1, i1), f2, c2, i2) == PlayedPlayer(s, f2, c2, i2)
  {
    StopIdempotent(s.engine, f1.timing, c1, i1);
  }

  /** `stop` undoes `play`: stopping after a play is stopping the state before it. */
  lemma StopAfterPlay(s: PlayerState, file: MidiFile, sounds: EventChain, stream: TrackCursor)
    ensures StoppedPlayer(PlayedPlayer(s, file, sounds, stream)) == StoppedPlayer(s)
  {
    StopIdempotent(s.engine, file.timing, sounds, stream);
  }

  /**
   * The replay task's `midiFile != null` guard: a replay scheduled before a
   * `stop` leaves the stopped player alone, and one that finds a file
   * restarts that same file.
   */
  lemma ReplayAfterStop(s: PlayerState, sounds: EventChain, stream: TrackCursor)
    ensures ReplayedPlayer(StoppedPlayer(s), sounds, stream) == StoppedPlayer(s)
    ensures Running(s) ==>
              ReplayedPlayer(s, sounds, stream) == PlayedPlayer(s, s.file.value, sounds, stream) &&
              ReplayedPlayer(s, sounds, stream).file == s.file
  {
  }

  class MidiPlayer {
    const engine: MidiEngine
    /** The `looping` flag and the scheduler, shared with the iterators this player builds. */
    const loop: LoopControl
    var sounds: EventChain
    var midiFile: Option<MidiFile>

    function State(): PlayerState
      reads this, engine
    {
      PlayerState(midiFile, engine.State())
    }

    /** A new player owns a fresh engine, does not loop and has no file. */
    constructor (sounds: EventChain)
      ensures fresh(engine) && fresh(loop)
      ensures this.sounds == sounds
      ensures State() == PlayerState(None, EngineState(true, false, None, null, null, 0))
      ensures !loop.looping && loop.scheduledReplays == 0
    {
      engine := new MidiEngine();
      loop := new LoopControl();
      this.sounds := sounds;
      midiFile := None;
    }

    /** `setSounds`: only the sink for the next `play` changes. */
    method SetSounds(sounds: EventChain)
      modifies this
      ensures this.sounds == sounds && State() == old(State())
    {
      this.sounds := sounds;
    }

    /** `getSounds`. */
    method GetSounds() returns (s: EventChain)
      ensures s == sounds
    {
      s := sounds;
    }

    /** `setLooping`: read by every iterator this player has built, including the one playing now. */
    method SetLooping(looping: bool)
      modifies loop
      ensures loop.looping == looping && loop.scheduledReplays == old(loop.scheduledReplays)
    {
      loop.SetLooping(looping);
    }

    /**
     * `reduceTracks`: a fresh iterator with a zeroed cursor per track; it
     * will hand out the merge of all of the file's tracks.
     */
    method ReduceTracksOf(file: MidiFile) returns (it: TrackCursor)
      ensures fresh(it) && fresh(it.indexes) && it.Valid()
      ensures it.tracks == file.tracks && it.control == loop && !it.done
      ensures it.Remaining() == Events(Merge(file.tracks, Zeros(|file.tracks|)))
    {
      it := new TrackCursor(file.tracks, loop);
    }

    /**
     * `play`: stop, remember the file, start the engine on the file's merged
     * stream. `ok` is false where `start` throws because the engine thread
     * is dead; the file stays remembered then.
     */
    method Play(file: MidiFile) returns (ok: bool, ghost it: TrackCursor)
      modifies this, engine
      ensures ok == old(engine.alive)
      ensures fresh(it) && fresh(it.indexes) && it.Valid() && !it.done
      ensures it.tracks == file.tracks && it.control == loop
      ensures it.Remaining() == Events(Merge(file.tracks, Zeros(|file.tracks|)))
      ensures sounds == old(sounds)
      ensures State() == PlayedPlayer(old(State()), file, sounds, it)
    {
      Stop();
      midiFile := Some(file);
      var stream := ReduceTracksOf(file);
      it := stream;
      ok := engine.Start(file.timing, sounds, stream);
    }

    /**
     * The task `computeNext` schedules when looping: play the current file
     * again if there still is one. `it` is the new stream, when one was
     * built.
     */
    method Replay() returns (ghost it: TrackCursor?)
      modifies this, engine
      ensures sounds == old(sounds)
      ensures old(midiFile).None? ==> it == null && State() == old(State())
      ensures old(midiFile).Some? ==>
                it != null && fresh(it) && it.Valid() && !it.done && it.control == loop &&
                it.tracks == old(midiFile).value.tracks &&
                State() == ReplayedPlayer(old(State()), sounds, it)
    {
      it := null;
      if midiFile.Some? {
        var _, stream := Play(midiFile.value);
        it := stream;
      }
    }

    /** `stop`: stop the engine, forget the file. */
    method Stop()
      modifies this, engine
      ensures sounds == old(sounds)
      ensures State() == StoppedPlayer(old(State()))
    {
      engine.Stop();
      midiFile := None;
    }
  }
}
