// The iterator `MidiPlayer.reduceTracks` builds: an `int[] indexes` cursor
// array updated in place, a scan over the track heads, and the replay hook
// run when the merge is exhausted.
module ReduceTracks {
  import opened MidiEvents
  import opened TrackMerge

  /**
   * The part of the player that the iterator, an inner class, reaches
   * through its enclosing object: the `looping` flag and the replay requests
   * handed to the scheduler (`pool.schedule`), counted here.
   */
  class LoopControl {
    var looping: bool
    var scheduledReplays: nat

    constructor ()
      ensures !looping && scheduledReplays == 0
    {
      looping := false;
      scheduledReplays := 0;
    }

    /** `MidiPlayer.setLooping`. */
    method SetLooping(looping: bool)
      modifies this
      ensures this.looping == looping && scheduledReplays == old(scheduledReplays)
    {
      this.looping := looping;
    }

    /** `pool.schedule(...)`: the replay is only recorded, its 2-second timer is not modelled. */
    method ScheduleReplay()
      modifies this
      ensures scheduledReplays == old(scheduledReplays) + 1 && looping == old(looping)
    {
      scheduledReplays := scheduledReplays + 1;
    }
  }

  /**
   * The iterator over the merged tracks of one file. `computeNext` is the
   * source's; `HasNext` and `Next` are the protocol of the `AbstractIterator`
   * it extends, which computes one element ahead and, once `computeNext`
   * has signalled the end, never calls it again.
   */
  class TrackCursor {
    const tracks: seq<Track>
    const indexes: array<int>
    const control: LoopControl
    /** An element computed by `HasNext` and not yet taken by `Next`. */
    var peeked: Option<MidiEvent>
    /** `computeNext` has returned `endOfData`. */
    var done: bool

    ghost predicate Valid()
      reads this, indexes
    {
      indexes.Length == |tracks| && ValidCursors(tracks, indexes[..]) &&
      (done ==> peeked.None? && AllExhausted(tracks, indexes[..]))
    }

    /** What `computeNext` has yet to produce from the current cursors. */
    ghost function Unscanned(): seq<MidiEvent>
      reads this, indexes
      requires indexes.Length == |tracks| && ValidCursors(tracks, indexes[..])
    {
      Events(Merge(tracks, indexes[..]))
    }

    /** The events this iterator has yet to hand out. */
    ghost function Remaining(): seq<MidiEvent>
      reads this, indexes
      requires Valid()
    {
      (if peeked.Some? then [peeked.value] else []) + Unscanned()
    }

    /** A fresh iterator has every cursor at the start of its track and will emit the whole merge. */
    constructor (tracks: seq<Track>, control: LoopControl)
      ensures Valid() && fresh(indexes)
      ensures this.tracks == tracks && this.control == control
      ensures indexes[..] == Zeros(|tracks|) && peeked.None? && !done
      ensures Remaining() == Events(Merge(tracks, Zeros(|tracks|)))
    {
      this.tracks := tracks;
      this.control := control;
      indexes := new int[|tracks|](_ => 0);
      peeked := None;
      done := false;
      new;
      assert indexes[..] == Zeros(|tracks|);
    }

    /** `listGet`: the event under track `index`'s cursor, or none once the track is exhausted. */
    method ListGet(index: int) returns (r: Option<MidiEvent>)
      requires indexes.Length == |tracks| && ValidCursors(tracks, indexes[..]) && 0 <= index < |tracks|
      ensures r.None? <==> indexes[index] >= |tracks[index]|
      ensures r.Some? ==> r.value == tracks[index][indexes[index]]
    {
      var listIndex := indexes[index];
      var list := tracks[index];
      if listIndex >= |list| {
        return None;
      }
      return Some(list[listIndex]);
    }

    /**
     * The scan of `computeNext`: the head with the smallest tick, kept by
     * a strict `>` so that the lowest track index wins ties. Returns -1 and
     * no event when every track is exhausted.
     */
    method ScanHeads() returns (trackToIncrement: int, next: Option<MidiEvent>)
      requires indexes.Length == |tracks| && ValidCursors(tracks, indexes[..])
      ensures next.None? <==> trackToIncrement == -1
      ensures next.None? <==> AllExhausted(tracks, indexes[..])
      ensures next.Some? ==>
                0 <= trackToIncrement < |tracks| &&
                IsChoice(tracks, indexes[..], trackToIncrement) &&
                next.value == tracks[trackToIncrement][indexes[trackToIncrement]]
    {
      ghost var cur := indexes[..];
      trackToIncrement := -1;
      next := None;
      var i := 0;
      while i < |tracks|
        invariant 0 <= i <= |tracks|
        invariant next.None? <==> trackToIncrement == -1
        invariant next.None? <==> ExhaustedBelow(tracks, cur, i)
        invariant next.Some? ==>
                    0 <= trackToIncrement < i &&
                    IsMinAmong(tracks, cur, trackToIncrement, i) &&
                    next.value == HeadOf(tracks, cur, trackToIncrement)
      {
        var atList := ListGet(i);
        assert ExhaustedBelow(tracks, cur, i + 1)
          <==> ExhaustedBelow(tracks, cur, i) && Exhausted(tracks, cur, i);
        if atList.None? {
          i := i + 1;
          continue;
        }
        if next.None? {
          next := atList;
          trackToIncrement := i;
        } else {
          if next.value.tick > atList.value.tick {
            next := atList;
            trackToIncrement := i;
          }
        }
        i := i + 1;
      }
    }

    /**
     * `computeNext`: emit the chosen head and advance only its track; on
     * exhaustion emit nothing (`endOfData`) and, when looping, schedule a
     * replay.
     */
    method ComputeNext() returns (r: Option<MidiEvent>)
      requires indexes.Length == |tracks| && ValidCursors(tracks, indexes[..])
      modifies indexes, control
      ensures ValidCursors(tracks, indexes[..])
      ensures control.looping == old(control.looping)
      ensures r.None? <==> AllExhausted(tracks, old(indexes[..]))
      ensures match Choose(tracks, old(indexes[..]))
              case None => r.None? && indexes[..] == old(indexes[..])
              case Some(k) =>
                k < |tracks| && IsChoice(tracks, old(indexes[..]), k) &&
                r == Some(tracks[k][old(indexes[k])]) &&
                indexes[..] == Advance(old(indexes[..]), k)
      ensures control.scheduledReplays
              == old(control.scheduledReplays) + (if r.None? && old(control.looping) then 1 else 0)
      ensures old(Unscanned()) == (if r.Some? then [r.value] else []) + Unscanned()
    {
      ghost var cur := indexes[..];
      ChooseSpec(tracks, cur);
      MergeStep(tracks, cur);
      var trackToIncrement, next := ScanHeads();
      if next.Some? && trackToIncrement != -1 {
        indexes[trackToIncrement] := indexes[trackToIncrement] + 1;
        assert indexes[..] == Advance(cur, trackToIncrement);
      }
      if next.None? && control.looping {
        control.ScheduleReplay();
      }
      r := next;
    }

    /** `hasNext`: true exactly when something is left; computes it ahead when needed. */
    method HasNext() returns (b: bool)
      requires Valid()
      modifies this, indexes, control
      ensures Valid() && Remaining() == old(Remaining())
      ensures b <==> Remaining() != []
      ensures b <==> peeked.Some?
      ensures done == (old(done) || !b)
      ensures control.looping == old(control.looping)
      ensures control.scheduledReplays == old(control.scheduledReplays)
                + (if !old(done) && !b && control.looping then 1 else 0)
    {
      if done {
        ChooseSpec(tracks, indexes[..]);
        MergeStep(tracks, indexes[..]);
        return false;
      }
      if peeked.Some? {
        return true;
      }
      var r := ComputeNext();
      if r.None? {
        done := true;
        return false;
      }
      peeked := r;
      b := true;
    }

    /** `next`: the next element, or none where `AbstractIterator` throws `NoSuchElementException`. */
    method Next() returns (r: Option<MidiEvent>)
      requires Valid()
      modifies this, indexes, control
      ensures Valid()
      ensures old(Remaining()) == [] ==> r.None? && Remaining() == []
      ensures old(Remaining()) != [] ==> r == Some(old(Remaining())[0]) && Remaining() == old(Remaining())[1..]
      ensures peeked.None?
      ensures done == (old(done) || r.None?)
      ensures control.looping == old(control.looping)
      ensures control.scheduledReplays == old(control.scheduledReplays)
                + (if !old(done) && r.None? && control.looping then 1 else 0)
    {
      var b := HasNext();
      if !b {
        return None;
      }
      r := peeked;
      peeked := None;
    }
  }
}
