// The k-way merge performed by the iterator that `MidiPlayer.reduceTracks`
// returns, stated over values: one cursor per track, and at each step the
// head with the smallest tick wins, the lowest track index on ties.
module TrackMerge {
  import opened MidiEvents

  type Tracks = seq<Track>

  /** Every cursor lies between the start and the end of its track. */
  predicate ValidCursors(tracks: Tracks, cur: seq<int>)
  {
    |cur| == |tracks| && forall i :: 0 <= i < |tracks| ==> 0 <= cur[i] <= |tracks[i]|
  }

  /** Track `i` has no event left under its cursor. */
  predicate Exhausted(tracks: Tracks, cur: seq<int>, i: nat)
    requires ValidCursors(tracks, cur) && i < |tracks|
  {
    cur[i] == |tracks[i]|
  }

  /** Tracks `0 .. n-1` are all exhausted. */
  predicate ExhaustedBelow(tracks: Tracks, cur: seq<int>, n: nat)
    requires ValidCursors(tracks, cur) && n <= |tracks|
  {
    forall i :: 0 <= i < n ==> Exhausted(tracks, cur, i)
  }

  predicate AllExhausted(tracks: Tracks, cur: seq<int>)
    requires ValidCursors(tracks, cur)
  {
    ExhaustedBelow(tracks, cur, |tracks|)
  }

  /** The event under the cursor of a track that is not exhausted. */
  function HeadOf(tracks: Tracks, cur: seq<int>, i: nat): MidiEvent
    requires ValidCursors(tracks, cur) && i < |tracks| && !Exhausted(tracks, cur, i)
  {
    tracks[i][cur[i]]
  }

  /**
   * Track `k` is the one to advance when only tracks `0 .. n-1` are looked
   * at: its head has the smallest tick, and every lower-indexed track with a
   * head has a strictly greater tick.
   */
  predicate IsMinAmong(tracks: Tracks, cur: seq<int>, k: nat, n: nat)
    requires ValidCursors(tracks, cur) && n <= |tracks|
  {
    k < n && !Exhausted(tracks, cur, k) &&
    (forall j :: 0 <= j < n && !Exhausted(tracks, cur, j) ==>
       HeadOf(tracks, cur, k).tick <= HeadOf(tracks, cur, j).tick) &&
    (forall j :: 0 <= j < k && !Exhausted(tracks, cur, j) ==>
       HeadOf(tracks, cur, j).tick > HeadOf(tracks, cur, k).tick)
  }

  predicate IsChoice(tracks: Tracks, cur: seq<int>, k: nat)
    requires ValidCursors(tracks, cur)
  {
    IsMinAmong(tracks, cur, k, |tracks|)
  }

  /** The choice among the first `n` tracks, scanning them in index order. */
  function Pick(tracks: Tracks, cur: seq<int>, n: nat): (r: Option<nat>)
    requires ValidCursors(tracks, cur) && n <= |tracks|
    ensures r.Some? ==> r.value < n && !Exhausted(tracks, cur, r.value)
  {
    if n == 0 then None
    else
      var p := Pick(tracks, cur, n - 1);
      if Exhausted(tracks, cur, n - 1) then p
      else if p.None? then Some(n - 1)
      else if HeadOf(tracks, cur, p.value).tick > HeadOf(tracks, cur, n - 1).tick
      then Some(n - 1)
      else p
  }

  /** For every `n`, `Pick` finds no track exactly when all of `0 .. n-1` are exhausted and otherwise finds the one `IsMinAmong` describes. */
  lemma {:induction false} PickSpec(tracks: Tracks, cur: seq<int>, n: nat)
    requires ValidCursors(tracks, cur) && n <= |tracks|
    ensures Pick(tracks, cur, n).None? <==> ExhaustedBelow(tracks, cur, n)
    ensures Pick(tracks, cur, n).Some? ==> IsMinAmong(tracks, cur, Pick(tracks, cur, n).value, n)
  {
    if n > 0 {
      PickSpec(tracks, cur, n - 1);
    }
  }

  /** At most one track satisfies the selection rule. */
  lemma ChoiceUnique(tracks: Tracks, cur: seq<int>, k1: nat, k2: nat, n: nat)
    requires ValidCursors(tracks, cur) && n <= |tracks|
    requires IsMinAmong(tracks, cur, k1, n) && IsMinAmong(tracks, cur, k2, n)
    ensures k1 == k2
  {
  }

  /** The track the next step advances, if any. */
  function Choose(tracks: Tracks, cur: seq<int>): (r: Option<nat>)
    requires ValidCursors(tracks, cur)
    ensures r.Some? ==> r.value < |tracks| && !Exhausted(tracks, cur, r.value)
  {
    Pick(tracks, cur, |tracks|)
  }

  /** `Choose` finds nothing exactly when every track is exhausted, and finds `k` exactly when `k` satisfies the selection rule. */
  lemma ChooseSpec(tracks: Tracks, cur: seq<int>)
    requires ValidCursors(tracks, cur)
    ensures Choose(tracks, cur).None? <==> AllExhausted(tracks, cur)
    ensures forall k: nat :: Choose(tracks, cur) == Some(k) <==> IsChoice(tracks, cur, k)
  {
    PickSpec(tracks, cur, |tracks|);
    forall k: nat | IsChoice(tracks, cur, k)
      ensures Choose(tracks, cur) == Some(k)
    {
      assert !Exhausted(tracks, cur, k);
      ChoiceUnique(tracks, cur, k, Choose(tracks, cur).value, |tracks|);
    }
  }

  /** `indexes[k]++`. */
  function Advance(cur: seq<int>, k: nat): (r: seq<int>)
    requires k < |cur|
    ensures |r| == |cur| && r[k] == cur[k] + 1
    ensures forall j :: 0 <= j < |cur| && j != k ==> r[j] == cur[j]
  {
    cur[k := cur[k] + 1]
  }

  /** Number of events still under the cursors of tracks `0 .. n-1`. */
  function PendingBelow(tracks: Tracks, cur: seq<int>, n: nat): nat
    requires ValidCursors(tracks, cur) && n <= |tracks|
  {
    if n == 0 then 0 else PendingBelow(tracks, cur, n - 1) + (|tracks[n - 1]| - cur[n - 1])
  }

  function Pending(tracks: Tracks, cur: seq<int>): nat
    requires ValidCursors(tracks, cur)
  {
    PendingBelow(tracks, cur, |tracks|)
  }

  /** Total number of events of all tracks. */
  function TotalLength(tracks: Tracks): nat
  {
    if tracks == [] then 0 else TotalLength(tracks[..|tracks| - 1]) + |tracks[|tracks| - 1]|
  }

  /** Advancing a track that has a head keeps the cursors valid and removes exactly one pending event. */
  lemma {:induction false} PendingAdvance(tracks: Tracks, cur: seq<int>, k: nat, n: nat)
    requires ValidCursors(tracks, cur) && k < |tracks| && !Exhausted(tracks, cur, k) && n <= |tracks|
    ensures ValidCursors(tracks, Advance(cur, k))
    ensures PendingBelow(tracks, Advance(cur, k), n)
            == if k < n then PendingBelow(tracks, cur, n) - 1 else PendingBelow(tracks, cur, n)
  {
    if n > 0 {
      PendingAdvance(tracks, cur, k, n - 1);
    }
  }

  /** With every cursor at zero, the pending events are all the events of all tracks. */
  lemma {:induction false} PendingZeros(tracks: Tracks, n: nat)
    requires n <= |tracks|
    ensures ValidCursors(tracks, Zeros(|tracks|))
    ensures PendingBelow(tracks, Zeros(|tracks|), n) == TotalLength(tracks[..n])
  {
    if n > 0 {
      PendingZeros(tracks, n - 1);
      assert tracks[..n][..n - 1] == tracks[..n - 1];
    }
  }

  /** Nothing is pending exactly when every track is exhausted. */
  lemma {:induction false} PendingZero(tracks: Tracks, cur: seq<int>, n: nat)
    requires ValidCursors(tracks, cur) && n <= |tracks|
    ensures PendingBelow(tracks, cur, n) == 0 <==> ExhaustedBelow(tracks, cur, n)
  {
    if n > 0 {
      PendingZero(tracks, cur, n - 1);
      assert ExhaustedBelow(tracks, cur, n)
        <==> ExhaustedBelow(tracks, cur, n - 1) && Exhausted(tracks, cur, n - 1);
    }
  }

  /** An emitted event together with the index of the track it came from. */
  datatype Tagged = Tagged(track: nat, event: MidiEvent)

  /**
   * Everything the iterator emits from cursor state `cur` on: the chosen
   * head, then the merge of the advanced cursors, until all are exhausted.
   */
  function Merge(tracks: Tracks, cur: seq<int>): seq<Tagged>
    requires ValidCursors(tracks, cur)
    decreases Pending(tracks, cur)
  {
    match Choose(tracks, cur)
    case None => []
    case Some(k) =>
      ChooseSpec(tracks, cur);
      PendingAdvance(tracks, cur, k, |tracks|);
      [Tagged(k, HeadOf(tracks, cur, k))] + Merge(tracks, Advance(cur, k))
  }

  /** One step of the merge, unfolded: what `Merge` emits first and where it continues. */
  lemma MergeStep(tracks: Tracks, cur: seq<int>)
    requires ValidCursors(tracks, cur)
    ensures Choose(tracks, cur).None? ==> Merge(tracks, cur) == []
    ensures Choose(tracks, cur).Some? ==>
              var k := Choose(tracks, cur).value;
              k < |tracks| && !Exhausted(tracks, cur, k) && ValidCursors(tracks, Advance(cur, k)) &&
              Merge(tracks, cur) == [Tagged(k, HeadOf(tracks, cur, k))] + Merge(tracks, Advance(cur, k))
  {
    ChooseSpec(tracks, cur);
    if Choose(tracks, cur).Some? {
      PendingAdvance(tracks, cur, Choose(tracks, cur).value, |tracks|);
    }
  }

  /** The events of a tagged sequence, in order. */
  function Events(ts: seq<Tagged>): (r: seq<MidiEvent>)
    ensures |r| == |ts| && forall i :: 0 <= i < |ts| ==> r[i] == ts[i].event
  {
    if ts == [] then [] else [ts[0].event] + Events(ts[1..])
  }

  /** The events of a tagged sequence that came from track `i`, in order. */
  function OnTrack(ts: seq<Tagged>, i: nat): seq<MidiEvent>
  {
    if ts == [] then []
    else (if ts[0].track == i then [ts[0].event] else []) + OnTrack(ts[1..], i)
  }

  /** The merge emits exactly as many events as are pending. */
  lemma {:induction false} MergeLength(tracks: Tracks, cur: seq<int>)
    requires ValidCursors(tracks, cur)
    ensures |Merge(tracks, cur)| == Pending(tracks, cur)
    decreases Pending(tracks, cur)
  {
    MergeStep(tracks, cur);
    ChooseSpec(tracks, cur);
    match Choose(tracks, cur)
    case None =>
      PendingZero(tracks, cur, |tracks|);
    case Some(k) =>
      PendingAdvance(tracks, cur, k, |tracks|);
      MergeLength(tracks, Advance(cur, k));
  }

  /** Merging whole tracks emits exactly as many events as all tracks hold. */
  lemma MergeLengthFromStart(tracks: Tracks)
    ensures ValidCursors(tracks, Zeros(|tracks|))
    ensures |Merge(tracks, Zeros(|tracks|))| == TotalLength(tracks)
  {
    PendingZeros(tracks, |tracks|);
    assert tracks[..|tracks|] == tracks;
    MergeLength(tracks, Zeros(|tracks|));
  }

  /** Every emitted event is tagged with an existing track. */
  lemma {:induction false} MergeTracksInRange(tracks: Tracks, cur: seq<int>)
    requires ValidCursors(tracks, cur)
    ensures forall j :: 0 <= j < |Merge(tracks, cur)| ==> Merge(tracks, cur)[j].track < |tracks|
    decreases Pending(tracks, cur)
  {
    MergeStep(tracks, cur);
    if Choose(tracks, cur).Some? {
      var k := Choose(tracks, cur).value;
      PendingAdvance(tracks, cur, k, |tracks|);
      MergeTracksInRange(tracks, Advance(cur, k));
    }
  }

  /**
   * Restricted to one track, the merge is exactly the rest of that track in
   * its own order: nothing lost, nothing duplicated, nothing reordered.
   */
  lemma {:induction false} MergeOnTrack(tracks: Tracks, cur: seq<int>, i: nat)
    requires ValidCursors(tracks, cur) && i < |tracks|
    ensures OnTrack(Merge(tracks, cur), i) == tracks[i][cur[i]..]
    decreases Pending(tracks, cur)
  {
    MergeStep(tracks, cur);
    ChooseSpec(tracks, cur);
    match Choose(tracks, cur)
    case None =>
      assert Exhausted(tracks, cur, i);
    case Some(k) =>
      var next := Advance(cur, k);
      PendingAdvance(tracks, cur, k, |tracks|);
      MergeOnTrack(tracks, next, i);
      var m := Merge(tracks, cur);
      assert m[1..] == Merge(tracks, next);
      if k == i {
        assert tracks[i][cur[i]..] == [tracks[i][cur[i]]] + tracks[i][next[i]..];
      }
  }

  predicate TickSorted(s: seq<MidiEvent>)
  {
    forall a, b :: 0 <= a < b < |s| ==> s[a].tick <= s[b].tick
  }

  /** Every head that is left has a tick of at least `b`; sorted tracks keep that as the merge runs. */
  predicate HeadsAtLeast(tracks: Tracks, cur: seq<int>, b: int)
    requires ValidCursors(tracks, cur)
  {
    forall j :: 0 <= j < |tracks| && !Exhausted(tracks, cur, j) ==> HeadOf(tracks, cur, j).tick >= b
  }

  /** When each track is tick-sorted, every event still to come has a tick of at least any bound the current heads respect. */
  lemma {:induction false} MergeAtLeast(tracks: Tracks, cur: seq<int>, b: int)
    requires ValidCursors(tracks, cur)
    requires forall j :: 0 <= j < |tracks| ==> TickSorted(tracks[j])
    requires HeadsAtLeast(tracks, cur, b)
    ensures forall e :: e in Events(Merge(tracks, cur)) ==> e.tick >= b
    decreases Pending(tracks, cur)
  {
    MergeStep(tracks, cur);
    ChooseSpec(tracks, cur);
    if Choose(tracks, cur).Some? {
      var k := Choose(tracks, cur).value;
      var next := Advance(cur, k);
      PendingAdvance(tracks, cur, k, |tracks|);
      assert HeadsAtLeast(tracks, next, b) by {
        forall j | 0 <= j < |tracks| && !Exhausted(tracks, next, j)
          ensures HeadOf(tracks, next, j).tick >= b
        {
          if j == k {
            assert tracks[k][cur[k]].tick <= tracks[k][cur[k] + 1].tick;
          } else {
            assert !Exhausted(tracks, cur, j);
          }
        }
      }
      MergeAtLeast(tracks, next, b);
      assert Events(Merge(tracks, cur)) == [HeadOf(tracks, cur, k)] + Events(Merge(tracks, next));
    }
  }

  /** If each track is tick-non-decreasing, so is the merged output. */
  lemma {:induction false} MergeSorted(tracks: Tracks, cur: seq<int>)
    requires ValidCursors(tracks, cur)
    requires forall j :: 0 <= j < |tracks| ==> TickSorted(tracks[j])
    ensures TickSorted(Events(Merge(tracks, cur)))
    decreases Pending(tracks, cur)
  {
    MergeStep(tracks, cur);
    ChooseSpec(tracks, cur);
    if Choose(tracks, cur).Some? {
      var k := Choose(tracks, cur).value;
      var next := Advance(cur, k);
      var h := HeadOf(tracks, cur, k);
      PendingAdvance(tracks, cur, k, |tracks|);
      assert HeadsAtLeast(tracks, next, h.tick) by {
        forall j | 0 <= j < |tracks| && !Exhausted(tracks, next, j)
          ensures HeadOf(tracks, next, j).tick >= h.tick
        {
          if j == k {
            assert tracks[k][cur[k]].tick <= tracks[k][cur[k] + 1].tick;
          } else {
            assert !Exhausted(tracks, cur, j);
          }
        }
      }
      MergeAtLeast(tracks, next, h.tick);
      MergeSorted(tracks, next);
      var rest := Events(Merge(tracks, next));
      var all := Events(Merge(tracks, cur));
      assert all == [h] + rest;
      forall a, b | 0 <= a < b < |all| ensures all[a].tick <= all[b].tick {
        if a == 0 {
          assert all[b] in rest;
        } else {
          assert all[a] == rest[a - 1] && all[b] == rest[b - 1];
        }
      }
    }
  }

  /** The first two emitted events, when their ticks are equal, come from tracks in non-decreasing index order. */
  lemma MergeTieBreakHead(tracks: Tracks, cur: seq<int>)
    requires ValidCursors(tracks, cur)
    ensures var m := Merge(tracks, cur);
            |m| >= 2 && m[0].event.tick == m[1].event.tick ==> m[0].track <= m[1].track
  {
    MergeStep(tracks, cur);
    ChooseSpec(tracks, cur);
    if Choose(tracks, cur).Some? {
      var k := Choose(tracks, cur).value;
      var next := Advance(cur, k);
      MergeStep(tracks, next);
      ChooseSpec(tracks, next);
      var m := Merge(tracks, cur);
      if |m| >= 2 && m[0].event.tick == m[1].event.tick {
        var k2 := Choose(tracks, next).value;
        assert m[1] == Tagged(k2, HeadOf(tracks, next, k2));
        if k2 != k {
          assert next[k2] == cur[k2];
        }
      }
    }
  }

  /** Any two consecutive emitted events with the same tick come from tracks in non-decreasing index order. */
  lemma {:induction false} MergeTieBreak(tracks: Tracks, cur: seq<int>)
    requires ValidCursors(tracks, cur)
    ensures var m := Merge(tracks, cur);
            forall i :: 0 <= i < |m| - 1 && m[i].event.tick == m[i + 1].event.tick ==> m[i].track <= m[i + 1].track
    decreases Pending(tracks, cur)
  {
    MergeStep(tracks, cur);
    MergeTieBreakHead(tracks, cur);
    if Choose(tracks, cur).Some? {
      var k := Choose(tracks, cur).value;
      var next := Advance(cur, k);
      PendingAdvance(tracks, cur, k, |tracks|);
      MergeTieBreak(tracks, next);
      var m := Merge(tracks, cur);
      assert m[1..] == Merge(tracks, next);
      forall i | 1 <= i < |m| - 1 && m[i].event.tick == m[i + 1].event.tick
        ensures m[i].track <= m[i + 1].track
      {
        assert m[i] == m[1..][i - 1] && m[i + 1] == m[1..][i];
      }
    }
  }
}
