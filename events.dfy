// The values the player and the engine pass around: MIDI events, tracks,
// files, and the timing model that converts ticks to milliseconds.
module MidiEvents {

  /** Java's `int`: event ticks and the offset tick are 32-bit. */
  type Int32 = x: int | -0x8000_0000 <= x < 0x8000_0000

  /** `Integer.MIN_VALUE`, the tick carried by the Start marker. */
  const MinInt32: Int32 := -0x8000_0000

  /** Two's-complement wrap-around of Java `int` arithmetic. */
  function Wrap32(x: int): (r: Int32)
    ensures (r - x) % 0x1_0000_0000 == 0
    ensures -0x8000_0000 <= x < 0x8000_0000 ==> r == x
  {
    (x + 0x8000_0000) % 0x1_0000_0000 - 0x8000_0000
  }

  datatype Option<T> = None | Some(value: T)

  /** One event of a track. The message itself is opaque to the player. */
  datatype MidiEvent = MidiEvent(tick: Int32, message: seq<int>)

  /** What reaches the event chain: the two synthetic markers and real events. */
  datatype Delivered =
    | StartEvent(tick: int, timestampMillis: int)
    | Event(event: MidiEvent)
    | StopEvent

  type Track = seq<MidiEvent>

  /**
   * The timing model of a file, an external collaborator: an uninterpreted
   * tick-to-millisecond function and the tick playback starts from.
   */
  datatype Timing = Timing(offsetTicks: Int32, millisecondOffset: Int32 -> int)

  datatype MidiFile = MidiFile(tracks: seq<Track>, timing: Timing)

  /** The events a sequence of deliveries wraps, in order. */
  function Wrapped(s: seq<MidiEvent>): (r: seq<Delivered>)
    ensures |r| == |s|
    ensures forall i :: 0 <= i < |s| ==> r[i] == Event(s[i])
  {
    if s == [] then [] else [Event(s[0])] + Wrapped(s[1..])
  }

  lemma WrappedSnoc(s: seq<MidiEvent>, e: MidiEvent)
    ensures Wrapped(s + [e]) == Wrapped(s) + [Event(e)]
  {
  }

  /** Zero-filled cursor array, as `new int[n]` creates it. */
  function Zeros(n: nat): (r: seq<int>)
    ensures |r| == n
    ensures forall i :: 0 <= i < n ==> r[i] == 0
  {
    seq(n, _ => 0)
  }
}
