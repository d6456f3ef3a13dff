/**
  The game-history state machine of `src/state.rs`.

  The browser keeps one `LocalState` record under the storage key "state".
  `add_frame` and `dump_game` each read that record, change it and write it
  back. Browser storage is modelled as a map from keys to strings, and the
  JSON serialiser as a `Codec`, a pair of total functions whose only assumed
  property is `RoundTrips`. The frame type (`State` in the source) is the
  opaque type parameter `F`.
 */
module GameState {
  import opened Wrappers

  /** A finished game: its frames in play order and whether it was won. */
  datatype Sequence<F> = Sequence(sequence: seq<F>, outcome: bool)

  /** The whole persisted record. */
  datatype LocalState<F> = LocalState(
    weights: string,
    history: seq<Sequence<F>>,
    current: seq<F>)

  /** Browser storage: a key-value map of strings. */
  type Store = map<string, string>

  /** The only key the state machine reads or writes. */
  const StateKey: string := "state"

  /** A serialiser: `encode` never fails, `decode` may reject its input. */
  datatype Codec<!F> = Codec(
    encode: LocalState<F> -> string,
    decode: string -> Option<LocalState<F>>)

  /** Decoding what was encoded gives back the original record. */
  ghost predicate RoundTrips<F(!new)>(codec: Codec<F>)
  {
    forall s: LocalState<F> :: codec.decode(codec.encode(s)) == Some(s)
  }

  /** `read_state` succeeds: the key is present and its value decodes. */
  predicate Readable<F>(store: Store, codec: Codec<F>)
  {
    StateKey in store && codec.decode(store[StateKey]).Some?
  }

  /** Only the entry under `StateKey` may differ, and it is present afterwards. */
  ghost predicate OnlyStateKeyChanged(store: Store, store': Store)
  {
    && store'.Keys == store.Keys + {StateKey}
    && forall k :: k in store && k != StateKey ==> k in store' && store'[k] == store[k]
  }

  /** `read_state`. Of its panics, a missing "state" key and an undecodable value
      become the precondition; failing to reach browser storage is outside the model. */
  function ReadState<F>(store: Store, codec: Codec<F>): (s: LocalState<F>)
    requires Readable(store, codec)
    ensures codec.decode(store[StateKey]) == Some(s)
  {
    codec.decode(store[StateKey]).value
  }

  /** `write_state`: stores the encoding of `s` under `StateKey`. */
  function WriteState<F(!new)>(store: Store, codec: Codec<F>, s: LocalState<F>): (store': Store)
    ensures OnlyStateKeyChanged(store, store')
    ensures RoundTrips(codec) ==> Readable(store', codec) && ReadState(store', codec) == s
  {
    store[StateKey := codec.encode(s)]
  }

  /** What `add_frame` promises about the record it rewrites. */
  ghost predicate FrameAdded<F>(before: LocalState<F>, after: LocalState<F>, frame: F)
  {
    && |after.current| == |before.current| + 1
    && after.current[..|before.current|] == before.current
    && after.current[|before.current|] == frame
    && after.weights == before.weights
    && after.history == before.history
  }

  /** What `dump_game` promises about the record it rewrites. */
  ghost predicate GameDumped<F>(before: LocalState<F>, after: LocalState<F>, outcome: bool)
  {
    && |after.history| == |before.history| + 1
    && after.history[..|before.history|] == before.history
    && after.history[|before.history|] == Sequence(before.current, outcome)
    && after.current == []
    && after.weights == before.weights
  }

  /** The record-level step of `add_frame`: push one frame onto the current game. */
  function PushFrame<F>(s: LocalState<F>, frame: F): (s': LocalState<F>)
    ensures FrameAdded(s, s', frame)
  {
    LocalState(s.weights, s.history, s.current + [frame])
  }

  /** The record-level step of `dump_game`: close the current game into the history. */
  function CloseGame<F>(s: LocalState<F>, outcome: bool): (s': LocalState<F>)
    ensures GameDumped(s, s', outcome)
  {
    LocalState(s.weights, s.history + [Sequence(s.current, outcome)], [])
  }

  /** `add_frame`: read the record, push `frame`, write the record back. */
  function AddFrame<F(!new)>(store: Store, codec: Codec<F>, frame: F): (store': Store)
    requires Readable(store, codec)
    ensures OnlyStateKeyChanged(store, store')
    ensures RoundTrips(codec) ==>
      Readable(store', codec) && FrameAdded(ReadState(store, codec), ReadState(store', codec), frame)
  {
    var s := ReadState(store, codec);
    WriteState(store, codec, PushFrame(s, frame))
  }

  /** `dump_game`: read the record, close the current game, write the record back. */
  function DumpGame<F(!new)>(store: Store, codec: Codec<F>, outcome: bool): (store': Store)
    requires Readable(store, codec)
    ensures OnlyStateKeyChanged(store, store')
    ensures RoundTrips(codec) ==>
      Readable(store', codec) && GameDumped(ReadState(store, codec), ReadState(store', codec), outcome)
  {
    var s := ReadState(store, codec);
    WriteState(store, codec, CloseGame(s, outcome))
  }

  /** The number of frames held by the finished games of `h`. */
  function HistoryFrames<F>(h: seq<Sequence<F>>): nat
  {
    if h == [] then 0 else |h[0].sequence| + HistoryFrames(h[1..])
  }

  /** Every frame the record holds, finished games and the current game together. */
  function TotalFrames<F>(s: LocalState<F>): nat
  {
    HistoryFrames(s.history) + |s.current|
  }

  lemma {:induction false} HistoryFramesAppend<F>(h: seq<Sequence<F>>, g: Sequence<F>)
    ensures HistoryFrames(h + [g]) == HistoryFrames(h) + |g.sequence|
  {
    if h == [] {
      assert h + [g] == [g];
      assert [g][1..] == [];
    } else {
      assert (h + [g])[1..] == h[1..] + [g];
      HistoryFramesAppend(h[1..], g);
    }
  }

  /** Any record change satisfying `add_frame`'s promise adds exactly one frame. */
  lemma FrameAddedCountsOne<F>(before: LocalState<F>, after: LocalState<F>, frame: F)
    requires FrameAdded(before, after, frame)
    ensures TotalFrames(after) == TotalFrames(before) + 1
  {
  }

  /** Any record change satisfying `dump_game`'s promise loses and gains no frame. */
  lemma GameDumpedConserves<F>(before: LocalState<F>, after: LocalState<F>, outcome: bool)
    requires GameDumped(before, after, outcome)
    ensures TotalFrames(after) == TotalFrames(before)
  {
    var n := |before.history|;
    assert after.history == before.history + [after.history[n]];
    HistoryFramesAppend(before.history, after.history[n]);
  }

  /** Frame conservation across the stored record for both operations. */
  lemma StoredFrameConservation<F(!new)>(store: Store, codec: Codec<F>, frame: F, outcome: bool)
    requires RoundTrips(codec)
    requires Readable(store, codec)
    ensures TotalFrames(ReadState(AddFrame(store, codec, frame), codec))
         == TotalFrames(ReadState(store, codec)) + 1
    ensures TotalFrames(ReadState(DumpGame(store, codec, outcome), codec))
         == TotalFrames(ReadState(store, codec))
  {
    FrameAddedCountsOne(ReadState(store, codec), ReadState(AddFrame(store, codec, frame), codec), frame);
    GameDumpedConserves(ReadState(store, codec), ReadState(DumpGame(store, codec, outcome), codec), outcome);
  }

  /** `add_frame` called once per element of `frames`, in order. */
  function Play<F(!new)>(store: Store, codec: Codec<F>, frames: seq<F>): (store': Store)
    requires RoundTrips(codec)
    requires Readable(store, codec)
    ensures Readable(store', codec)
    ensures ReadState(store', codec).current == ReadState(store, codec).current + frames
    ensures ReadState(store', codec).history == ReadState(store, codec).history
    ensures ReadState(store', codec).weights == ReadState(store, codec).weights
    decreases |frames|
  {
    if frames == [] then store
    else Play(AddFrame(store, codec, frames[0]), codec, frames[1..])
  }

  /** Starting from an empty current game, k calls to `add_frame` and then
      `dump_game` leave exactly those k frames, in call order, in the last history entry. */
  lemma PlayThenDump<F(!new)>(store: Store, codec: Codec<F>, frames: seq<F>, outcome: bool)
    requires RoundTrips(codec)
    requires Readable(store, codec)
    requires ReadState(store, codec).current == []
    ensures var after := ReadState(DumpGame(Play(store, codec, frames), codec, outcome), codec);
      && |after.history| == |ReadState(store, codec).history| + 1
      && after.history[|after.history| - 1] == Sequence(frames, outcome)
      && after.current == []
  {
  }
}
