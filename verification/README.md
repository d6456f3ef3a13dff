# pong-wasm in Dafny

A verified model of the deterministic core of pong-wasm, a browser Pong game whose
opponent is meant to learn from recorded games. Three pieces are modelled:

- **Game history** (`src/state.rs`), module `GameState`. One `LocalState`
  record holds `weights`, the finished games `history` and the frames of the
  game in progress `current`. It is kept in browser storage under the single
  key `"state"`. `add_frame` appends a frame to `current`. `dump_game` closes
  `current` into a `Sequence { sequence, outcome }`, appends it to `history` and
  empties `current`. Both are read-modify-write steps on the stored record.
  Storage is a `map<string, string>`. The JSON serialiser is a `Codec`: an
  abstract pair of encode/decode functions. `RoundTrips(codec)` says that
  decoding an encoding gives back the record. The frame type (`State` in the
  source) is an opaque type parameter.
- **Stub policy** (`src/model.rs`), module `StubModel`. It covers the action
  codes (`ACTION`: up = 1, down = -1, stay = 0) and a `Model` with two weight
  tensors and a flag `val`. `new` clears `val`. `direction` always answers up.
  `update` flips `val` and nothing else. Tensors are modelled by their shapes.
- **Board rasteriser** (`getGameBoard` in `index.js`), module `GameBoard`.
  It builds a 200 x 200 boolean grid. Cell `[i][j]` is set when column `i` and
  row `j` fall inside paddle 1, paddle 2 or the ball square. All bounds are
  inclusive. The inputs are integer cell coordinates.

The shared `Option` type lives in module `Wrappers`.

## Model

| member | source | states |
|---|---|---|
| GameState.ReadState | src/state.rs:28-38 | reading needs the `"state"` key to be present and its value to decode (otherwise the source panics); the result is the decoded record |
| GameState.WriteState | src/state.rs:41-50 | writing changes only the `"state"` entry; with a round-tripping codec, reading straight after writing `s` returns `s` |
| GameState.PushFrame | src/state.rs:54-60 | on the record: `current` grows by one, earlier frames are kept, the new last frame is the argument, `weights` and `history` are unchanged |
| GameState.CloseGame | src/state.rs:65-75 | on the record: `history` grows by one and keeps its earlier entries; the new entry is the old `current` with the given outcome; `current` becomes empty; `weights` is unchanged |
| GameState.AddFrame | src/state.rs:53-61 | needs a readable store; touches only the `"state"` key; the record read back is the old record with the frame appended as in `PushFrame` |
| GameState.DumpGame | src/state.rs:64-76 | needs a readable store; touches only the `"state"` key; the record read back is the old record with the game closed as in `CloseGame` |
| GameState.FrameAddedCountsOne | src/state.rs:55 | any change meeting `add_frame`'s promise raises the total frame count (history plus current) by exactly one |
| GameState.GameDumpedConserves | src/state.rs:66-74 | any change meeting `dump_game`'s promise keeps the total frame count unchanged |
| GameState.StoredFrameConservation | src/state.rs:53-76 | frame conservation for the stored operations: `add_frame` adds one frame in total, `dump_game` none |
| GameState.Play | src/state.rs:53-61 | calling `add_frame` once per frame, in order, appends exactly those frames to `current` and keeps `history` and `weights` |
| GameState.PlayThenDump | src/state.rs:53-75 | from an empty current game, k `add_frame` calls and then `dump_game` leave those k frames, in call order, with the outcome in the last history entry, and an empty current game |
| StubModel.ActionEncoding | src/model.rs:12-16 | up is coded 1, down -1 and stay 0 |
| StubModel.CodeInjective | src/model.rs:6-16 | two moves share a code exactly when they are the same move, so the three codes are pairwise distinct |
| StubModel.New | src/model.rs:27-34 | a new model has `val == false` and both weight tensors of shape 784 x 100 |
| StubModel.Direction | src/model.rs:36-38 | every frame gets the code of up, 1; the model is only read |
| StubModel.Update | src/model.rs:40-42 | `val` becomes its negation and both tensors keep their shapes |
| StubModel.UpdateInvolution | src/model.rs:40-42 | two updates, with any arguments, give back the original model |
| StubModel.UpdateIgnoresArguments | src/model.rs:40-42 | the result of `update` does not depend on its frame or direction argument |
| GameBoard.PaddleRegion | index.js:325-328 | a paddle covers column `i` and row `j` exactly when `x <= i <= x + w` and `y <= j <= y + h` |
| GameBoard.BallRegion | index.js:329-335 | the ball covers column `i` and row `j` exactly when both lie within `size` of its centre, inclusive |
| GameBoard.GetGameBoard | index.js:304-340 | the board is 200 x 200 for any coordinates, even off-board ones; cell `[i][j]` is set exactly when column `i`, row `j` lies in paddle 1, paddle 2 or the ball, which is exactly when the source's if / else-if cascade takes a branch; every other cell stays false as initialised |
| GameBoard.FirstMatch | index.js:325-336 | the branch an if / else-if cascade takes is a region that contains the cell, and no earlier region does |
| GameBoard.FirstMatchIsUnion | index.js:325-336 | a cascade whose every branch sets the cell sets it exactly when some region contains it |
| GameBoard.CascadeOrderIrrelevant | index.js:325-336 | any reordering of the cascade's tests sets the same cells |
| GameBoard.CascadeIsOccupied | index.js:325-336 | the source's three-test cascade sets exactly the cells `GetGameBoard` promises |
| GameBoard.SpanSize | index.js:323-325 | an inclusive index range `lo..hi` on the board has `hi - lo + 1` indices |
| GameBoard.PaddleCoverage | index.js:325 | a paddle of extent `w` by `h` that lies on the board spans `w + 1` columns and `h + 1` rows |
| GameBoard.AxisOrder | index.js:325-328 | for every paddle taller than it is wide, on any board, the cell at column `x`, row `y + h` is occupied, while the transposed cell, column `x + h`, row `y`, lies outside the paddle: the first index is x and the second is y |

## Left out

- Browser storage (`web_sys` local storage) and JSON (`serde_json`) inside `read_state`/`write_state`: foreign calls. They are replaced by a string map and an abstract `Codec`. The serialiser's round-trip property is a hypothesis (`RoundTrips`), not something proved.
- A failing `serde_json::to_string` in `write_state` (src/state.rs:42): the abstract `Codec`'s encoder is total, so a serialiser error is not modelled.
- Failures to reach browser storage in `read_state` and `write_state` (no window, no `localStorage`, a failing `get_item` or `set_item`; src/state.rs:29-35 and 43-49): the browser is not modelled, so storage is always reachable and writing always succeeds. Of `read_state`'s panics, only a missing `"state"` key and an undecodable value are modelled, as the precondition `Readable`.
- Interleaving: `add_frame` and `dump_game` are separate read and write calls on shared `localStorage`, so they are not atomic. The model treats each call as one atomic step on the store, so it says nothing about overlapping calls.
- `src/lib.rs`: wiring only. It calls `read_model`, `write_model`, `infer`, `train` and `Image`, which are not part of this model, and passes `dump_game`'s unit result to `train`.
- Tensor contents in `Model::new`: random normal samples from the tensor library. Only the shapes are kept.
- Inference and training: `src/state.rs` and `src/model.rs` define neither; `src/lib.rs` calls `infer` and `train`, which no modelled file defines.
- Game physics, input handling, drawing and worker start-up in `index.js`, `pong.js` and `worker.js`: floating-point canvas code driven by the UI.
- The `Math.floor` conversions from canvas coordinates to cells (index.js:309-321): `GetGameBoard` takes the integer cell coordinates directly.
- `GetGameBoard` returns an immutable sequence of rows instead of a fresh array of arrays. The cells it sets are the same.
