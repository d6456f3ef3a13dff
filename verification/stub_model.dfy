/**
  The placeholder policy of `src/model.rs`.

  The model holds two weight tensors and a boolean `val`. `direction` always
  answers "up", and `update` only flips `val`. The tensors are filled with
  random numbers by the tensor library, so only their shapes are modelled.
 */
module StubModel {

  /** The source's `i8`. */
  newtype Int8 = x: int | -128 <= x < 128

  /** The three moves a paddle can make. */
  datatype Move = Up | Down | Stay

  /** The source's `Action` record: one signed code per move. */
  datatype Action = Action(up: Int8, down: Int8, stay: Int8)

  /** The source's `ACTION` constant. */
  const ACTION: Action := Action(1, -1, 0)

  /** The code `ACTION` assigns to a move. */
  function Code(m: Move): (c: Int8)
  {
    match m
    case Up => ACTION.up
    case Down => ACTION.down
    case Stay => ACTION.stay
  }

  /** The encoding is up = 1, down = -1, stay = 0. */
  lemma ActionEncoding()
    ensures Code(Up) == 1 && Code(Down) == -1 && Code(Stay) == 0
  {
  }

  /** Distinct moves get distinct codes. */
  lemma CodeInjective(a: Move, b: Move)
    ensures Code(a) == Code(b) <==> a == b
  {
  }

  /** The dimensions of a tensor; its contents are random and not modelled. */
  datatype Shape = Shape(rows: nat, cols: nat)

  const W1_SHAPE: Shape := Shape(784, 100)
  const W2_SHAPE: Shape := Shape(784, 100)

  datatype Model = Model(w1: Shape, w2: Shape, val: bool)

  /** `Model::new`. */
  function New(): (m: Model)
    ensures !m.val
    ensures m.w1 == Shape(784, 100) && m.w2 == Shape(784, 100)
  {
    Model(W1_SHAPE, W2_SHAPE, false)
  }

  /** `Model::direction`: the chosen code for any observed frame. */
  function Direction<S>(m: Model, state: S): (d: Int8)
    ensures d == Code(Up) && d == 1
  {
    ACTION.up
  }

  /** `Model::update`: flips `val`; the frame and the direction are ignored. */
  function Update<S>(m: Model, state: S, direction: Int8): (m': Model)
    ensures m'.val == !m.val
    ensures m'.w1 == m.w1 && m'.w2 == m.w2
  {
    m.(val := !m.val)
  }

  /** Two updates, whatever their arguments, give back the original model. */
  lemma UpdateInvolution<S>(m: Model, s1: S, d1: Int8, s2: S, d2: Int8)
    ensures Update(Update(m, s1, d1), s2, d2) == m
  {
  }

  /** The result of `update` does not depend on its frame or its direction. */
  lemma UpdateIgnoresArguments<S>(m: Model, s1: S, d1: Int8, s2: S, d2: Int8)
    ensures Update(m, s1, d1) == Update(m, s2, d2)
  {
  }
}
