/** The values the game passes around: segments of the snake, the food item,
    and the four directions of travel. Coordinates are exact rationals: every
    value the game produces is an integer or a multiple of 1/8 of moderate
    size. */
module Types {

  datatype Option<T> = None | Some(value: T)

  /** The four directions, in the order in which the enumeration lists them. */
  datatype Move = Up | Down | Left | Right

  /** One body segment: its position and its ordinal `pos`. */
  datatype Segment = Segment(x: real, y: real, pos: int)

  /** The food item: a position only. */
  datatype Food = Food(x: real, y: real)

  function Abs(v: real): real {
    if v < 0.0 then -v else v
  }

  /** The direction that undoes `m`: a different direction on the same axis. */
  function Opposite(m: Move): (r: Move)
    ensures r != m
    ensures (r == Up || r == Down) <==> (m == Up || m == Down)
  {
    match m
    case Up => Down
    case Down => Up
    case Left => Right
    case Right => Left
  }

  /** The signed distance `to` lies ahead of `from` along direction `m`. */
  function Progress(from: Segment, to: Segment, m: Move): real {
    match m
    case Up => from.y - to.y
    case Down => to.y - from.y
    case Left => from.x - to.x
    case Right => to.x - from.x
  }

  /** `to` lies on the line through `from` in direction `m`. */
  predicate OnTrack(from: Segment, to: Segment, m: Move) {
    match m
    case Up | Down => to.x == from.x
    case Left | Right => to.y == from.y
  }
}
