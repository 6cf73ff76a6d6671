/** Shared vocabulary of the grid world and the learning engine. */
module Common {

  datatype Option<T> = None | Some(value: T)

  /** A value, or the message of the exception the source would throw. */
  datatype Result<T> = Ok(value: T) | Fail(error: string)

  /** A grid coordinate; also the identity of a state (the source keys states by "x,y"). */
  datatype Pos = Pos(x: int, y: int)

  /** `p` is a cell of the n-by-n grid; also the states a table of that size holds. */
  predicate InBounds(p: Pos, n: int)
  {
    0 <= p.x < n && 0 <= p.y < n
  }

  /** The four moves, in the order the source lists them. */
  datatype Action = Up | Down | Left | Right

  const Actions: seq<Action> := [Up, Down, Left, Right]

  /** The action string the environment receives. */
  function Name(a: Action): string
  {
    match a
    case Up => "up"
    case Down => "down"
    case Left => "left"
    case Right => "right"
  }

  /** Position of an action in `Actions`. */
  function Index(a: Action): (i: nat)
    ensures i < |Actions| && Actions[i] == a
  {
    match a
    case Up => 0
    case Down => 1
    case Left => 2
    case Right => 3
  }

  function Min(a: int, b: int): int { if a <= b then a else b }

  function Max(a: int, b: int): int { if a >= b then a else b }
}
