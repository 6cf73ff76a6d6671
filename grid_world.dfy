/**
 * The grid world: the reward grid, the transition function the learner calls,
 * and the editing operations on the grid, the start cell and the reward settings.
 */
module GridWorld {
  import opened Common

  /** What a cell holds (REWARD_EMPTY, REWARD_GEM, REWARD_BAD, REWARD_WALL in the source). */
  datatype Cell = Empty | Gem | Bad | Wall

  /** The reward grid, indexed `[y][x]` as in the source. */
  type Grid = seq<seq<Cell>>

  predicate IsGrid(g: Grid, n: int)
  {
    |g| == n && forall y :: 0 <= y < |g| ==> |g[y]| == n
  }

  function At(g: Grid, p: Pos): Cell
    requires 0 <= p.y < |g| && 0 <= p.x < |g[p.y]|
  {
    g[p.y][p.x]
  }

  /** The grid with one cell replaced. */
  function SetCell(g: Grid, p: Pos, c: Cell): (r: Grid)
    requires 0 <= p.y < |g| && 0 <= p.x < |g[p.y]|
    ensures |r| == |g| && forall y :: 0 <= y < |g| ==> |r[y]| == |g[y]|
    ensures forall q: Pos {:trigger At(r, q)} :: 0 <= q.y < |g| && 0 <= q.x < |g[q.y]| ==> At(r, q) == if q == p then c else At(g, q)
  {
    g[p.y := g[p.y][p.x := c]]
  }

  /** The reward settings `takeAction` reads from the module state. */
  datatype Settings = Settings(stepPenalty: real, gemReward: real, badReward: real, terminateOnGem: bool)

  const DefaultSettings := Settings(-0.1, 10.0, -10.0, true)

  /** What `takeAction` returns; `nextState` is the state key of `newPos`. */
  datatype StepResult = StepResult(nextState: Pos, reward: real, newPos: Pos, done: bool)

  /** The cell an action aims at: one step, clamped to `[0, n-1]`; an unknown action string aims at `p`. */
  function Aim(action: string, p: Pos, n: int): (r: Pos)
    ensures InBounds(p, n) ==> InBounds(r, n)
    ensures InBounds(p, n) ==>
      r == p || (r.x == p.x && (r.y == p.y - 1 || r.y == p.y + 1)) || (r.y == p.y && (r.x == p.x - 1 || r.x == p.x + 1))
  {
    if action == "up" then Pos(p.x, Max(0, p.y - 1))
    else if action == "down" then Pos(p.x, Min(n - 1, p.y + 1))
    else if action == "left" then Pos(Max(0, p.x - 1), p.y)
    else if action == "right" then Pos(Min(n - 1, p.x + 1), p.y)
    else p
  }

  /** The unclamped neighbour of `p` in the direction of `a` (y grows downwards). */
  function Neighbour(p: Pos, a: Action): Pos
  {
    match a
    case Up => Pos(p.x, p.y - 1)
    case Down => Pos(p.x, p.y + 1)
    case Left => Pos(p.x - 1, p.y)
    case Right => Pos(p.x + 1, p.y)
  }

  /** The reward and termination flag for arriving in a cell. */
  function Arrival(c: Cell, s: Settings): (r: (real, bool))
    ensures r.1 <==> c == Bad || (c == Gem && s.terminateOnGem)
    ensures c != Gem && c != Bad ==> r.0 == s.stepPenalty
  {
    match c
    case Gem => (s.gemReward, s.terminateOnGem)
    case Bad => (s.badReward, true)
    case _ => (s.stepPenalty, false)
  }

  /**
   * The transition function: move one cell, clamped to the grid, unless the
   * target is a wall; the reward and `done` follow the cell finally occupied.
   */
  function TakeAction(g: Grid, s: Settings, action: string, p: Pos, n: int): (r: StepResult)
    requires IsGrid(g, n) && InBounds(p, n)
    ensures InBounds(r.newPos, n)
    ensures r.nextState == r.newPos
    ensures r.newPos == p || r.newPos == Aim(action, p, n)
    ensures r.newPos != p ==> At(g, r.newPos) != Wall
    ensures At(g, Aim(action, p, n)) != Wall ==> r.newPos == Aim(action, p, n)
    ensures (r.reward, r.done) == Arrival(At(g, r.newPos), s)
  {
    var target := Aim(action, p, n);
    var dest := if InBounds(target, n) && At(g, target) != Wall then target else p;
    var (reward, done) := Arrival(At(g, dest), s);
    StepResult(dest, reward, dest, done)
  }

  /** Each of the four moves goes to its neighbour when that is on the grid and stays put otherwise. */
  lemma MoveIsClampedStep(a: Action, p: Pos, n: int)
    requires InBounds(p, n)
    ensures Aim(Name(a), p, n) == if InBounds(Neighbour(p, a), n) then Neighbour(p, a) else p
  {
  }

  /** A transition never leaves the grid and moves at most one cell, horizontally or vertically. */
  lemma TransitionIsLocal(g: Grid, s: Settings, action: string, p: Pos, n: int)
    requires IsGrid(g, n) && InBounds(p, n)
    ensures var q := TakeAction(g, s, action, p, n).newPos;
      InBounds(q, n) &&
      (q == p || exists a :: q == Neighbour(p, a) && action == Name(a))
  {
    var q := TakeAction(g, s, action, p, n).newPos;
    if q != p {
      if action == "up" { assert q == Neighbour(p, Up); }
      else if action == "down" { assert q == Neighbour(p, Down); }
      else if action == "left" { assert q == Neighbour(p, Left); }
      else { assert q == Neighbour(p, Right); }
    }
  }

  /** The cell editing cycle Empty -> Gem -> Bad -> Wall -> Empty. */
  function NextCell(c: Cell): (r: Cell)
    ensures r != c
  {
    match c
    case Empty => Gem
    case Gem => Bad
    case Bad => Wall
    case Wall => Empty
  }

  /** Four edits of one cell restore it. */
  lemma CycleHasPeriodFour(c: Cell)
    ensures NextCell(NextCell(NextCell(NextCell(c)))) == c
    ensures NextCell(c) != c && NextCell(NextCell(c)) != c && NextCell(NextCell(NextCell(c))) != c
  {
  }

  /** The default layout, stated cell by cell. */
  function DefaultCell(n: int, p: Pos): Cell
  {
    if n > 3 && (p == Pos(2, 1) || p == Pos(2, 3)) then Wall
    else if p == Pos(n - 1, n - 1) then Gem
    else if (n > 2 && p == Pos(n / 2, n / 2)) || (n == 2 && p == Pos(1, 0)) then Bad
    else Empty
  }

  /** An n-by-n grid of empty cells. */
  function Blank(n: nat): (g: Grid)
    ensures IsGrid(g, n)
    ensures forall p :: InBounds(p, n) ==> At(g, p) == Empty
  {
    seq(n, _ => seq(n, _ => Empty))
  }

  /**
   * Builds the default grid of the given size by the source's point writes:
   * bad cell at the centre (one row up when the centre is the gem cell),
   * gem in the far corner, two walls once the grid is larger than 3.
   */
  method DefaultLayout(size: nat) returns (g: Grid)
    ensures IsGrid(g, size)
    ensures forall p :: InBounds(p, size) ==> At(g, p) == DefaultCell(size, p)
  {
    g := Blank(size);
    if size > 0 {
      var gem := Pos(size - 1, size - 1);
      var c := size / 2;
      if gem == Pos(c, c) && size > 1 {
        g := SetCell(g, Pos(c, c - 1), Bad);
      } else if size > 2 {
        g := SetCell(g, Pos(c, c), Bad);
      }
      g := SetCell(g, gem, Gem);
      if size > 3 {
        g := SetCell(g, Pos(2, 1), Wall);
        g := SetCell(g, Pos(2, 3), Wall);
      }
    }
  }

  /** What the grid-size validator reports. */
  datatype SizeUpdate = SizeUpdate(gridSize: int, updated: bool)

  /** Accepts a parsed grid size in 2..20; otherwise keeps the current size. */
  function ValidateGridSize(input: int, current: int): (r: SizeUpdate)
    ensures r.updated <==> 2 <= input <= 20
    ensures r.gridSize == if r.updated then input else current
    ensures r.updated ==> 2 <= r.gridSize <= 20
  {
    if 2 <= input <= 20 then SizeUpdate(input, true) else SizeUpdate(current, false)
  }

  /** The module-level state of the environment. */
  class Environment {
    var grid: Grid
    var agentPos: Pos
    var startPos: Pos
    var stepPenalty: real
    var gemReward: real
    var badReward: real
    var terminateOnGem: bool

    constructor ()
      ensures grid == [] && agentPos == Pos(0, 0) && startPos == Pos(0, 0)
      ensures Config() == DefaultSettings
    {
      grid := [];
      agentPos, startPos := Pos(0, 0), Pos(0, 0);
      stepPenalty, gemReward, badReward := -0.1, 10.0, -10.0;
      terminateOnGem := true;
    }

    function Config(): Settings
      reads this`stepPenalty, this`gemReward, this`badReward, this`terminateOnGem
    {
      Settings(stepPenalty, gemReward, badReward, terminateOnGem)
    }

    /** Replaces the grid by the default layout of the given size. */
    method InitializeGridRewards(size: nat)
      modifies this`grid
      ensures IsGrid(grid, size)
      ensures forall p :: InBounds(p, size) ==> At(grid, p) == DefaultCell(size, p)
    {
      grid := DefaultLayout(size);
    }

    /** Moves the start cell to `p` when it is on the grid and empty. */
    method SetStartPos(p: Pos, n: int) returns (ok: bool)
      requires IsGrid(grid, n)
      modifies this`startPos
      ensures ok <==> InBounds(p, n) && At(grid, p) == Empty
      ensures startPos == if ok then p else old(startPos)
    {
      if InBounds(p, n) {
        if At(grid, p) == Empty {
          startPos := p;
          return true;
        } else {
          return false;
        }
      } else {
        return false;
      }
    }

    method SetAgentPos(p: Pos)
      modifies this`agentPos
      ensures agentPos == p
    {
      agentPos := p;
    }

    method ResetAgent()
      modifies this`agentPos
      ensures agentPos == startPos
    {
      agentPos := startPos;
    }

    /**
     * Advances one cell along the editing cycle. Off-grid cells and the start
     * cell are refused, and no other cell changes.
     */
    method CycleCellState(x: int, y: int, n: int) returns (ok: bool)
      requires IsGrid(grid, n)
      modifies this`grid
      ensures IsGrid(grid, n)
      ensures ok <==> InBounds(Pos(x, y), n) && Pos(x, y) != startPos
      ensures !ok ==> grid == old(grid)
      ensures ok ==> At(grid, Pos(x, y)) == NextCell(At(old(grid), Pos(x, y)))
      ensures forall q :: InBounds(q, n) && q != Pos(x, y) ==> At(grid, q) == At(old(grid), q)
    {
      if !InBounds(Pos(x, y), n) {
        return false;
      }
      if x == startPos.x && y == startPos.y {
        return false;
      }
      grid := SetCell(grid, Pos(x, y), NextCell(At(grid, Pos(x, y))));
      return true;
    }

    method SetStepPenalty(v: real)
      modifies this`stepPenalty
      ensures stepPenalty == v
    {
      stepPenalty := v;
    }

    /** Accepts only a non-negative gem reward. */
    method SetGemRewardMagnitude(v: real)
      modifies this`gemReward
      ensures gemReward == if v >= 0.0 then v else old(gemReward)
    {
      if v >= 0.0 {
        gemReward := v;
      }
    }

    /** Accepts only a non-positive bad-cell reward. */
    method SetBadStateRewardMagnitude(v: real)
      modifies this`badReward
      ensures badReward == if v <= 0.0 then v else old(badReward)
    {
      if v <= 0.0 {
        badReward := v;
      }
    }

    method SetTerminateOnGem(b: bool)
      modifies this`terminateOnGem
      ensures terminateOnGem == b
    {
      terminateOnGem := b;
    }
  }

  /** Four successful edits of the same cell give back the grid. */
  lemma FourEditsRestore(g: Grid, p: Pos, n: int)
    requires IsGrid(g, n) && InBounds(p, n)
    ensures var g1 := SetCell(g, p, NextCell(At(g, p)));
      var g2 := SetCell(g1, p, NextCell(At(g1, p)));
      var g3 := SetCell(g2, p, NextCell(At(g2, p)));
      SetCell(g3, p, NextCell(At(g3, p))) == g
  {
    var g1 := SetCell(g, p, NextCell(At(g, p)));
    var g2 := SetCell(g1, p, NextCell(At(g1, p)));
    var g3 := SetCell(g2, p, NextCell(At(g2, p)));
    var g4 := SetCell(g3, p, NextCell(At(g3, p)));
    CycleHasPeriodFour(At(g, p));
    assert g4[p.y] == g[p.y];
  }
}
