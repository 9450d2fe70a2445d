/** The game session: the state the screen shows, one simulation tick, the
    swipe handler that steers the snake, and the "Play Again" restart. The
    transitions are functions on a Session value; the class Game holds the
    same state in fields and its methods perform the transitions in place. */
module App {
  import opened Types
  import opened Snake
  import opened CollisionCheck
  import opened FoodPlacement

  /** Side of the box of the food item and of a segment. */
  const FoodBox: real := 25.0
  /** Half-side of the square around the head within which food is eaten. */
  const EatRadius: real := FoodBox - 10.0
  /** Three frame slots per tick; only their number matters. */
  const SegmentFrames: seq<real> := [0.0, 0.0, 0.0]

  datatype Session = Session(snake: seq<Segment>, food: Food, move: Move, gameOver: bool, score: int)

  /** The session invariant: the score is a non-negative multiple of ten, and
      the snake has its first segment plus three for every food eaten. */
  predicate Consistent(s: Session) {
    s.score >= 0 && s.score % 10 == 0 && |s.snake| == 1 + 3 * (s.score / 10)
  }

  /** Whether `m` moves along the vertical axis. */
  predicate IsVerticalMove(m: Move) {
    m == Up || m == Down
  }

  /** Whether `m` moves along the horizontal axis: exactly the moves that are
      not vertical. */
  predicate IsHorizontalMove(m: Move)
    ensures IsHorizontalMove(m) <==> !IsVerticalMove(m)
  {
    m == Left || m == Right
  }

  /** The candidate heads of the next tick. */
  function NewHeads(s: Session): (heads: seq<Segment>)
    requires |s.snake| > 0
    ensures |heads| == |SegmentFrames|
  {
    GenerateSnakeSegments(s.snake, SegmentFrames, FoodBox, s.move)
  }

  /** The last candidate: the head that is tested and kept. */
  function NewHead(s: Session): Segment
    requires |s.snake| > 0
  {
    var heads := NewHeads(s);
    heads[|heads| - 1]
  }

  predicate Collides(s: Session, width: real, height: real)
    requires |s.snake| > 0
  {
    Collision(s.snake, NewHead(s), width, height, FoodBox)
  }

  predicate Eats(s: Session)
    requires |s.snake| > 0
  {
    CanEatFood(NewHead(s), s.food, EatRadius)
  }

  /** The random source yields, within `draws`, a place for the food that an
      eating tick has to put down. */
  predicate FoodSupplied(s: Session, width: real, height: real, draws: seq<(real, real)>)
    requires |s.snake| > 0
  {
    !Collides(s, width, height) && Eats(s) ==>
      FirstValidFood(NewHeads(s) + s.snake, width, height, FoodBox, draws).Some?
  }

  /** One tick. Collision is tested first and freezes the snake, the food and
      the score, ending the game. Otherwise, when the head reaches the food,
      the three candidate heads are put in front of the whole old snake, the
      score rises by ten and new food is placed against the grown snake.
      Otherwise the kept head goes in front and the tail is dropped. */
  function TickStep(s: Session, width: real, height: real, draws: seq<(real, real)>): (r: Session)
    requires |s.snake| > 0 && !s.gameOver && FoodSupplied(s, width, height, draws)
    ensures r.move == s.move
    ensures r.gameOver <==> Collides(s, width, height)
    ensures r.gameOver ==> r.snake == s.snake && r.food == s.food && r.score == s.score
    ensures !r.gameOver && Eats(s) ==>
              && |r.snake| == |s.snake| + 3
              && r.snake[..3] == NewHeads(s) && r.snake[3..] == s.snake
              && r.score == s.score + 10
              && ValidFoodPos(r.food, r.snake, width, height)
    ensures !r.gameOver && !Eats(s) ==>
              && |r.snake| == |s.snake|
              && r.snake[0] == NewHead(s) && r.snake[1..] == s.snake[..|s.snake| - 1]
              && r.score == s.score && r.food == s.food
  {
    var heads := NewHeads(s);
    var head := heads[|heads| - 1];
    if Collision(s.snake, head, width, height, FoodBox) then
      s.(gameOver := true)
    else if CanEatFood(head, s.food, EatRadius) then
      var grown := heads + s.snake;
      s.(snake := grown, food := FirstValidFood(grown, width, height, FoodBox, draws).value, score := s.score + 10)
    else
      s.(snake := ShiftedSnake(s.snake, head))
  }

  /** Every tick keeps the session invariant: growth by three comes with ten
      more points, and a tick that does not eat keeps both. */
  lemma TickKeepsConsistent(s: Session, width: real, height: real, draws: seq<(real, real)>)
    requires Consistent(s) && !s.gameOver && FoodSupplied(s, width, height, draws)
    ensures Consistent(TickStep(s, width, height, draws))
  {
    var r := TickStep(s, width, height, draws);
    if !r.gameOver && Eats(s) {
      assert (s.score + 10) / 10 == s.score / 10 + 1;
    }
  }

  /** The swipe handler. Nothing changes once the game is over. A swipe whose
      horizontal extent exceeds its vertical one is horizontal, any other is
      vertical; a positive extent picks Right or Down, any other Left or Up.
      A swipe along the axis of the current move is ignored, so the snake can
      turn only at right angles and never reverse. */
  function Steer(move: Move, gameOver: bool, dx: real, dy: real): (r: Move)
    ensures gameOver ==> r == move
    ensures !gameOver && (Abs(dx) > Abs(dy)) == IsHorizontalMove(move) ==> r == move
    ensures r != Opposite(move)
    ensures r == move || IsVerticalMove(r) != IsVerticalMove(move)
    ensures !gameOver && Abs(dx) > Abs(dy) && IsVerticalMove(move) ==> r == (if dx > 0.0 then Right else Left)
    ensures !gameOver && Abs(dx) <= Abs(dy) && IsHorizontalMove(move) ==> r == (if dy > 0.0 then Down else Up)
  {
    if gameOver then move
    else if Abs(dx) > Abs(dy) then
      if move == Left || move == Right then move
      else if dx > 0.0 then Right else Left
    else
      if move == Up || move == Down then move
      else if dy > 0.0 then Down else Up
  }

  /** The state at start-up: a drawn direction, a one-segment snake spawned
      against it, food placed against that snake, score zero. */
  function InitialSession(width: real, height: real, moveDraw: real, rx: real, ry: real,
                          foodDraws: seq<(real, real)>): (r: Session)
    requires 0.0 <= moveDraw < 1.0
    requires FirstValidFood(InitialSnakeSegments(width, height, GenerateMove(moveDraw), rx, ry),
                            width, height, FoodBox, foodDraws).Some?
    ensures Consistent(r) && !r.gameOver && r.score == 0
    ensures r.move == GenerateMove(moveDraw)
    ensures r.snake == InitialSnakeSegments(width, height, r.move, rx, ry)
    ensures ValidFoodPos(r.food, r.snake, width, height)
  {
    var move := GenerateMove(moveDraw);
    var snake := InitialSnakeSegments(width, height, move, rx, ry);
    Session(snake, FirstValidFood(snake, width, height, FoodBox, foodDraws).value, move, false, 0)
  }

  /** "Play Again", offered only once the game is over: score zero, game
      running, a fresh one-segment snake, and a newly drawn direction. As written, the snake is spawned against the
      direction held before the restart, not the new one, and the food is
      checked against the start-up snake, not the new one. */
  function RestartStep(s: Session, width: real, height: real, initialSnake: seq<Segment>,
                       moveDraw: real, rx: real, ry: real, foodDraws: seq<(real, real)>): (r: Session)
    requires s.gameOver
    requires 0.0 <= moveDraw < 1.0
    requires FirstValidFood(initialSnake, width, height, FoodBox, foodDraws).Some?
    ensures Consistent(r) && !r.gameOver && r.score == 0 && |r.snake| == 1
    ensures r.move == GenerateMove(moveDraw)
    ensures r.snake == InitialSnakeSegments(width, height, s.move, rx, ry)
    ensures ValidFoodPos(r.food, initialSnake, width, height)
  {
    var nextMove := GenerateMove(moveDraw);
    var snake := InitialSnakeSegments(width, height, s.move, rx, ry);
    var food := FirstValidFood(initialSnake, width, height, FoodBox, foodDraws).value;
    Session(snake, food, nextMove, false, 0)
  }

  /** What can happen to a session: a frame on which a tick is due (with the
      draws food placement will use), a swipe, or a press of "Play Again". */
  datatype Event =
    | Frame(draws: seq<(real, real)>)
    | Swipe(dx: real, dy: real)
    | PlayAgain(moveDraw: real, rx: real, ry: real, foodDraws: seq<(real, real)>)

  /** One event. Frames tick only while the game runs; a swipe goes through
      the swipe handler; the restart dialog exists only once the game is over.
      Every event keeps the session invariant. */
  function Apply(s: Session, width: real, height: real, initialSnake: seq<Segment>, e: Event): (r: Session)
    requires Consistent(s) && Enabled(s, width, height, initialSnake, e)
    ensures Consistent(r)
    ensures e.Frame? ==> if s.gameOver then r == s else r == TickStep(s, width, height, e.draws)
    ensures e.Swipe? ==> r == s.(move := Steer(s.move, s.gameOver, e.dx, e.dy))
    ensures e.PlayAgain? ==>
              if s.gameOver then r == RestartStep(s, width, height, initialSnake, e.moveDraw, e.rx, e.ry, e.foodDraws)
              else r == s
  {
    match e
    case Frame(draws) =>
      if s.gameOver then s
      else
        TickKeepsConsistent(s, width, height, draws);
        TickStep(s, width, height, draws)
    case Swipe(dx, dy) => s.(move := Steer(s.move, s.gameOver, dx, dy))
    case PlayAgain(moveDraw, rx, ry, foodDraws) =>
      if s.gameOver then RestartStep(s, width, height, initialSnake, moveDraw, rx, ry, foodDraws) else s
  }

  /** The random source supplies what the event needs. */
  predicate Enabled(s: Session, width: real, height: real, initialSnake: seq<Segment>, e: Event)
    requires Consistent(s)
  {
    match e
    case Frame(draws) => s.gameOver || FoodSupplied(s, width, height, draws)
    case Swipe(_, _) => true
    case PlayAgain(moveDraw, _, _, foodDraws) =>
      0.0 <= moveDraw < 1.0 && FirstValidFood(initialSnake, width, height, FoodBox, foodDraws).Some?
  }

  predicate AllEnabled(s: Session, width: real, height: real, initialSnake: seq<Segment>, events: seq<Event>)
    requires Consistent(s)
    decreases |events|
  {
    |events| == 0 ||
    (Enabled(s, width, height, initialSnake, events[0]) &&
     AllEnabled(Apply(s, width, height, initialSnake, events[0]), width, height, initialSnake, events[1..]))
  }

  /** The spawn point is not kept inside the field: on a 400 by 400 field, a
      rightward start drawn at a tenth of the width puts the segment at
      x = 40 - 100, and the first tick already collides with the boundary. */
  lemma SpawnNearEdgeCollidesAtFirstTick(foodDraws: seq<(real, real)>)
    requires FirstValidFood(InitialSnakeSegments(400.0, 400.0, Right, 0.1, 0.5), 400.0, 400.0, FoodBox, foodDraws).Some?
    ensures var s := InitialSession(400.0, 400.0, 0.8, 0.1, 0.5, foodDraws);
            s.snake[0].x == -60.0 && Collides(s, 400.0, 400.0)
  {
    assert GenerateMove(0.8) == Right;
    assert (0.1 * 400.0).Floor == 40;
    var s := InitialSession(400.0, 400.0, 0.8, 0.1, 0.5, foodDraws);
    assert NewHead(s).x == -60.0 + FoodBox * 0.125;
  }

  /** A run of the session over a sequence of events. The invariant holds
      throughout, and without a restart the score never falls and the snake
      never shrinks. */
  function Run(s: Session, width: real, height: real, initialSnake: seq<Segment>, events: seq<Event>): (r: Session)
    requires Consistent(s) && AllEnabled(s, width, height, initialSnake, events)
    ensures Consistent(r)
    ensures (forall i :: 0 <= i < |events| ==> !events[i].PlayAgain?) ==>
              r.score >= s.score && |r.snake| >= |s.snake|
    ensures s.gameOver && (forall i :: 0 <= i < |events| ==> !events[i].PlayAgain?) ==> r == s
    decreases |events|
  {
    if |events| == 0 then s
    else
      var next := Apply(s, width, height, initialSnake, events[0]);
      assert forall i :: 1 <= i < |events| ==> events[1..][i - 1] == events[i];
      Run(next, width, height, initialSnake, events[1..])
  }

  /** The session as the screen sees it. Width and height are fixed for the
      session; `initialSnake` is the snake built at start-up, which "Play
      Again" still checks new food against. */
  class Game {
    const width: real
    const height: real
    const initialSnake: seq<Segment>
    var snake: seq<Segment>
    var food: Food
    var move: Move
    var gameOver: bool
    var score: int

    function State(): Session
      reads this
    {
      Session(snake, food, move, gameOver, score)
    }

    predicate Valid()
      reads this
    {
      Consistent(State()) && |initialSnake| == 1
    }

    constructor (width: real, height: real, moveDraw: real, rx: real, ry: real, foodDraws: seq<(real, real)>)
      requires 0.0 <= moveDraw < 1.0
      requires FirstValidFood(InitialSnakeSegments(width, height, GenerateMove(moveDraw), rx, ry),
                              width, height, FoodBox, foodDraws).Some?
      ensures Valid()
      ensures this.width == width && this.height == height
      ensures State() == InitialSession(width, height, moveDraw, rx, ry, foodDraws)
      ensures initialSnake == snake
    {
      var initialMove := GenerateMove(moveDraw);
      var startSnake := InitialSnakeSegments(width, height, initialMove, rx, ry);
      var initialFood := GenerateFood(startSnake, width, height, FoodBox, foodDraws);
      this.width, this.height := width, height;
      initialSnake := startSnake;
      snake := startSnake;
      food := initialFood.value;
      move := initialMove;
      gameOver := false;
      score := 0;
    }

    /** One tick, on a frame where a tick is due; frames are scheduled only
        while the game runs. */
    method Tick(draws: seq<(real, real)>)
      requires Valid() && !gameOver && FoodSupplied(State(), width, height, draws)
      modifies this
      ensures Valid()
      ensures State() == TickStep(old(State()), width, height, draws)
    {
      ghost var before := State();
      TickKeepsConsistent(before, width, height, draws);
      var oldSnake := snake;
      var newHeads := GenerateSnakeSegments(oldSnake, SegmentFrames, FoodBox, move);
      var newHead := newHeads[|newHeads| - 1];
      if Collision(oldSnake, newHead, width, height, FoodBox) {
        gameOver := true;
        return;
      }
      if CanEatFood(newHead, food, EatRadius) {
        var newSnake := newHeads + oldSnake;
        var newFood := GenerateFood(newSnake, width, height, FoodBox, draws);
        food := newFood.value;
        score := score + 10;
        snake := newSnake;
        return;
      }
      snake := NextSnakeSegments(oldSnake, newHead);
    }

    /** The swipe handler, given the swipe's horizontal and vertical extent. */
    method SetDirection(dx: real, dy: real)
      modifies this`move
      ensures move == Steer(old(move), gameOver, dx, dy)
    {
      if gameOver {
        return;
      }
      if Abs(dx) > Abs(dy) {
        if move == Left || move == Right {
          return;
        }
        if dx > 0.0 {
          move := Right;
        } else {
          move := Left;
        }
      } else {
        if move == Up || move == Down {
          return;
        }
        if dy > 0.0 {
          move := Down;
        } else {
          move := Up;
        }
      }
    }

    /** The "Play Again" handler of the game-over dialog. */
    method Restart(moveDraw: real, rx: real, ry: real, foodDraws: seq<(real, real)>)
      requires Valid() && gameOver && 0.0 <= moveDraw < 1.0
      requires FirstValidFood(initialSnake, width, height, FoodBox, foodDraws).Some?
      modifies this
      ensures Valid()
      ensures State() == RestartStep(old(State()), width, height, initialSnake, moveDraw, rx, ry, foodDraws)
    {
      ghost var before := State();
      var nextMove := GenerateMove(moveDraw);
      snake := InitialSnakeSegments(width, height, move, rx, ry);
      var newFood := GenerateFood(initialSnake, width, height, FoodBox, foodDraws);
      food := newFood.value;
      move := nextMove;
      score := 0;
      gameOver := false;
      assert State() == RestartStep(before, width, height, initialSnake, moveDraw, rx, ry, foodDraws);
    }
  }
}
