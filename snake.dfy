/** The segment advancer: the initial one-segment snake, the sub-step heads of
    one tick, the shift of the body by one segment, and the random choice of a
    direction. Every random draw is a parameter in [0, 1). */
module Snake {
  import opened Types

  /** `seg` moved by `d` along `move`: Up lowers y, Down raises y, Left lowers x,
      and every other direction raises x. The ordinal is kept. */
  function Displace(seg: Segment, move: Move, d: real): (r: Segment)
    ensures r.pos == seg.pos
    ensures OnTrack(seg, r, move) && Progress(seg, r, move) == d
  {
    match move
    case Up => seg.(y := seg.y - d)
    case Down => seg.(y := seg.y + d)
    case Left => seg.(x := seg.x - d)
    case Right => seg.(x := seg.x + d)
  }

  /** The first snake of a session: one segment with ordinal 1, placed 100
      units behind the sampled point, against the direction of travel, so that
      moving 100 forward reaches the sampled point again. */
  function InitialSnakeSegments(width: real, height: real, move: Move, rx: real, ry: real): (r: seq<Segment>)
    ensures |r| == 1 && r[0].pos == 1
    ensures var sampled := Segment((rx * width).Floor as real, (ry * height).Floor as real, 1);
            OnTrack(r[0], sampled, move) && Progress(r[0], sampled, move) == 100.0
  {
    var x := (rx * width).Floor as real;
    var y := (ry * height).Floor as real;
    var segments: seq<Segment> := [];
    match move
    case Up => segments + [Segment(x, y + 100.0, |segments| + 1)]
    case Down => segments + [Segment(x, y - 100.0, |segments| + 1)]
    case Left => segments + [Segment(x + 100.0, y, |segments| + 1)]
    case Right => segments + [Segment(x - 100.0, y, |segments| + 1)]
  }

  /** The candidate heads of one tick, one per frame slot: slot i is the head
      moved by foodBox/8 times the number of slots from i to the end, and gets
      the ordinal |oldSnake| + 1 + i. */
  function GenerateSnakeSegments(oldSnake: seq<Segment>, frames: seq<real>, foodBox: real, move: Move): (r: seq<Segment>)
    requires |oldSnake| > 0
    ensures |r| == |frames|
    ensures forall i :: 0 <= i < |r| ==> r[i].pos == |oldSnake| + 1 + i
    ensures forall i :: 0 <= i < |r| ==>
              OnTrack(oldSnake[0], r[i], move) &&
              Progress(oldSnake[0], r[i], move) == foodBox * 0.125 * (|frames| - i) as real
  {
    var head := oldSnake[0];
    seq(|frames|, i requires 0 <= i < |frames| => SlotHead(head, |oldSnake|, |frames|, foodBox, move, i))
  }

  /** The copy of the head for frame slot `index` of `slots`. */
  function SlotHead(head: Segment, length: int, slots: int, foodBox: real, move: Move, index: int): (r: Segment)
    requires 0 <= index < slots
    ensures r.pos == length + 1 + index
    ensures OnTrack(head, r, move) && Progress(head, r, move) == foodBox * 0.125 * (slots - index) as real
  {
    var copyHead := Segment(head.x, head.y, length + 1 + index);
    var newMove := foodBox * 0.125 * Abs((slots - index) as real);
    Displace(copyHead, move, newMove)
  }

  /** Consecutive candidate heads are exactly one eighth of the box apart on
      one line, the last one is one eighth ahead of the old head, and with a
      positive box the candidates lie strictly further back as i grows. */
  lemma SubStepSpacing(oldSnake: seq<Segment>, frames: seq<real>, foodBox: real, move: Move)
    requires |oldSnake| > 0
    ensures var r := GenerateSnakeSegments(oldSnake, frames, foodBox, move);
            forall i :: 0 <= i < |r| - 1 ==>
              OnTrack(r[i + 1], r[i], move) && Progress(r[i + 1], r[i], move) == foodBox * 0.125
    ensures var r := GenerateSnakeSegments(oldSnake, frames, foodBox, move);
            |r| > 0 ==> Progress(oldSnake[0], r[|r| - 1], move) == foodBox * 0.125
    ensures var r := GenerateSnakeSegments(oldSnake, frames, foodBox, move);
            foodBox > 0.0 ==>
              forall i, j :: 0 <= i < j < |r| ==> Progress(oldSnake[0], r[i], move) > Progress(oldSnake[0], r[j], move)
  {
    var r := GenerateSnakeSegments(oldSnake, frames, foodBox, move);
    forall i | 0 <= i < |r| - 1
      ensures OnTrack(r[i + 1], r[i], move) && Progress(r[i + 1], r[i], move) == foodBox * 0.125
    {
      NextSlot(oldSnake, frames, foodBox, move, i);
    }
    if foodBox > 0.0 {
      forall i, j | 0 <= i < j < |r|
        ensures Progress(oldSnake[0], r[i], move) > Progress(oldSnake[0], r[j], move)
      {
        FurtherBack(oldSnake, frames, foodBox, move, i, j);
      }
    }
  }

  /** Slot k lies one eighth of the box ahead of slot k + 1, on the same line. */
  lemma NextSlot(oldSnake: seq<Segment>, frames: seq<real>, foodBox: real, move: Move, k: int)
    requires |oldSnake| > 0 && 0 <= k < |frames| - 1
    ensures var r := GenerateSnakeSegments(oldSnake, frames, foodBox, move);
            Progress(oldSnake[0], r[k], move) == Progress(oldSnake[0], r[k + 1], move) + foodBox * 0.125 &&
            OnTrack(r[k + 1], r[k], move) && Progress(r[k + 1], r[k], move) == foodBox * 0.125
  {
    var n := |frames|;
    assert foodBox * 0.125 * (n - k) as real == foodBox * 0.125 * (n - (k + 1)) as real + foodBox * 0.125;
  }

  lemma {:induction false} FurtherBack(oldSnake: seq<Segment>, frames: seq<real>, foodBox: real, move: Move, i: int, j: int)
    requires |oldSnake| > 0 && foodBox > 0.0 && 0 <= i < j < |frames|
    ensures var r := GenerateSnakeSegments(oldSnake, frames, foodBox, move);
            Progress(oldSnake[0], r[i], move) > Progress(oldSnake[0], r[j], move)
    decreases j - i
  {
    NextSlot(oldSnake, frames, foodBox, move, j - 1);
    if i < j - 1 {
      FurtherBack(oldSnake, frames, foodBox, move, i, j - 1);
    }
  }

  /** The body after a step without growth: the new head in front, every old
      segment moved back one place, the old tail gone. An empty snake stays
      empty. */
  function ShiftedSnake(oldSnake: seq<Segment>, newHead: Segment): (r: seq<Segment>)
    ensures |r| == |oldSnake|
    ensures |r| > 0 ==> r[0] == newHead
    ensures forall i :: 1 <= i < |r| ==> r[i] == oldSnake[i - 1]
  {
    if |oldSnake| == 0 then [] else [newHead] + oldSnake[..|oldSnake| - 1]
  }

  /** Fills a fresh array of the old length slot by slot. */
  method NextSnakeSegments(oldSnake: seq<Segment>, newHead: Segment) returns (r: seq<Segment>)
    ensures r == ShiftedSnake(oldSnake, newHead)
  {
    var segments := new Segment[|oldSnake|];
    for i := 0 to segments.Length
      invariant forall k :: 0 <= k < i ==> segments[k] == if k == 0 then newHead else oldSnake[k - 1]
    {
      if i == 0 {
        segments[i] := newHead;
      } else {
        segments[i] := oldSnake[i - 1];
      }
    }
    r := segments[..];
  }

  /** The directions in the order the enumeration lists them. */
  const Moves: seq<Move> := [Up, Down, Left, Right]

  /** A direction from a uniform draw: each quarter of [0, 1) picks one. */
  function GenerateMove(sample: real): (m: Move)
    requires 0.0 <= sample < 1.0
    ensures m == Up <==> sample < 0.25
    ensures m == Down <==> 0.25 <= sample < 0.5
    ensures m == Left <==> 0.5 <= sample < 0.75
    ensures m == Right <==> 0.75 <= sample
  {
    var index := (sample * |Moves| as real).Floor;
    Moves[index]
  }
}
