/** The collision test for a candidate head: outside the play field, or on a
    body segment other than the tail. */
module CollisionCheck {
  import opened Types

  /** Same position; the ordinal plays no part. */
  predicate SameCell(seg: Segment, head: Segment) {
    seg.x == head.x && seg.y == head.y
  }

  /** A box of side `foodBox` at `head` leaves the field [0, width] x [0, height].
      The edges count as inside. */
  predicate OutOfBounds(head: Segment, width: real, height: real, foodBox: real) {
    head.x < 0.0 || head.x + foodBox > width || head.y < 0.0 || head.y + foodBox > height
  }

  /** The index of the first segment on the head's cell, or -1 when there is none. */
  function FindIndex(snake: seq<Segment>, head: Segment): (i: int)
    ensures -1 <= i < |snake|
    ensures i == -1 <==> forall k :: 0 <= k < |snake| ==> !SameCell(snake[k], head)
    ensures i >= 0 ==> SameCell(snake[i], head) && forall k :: 0 <= k < i ==> !SameCell(snake[k], head)
  {
    if |snake| == 0 then -1
    else if SameCell(snake[0], head) then 0
    else
      var j := FindIndex(snake[1..], head);
      if j == -1 then -1 else j + 1
  }

  /** The head collides when its box leaves the field, or when its cell is that
      of some segment other than the tail: the tail is vacated in the same tick,
      so a head on the tail alone passes, and a one-segment snake only ever
      collides with the boundary. */
  function Collision(oldSnake: seq<Segment>, head: Segment, width: real, height: real, foodBox: real): (r: bool)
    ensures OutOfBounds(head, width, height, foodBox) ==> r
    ensures !OutOfBounds(head, width, height, foodBox) ==>
              (r <==> exists i :: 0 <= i < |oldSnake| - 1 && SameCell(oldSnake[i], head))
    ensures |oldSnake| <= 1 ==> (r <==> OutOfBounds(head, width, height, foodBox))
  {
    if OutOfBounds(head, width, height, foodBox) then true
    else
      var bodyCollision := FindIndex(oldSnake, head);
      bodyCollision != -1 && bodyCollision != |oldSnake| - 1
  }

  /** Only positions are compared: replacing the head and the segments by any
      with the same positions, whatever their ordinals, gives the same answer. */
  lemma OrdinalsIrrelevant(oldSnake: seq<Segment>, other: seq<Segment>, head: Segment, head': Segment,
                           width: real, height: real, foodBox: real)
    requires |oldSnake| == |other|
    requires forall i :: 0 <= i < |oldSnake| ==> oldSnake[i].x == other[i].x && oldSnake[i].y == other[i].y
    requires head.x == head'.x && head.y == head'.y
    ensures Collision(oldSnake, head, width, height, foodBox) == Collision(other, head', width, height, foodBox)
  {
    if !OutOfBounds(head, width, height, foodBox) {
      if exists i :: 0 <= i < |oldSnake| - 1 && SameCell(oldSnake[i], head) {
        var i :| 0 <= i < |oldSnake| - 1 && SameCell(oldSnake[i], head);
        assert SameCell(other[i], head');
      }
      if exists i :: 0 <= i < |other| - 1 && SameCell(other[i], head') {
        var i :| 0 <= i < |other| - 1 && SameCell(other[i], head');
        assert SameCell(oldSnake[i], head);
      }
    }
  }
}
