/** Food placement: where food may lie, when the head reaches it, and the
    rejection-sampling loop that places it. The uniform random source is a
    sequence of draws, each a pair of reals in [0, 1). */
module FoodPlacement {
  import opened Types

  /** Food must lie in the closed box [0, width] x [0, height] and share neither
      its x nor its y with any segment: one shared coordinate is enough to
      reject it. */
  predicate ValidFoodPos(food: Food, snake: seq<Segment>, width: real, height: real) {
    && 0.0 <= food.x <= width
    && 0.0 <= food.y <= height
    && forall i :: 0 <= i < |snake| ==> snake[i].x != food.x && snake[i].y != food.y
  }

  /** The check of a candidate: the bounds first, then every segment in turn,
      stopping at the first one that shares a coordinate. */
  method CheckFoodPos(food: Food, snake: seq<Segment>, width: real, height: real) returns (ok: bool)
    ensures ok == ValidFoodPos(food, snake, width, height)
  {
    if food.x < 0.0 || food.x > width || food.y < 0.0 || food.y > height {
      return false;
    }
    for i := 0 to |snake|
      invariant forall k :: 0 <= k < i ==> snake[k].x != food.x && snake[k].y != food.y
    {
      if snake[i].x == food.x || snake[i].y == food.y {
        return false;
      }
    }
    return true;
  }

  /** The head reaches the food when the food lies strictly inside the square
      of half-side `radius` centred on the head; with no positive radius it
      never does. */
  function CanEatFood(head: Segment, food: Food, radius: real): (r: bool)
    ensures r <==> head.x - radius < food.x < head.x + radius && head.y - radius < food.y < head.y + radius
    ensures radius <= 0.0 ==> !r
  {
    var distanceX := Abs(head.x - food.x);
    var distanceY := Abs(head.y - food.y);
    distanceX < radius && distanceY < radius
  }

  predicate IsInteger(v: real) {
    v == v.Floor as real
  }

  /** One coordinate of a candidate: the draw scaled to the extent, less the
      radius, rounded down. */
  function Candidate(sample: real, extent: real, radius: real): real {
    (sample * extent - radius).Floor as real
  }

  function CandidateFood(sample: (real, real), width: real, height: real, radius: real): Food {
    Food(Candidate(sample.0, width, radius), Candidate(sample.1, height, radius))
  }

  /** What the sampling loop returns when the random source yields `samples`:
      the first candidate that is a valid position, or None when no draw in
      `samples` gives one. */
  function FirstValidFood(snake: seq<Segment>, width: real, height: real, radius: real,
                          samples: seq<(real, real)>): (r: Option<Food>)
    ensures r.Some? ==> ValidFoodPos(r.value, snake, width, height)
    ensures r.Some? <==>
              exists k :: 0 <= k < |samples| && ValidFoodPos(CandidateFood(samples[k], width, height, radius), snake, width, height)
    ensures r.Some? ==>
              exists k :: 0 <= k < |samples| && r.value == CandidateFood(samples[k], width, height, radius) &&
                forall j :: 0 <= j < k ==> !ValidFoodPos(CandidateFood(samples[j], width, height, radius), snake, width, height)
  {
    if |samples| == 0 then None
    else
      var food := CandidateFood(samples[0], width, height, radius);
      if ValidFoodPos(food, snake, width, height) then Some(food)
      else
        var rest := FirstValidFood(snake, width, height, radius, samples[1..]);
        assert forall k :: 1 <= k < |samples| ==> samples[k] == samples[1..][k - 1];
        rest
  }

  /** The rejection-sampling loop: draw a candidate, keep it when it is a valid
      position, draw again otherwise. The candidate is one food value whose
      coordinates each draw overwrites. */
  method GenerateFood(snake: seq<Segment>, width: real, height: real, radius: real,
                      samples: seq<(real, real)>) returns (food: Option<Food>)
    ensures food == FirstValidFood(snake, width, height, radius, samples)
  {
    food := None;
    var accepted := false;
    var i := 0;
    while !accepted && i < |samples|
      invariant 0 <= i <= |samples|
      invariant accepted ==> food == FirstValidFood(snake, width, height, radius, samples)
      invariant !accepted ==>
                  FirstValidFood(snake, width, height, radius, samples) ==
                  FirstValidFood(snake, width, height, radius, samples[i..])
    {
      var x := Candidate(samples[i].0, width, radius);
      var y := Candidate(samples[i].1, height, radius);
      if food.Some? {
        food := Some(food.value.(x := x, y := y));
      } else {
        food := Some(Food(x, y));
      }
      accepted := CheckFoodPos(food.value, snake, width, height);
      assert samples[i..][1..] == samples[i + 1..];
      i := i + 1;
    }
    if !accepted {
      food := None;
    }
  }

  /** A draw in [0, 1) gives an integer coordinate below extent - radius. */
  lemma CandidateBelow(sample: real, extent: real, radius: real)
    requires 0.0 <= sample < 1.0 && extent > 0.0
    ensures IsInteger(Candidate(sample, extent, radius))
    ensures Candidate(sample, extent, radius) < extent - radius
  {
    assert extent - sample * extent == (1.0 - sample) * extent;
    assert (1.0 - sample) * extent > 0.0;
  }

  /** Placed food has integer coordinates with 0 <= x < width - radius and
      0 <= y < height - radius. */
  lemma PlacedFoodBounds(snake: seq<Segment>, width: real, height: real, radius: real, samples: seq<(real, real)>)
    requires width > 0.0 && height > 0.0
    requires forall k :: 0 <= k < |samples| ==> 0.0 <= samples[k].0 < 1.0 && 0.0 <= samples[k].1 < 1.0
    ensures var r := FirstValidFood(snake, width, height, radius, samples);
            r.Some? ==>
              && IsInteger(r.value.x) && 0.0 <= r.value.x < width - radius
              && IsInteger(r.value.y) && 0.0 <= r.value.y < height - radius
  {
    var r := FirstValidFood(snake, width, height, radius, samples);
    if r.Some? {
      var k :| 0 <= k < |samples| && r.value == CandidateFood(samples[k], width, height, radius);
      CandidateBelow(samples[k].0, width, radius);
      CandidateBelow(samples[k].1, height, radius);
    }
  }
}
