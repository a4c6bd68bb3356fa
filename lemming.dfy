/**
 * A lemming's movement bookkeeping: the image node stores its top-left
 * corner while the lemming's logical position is the node's centre, and
 * each frame moves the node along the current heading by speed times the
 * time elapsed since the previous frame.
 */
module Lemming {
  import opened Wrappers
  import opened Geometry

  /** The heading a new lemming starts with: the positive x direction. */
  const InitialDirection := Vec(1.0, 0.0)

  /** Top-left corner of a node of the given size whose centre is `centre`. */
  function TopLeft(centre: Vec, size: Vec): (r: Vec)
    ensures r.Plus(size.Half()) == centre
  {
    centre.Minus(size.Half())
  }

  /** Centre of a node of the given size whose top-left corner is `corner`. */
  function Centre(corner: Vec, size: Vec): (r: Vec)
    ensures r.Minus(size.Half()) == corner
  {
    corner.Plus(size.Half())
  }

  /**
   * How far a lemming heading along `direction` at `speed` units per second
   * moves in `elapsed` milliseconds.
   */
  function Displacement(direction: Vec, speed: int, elapsed: int): (r: Vec)
    ensures elapsed == 0 ==> r == Zero
    ensures speed == 0 ==> r == Zero
    ensures direction == Zero ==> r == Zero
  {
    direction.Scale((speed * elapsed) as real / 1000.0)
  }

  /** Moving for `a` then for `b` milliseconds is moving for `a + b`. */
  lemma DisplacementAdds(direction: Vec, speed: int, a: int, b: int)
    ensures Displacement(direction, speed, a).Plus(Displacement(direction, speed, b))
         == Displacement(direction, speed, a + b)
  {
  }

  /** At 50 units per second, one second moves a lemming 50 units along its heading. */
  lemma FiftyPerSecond(direction: Vec)
    ensures Displacement(direction, 50, 1000) == direction.Scale(50.0)
  {
  }

  /** The state `__move` works on: the node's corner and the last frame time. */
  datatype Track = Track(corner: Vec, lastMove: Option<int>)

  /**
   * One frame at time `now`. The first frame only records the time; every
   * later one moves the corner by the displacement for the time since the
   * previous frame. Either way `now` becomes the last frame time.
   */
  function MoveStep(t: Track, direction: Vec, speed: int, now: int): (r: Track)
    ensures r.lastMove == Some(now)
    ensures t.lastMove.None? ==> r.corner == t.corner
    ensures t.lastMove.Some? ==>
              r.corner.Minus(t.corner) == Displacement(direction, speed, now - t.lastMove.value)
    ensures t.lastMove == Some(now) ==> r == t
  {
    match t.lastMove
    case None => Track(t.corner, Some(now))
    case Some(last) => Track(t.corner.Plus(Displacement(direction, speed, now - last)), Some(now))
  }

  /** The track after one frame at each of the given times, in order, with a fixed heading. */
  function Travel(t: Track, direction: Vec, speed: int, frames: seq<int>): (r: Track)
    decreases |frames|
  {
    if frames == [] then t
    else Travel(MoveStep(t, direction, speed, frames[0]), direction, speed, frames[1..])
  }

  /**
   * With a fixed heading, the distance covered over a run of frames depends
   * only on the first and last frame time: the steps telescope.
   */
  lemma {:induction false} TravelTelescopes(corner: Vec, last: int, direction: Vec, speed: int, frames: seq<int>)
    requires frames != []
    ensures Travel(Track(corner, Some(last)), direction, speed, frames)
         == Track(corner.Plus(Displacement(direction, speed, frames[|frames| - 1] - last)),
                  Some(frames[|frames| - 1]))
    decreases |frames|
  {
    var f := frames[0];
    var next := MoveStep(Track(corner, Some(last)), direction, speed, f);
    assert next == Track(corner.Plus(Displacement(direction, speed, f - last)), Some(f));
    if |frames| > 1 {
      var rest := frames[1..];
      TravelTelescopes(next.corner, f, direction, speed, rest);
      var end := rest[|rest| - 1];
      assert end == frames[|frames| - 1];
      DisplacementAdds(direction, speed, f - last, end - f);
    }
  }

  /**
   * A freshly spawned lemming does not move on its first frame; after that,
   * with a fixed heading, it has moved by the displacement for the time
   * between its first and its latest frame.
   */
  lemma {:induction false} WarmUpThenTravel(corner: Vec, direction: Vec, speed: int, frames: seq<int>)
    requires frames != []
    ensures Travel(Track(corner, None), direction, speed, frames)
         == Track(corner.Plus(Displacement(direction, speed, frames[|frames| - 1] - frames[0])),
                  Some(frames[|frames| - 1]))
  {
    var warm := MoveStep(Track(corner, None), direction, speed, frames[0]);
    assert warm == Track(corner, Some(frames[0]));
    if |frames| > 1 {
      TravelTelescopes(corner, frames[0], direction, speed, frames[1..]);
    }
  }

  /** One lemming. `pos` is its image node's top-left corner. */
  class Lem {
    const size: Vec
    const speed: int
    var pos: Vec
    var direction: Vec
    var lastMove: Option<int>

    /** A lemming centred on `position`; `size` is the size of its image node. */
    constructor (position: Vec, speed: int, size: Vec)
      ensures this.size == size && this.speed == speed
      ensures Position() == position
      ensures direction == InitialDirection && lastMove == None
    {
      this.size := size;
      this.speed := speed;
      direction := InitialDirection;
      new;
      Goto(position);
      lastMove := None;
    }

    /** The lemming's logical position: the centre of its node. */
    function Position(): (r: Vec)
      reads this
      ensures TopLeft(r, size) == pos
    {
      Centre(pos, size)
    }

    method Goto(position: Vec)
      modifies this`pos
      ensures Position() == position
    {
      pos := TopLeft(position, size);
    }

    /** One frame at time `now`, along the current heading. */
    method Move(now: int)
      modifies this`pos, this`lastMove
      ensures Track(pos, lastMove) == MoveStep(Track(old(pos), old(lastMove)), direction, speed, now)
    {
      if lastMove.None? {
        lastMove := Some(now);
        return;
      }
      var distance := (speed * (now - lastMove.value)) as real / 1000.0;
      lastMove := Some(now);
      var vec := direction.Scale(distance);
      pos := pos.Plus(vec);
    }

    /**
     * One frame: take the new heading (the normalised blend of the old
     * heading and the attraction, computed outside this model) and move.
     */
    method Step(now: int, heading: Vec)
      modifies this`pos, this`lastMove, this`direction
      ensures direction == heading
      ensures Track(pos, lastMove) == MoveStep(Track(old(pos), old(lastMove)), heading, speed, now)
    {
      direction := heading;
      Move(now);
    }
  }
}
