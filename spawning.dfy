/**
 * The lemming spawner: a countdown driven by a repeating interval timer,
 * and the level that appends one lemming for every spawn it is told of.
 */
module Spawning {
  import opened Geometry
  import opened Lemming

  /** Which callback an emit fires: the spawn callback or the empty callback. */
  datatype Signal = Spawned | Emptied

  function Max0(n: int): (r: nat) { if n > 0 then n else 0 }

  /**
   * The callbacks fired by the first `k` emits of an emitter whose
   * countdown starts at `number`, one emit at a time.
   */
  function Schedule(number: int, k: nat): (r: seq<Signal>)
    ensures |r| == k
    ensures forall i :: 0 <= i < k ==> (r[i] == Spawned <==> i < number)
  {
    if k == 0 then []
    else Schedule(number, k - 1) + [if k - 1 < number then Spawned else Emptied]
  }

  /** How many times `s` occurs in `trace`. */
  function Count(trace: seq<Signal>, s: Signal): (c: nat)
    ensures c <= |trace|
  {
    if trace == [] then 0
    else Count(trace[..|trace| - 1], s) + (if trace[|trace| - 1] == s then 1 else 0)
  }

  /**
   * Of the first `k` emits, the first `number` (if positive) fire the spawn
   * callback and every later one the empty callback.
   */
  lemma {:induction false} ScheduleCounts(number: int, k: nat)
    ensures Count(Schedule(number, k), Spawned) == if k <= Max0(number) then k else Max0(number)
    ensures Count(Schedule(number, k), Emptied) == if k <= Max0(number) then 0 else k - Max0(number)
  {
    if k > 0 {
      var prev := Schedule(number, k - 1);
      ScheduleCounts(number, k - 1);
      var r := Schedule(number, k);
      assert r == prev + [r[k - 1]];
      assert r[..k - 1] == prev;
      assert r[k - 1] == Spawned <==> k - 1 < number;
    }
  }

  /**
   * Once the emitter is exhausted, it has fired the spawn callback exactly
   * `number` times (none if `number` is not positive) and the empty
   * callback exactly once, as its last callback.
   */
  lemma ExhaustedSchedule(number: int)
    ensures Count(Schedule(number, Max0(number) + 1), Spawned) == Max0(number)
    ensures Count(Schedule(number, Max0(number) + 1), Emptied) == 1
    ensures Schedule(number, Max0(number) + 1)[Max0(number)] == Emptied
  {
    ScheduleCounts(number, Max0(number) + 1);
  }

  /**
   * `LemEmitter`. The framework's interval timer is modelled by `active`:
   * `Start` sets it, the emit that finds the countdown negative clears it,
   * and the timer calls `Emit` only while it is set. The callbacks are
   * modelled by the returned `Signal`; `trace` records every one fired.
   */
  class LemEmitter {
    var numLeft: int
    const interval: int
    var active: bool
    ghost const number: int
    ghost var trace: seq<Signal>

    ghost predicate Valid()
      reads this
    {
      && numLeft == number - |trace|
      && trace == Schedule(number, |trace|)
      && |trace| <= Max0(number) + 1
      && (active ==> |trace| <= Max0(number))
      && (!active ==> trace == [] || |trace| == Max0(number) + 1)
    }

    /** Created, timer not started. */
    ghost predicate Idle()
      reads this
    {
      !active && trace == []
    }

    /** The empty callback has fired and the timer is cleared. */
    ghost predicate Exhausted()
      reads this
    {
      |trace| == Max0(number) + 1
    }

    constructor (number: int, interval: int)
      ensures Valid() && Idle()
      ensures this.number == number && this.interval == interval && numLeft == number
    {
      numLeft := number;
      this.interval := interval;
      active := false;
      this.number := number;
      trace := [];
    }

    /** Starts the repeating timer. */
    method Start()
      requires Valid() && Idle()
      modifies this
      ensures Valid() && active && trace == [] && numLeft == old(numLeft)
    {
      active := true;
    }

    /** One timer tick. */
    method Emit() returns (s: Signal)
      requires Valid() && active
      modifies this
      ensures Valid()
      ensures numLeft == old(numLeft) - 1
      ensures s == Spawned <==> numLeft >= 0
      ensures active <==> s == Spawned
      ensures trace == old(trace) + [s]
      ensures s == Emptied <==> Exhausted()
    {
      numLeft := numLeft - 1;
      if numLeft >= 0 {
        s := Spawned;
      } else {
        active := false;
        s := Emptied;
      }
      trace := trace + [s];
    }
  }

  /** The numbers a level is configured with (read from its config file). */
  datatype LevelConfig = LevelConfig(numLemmings: int, goal: int, interval: int, speed: int)

  /** Where every lemming of a level is spawned. */
  const SpawnPoint := Vec(100.0, 300.0)

  /**
   * A level: its emitter, and the lemmings spawned so far. `lemSize` is the
   * size of a lemming's image, which the framework decides.
   */
  class Level {
    var lemmings: seq<Lem>
    const emitter: LemEmitter
    const config: LevelConfig
    const lemSize: Vec

    ghost predicate Valid()
      reads this, emitter
    {
      && emitter.Valid()
      && emitter.number == config.numLemmings
      && |lemmings| == Count(emitter.trace, Spawned)
    }

    constructor (config: LevelConfig, lemSize: Vec)
      ensures Valid() && emitter.Idle() && fresh(emitter)
      ensures this.config == config && this.lemSize == lemSize
      ensures emitter.interval == config.interval
      ensures lemmings == []
    {
      lemmings := [];
      this.config := config;
      this.lemSize := lemSize;
      emitter := new LemEmitter(config.numLemmings, config.interval);
    }

    method Play()
      requires Valid() && emitter.Idle()
      modifies emitter
      ensures Valid() && emitter.active && emitter.trace == []
    {
      emitter.Start();
    }

    /**
     * One tick of the emitter's timer, with the level's callbacks: a spawn
     * appends a new lemming at the spawn point, and the empty callback does
     * nothing.
     */
    method OnInterval() returns (s: Signal)
      requires Valid() && emitter.active
      modifies this, emitter
      ensures Valid()
      ensures emitter.trace == old(emitter.trace) + [s]
      ensures s == Spawned ==>
                && |lemmings| == |old(lemmings)| + 1
                && lemmings[..|old(lemmings)|] == old(lemmings)
                && fresh(lemmings[|old(lemmings)|])
                && lemmings[|old(lemmings)|].Position() == SpawnPoint
                && lemmings[|old(lemmings)|].speed == config.speed
                && lemmings[|old(lemmings)|].lastMove.None?
                && lemmings[|old(lemmings)|].direction == InitialDirection
                && lemmings[|old(lemmings)|].size == lemSize
      ensures s == Emptied ==>
                && lemmings == old(lemmings)
                && !emitter.active
                && |lemmings| == Max0(config.numLemmings)
    {
      s := emitter.Emit();
      match s
      case Spawned =>
        var lem := new Lem(SpawnPoint, config.speed, lemSize);
        assert emitter.trace[..|emitter.trace| - 1] == old(emitter.trace);
        lemmings := lemmings + [lem];
      case Emptied =>
        assert emitter.trace[..|emitter.trace| - 1] == old(emitter.trace);
        ExhaustedSchedule(config.numLemmings);
    }
  }
}
