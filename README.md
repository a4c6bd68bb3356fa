# mtc-lemming core, modelled in Dafny

`lem.py` is a small multitouch game. Lemmings spawn at a fixed point and walk
across the screen. Each one is steered towards the fingers currently touching
it. This project models the three stateful pieces of that file:

- **The finger table** (`fingers`, written by `FingerController`'s cursor
  handlers) is a map from cursor id to position. Cursor-down inserts or
  overwrites an entry. Cursor-motion overwrites only an entry that already
  exists. Cursor-up deletes the entry. The class `Fingers.FingerController`
  owns the table and changes it in place. The pure functions `Down`, `Motion`
  and `Up` specify the handlers. `Replay` applies a sequence of cursor events,
  and a lemma characterises its result for every cursor.
- **A lemming's movement bookkeeping** (`Lem`). The image node stores its
  top-left corner, and the lemming's position is the node's centre. On its
  first frame, `__move` only records the frame time. On every later frame it
  moves the node by `direction * speed * elapsed / 1000`. `Lemming.Lem`
  changes its fields in place. The pure `MoveStep` specifies one frame, and
  `Travel` runs a sequence of frames with a fixed heading.
- **The spawner** (`LemEmitter`) and the level's spawn callback. Each emit
  lowers the countdown by one. While the countdown is still non-negative, the
  emit fires the spawn callback. The first emit that makes it negative clears
  the interval timer and fires the empty callback instead. `Spawning.Level`
  appends a fresh lemming for every spawn. Once the emitter is exhausted, the
  level holds exactly `numLemmings` lemmings (none if that number is not
  positive).

A lemming's positions are pairs of `real`: the floating-point vector arithmetic is taken
as exact. Frame times are integer milliseconds, passed in as parameters. The
framework's interval timer is a boolean `active` flag. Each callback is the
`Signal` that `Emit` returns.

## Model

| member | source | states |
|---|---|---|
| `Fingers.Down` | lem.py:35-36 | after cursor-down, `id` maps to the new position whether or not it was present; the key set gains `id`; every other entry is unchanged |
| `Fingers.Motion` | lem.py:38-40 | cursor-motion never changes the key set; on an absent id the table is unchanged; on a present id only that entry is overwritten |
| `Fingers.Up` | lem.py:42-44 | cursor-up removes `id` from the key set, keeps every other entry, and is a no-op when `id` is absent |
| `Fingers.DownThenUp` | lem.py:35-44 | down followed by up leaves `id` absent, with the same table as an up alone |
| `Fingers.DownIdempotent` | lem.py:35-36 | two identical downs give the same table as one |
| `Fingers.MotionAfterDown` | lem.py:35-40 | a motion right after a down on the same id acts like a down with the newer position |
| `Fingers.ReplayPresence` | lem.py:27-44 | after any sequence of cursor events, an id is in the table iff its latest down/up event was a down (or, with neither, iff it was there at the start); a present id holds the position of its latest down or motion event (or, with neither, its original position) |
| `Fingers.FingerController.constructor` | lem.py:27 | the finger table starts empty |
| `Fingers.FingerController.OnDown` | lem.py:35-36 | the table becomes `Down` of the old table |
| `Fingers.FingerController.OnMotion` | lem.py:38-40 | the table becomes `Motion` of the old table |
| `Fingers.FingerController.OnUp` | lem.py:42-44 | the table becomes `Up` of the old table |
| `Lemming.TopLeft` | lem.py:101-102 | the corner that `goto` stores for a centre gives back that centre when half the node size is added |
| `Lemming.Centre` | lem.py:105-106 | the position read from a corner gives back that corner when half the node size is subtracted |
| `Lemming.Displacement` | lem.py:119-122 | a frame moves a lemming nowhere when no time has elapsed, when its speed is zero, or when its heading is the zero vector |
| `Lemming.DisplacementAdds` | lem.py:119-125 | moving for `a` ms and then for `b` ms covers the same distance as moving for `a + b` ms |
| `Lemming.FiftyPerSecond` | lem.py:119-122 | at speed 50, frames 1000 ms apart move the lemming exactly 50 units along its heading |
| `Lemming.MoveStep` | lem.py:114-125 | every frame records `now` as the last frame time; the first frame leaves the corner where it is; a later frame shifts it by the displacement for `now` minus the previous frame time; a frame at the same time as the previous one changes nothing |
| `Lemming.TravelTelescopes` | lem.py:114-125 | with a fixed heading, the total movement over a run of frames depends only on the previous frame time and the last frame time |
| `Lemming.WarmUpThenTravel` | lem.py:114-125 | a lemming that has not moved yet covers the displacement between its first and its latest frame, and does not move on the first one |
| `Lemming.Lem.constructor` | lem.py:85-99 | a new lemming is centred on the given position, has the given speed, heads along +x, and has no last frame time |
| `Lemming.Lem.Position` | lem.py:105-106 | the position is the centre of the node whose top-left corner is stored |
| `Lemming.Lem.Goto` | lem.py:101-103 | after `goto(p)` the position reads back exactly `p` |
| `Lemming.Lem.Move` | lem.py:114-125 | the corner and last frame time become `MoveStep` of their old values, using the current heading and speed |
| `Lemming.Lem.Step` | lem.py:108-112 | the given heading becomes the current heading, then the lemming moves as in `Move` |
| `Spawning.Schedule` | lem.py:138-144 | of the callbacks fired by the first `k` emits, the `i`-th is the spawn callback iff `i < number` |
| `Spawning.ScheduleCounts` | lem.py:130-144 | the first `k` emits fire the spawn callback `min(k, number)` times (0 times if `number` is not positive) and the empty callback on the remaining emits |
| `Spawning.ExhaustedSchedule` | lem.py:130-144 | an exhausted emitter has fired the spawn callback exactly `number` times (if positive), then the empty callback exactly once, last |
| `Spawning.LemEmitter.constructor` | lem.py:129-133 | the countdown starts at `number`, the interval is kept, and the timer is not running |
| `Spawning.LemEmitter.Start` | lem.py:135-136 | the interval timer becomes active and the countdown is untouched |
| `Spawning.LemEmitter.Emit` | lem.py:138-144 | the countdown drops by exactly one; the spawn callback fires iff the new count is non-negative; otherwise the timer is cleared and only the empty callback fires; the callback trace stays the `Schedule` for the starting count |
| `Spawning.Level.constructor` | lem.py:147-156 | the level starts with no lemmings and an idle emitter configured with the level's count and interval |
| `Spawning.Level.Play` | lem.py:160-162 | the level's emitter starts |
| `Spawning.Level.OnInterval` | lem.py:138-158 | a spawn appends one fresh lemming at (100, 300) with the configured speed, the +x heading, the level's image size and no last frame time, and keeps the earlier ones; the empty callback adds nothing and stops the timer, and the level then holds exactly `numLemmings` lemmings (none if that number is not positive) |

## Left out

- `getAttraction` (lem.py:47-57) is not modelled. It is floating-point inverse-square arithmetic with square roots, and it divides by zero when a finger sits exactly on the query point.
- Lemming.Lem.Step: the heading is taken as a parameter. Blending the old heading with the attraction and normalising the result (lem.py:109-110) needs a square root and is undefined on the zero vector.
- Floating point: positions and the `/ 1000.0` scaling are exact reals, with no rounding.
- `LevelConfig` (lem.py:59-82) reads a file through `ConfigParser`. Only the record of four integers it produces is modelled.
- Framework calls are not modelled: node creation, `appendChild`, event and frame handler registration, `setInterval`/`clearInterval` and `getFrameTime`. The frame time is a parameter. The interval timer is the `active` flag. The image node's size is a constructor parameter.
- The `Game` application class (lem.py:164-185) is not modelled.
- The `print` statements are not modelled.
- Fingers.FingerController: in the source the table is one module-level dictionary that every controller shares. Here each controller owns its table. Aliasing of the stored position objects is not modelled.
- Spawning.LemEmitter.Start requires an emitter that has not been started. Calling `start` a second time in the source would register a second repeating timer, and its period would be the first timer's handle, since `start` overwrites `__interval` with that handle (lem.py:136); the model keeps `interval` as a constant and models neither.
- Spawning.LemEmitter.Emit requires the timer to be active. The source has no guard there and relies on the framework not calling `emit` after `clearInterval`.
- Spawning.Level.Play does not keep the `onExit` callback (lem.py:162), which nothing in the core calls.
