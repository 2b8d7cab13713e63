# ola — a verified model of the tween engine

ola is a value interpolator. Writing a new target to a number, or to one key
of an object of numbers, does not jump to it. Instead the value follows a
cubic curve that reaches the target after a fixed duration (300 ms by
default). A write in mid-flight starts a new curve from the current value
and the current rate, so the trajectory has no jump in value and no jump in
velocity.

The model has three layers, one module each:

- `Curve` (`curve.dfy`): `position` and `speed`. These are the cubic
  `a t³ + b t² + c t + d` and its derivative. Their coefficients are fitted
  so that the curve starts at the remaining displacement `x0` with rate
  `v0`, and comes to rest (displacement 0, rate 0) at `t1`.
- `Dimension` (`dimension.dfy`): `Single`, one animated number. It is a
  class with the fields `start`, `time`, `from`, `to` and `speed`. Its
  methods `Get`, `GetSpeed` and `Set` are proved against the value-level
  specification `Transition` (`ValueAt`, `SpeedAt`, `Retarget`).
- `Coordinator` (`coordinator.dfy`): `Ola`. It is a class holding a
  `map<string, Single>` whose key set is fixed at construction. A number `n`
  is treated as `{ value: n }`. `Set` loops over the entries it is given
  and retargets exactly those keys. Its specification is `RetargetEach`, a
  fold over the entries.
- `Scenarios` (`scenarios.dfy`): the behaviours the repository's unit
  tests check, stated as verified methods over the `Ola` class with
  explicit instants.

Time is an explicit `now: real` argument wherever the source reads the
clock (`new Date() / 1000`). Numbers are `real`.

A duration passed to `set` is optional in the source, which tests it for
truthiness (`if (time)`). The model passes a `real`, and `0.0` stands for
"not supplied". A zero duration and an omitted one behave the same way in
the source.

The stored `speed` is the rate of the remaining displacement `to - value`.
That is the negative of the value's own velocity
(`Dimension.ValueMovesAgainstSpeed`). It is handed on unchanged at every
retarget, so velocity is continuous all the same.

Behaviours of the code worth stating:
- A read at an instant before a transition's `start` evaluates the
  polynomial at a negative elapsed time.
- `Ola.get` of a name that is not a dimension yields `undefined`, modelled
  as `None`.
- Durations are not validated. The model requires them to be positive,
  because the curve divides by them.
- An `Ola` does not record whether it was built from a number or an object,
  and has no method that reads every dimension at once.

## Model

| member | source | states |
|---|---|---|
| `Curve.StartPoint` | ola.js:3-18 | at `t = 0` the position is `x0` and the speed is `v0` |
| `Curve.EndPoint` | ola.js:1-18 | at `t = t1` both the position and the speed are 0: the curve ends at rest on the target |
| `Curve.FitIsUnique` | ola.js:1-9 | every cubic that starts at `(x0, v0)` and ends at rest at `t1` has exactly the coefficients of `position`, so it equals `Position` at every `t` |
| `Curve.CubicStep` | ola.js:8-17 | over a step `h`, a cubic changes by `h` times the slope polynomial used by `speed`, plus `h²` times a remainder |
| `Curve.SpeedIsDerivative` | ola.js:3-18 | `speed` is the derivative of `position`: `Position(t+h) = Position(t) + h·Speed(t) + h²·R(t, h)` |
| `Curve.RestStartIsSmoothstep` | ola.js:1-8 | with `v0 = 0`, the curve is `x0 · (2s³ − 3s² + 1)` for `s = t/t1`, the polynomial of the comment's link |
| `Dimension.Transition.Retarget` | ola.js:46-56 | a retarget keeps the duration positive, whether it installs a new one or keeps the old one |
| `Dimension.Initial` | ola.js:21-28 | a fresh dimension has a positive duration |
| `Dimension.InitialIsConstant` | ola.js:21-44 | a fresh `Single(init, time)` reads `init` with speed 0 at every instant |
| `Dimension.SettledAfterDuration` | ola.js:30-44 | once `now - start >= time`, the value is exactly `to` and the speed is 0 |
| `Dimension.StartsAtFrom` | ola.js:30-44 | at `start` a transition reads `from` with the stored `speed` |
| `Dimension.SettlesContinuously` | ola.js:30-44 | the curve branch of `get`/`getSpeed` followed to `start + time` gives `to` and 0, so the shortcut adds no jump |
| `Dimension.ValueMovesAgainstSpeed` | ola.js:30-44 | inside the duration, a step `h` changes the value by `−h·SpeedAt` plus an `h²` term: the value's velocity is `−speed` |
| `Dimension.RetargetIsContinuous` | ola.js:46-56 | at the instant of `set`, the new transition has the old value and the old speed (no jump in position or velocity) |
| `Dimension.RetargetReachesTarget` | ola.js:46-56 | after `set`, once the new duration (or the kept one, when none is supplied) has elapsed, the value is the new target and the speed 0 |
| `Dimension.Single.constructor` | ola.js:21-28 | `from = to = init`, `speed = 0`, `start = now`, with the given duration |
| `Dimension.Single.Get` | ola.js:30-36 | returns the specification's value; `to` once the duration has elapsed; `from` at `start` |
| `Dimension.Single.GetSpeed` | ola.js:38-44 | returns the specification's rate; 0 once the duration has elapsed; the stored `speed` at `start` |
| `Dimension.Single.Set` | ola.js:46-56 | returns the value just before the call; installs `start = now`, `from` = that value, `to = value`, and `speed` = the rate just before; replaces `time` only for a non-zero duration; afterwards the dimension still reads the returned value at the same speed |
| `Coordinator.RetargetEach` | ola.js:85-89 | retargeting the entries keeps the key set and keeps every duration positive |
| `Coordinator.RetargetEachAt` | ola.js:85-89 | with distinct keys, a named dimension is retargeted from its own transition to its entry's value, and every other dimension is unchanged |
| `Coordinator.RetargetEachIsContinuous` | ola.js:85-89 | no dimension jumps in value or rate at the instant of `set`, for any entries |
| `Coordinator.RetargetEachReachesTargets` | ola.js:85-89 | once the duration has elapsed, every dimension named by `set` reads its new value |
| `Coordinator.NumberIsValueDimension` | ola.js:91-94 | a number `n` yields exactly one dimension, `"value"`, which reads `n` |
| `Coordinator.InitialsAreConstant` | ola.js:59-75 | every dimension of a fresh `Ola` reads its initial value with speed 0 |
| `Coordinator.NewSingles` | ola.js:64-74 | the constructor's loop makes one fresh, distinct `Single` per key, each at rest on its entry's value |
| `Coordinator.Ola.constructor` | ola.js:59-75 | the keys are those of the (normalised) input; each dimension starts at rest with duration `time / 1000` s, where `time` defaults to 300 |
| `Coordinator.Ola.Get` | ola.js:77-80 | `get(name)` with `name` defaulting to `"value"` gives that dimension's value, or nothing for a name that is not a dimension |
| `Coordinator.Ola.SetOne` | ola.js:85-89 | writing one key retargets that key's transition only, and returns its previous value |
| `Coordinator.Ola.Set` | ola.js:82-94 | the new transitions are the old ones retargeted entry by entry, with `time` passed on unconverted; the key set is unchanged |
| `Scenarios.UpdateNumber` | ola.test.js:27-66 | `Ola(n)` reads `n`; after `set(m)` and 300 ms it reads `m` |
| `Scenarios.UpdateField` | ola.test.js:74-113 | `Ola({ x: n })` reads `n` under `get("x")`; after `set({ x: m })` and 300 ms it reads `m` |

## Left out

- The clock: each `new Date() / 1000` becomes an explicit `now`.
- Dimension.Single.Set: `set` reads the clock three times, inside `get` (ola.js:31, called at 47), inside `getSpeed` (ola.js:39, called at 48) and at ola.js:49. The model uses one instant for all three. In the source, `from`, `speed` and `start` can come from slightly different instants, so the exact no-jump results (`Dimension.RetargetIsContinuous`, `Coordinator.RetargetEachIsContinuous`) hold only up to that drift.
- Coordinator.Ola.constructor: each `new Single` reads the clock for its own key (ola.js:22, through 66). The model gives every key one shared `now`, so the dimensions do not start at slightly different instants.
- Coordinator.Ola.Set: each key's retarget reads the clock separately (through ola.js:87). The model gives every key one shared `now`.
- Floating point: numbers are exact `real`s. NaN and Infinity, which the source produces for a zero duration read before `start`, are not modelled.
- Dimension.Single.constructor: requires a positive duration, because the curve divides by it. The source accepts any duration.
- Dimension.Single.Set: requires a non-negative duration (0 meaning none supplied). The source would install a negative one.
- Coordinator.Ola.constructor: requires a positive `time`. With `time = 0` the source still works for reads at or after `start`.
- Coordinator.Ola.Set: requires every key it is given to be a dimension. In the source an unknown key fails with a TypeError midway, after the earlier keys were already retargeted.
- Coordinator.Ola.Set: the source forwards `time` unconverted while the constructor divides by 1000 (ola.js:66, 87). The model keeps this mismatch as written.
- Coordinator.Ola.constructor: inputs the source rejects or breaks on are accepted. An object holding both a key `k` and the key `"_" + k`, in either order, makes the source throw a TypeError: ola.js:68 defines `"_" + k` as a non-configurable property, and ola.js:69 then tries to redefine it as an accessor. Keys named `get`, `set` or `each` become own accessors (ola.js:69) that shadow the prototype's methods, so afterwards `pos.get(...)` and `pos.set(...)` fail (ola.js:86 calls `this.each`). The model builds a dimension for every key and its `Get` and `Set` keep working.
- Coordinator.Ola.Get: names that are not dimensions give `None`. In the source, some names give other objects instead: the `Ola` prototype's members (`get`, `set`, `each`), `Object.prototype`'s members (`toString`, `constructor`, `hasOwnProperty` and the like), and the hidden `"_" + key` slots.
- The property traps of ola.js:68-73 are not modelled: `Object.defineProperty` getters and setters, the hidden `"_" + key` slots, and `enumerable`. The setter does what `Ola.SetOne` does with no duration. The getter does what `Ola.Get` does.
- Structural equality and JSON serialisation of an `Ola` (the `toEqual` and `JSON.stringify` checks in ola.test.js) are not modelled.
- Input shapes: an object is given as its entries in enumeration order. Non-numeric property values are not modelled. Arrays are not modelled separately: an array is the object of its index keys.
- Calling `Ola(...)` without `new` (ola.js:60-62) gives the same object as with `new`, so it has no separate model.
- The unused field `current` (ola.js:25) is not modelled.
- The tests' real-time waits and their 10 % approximate matcher (ola.test.js:3-14) are not modelled. The scenarios use exact instants instead.
- docs/index.js and docs/compare/tweenmax.js (demo pages: canvas, charts, animation frames, another tweening library) are not part of this model.
