# Conveyor reel model

A Dafny model of the two slot-machine reels of ConveyorGambler. Each reel keeps an array of sprite
slots. A slot shows an item's colour and sits at an x-position on a strip (the "item parent"). A
roll draws a winning item and a stop index, computes the strip's end position, and eases the strip
there over a drawn duration along an animation curve.

- **ConveyorGambler** (`Conveyor.ConveyorGambler`) keeps a window of `visible` slots centred about
  zero. Every time the strip moves one full slot spacing, it recycles the leftmost slot to the
  right-hand end: it rotates the array in place, places the slot one spacing past the old
  rightmost slot, and gives it a colour. The colour is the winner on the crossing numbered
  `stop - visible / 2` and a drawn filler on every other crossing. After the last frame there is
  one extra recycle if the end position is at least a spacing less 0.1 from the last recycle
  point. The strip then snaps to the end position and the winner is reported.
- **Gambler** (`Gambling.Gambler`) is the earlier variant. It spawns `maxFiller` slots once. It
  lays them out from zero, one spacing apart, colours them with fillers, and puts the winner's
  colour at the drawn index. It then eases the strip from wherever it stands to within half a
  spacing of the winner's slot. Nothing is recycled.

Modules:
- `Motion`: the engine's `Sign`, `Abs` and clamped `Lerp` over the reals, and the arithmetic of
  counting whole spacings.
- `Slots`: the slot value, which holds a sprite identity, a tint and an x-position.
- `Reel`: pure layout, target and recycle arithmetic, and the lemmas that put the winner on the
  centre line.
- `Coroutine`: the three states of a `rollCoroutine` handle.
- `Conveyor` and `Gambling`: the two classes.

A coroutine becomes fields of its class plus an explicit `Tick(delta)`. Starting a coroutine runs
its first frame at once, as the engine does, so `Roll` takes the current frame's `delta`. Every
random draw is a parameter: winner `item`, `stop` index, jitter, fillers, duration. Fillers drawn
inside a frame come from a function `draw`, where `draw(k)` colours the `k`-th recycle of that
frame. The curve is an uninterpreted function. The completion callback appends to a ghost log
`winners`. Sprite identity is a number `handle`, so the rotation can be stated as a permutation of
sprites.

The code is modelled as written, including these behaviours:
- On preemption, `Roll` reports the NEWLY drawn winner (ConveyorGambler.cs:96-101, Gambler.cs:64-69).
  The scramble runs before that check.
- The Gambler never clears its handle. After a roll that suspended at least once has finished,
  the next `Roll` reports its own new winner at once, as a preemption, and again when it finishes.
  The model's handle becomes `Spent` there.
- The closing check measures from the end position to the last recycle point. It fires for any
  distance of at least a spacing less an absolute 0.1, whatever the spacing.
- `SetupItems` is public and may run during a roll. It re-lays the window out about zero. The ghost
  field `laidOutAt` records when, and the resting winner's position is stated relative to it.
- `Mathf.Lerp` clamps its parameter, and `Mathf.Sign(0)` is 1.
- If the winner's crossing `stop - visible / 2` is below 1, no recycle ever shows the winner, yet the
  callback still reports it. `Reel.SweepShowsWinner` requires that crossing to be at least 1.

## Model

| member | source | states |
|---|---|---|
| Motion.Abs | ConveyorGambler.cs:122 | `Mathf.Abs`, used by the loop guard and the closing check (line 133): the result is never negative and is the value or its negation. |
| Motion.Sign | ConveyorGambler.cs:124 | The step direction is +1 or -1, zero counts as positive, and sign times value is the absolute value. |
| Motion.Clamp01 | ConveyorGambler.cs:118 | The interpolation parameter is clamped into [0, 1] and left alone inside it, as `Mathf.Lerp` does. |
| Motion.Lerp | ConveyorGambler.cs:118 | The interpolated position never leaves the segment between start and end. It equals the start for a curve value at or below 0 and the end at or above 1. |
| Motion.Crossings | ConveyorGambler.cs:122-127 | The crossing count `k` of a displacement satisfies `k * spacing <= |d| < (k + 1) * spacing`. |
| Motion.CrossingsUnique | ConveyorGambler.cs:122-127 | Only `Crossings` brackets the displacement that way, so the count is exactly the floor of distance over spacing. |
| Motion.ThreeAndAHalfWidthsCrossThree | ConveyorGambler.cs:122-127 | A jump of 3.5 spacings in either direction is exactly 3 crossings. |
| Motion.StepToward | ConveyorGambler.cs:122-124 | One loop step moves the last recycle point one spacing toward the strip, takes exactly one spacing off the gap, and never overshoots. |
| Motion.CrossingsStep | ConveyorGambler.cs:122-125 | A step taken while a full spacing remains removes exactly one crossing from the count left to do. |
| Motion.CrossingsNone | ConveyorGambler.cs:122 | Once the gap is below a spacing, no crossing is left. |
| Motion.GuardHoldsWithoutSpacing | ConveyorGambler.cs:122-124 | With a spacing of zero or less, the loop guard holds before and after every step, so the crossing loop never ends. |
| Motion.SameDirection | ConveyorGambler.cs:122-124 | While a full spacing remains, every step of one frame goes the same way. |
| Reel.StartX | ConveyorGambler.cs:56 | The leftmost slot's position mirrors the rightmost's: adding `(n - 1)` spacings to it negates it. |
| Reel.SlotX | ConveyorGambler.cs:57-59 | Slot `i`'s centred position, `StartX + i * spacing`. It has no contract of its own; `Reel.LayoutCentred` and `Reel.LaidOutAt` state its properties. |
| Reel.LayoutCentred | ConveyorGambler.cs:56-59 | The laid-out window is symmetric about zero, and neighbouring slots are exactly one spacing apart. |
| Reel.EvenCorrection | ConveyorGambler.cs:80-83 | Taking the correction off the leftmost position leaves exactly `-(n / 2)` spacings, a whole number, for every window size of at least 1. |
| Reel.CentredTarget | ConveyorGambler.cs:77-83 | The uncorrected target, `stop` spacings less the correction, is exactly the centred position of place `stop + n - 1 - n / 2`, the place the winner's slot holds after `stop` crossings. |
| Reel.WinnerCrossing | ConveyorGambler.cs:157 | With `c = stop - n / 2`, the winner's slot is recycled in at the right end on crossing `c`. After `stop` crossings in all, it is at index `n - 1 - n / 2`, which is the middle index of an odd window (`n - 2 <= 2 * index <= n - 1`). In a one-direction sweep without jitter, an odd window rests there when the spacing exceeds 0.1. An even window rests one crossing earlier, at `n / 2`, when the spacing exceeds 0.2. Jitter, or a smaller spacing, can add the closing recycle. |
| Reel.FinalShiftDue | ConveyorGambler.cs:133 | The closing recycle is due for any distance from the end position of at least a spacing. Because the 0.1 tolerance is absolute, it is always due when the spacing is at most 0.1. |
| Reel.EndPosition | ConveyorGambler.cs:77-88 | The end position is within half a spacing of the centred target, which is `stop` spacings less half a spacing for even windows. It equals the negated target when there is no offset, and it is within one spacing of `-spacing * stop`. |
| Reel.Recycle | ConveyorGambler.cs:147-155 | One recycle step keeps the length and rotates the window left by one (`new[i] == old[i+1]`, and the last slot is the old first sprite). The moved slot sits one spacing past its new left neighbour and shows the applied item. |
| Reel.RecycleTint | ConveyorGambler.cs:155-161 | The colour rule: the winner on crossing `WinnerCrossing(stop, n)`, the drawn filler on every other. It has no contract of its own. Its meaning is proved by `Reel.RecycleKeepsWinner`, `Reel.WinnerCrossing` and `Reel.SettledWinner`: the slot coloured on that crossing keeps the winner and rests on the centre line. |
| Reel.RecycleRotates | ConveyorGambler.cs:147-152 | The sprites after a recycle step are a permutation of the old ones. |
| Reel.RecycleKeepsItems | ConveyorGambler.cs:155-160 | After a recycle step every slot still shows one of the configured items. |
| Reel.RecycleKeepsHandles | ConveyorGambler.cs:147-152 | A recycle step brings in no new sprite. |
| Reel.LaidOutAt | ConveyorGambler.cs:56-59 | In a window laid out `k` places along, slot `j` sits exactly at the centred position of place `k + j`. |
| Reel.LaidOutFromPlaces | ConveyorGambler.cs:56-59 | A window whose slots sit at consecutive centred positions is laid out from the first. |
| Reel.RecycleAdvancesLayout | ConveyorGambler.cs:153 | A recycle step moves the window's layout exactly one place along. |
| Reel.RecycleKeepsWinner | ConveyorGambler.cs:155-161 | The slot that took the winner's colour on the winner's crossing keeps it. Each later crossing moves it one place left until it leaves the window. |
| Reel.WinnerLandsCentred | ConveyorGambler.cs:77-88 | At the end position, the place the winner's slot reaches is on the centre line, offset only by the jitter. The half-spacing correction for even windows exactly cancels the window's own half-slot offset. |
| Reel.SettledWinner | ConveyorGambler.cs:132-141 | At rest on the end position, the winner's slot, while still in the window, shows the winner and sits at minus the jitter (shifted by any re-layout). |
| Reel.EndNearStop | ConveyorGambler.cs:77-88 | For a stop of at least 2, the end position is negative, and its distance is between `stop - 1` and `stop + 1` spacings. |
| Reel.CountNearStop | ConveyorGambler.cs:122-127 | Such a distance counts `stop - 1` or `stop` crossings. |
| Reel.SweepShowsWinner | ConveyorGambler.cs:115-141 | In a one-direction sweep from zero to the end, the crossings plus the closing recycle always land the winner inside the window, whenever the winner's crossing is at least 1. |
| Reel.OddWindowExample | ConveyorGambler.cs:77-88 | Five slots, spacing 10, stop 10: the end is -100, there are 10 crossings and no closing recycle, and the winner rests in the middle slot exactly on the centre line. |
| Reel.EvenWindowExample | ConveyorGambler.cs:77-88 | Four slots, spacing 10, stop 10: the end is -95, there are 9 crossings and no closing recycle, and the winner rests exactly on the centre line. |
| Conveyor.ConveyorGambler.LayOut | ConveyorGambler.cs:55-60 | Every slot goes to its centred position and keeps its sprite and colour. |
| Conveyor.ConveyorGambler.SetupItems | ConveyorGambler.cs:34-61 | If the array already has `visible` slots, it is kept (same array, same sprites, same colours) and only re-laid out. Otherwise a fresh array of `visible` new sprites replaces it. Either way the window is centred about zero. The layout marker `laidOutAt` becomes the current crossing count during a roll and is kept otherwise, and nothing else changes. |
| Conveyor.ConveyorGambler.ApplyItemGraphics | ConveyorGambler.cs:170-173 | Only the given slot's colour changes, to the item's. |
| Conveyor.ConveyorGambler.ApplyRandomItemGraphics | ConveyorGambler.cs:164-168 | Only the given slot's colour changes, to the drawn item's. |
| Conveyor.ConveyorGambler.ShiftItems | ConveyorGambler.cs:144-162 | The array after the step is exactly one recycle step of the old one. The new last slot shows the winner iff `crossing == stop - visible / 2`, and the filler otherwise. |
| Conveyor.ConveyorGambler.Cross | ConveyorGambler.cs:122-126 | One pass of the crossing loop moves the last recycle point one spacing toward the strip, adds one crossing and runs one recycle step. The roll's invariant is kept. |
| Conveyor.ConveyorGambler.Recycled | ConveyorGambler.cs:125-126 | The count goes up by one, one recycle step runs, and it keeps the layout, the colours, the sprites and the winner's place. |
| Conveyor.ConveyorGambler.CatchUp | ConveyorGambler.cs:122-127 | The crossing loop terminates. It runs exactly `floor(|newX - last| / spacing)` recycles and leaves the last recycle point between its old value and the strip, less than a spacing from the strip. |
| Conveyor.ConveyorGambler.Frame | ConveyorGambler.cs:117-127 | One frame advances time by `delta`, puts the strip at the clamped interpolation along the curve, and then catches the crossings up. |
| Conveyor.ConveyorGambler.Finish | ConveyorGambler.cs:132-141 | There is one extra recycle exactly when the remaining distance is at least `spacing - 0.1`. The strip then snaps to the end, the winner is reported once, the handle is cleared, and the winner's slot, if it is still in the window, shows the winner at minus the jitter (offset by any re-layout during the roll). |
| Conveyor.ConveyorGambler.ScrambleItems | ConveyorGambler.cs:90-94 | Slot `i` takes filler `i`, and nothing else changes. |
| Conveyor.ConveyorGambler.Launch | ConveyorGambler.cs:103-113 | The coroutine starts from the laid-out, scrambled window at zero, with start 0, no crossings yet, and the computed end. It then runs its first frame, or ends at once. |
| Conveyor.ConveyorGambler.FirstRun | ConveyorGambler.cs:103-141 | With a positive duration, the roll is suspended after one frame. Otherwise it has already finished: the winner is reported, the strip is at the end, and no handle is held (`Null`). |
| Conveyor.ConveyorGambler.Roll | ConveyorGambler.cs:63-104 | The window is set up and the strip put at zero. The end is `EndPosition` of the drawn stop and jitter. The winner log gains the new winner when a handle was held (preemption) and again when the roll ends at once. The layout is fresh (`laidOutAt == 0`). Afterwards the roll is either running its first frame or finished, and then the winner's slot, if it is still in the window, shows the winner at minus the jitter (offset by any re-layout during the roll). |
| Conveyor.ConveyorGambler.Tick | ConveyorGambler.cs:115-141 | Without a suspended roll nothing changes: slots, strip, handle, log, `t`, `lastPosition` and `skipped` keep their values. Otherwise it runs one more frame while time remains, or finishes: the handle is cleared, the strip is at the end, the winner is reported once, and the winner's slot, if it is still in the window, shows the winner at minus the jitter (offset by any re-layout during the roll). |
| Gambling.GamblerEnd | Gambler.cs:92 | The end position is within half the spacing's size of `-spacing * stop`, for a spacing of either sign. |
| Gambling.GamblerRestsOnWinner | Gambler.cs:80-101 | At rest, the slot laid out at `stop` spacings is off the centre line by exactly the jitter, so by at most half the spacing's size. |
| Gambling.Gambler.SpawnItems | Gambler.cs:46-54 | A fresh array of `maxFiller` new sprites. |
| Gambling.Gambler.ScrambleItems | Gambler.cs:73-85 | Slot `i` sits at `i * spacing`. The slot at `stop` shows the winner. Every other slot shows its filler, so every slot shows a configured item. Sprites are unchanged. |
| Gambling.Gambler.Frame | Gambler.cs:94-98 | One frame advances time by `delta` and puts the strip at the clamped interpolation between its start and end. |
| Gambling.Gambler.Finish | Gambler.cs:101-103 | The strip snaps to the end, the winner is reported once, the handle stays non-null (`Spent`; `FirstRun` then drops it when the roll ends inside the start call), and the winner's slot rests within half the spacing's size of the centre line. |
| Gambling.Gambler.FirstRun | Gambler.cs:70-104 | With a positive duration, the roll is suspended after one frame. Otherwise it has already finished with the winner reported, and no handle is held (`Null`). |
| Gambling.Gambler.Roll | Gambler.cs:56-71 | The stop drawn from `[minFiller, maxFiller)` indexes the array. The winner shows at the stop. The strip starts from where it stands, not from zero. The end is `GamblerEnd`. The new winner is reported on preemption, which is every roll after one that suspended at least once. |
| Gambling.Gambler.Tick | Gambler.cs:94-104 | Without a suspended roll nothing changes: strip, handle, log and `t` keep their values. Otherwise it runs one more frame while time remains, or finishes with the strip at the end, the winner reported once and the winner's slot near the centre line. |

## Left out

- Engine object lifecycle: `Instantiate` becomes a fresh sprite number showing the prefab's colour. Its x-position is 0.0, standing for the prefab's local position. The ConveyorGambler overwrites it in `SetupItems` before it is shown. The Gambler shows its sprites there from start-up until its first roll's scramble rewrites their positions (Gambler.cs:80). `Destroy` of the replaced sprites is not modelled; the old array is just dropped. The engine's `Start` is not modelled; `SpawnItems` requires that no roll is running, because it runs before any roll.
- Conveyor.ConveyorGambler.FirstRun: a roll whose drawn duration is not positive ends inside `StartCoroutine`. The model takes the engine to return no handle for such a routine, so `rollCoroutine` is `Null` afterwards (ConveyorGambler.cs:103). The source text alone does not settle this.
- Gambling.Gambler.FirstRun: the same engine assumption for Gambler.cs:70. After such a roll the handle is `Null`, and the next `Roll` reports no preemption.
- Coroutine scheduling: `StartCoroutine`, `StopCoroutine`, `yield` and `Time.deltaTime` become the `Tick(delta)` method and the handle states. Stopping a roll is modelled by overwriting its fields when the new roll starts.
- `Random.Range`: every draw is a parameter. The model places no bound on the stop index or the duration (the ConveyorGambler's `minSkippedItems`/`maxSkippedItems` and both classes' duration bounds), so it covers every value they could produce. The Gambler's stop is bounded by `[minFiller, maxFiller)`, which its array indexing needs. A non-empty item list is a precondition (`item < itemCount`), because the code does not guard it.
- `AnimationCurve.Evaluate` is the uninterpreted function `curve`. Floating-point rounding is not modelled; positions are exact reals.
- `Debug.Log` is not modelled. `OnWin.Invoke` is the append to the ghost log `winners`. Items are their indices; names and colours are not modelled.
- Conveyor.ConveyorGambler.Frame: states that the last recycle point lies between its old value and the strip, less than a spacing from the strip. It does not state the point's exact value `old + sign * crossings * spacing`.
- Reel.SweepShowsWinner: is stated for one ideal sweep from zero straight to the end position. It is not proved that every frame sequence of `Tick` is such a sweep, since that depends on the curve being monotone and on the last frame reaching the end.
- Conveyor.ConveyorGambler.constructor: requires `spacing > 0`, which the code does not enforce (`ItemSpacing` has no minimum and defaults to 0). With a spacing of zero or less, the crossing loop never exits, because its guard always holds and each step moves the last point by zero or away from the strip (`Motion.GuardHoldsWithoutSpacing`). A loop that never ends is not modelled, so every method of the class assumes a positive spacing. The constructor also requires `visible >= 3`, the field's editor minimum.
- Gambling.Gambler.constructor: requires `0 <= minFiller < maxFiller`, which the code does not enforce. A negative `maxFiller` makes the array allocation throw. If `minFiller < 0` or `minFiller >= maxFiller`, the drawn stop can fall outside the array. The write at Gambler.cs:84 then throws, after the scramble loop has already rewritten every slot. These exceptions are not modelled. The Gambler needs no sign on the spacing.
