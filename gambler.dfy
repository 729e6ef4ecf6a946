/** The earlier reel: a strip of slots laid out from zero, one spacing apart,
    scrambled with fillers and the winner at the drawn index, and eased from
    wherever it stands to the winner's slot. Nothing is recycled. */
module Gambling {
  import opened Motion
  import opened Slots
  import opened Coroutine

  /** Where the strip comes to rest: `stop` slots along, negated, plus the
      jitter; it stays within half a spacing of `-spacing * stop`. Nothing
      here depends on the sign of the spacing. */
  function GamblerEnd(stop: int, spacing: real, jitter: real): (e: real)
    requires Abs(jitter) <= Abs(spacing) / 2.0
    ensures Abs(e + spacing * stop as real) <= Abs(spacing) / 2.0
  {
    -(spacing * stop as real) + jitter
  }

  /** At rest, the slot at `stop`, laid out at `stop` spacings, is off the
      centre line by exactly the jitter. */
  lemma GamblerRestsOnWinner(stop: int, spacing: real, jitter: real, x: real)
    requires Abs(jitter) <= Abs(spacing) / 2.0
    requires x == stop as real * spacing
    ensures GamblerEnd(stop, spacing, jitter) + x == jitter
    ensures Abs(GamblerEnd(stop, spacing, jitter) + x) <= Abs(spacing) / 2.0
  {
  }

  class Gambler {
    /** Configuration: the number of items, the slot spacing, the range the
        stop index is drawn from, and the easing curve. */
    const itemCount: nat
    const spacing: real
    const minFiller: int
    const maxFiller: int
    const curve: real -> real

    /** The spawned slots; null until `SpawnItems` has run. */
    var slots: array?<Slot>
    var nextHandle: nat
    /** The strip's local x-position. */
    var parentX: real
    var rollCoroutine: Handle

    // The suspended coroutine's locals.
    var t: real
    var duration: real
    var startPosition: real
    var endPosition: real
    var winnerItem: nat
    var winnerIndex: int

    /** Every winner reported through the completion callback, in order. */
    ghost var winners: seq<nat>
    /** The jitter that went into the current end position. */
    ghost var jitter: real

    ghost predicate Valid()
      reads this, slots
    {
      && 0 <= minFiller < maxFiller
      && (slots != null ==> slots.Length == maxFiller)
      && (rollCoroutine == Active ==> Tracking() && duration > 0.0)
    }

    /** What a roll in progress keeps true between frames: the winner's slot
        shows the winner at its laid-out place, the end position is the
        winner's, and the strip is between where it started and that end. */
    ghost predicate Tracking()
      reads this, slots
    {
      && slots != null && 0 <= winnerIndex < slots.Length
      && winnerItem < itemCount
      && slots[winnerIndex].tint == ItemTint(winnerItem)
      && slots[winnerIndex].x == winnerIndex as real * spacing
      && Abs(jitter) <= Abs(spacing) / 2.0
      && endPosition == GamblerEnd(winnerIndex, spacing, jitter)
      && Between(parentX, startPosition, endPosition)
    }

    /** At rest on the end position, the winner's slot shows the winner and
        is off the centre line by the jitter alone. */
    ghost predicate WinnerOnCentre()
      reads this`slots, this`winnerIndex, this`winnerItem, this`parentX, this`jitter, slots
    {
      && slots != null && 0 <= winnerIndex < slots.Length
      && slots[winnerIndex].tint == ItemTint(winnerItem)
      && parentX + slots[winnerIndex].x == jitter
      && Abs(parentX + slots[winnerIndex].x) <= Abs(spacing) / 2.0
    }

    constructor (itemCount: nat, spacing: real, minFiller: int, maxFiller: int,
                 curve: real -> real, parentX: real)
      requires 0 <= minFiller < maxFiller
      ensures Valid()
      ensures this.itemCount == itemCount && this.spacing == spacing && this.curve == curve
      ensures this.minFiller == minFiller && this.maxFiller == maxFiller
      ensures slots == null && rollCoroutine == Null && this.parentX == parentX && winners == []
    {
      this.itemCount := itemCount;
      this.spacing := spacing;
      this.minFiller := minFiller;
      this.maxFiller := maxFiller;
      this.curve := curve;
      this.parentX := parentX;
      slots := null;
      nextHandle := 0;
      rollCoroutine := Null;
      winners := [];
    }

    /** Spawns `maxFiller` fresh sprites, showing the prefab's colour. It
        runs once, from the engine's start-up call, before any roll. */
    method SpawnItems()
      requires Valid() && rollCoroutine != Active
      modifies this`slots, this`nextHandle
      ensures Valid()
      ensures fresh(slots) && slots.Length == maxFiller && nextHandle == old(nextHandle) + maxFiller
      ensures forall i :: 0 <= i < maxFiller ==> slots[i] == Slot(old(nextHandle) + i, PrefabTint, 0.0)
    {
      var spawned := new Slot[maxFiller];
      var handle := nextHandle;
      var i := 0;
      while i < maxFiller
        modifies spawned
        invariant 0 <= i <= maxFiller && handle == nextHandle + i
        invariant forall j :: 0 <= j < i ==> spawned[j] == Slot(nextHandle + j, PrefabTint, 0.0)
      {
        spawned[i] := Slot(handle, PrefabTint, 0.0);
        handle := handle + 1;
        i := i + 1;
      }
      slots, nextHandle := spawned, handle;
    }

    /** Puts slot `i` at `i` spacings with filler `fillers[i]`, then gives the
        slot at `stop` the winner's colour. */
    method ScrambleItems(stop: int, winner: nat, fillers: seq<nat>)
      requires slots != null && 0 <= stop < slots.Length && |fillers| == slots.Length
      requires forall i :: 0 <= i < |fillers| ==> fillers[i] < itemCount
      requires winner < itemCount
      modifies slots
      ensures ShowsItems(slots[..], itemCount)
      ensures forall i :: 0 <= i < slots.Length ==> slots[i].handle == old(slots[i].handle)
      ensures forall i :: 0 <= i < slots.Length ==> slots[i].x == i as real * spacing
      ensures slots[stop].tint == ItemTint(winner)
      ensures forall i :: 0 <= i < slots.Length && i != stop ==> slots[i].tint == ItemTint(fillers[i])
    {
      var i := 0;
      while i < slots.Length
        invariant 0 <= i <= slots.Length
        invariant forall j :: 0 <= j < i ==>
                    slots[j] == Slot(old(slots[j].handle), ItemTint(fillers[j]), j as real * spacing)
        invariant forall j :: i <= j < slots.Length ==> slots[j] == old(slots[j])
      {
        slots[i] := Slot(slots[i].handle, ItemTint(fillers[i]), i as real * spacing);
        i := i + 1;
      }
      slots[stop] := slots[stop].(tint := ItemTint(winner));
    }

    /** A roll: scramble with the drawn winner `item` at the drawn index
        `stop`, report the NEW winner if a roll handle is still held (which,
        here, is after every earlier roll that suspended at least once, since
        the handle is never cleared), and start the coroutine, which eases the strip from where it
        stands; its first frame (of length `delta`) runs at once, or the roll
        ends at once when the drawn duration is not positive. */
    method Roll(item: nat, stop: int, drawnJitter: real, fillers: seq<nat>,
                drawnDuration: real, delta: real)
      requires Valid() && slots != null
      requires item < itemCount && minFiller <= stop < maxFiller
      requires Abs(drawnJitter) <= Abs(spacing) / 2.0
      requires |fillers| == slots.Length && forall i :: 0 <= i < |fillers| ==> fillers[i] < itemCount
      modifies this`t, this`duration, this`startPosition, this`endPosition, this`winnerItem,
               this`winnerIndex, this`jitter, this`parentX, this`winners, this`rollCoroutine, slots
      ensures Valid()
      ensures winnerItem == item && winnerIndex == stop && duration == drawnDuration
      ensures startPosition == old(parentX) && endPosition == GamblerEnd(stop, spacing, drawnJitter)
      ensures slots[stop].tint == ItemTint(item) && ShowsItems(slots[..], itemCount)
      ensures winners == old(winners) + (if old(rollCoroutine) != Null then [item] else [])
                                      + (if drawnDuration > 0.0 then [] else [item])
      ensures drawnDuration > 0.0 ==>
                && rollCoroutine == Active && t == delta
                && parentX == Lerp(old(parentX), endPosition, curve(delta / drawnDuration))
      ensures drawnDuration <= 0.0 ==>
                rollCoroutine == Null && parentX == endPosition && WinnerOnCentre()
    {
      var winnerPosition := spacing * stop as real;
      ScrambleItems(stop, item, fillers);
      ghost var scrambled := slots[..];

      if rollCoroutine != Null {
        // StopCoroutine, then the completion callback with the winner just drawn.
        winners := winners + [item];
      }

      // StartCoroutine(LerpToWinner(...)) runs up to the first yield.
      t := 0.0;
      duration := drawnDuration;
      startPosition := parentX;
      endPosition := -winnerPosition + drawnJitter;
      winnerItem, winnerIndex := item, stop;
      jitter := drawnJitter;
      assert slots[..] == scrambled;
      FirstRun(delta);
    }

    /** The coroutine's synchronous start: its first frame, or, when time is
        already up, its end, after which the start call hands back no handle. */
    method FirstRun(delta: real)
      requires Tracking() && t == 0.0 && slots.Length == maxFiller && 0 <= minFiller < maxFiller
      modifies this`t, this`parentX, this`winners, this`rollCoroutine
      ensures Valid()
      ensures winners == old(winners) + (if duration > 0.0 then [] else [winnerItem])
      ensures duration > 0.0 ==>
                && rollCoroutine == Active && t == delta
                && parentX == Lerp(startPosition, endPosition, curve(delta / duration))
      ensures duration <= 0.0 ==> rollCoroutine == Null && parentX == endPosition && WinnerOnCentre()
    {
      if t < duration {
        rollCoroutine := Active;
        Frame(delta);
      } else {
        Finish();
        // A routine that ends before its first yield leaves no handle.
        rollCoroutine := Null;
      }
    }

    /** One frame of the roll: time advances and the strip moves along the
        curve between its start and its end. */
    method Frame(delta: real)
      requires Tracking() && duration > 0.0
      modifies this`t, this`parentX
      ensures Tracking() && t == old(t) + delta
      ensures parentX == Lerp(startPosition, endPosition, curve(t / duration))
    {
      t := t + delta;
      parentX := Lerp(startPosition, endPosition, curve(t / duration));
    }

    /** The end of a roll: the strip snaps to the end position and the winner
        is reported. The handle is not cleared, so it is left spent. */
    method Finish()
      requires Tracking()
      modifies this`parentX, this`winners, this`rollCoroutine
      ensures parentX == endPosition && winners == old(winners) + [winnerItem]
      ensures rollCoroutine == Spent && WinnerOnCentre()
    {
      parentX := endPosition;
      winners := winners + [winnerItem];
      rollCoroutine := Spent;
      GamblerRestsOnWinner(winnerIndex, spacing, jitter, slots[winnerIndex].x);
    }

    /** One host frame of length `delta`: resumes a suspended roll, which
        either runs another frame or, once its time is up, finishes. */
    method Tick(delta: real)
      requires Valid()
      modifies this`t, this`parentX, this`winners, this`rollCoroutine
      ensures Valid()
      ensures old(rollCoroutine) != Active ==>
                && t == old(t) && parentX == old(parentX) && rollCoroutine == old(rollCoroutine)
                && winners == old(winners)
      ensures old(rollCoroutine) == Active && old(t) < duration ==>
                && rollCoroutine == Active && t == old(t) + delta && winners == old(winners)
                && parentX == Lerp(startPosition, endPosition, curve(t / duration))
      ensures old(rollCoroutine) == Active && old(t) >= duration ==>
                && rollCoroutine == Spent && parentX == endPosition
                && winners == old(winners) + [winnerItem] && WinnerOnCentre()
    {
      if rollCoroutine == Active {
        if t < duration {
          Frame(delta);
        } else {
          Finish();
        }
      }
    }
  }
}
