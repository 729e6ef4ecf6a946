/** The conveyor reel: a fixed window of slots that is laid out about zero,
    scrambled, and moved toward a drawn stop while the slot that leaves on the
    left is recycled to the right, one recycle per slot width crossed. */
module Conveyor {
  import opened Motion
  import opened Slots
  import opened Reel
  import opened Coroutine

  class ConveyorGambler {
    /** Configuration: the number of items, the window size, whether the stop
        is jittered, the slot spacing and the easing curve. */
    const itemCount: nat
    const visible: int
    const winnerOffset: bool
    const spacing: real
    const curve: real -> real

    /** The spawned slots, in left-to-right order; null until first set up. */
    var slots: array?<Slot>
    /** Identity for the next sprite instantiated. */
    var nextHandle: nat
    /** The strip's local x-position. */
    var parentX: real
    var rollCoroutine: Handle

    // The suspended coroutine's locals.
    var t: real
    var duration: real
    var startPosition: real
    var endPosition: real
    var lastPosition: real
    var skipped: int
    var winnerItem: nat
    var winnerIndex: int

    /** Every winner reported through the completion callback, in order. */
    ghost var winners: seq<nat>
    /** The jitter that went into the current end position (zero without offset). */
    ghost var jitter: real
    /** The crossing count at which the slot positions were last laid out. */
    ghost var laidOutAt: int

    ghost predicate Valid()
      reads this, slots
    {
      && visible >= 3 && spacing > 0.0
      && (slots != null ==> HandlesBelow(slots[..], nextHandle))
      && (rollCoroutine == Active ==>
            Tracking() && duration > 0.0 && Abs(parentX - lastPosition) < spacing)
    }

    /** What a roll in progress keeps true between recycle steps. */
    ghost predicate Tracking()
      reads this, slots
    {
      && slots != null && slots.Length == visible
      && visible >= 3 && spacing > 0.0
      && HandlesBelow(slots[..], nextHandle)
      && winnerItem < itemCount
      && (winnerOffset ==> Abs(jitter) <= spacing / 2.0)
      && (!winnerOffset ==> jitter == 0.0)
      && startPosition == 0.0
      && endPosition == EndPosition(winnerIndex, visible, spacing, winnerOffset, jitter)
      && 0 <= laidOutAt <= skipped
      && LaidOutFrom(slots[..], skipped - laidOutAt, spacing)
      && ShowsItems(slots[..], itemCount)
      && WinnerHeld(slots[..], skipped, WinnerCrossing(winnerIndex, visible), winnerItem)
      && Between(lastPosition, 0.0, endPosition)
      && Between(parentX, 0.0, endPosition)
    }

    /** Once the strip rests, the slot that took the winner's colour, if it is
        still in the window, shows the winner and sits on the centre line,
        displaced only by the jitter (and by any re-layout during the roll). */
    ghost predicate WinnerOnCentre()
      reads this`slots, this`skipped, this`laidOutAt, this`winnerIndex, this`winnerItem,
            this`parentX, this`jitter, slots
      requires slots != null
    {
      WinnerCentred(slots[..], skipped, skipped - laidOutAt, winnerIndex, spacing, winnerItem, parentX, -jitter)
    }

    constructor (itemCount: nat, visible: int, winnerOffset: bool, spacing: real,
                 curve: real -> real, parentX: real)
      requires visible >= 3 && spacing > 0.0
      ensures Valid()
      ensures this.itemCount == itemCount && this.visible == visible
      ensures this.winnerOffset == winnerOffset && this.spacing == spacing && this.curve == curve
      ensures slots == null && rollCoroutine == Null && this.parentX == parentX && winners == []
    {
      this.itemCount := itemCount;
      this.visible := visible;
      this.winnerOffset := winnerOffset;
      this.spacing := spacing;
      this.curve := curve;
      this.parentX := parentX;
      slots := null;
      nextHandle := 0;
      rollCoroutine := Null;
      winners := [];
    }

    /** Puts every slot at its place in the window centred about zero. */
    method LayOut()
      requires slots != null && slots.Length == visible && visible >= 1
      modifies slots
      ensures LaidOutFrom(slots[..], 0, spacing)
      ensures forall i :: 0 <= i < visible ==> slots[i] == old(slots[i]).(x := slots[i].x)
    {
      var i := 0;
      while i < visible
        modifies slots
        invariant 0 <= i <= visible
        invariant forall j :: 0 <= j < i ==> slots[j] == old(slots[j]).(x := SlotX(j, visible, spacing))
        invariant forall j :: i <= j < visible ==> slots[j] == old(slots[j])
      {
        slots[i] := slots[i].(x := StartX(visible, spacing) + i as real * spacing);
        i := i + 1;
      }
      LaidOutFromPlaces(slots[..], 0, spacing);
    }

    /** Spawns a fresh window of `visible` sprites unless one of that size is
        already there, which it keeps; then lays the window out about zero. */
    method SetupItems()
      requires Valid()
      modifies this, slots
      ensures Valid()
      ensures slots != null && slots.Length == visible
      ensures LaidOutFrom(slots[..], 0, spacing)
      ensures old(slots) != null && old(slots).Length == visible ==>
                && slots == old(slots) && nextHandle == old(nextHandle)
                && forall i :: 0 <= i < visible ==> slots[i] == old(slots[i]).(x := slots[i].x)
      ensures !(old(slots) != null && old(slots).Length == visible) ==>
                && fresh(slots) && nextHandle == old(nextHandle) + visible
                && forall i :: 0 <= i < visible ==> slots[i] == Slot(old(nextHandle) + i, PrefabTint, slots[i].x)
      ensures parentX == old(parentX) && rollCoroutine == old(rollCoroutine) && winners == old(winners)
      ensures t == old(t) && duration == old(duration) && startPosition == old(startPosition)
      ensures endPosition == old(endPosition) && lastPosition == old(lastPosition)
      ensures skipped == old(skipped) && winnerItem == old(winnerItem) && winnerIndex == old(winnerIndex)
      ensures jitter == old(jitter) && laidOutAt == (if old(rollCoroutine) == Active then skipped else old(laidOutAt))
    {
      if slots == null || slots.Length != visible {
        // The old sprites are destroyed; the fresh array replaces them.
        var spawned := new Slot[visible];
        var handle := nextHandle;
        var i := 0;
        while i < visible
          modifies spawned
          invariant 0 <= i <= visible && handle == nextHandle + i
          invariant forall j :: 0 <= j < i ==> spawned[j] == Slot(nextHandle + j, PrefabTint, 0.0)
        {
          spawned[i] := Slot(handle, PrefabTint, 0.0);
          handle := handle + 1;
          i := i + 1;
        }
        slots, nextHandle := spawned, handle;
      }
      LayOut();
      if rollCoroutine == Active {
        laidOutAt := skipped;
      }
    }

    /** Gives the slot at `index` the colour of item `item`. */
    method ApplyItemGraphics(index: int, item: nat)
      requires slots != null && 0 <= index < slots.Length
      modifies slots
      ensures slots[..] == old(slots[..])[index := old(slots[index]).(tint := ItemTint(item))]
    {
      slots[index] := slots[index].(tint := ItemTint(item));
    }

    /** Gives the slot at `index` the colour of the drawn item `draw`. */
    method ApplyRandomItemGraphics(index: int, draw: nat)
      requires slots != null && 0 <= index < slots.Length && draw < itemCount
      modifies slots
      ensures slots[..] == old(slots[..])[index := old(slots[index]).(tint := ItemTint(draw))]
    {
      ApplyItemGraphics(index, draw);
    }

    /** One recycle step, on crossing number `crossing`: rotates the window left
        by one in place, puts the old leftmost slot one spacing past the old
        rightmost, and colours it with the winner on the winner's crossing and
        with the drawn filler otherwise. */
    method ShiftItems(crossing: int, stop: int, winner: nat, filler: nat)
      requires slots != null && slots.Length == visible && visible >= 2 && filler < itemCount
      modifies slots
      ensures slots[..] == Recycle(old(slots[..]), spacing, RecycleTint(crossing, stop, visible, winner, filler))
    {
      var n := slots.Length;
      var leftMost := slots[0];
      var i := 0;
      while i < n - 1
        modifies slots
        invariant 0 <= i <= n - 1
        invariant forall j :: 0 <= j < i ==> slots[j] == old(slots[j + 1])
        invariant forall j :: i <= j < n ==> slots[j] == old(slots[j])
      {
        slots[i] := slots[i + 1];
        i := i + 1;
      }
      slots[n - 1] := leftMost;
      slots[n - 1] := slots[n - 1].(x := slots[n - 2].x + spacing);
      ApplyRandomItemGraphics(n - 1, filler);
      if crossing == WinnerCrossing(stop, visible) {
        ApplyItemGraphics(n - 1, winner);
      }
      assert slots[..] == Recycle(old(slots[..]), spacing, RecycleTint(crossing, stop, visible, winner, filler));
    }

    /** One pass of the crossing loop: `lastPosition` moves one spacing toward
        the strip, the crossing count goes up by one and one recycle step runs
        with that crossing number. */
    method Cross(newX: real, filler: nat)
      requires Tracking() && filler < itemCount
      requires parentX == newX && Abs(newX - lastPosition) >= spacing
      modifies this`lastPosition, this`skipped, slots
      ensures Tracking()
      ensures lastPosition == old(lastPosition) + Sign(newX - old(lastPosition)) * spacing
      ensures Abs(newX - lastPosition) == Abs(newX - old(lastPosition)) - spacing
      ensures skipped == old(skipped) + 1
      ensures slots[..] == Recycle(old(slots[..]), spacing,
                                   RecycleTint(skipped, winnerIndex, visible, winnerItem, filler))
    {
      var step := Sign(newX - lastPosition);
      StepToward(newX, lastPosition, spacing);
      BetweenTransitive(lastPosition + step * spacing, lastPosition, newX, 0.0, endPosition);
      lastPosition := lastPosition + step * spacing;
      Recycled(filler);
    }

    /** `skipped` goes up by one and a recycle step runs with that crossing
        number, keeping the layout, the colours and the winner's place. */
    method Recycled(filler: nat)
      requires slots != null && slots.Length == visible && visible >= 3 && spacing > 0.0
      requires filler < itemCount && winnerItem < itemCount
      requires 0 <= laidOutAt <= skipped
      requires LaidOutFrom(slots[..], skipped - laidOutAt, spacing)
      requires ShowsItems(slots[..], itemCount) && HandlesBelow(slots[..], nextHandle)
      requires WinnerHeld(slots[..], skipped, WinnerCrossing(winnerIndex, visible), winnerItem)
      modifies this`skipped, slots
      ensures skipped == old(skipped) + 1
      ensures slots[..] == Recycle(old(slots[..]), spacing,
                                   RecycleTint(skipped, winnerIndex, visible, winnerItem, filler))
      ensures LaidOutFrom(slots[..], skipped - laidOutAt, spacing)
      ensures ShowsItems(slots[..], itemCount) && HandlesBelow(slots[..], nextHandle)
      ensures WinnerHeld(slots[..], skipped, WinnerCrossing(winnerIndex, visible), winnerItem)
    {
      ghost var before := slots[..];
      skipped := skipped + 1;
      ShiftItems(skipped, winnerIndex, winnerItem, filler);
      ghost var item := RecycleTint(skipped, winnerIndex, visible, winnerItem, filler);
      RecycleAdvancesLayout(before, skipped - 1 - laidOutAt, spacing, item);
      RecycleKeepsWinner(before, skipped - 1, winnerIndex, winnerItem, filler, spacing);
      RecycleKeepsItems(before, spacing, item, itemCount);
      RecycleKeepsHandles(before, spacing, item, nextHandle);
    }

    /** One frame of the roll: advances time, moves the strip along the curve,
        and recycles one slot for every full spacing the strip has moved since
        the last recycle; the `k`th recycle of the frame uses filler `draw(k)`. */
    method Frame(delta: real, draw: nat -> nat)
      requires Tracking() && duration > 0.0
      requires forall k :: draw(k) < itemCount
      modifies this`t, this`parentX, this`lastPosition, this`skipped, slots
      ensures Tracking() && t == old(t) + delta
      ensures parentX == Lerp(startPosition, endPosition, curve(t / duration))
      ensures skipped == old(skipped) + Crossings(parentX - old(lastPosition), spacing)
      ensures Between(lastPosition, old(lastPosition), parentX)
      ensures Abs(parentX - lastPosition) < spacing
    {
      t := t + delta;
      var newX := Lerp(startPosition, endPosition, curve(t / duration));
      parentX := newX;
      CatchUp(newX, draw);
    }

    /** The crossing loop of one frame: while the strip is at least one
        spacing from the last recycle point, that point moves one spacing
        toward the strip and one slot is recycled, the `k`th of the frame with
        filler `draw(k)`. */
    method CatchUp(newX: real, draw: nat -> nat)
      requires Tracking() && parentX == newX
      requires forall k :: draw(k) < itemCount
      modifies this`lastPosition, this`skipped, slots
      ensures Tracking()
      ensures skipped == old(skipped) + Crossings(newX - old(lastPosition), spacing)
      ensures Between(lastPosition, old(lastPosition), newX)
      ensures Abs(newX - lastPosition) < spacing
    {
      var last0, k0 := lastPosition, skipped;
      ghost var moved := 0.0;
      while Abs(newX - lastPosition) >= spacing
        invariant Tracking()
        invariant skipped >= k0 && moved >= 0.0
        invariant Crossings(newX - lastPosition, spacing) + (skipped - k0) == Crossings(newX - last0, spacing)
        invariant lastPosition == last0 + Sign(newX - last0) * moved
        invariant Abs(newX - lastPosition) == Abs(newX - last0) - moved
        invariant Between(lastPosition, last0, newX)
        decreases Crossings(newX - lastPosition, spacing)
      {
        ghost var gap := newX - lastPosition;
        SameDirection(newX, last0, lastPosition, moved, spacing);
        Cross(newX, draw(skipped - k0));
        CrossingsStep(gap, newX - lastPosition, spacing);
        moved := moved + spacing;
      }
      CrossingsNone(newX - lastPosition, spacing);
    }

    /** The end of a roll: one more recycle if the end position is at least a
        spacing less 0.1 from the last recycle point, then the strip snaps to
        the end position and the winner is reported. */
    method Finish(filler: nat)
      requires Tracking() && filler < itemCount
      modifies this`skipped, this`parentX, this`winners, this`rollCoroutine, slots
      ensures Tracking()
      ensures skipped == old(skipped) + (if FinalShiftDue(endPosition, old(lastPosition), spacing) then 1 else 0)
      ensures FinalShiftDue(endPosition, old(lastPosition), spacing) ==>
                slots[..] == Recycle(old(slots[..]), spacing,
                                     RecycleTint(skipped, winnerIndex, visible, winnerItem, filler))
      ensures !FinalShiftDue(endPosition, old(lastPosition), spacing) ==> slots[..] == old(slots[..])
      ensures parentX == endPosition && winners == old(winners) + [winnerItem]
      ensures rollCoroutine == Null && WinnerOnCentre()
    {
      if Abs(endPosition - lastPosition) >= spacing - 0.1 {
        Recycled(filler);
      }
      parentX := endPosition;
      winners := winners + [winnerItem];
      rollCoroutine := Null;
      SettledWinner(slots[..], skipped, skipped - laidOutAt, winnerIndex, spacing, winnerOffset, jitter, winnerItem);
    }

    /** A roll: set up and lay out the window, put the strip at zero, compute
        the stop from the drawn item `item`, stop index `stop` and jitter,
        colour every slot with its drawn filler, report the NEW winner if a
        roll handle is still held, and start the coroutine, which runs its
        first frame (of length `delta`) at once, or finishes at once when the
        drawn duration is not positive. */
    method Roll(item: nat, stop: int, drawnJitter: real, fillers: seq<nat>,
                drawnDuration: real, delta: real, draw: nat -> nat)
      requires Valid()
      requires item < itemCount
      requires winnerOffset ==> Abs(drawnJitter) <= spacing / 2.0
      requires |fillers| == visible && forall i :: 0 <= i < |fillers| ==> fillers[i] < itemCount
      requires forall k :: draw(k) < itemCount
      modifies this, slots
      ensures Valid()
      ensures slots != null && slots.Length == visible
      ensures old(slots) != null && old(slots).Length == visible ==> slots == old(slots)
      ensures !(old(slots) != null && old(slots).Length == visible) ==> fresh(slots)
      ensures winnerItem == item && winnerIndex == stop && duration == drawnDuration && startPosition == 0.0
      ensures endPosition == EndPosition(stop, visible, spacing, winnerOffset, drawnJitter) && laidOutAt == 0
      ensures winners == old(winners) + (if old(rollCoroutine) != Null then [item] else [])
                                      + (if drawnDuration > 0.0 then [] else [item])
      ensures drawnDuration > 0.0 ==>
                && rollCoroutine == Active && t == delta
                && parentX == Lerp(0.0, endPosition, curve(delta / drawnDuration))
                && skipped == Crossings(parentX, spacing)
                && Between(lastPosition, 0.0, parentX) && Abs(parentX - lastPosition) < spacing
      ensures drawnDuration <= 0.0 ==>
                && rollCoroutine == Null && parentX == endPosition
                && skipped == (if FinalShiftDue(endPosition, 0.0, spacing) then 1 else 0)
                && WinnerOnCentre()
    {
      SetupItems();
      parentX := 0.0;
      LayOut();

      var winnerPosition := spacing * stop as real;
      if visible % 2 == 0 {
        winnerPosition := winnerPosition - spacing / 2.0;
      }
      if winnerOffset {
        winnerPosition := winnerPosition + drawnJitter;
      }
      ScrambleItems(fillers);

      if rollCoroutine != Null {
        // StopCoroutine, then the completion callback with the winner just drawn.
        winners := winners + [item];
      }
      Launch(item, stop, if winnerOffset then drawnJitter else 0.0, -winnerPosition, drawnDuration, delta, draw);
    }

    /** Colours slot `i` with filler `fillers[i]`, for every slot. */
    method ScrambleItems(fillers: seq<nat>)
      requires slots != null && |fillers| == slots.Length
      requires forall i :: 0 <= i < |fillers| ==> fillers[i] < itemCount
      modifies slots
      ensures forall j :: 0 <= j < slots.Length ==> slots[j] == old(slots[j]).(tint := ItemTint(fillers[j]))
    {
      var i := 0;
      while i < slots.Length
        invariant 0 <= i <= slots.Length
        invariant forall j :: 0 <= j < i ==> slots[j] == old(slots[j]).(tint := ItemTint(fillers[j]))
        invariant forall j :: i <= j < slots.Length ==> slots[j] == old(slots[j])
      {
        ApplyRandomItemGraphics(i, fillers[i]);
        i := i + 1;
      }
    }

    /** StartCoroutine(LerpToWinner(...)): sets the coroutine's locals from a
        freshly laid-out, fully coloured window and runs it up to its first
        suspension, or to its end when the duration is not positive. */
    method Launch(item: nat, stop: int, drawnJitter: real, end: real,
                  drawnDuration: real, delta: real, draw: nat -> nat)
      requires slots != null && slots.Length == visible && visible >= 3 && spacing > 0.0
      requires HandlesBelow(slots[..], nextHandle)
      requires LaidOutFrom(slots[..], 0, spacing) && ShowsItems(slots[..], itemCount)
      requires item < itemCount && parentX == 0.0
      requires (winnerOffset ==> Abs(drawnJitter) <= spacing / 2.0) && (!winnerOffset ==> drawnJitter == 0.0)
      requires end == EndPosition(stop, visible, spacing, winnerOffset, drawnJitter)
      requires forall k :: draw(k) < itemCount
      modifies this`t, this`duration, this`startPosition, this`endPosition, this`lastPosition,
               this`skipped, this`winnerItem, this`winnerIndex, this`jitter, this`laidOutAt,
               this`parentX, this`winners, this`rollCoroutine, slots
      ensures Valid()
      ensures winnerItem == item && winnerIndex == stop && duration == drawnDuration && startPosition == 0.0
      ensures endPosition == end && jitter == drawnJitter && laidOutAt == 0
      ensures winners == old(winners) + (if drawnDuration > 0.0 then [] else [item])
      ensures drawnDuration > 0.0 ==>
                && rollCoroutine == Active && t == delta
                && parentX == Lerp(0.0, endPosition, curve(delta / drawnDuration))
                && skipped == Crossings(parentX, spacing)
                && Between(lastPosition, 0.0, parentX) && Abs(parentX - lastPosition) < spacing
      ensures drawnDuration <= 0.0 ==>
                && rollCoroutine == Null && parentX == endPosition
                && skipped == (if FinalShiftDue(endPosition, 0.0, spacing) then 1 else 0)
                && WinnerOnCentre()
    {
      ghost var laid := slots[..];
      t := 0.0;
      duration := drawnDuration;
      startPosition := parentX;
      endPosition := end;
      lastPosition := startPosition;
      skipped := 0;
      winnerItem, winnerIndex := item, stop;
      jitter := drawnJitter;
      laidOutAt := 0;
      assert slots[..] == laid;
      assert WinnerHeld(slots[..], skipped, WinnerCrossing(winnerIndex, visible), winnerItem);
      FirstRun(delta, draw);
    }

    /** The coroutine's synchronous start: its first frame, or, when time is
        already up, its end, after which the start call hands back no handle. */
    method FirstRun(delta: real, draw: nat -> nat)
      requires Tracking() && t == 0.0 && lastPosition == 0.0 && skipped == 0 && laidOutAt == 0
      requires forall k :: draw(k) < itemCount
      modifies this`t, this`lastPosition, this`skipped, this`parentX, this`winners, this`rollCoroutine, slots
      ensures Valid()
      ensures winners == old(winners) + (if duration > 0.0 then [] else [winnerItem])
      ensures duration > 0.0 ==>
                && rollCoroutine == Active && t == delta
                && parentX == Lerp(0.0, endPosition, curve(delta / duration))
                && skipped == Crossings(parentX, spacing)
                && Between(lastPosition, 0.0, parentX) && Abs(parentX - lastPosition) < spacing
      ensures duration <= 0.0 ==>
                && rollCoroutine == Null && parentX == endPosition
                && skipped == (if FinalShiftDue(endPosition, 0.0, spacing) then 1 else 0)
                && WinnerOnCentre()
    {
      if t < duration {
        rollCoroutine := Active;
        Frame(delta, draw);
      } else {
        Finish(draw(0));
        // A routine that ends before its first yield leaves no handle.
        rollCoroutine := Null;
      }
    }

    /** One host frame of length `delta`: resumes a suspended roll, which either
        runs another frame or, once its time is up, finishes. Nothing happens
        without a suspended roll. */
    method Tick(delta: real, draw: nat -> nat)
      requires Valid()
      requires forall k :: draw(k) < itemCount
      modifies this`t, this`parentX, this`lastPosition, this`skipped, this`winners, this`rollCoroutine, slots
      ensures Valid()
      ensures old(rollCoroutine) != Active ==>
                && t == old(t) && lastPosition == old(lastPosition) && skipped == old(skipped)
                && slots == old(slots) && parentX == old(parentX) && rollCoroutine == old(rollCoroutine)
                && winners == old(winners) && (slots != null ==> slots[..] == old(slots[..]))
      ensures old(rollCoroutine) == Active && old(t) < duration ==>
                && rollCoroutine == Active && t == old(t) + delta
                && parentX == Lerp(0.0, endPosition, curve(t / duration))
                && skipped == old(skipped) + Crossings(parentX - old(lastPosition), spacing)
                && winners == old(winners)
      ensures old(rollCoroutine) == Active && old(t) >= duration ==>
                && rollCoroutine == Null && parentX == endPosition
                && winners == old(winners) + [winnerItem]
                && skipped == old(skipped) + (if FinalShiftDue(endPosition, old(lastPosition), spacing) then 1 else 0)
                && slots != null && slots.Length == visible && WinnerOnCentre()
    {
      if rollCoroutine == Active {
        if t < duration {
          Frame(delta, draw);
        } else {
          Finish(draw(0));
        }
      }
    }
  }
}
