/** The arithmetic of the conveyor reel: where the visible slots sit, where the
    strip must stop, which crossing brings the winner in, and what one recycle
    step does to the slot sequence. */
module Reel {
  import opened Motion
  import opened Slots

  /** Local x of the leftmost of `n` slots centred about zero. */
  function StartX(n: int, spacing: real): (x: real)
    ensures x + (n - 1) as real * spacing == -x
  {
    -(n - 1) as real * spacing / 2.0
  }

  /** Local x of the slot at `i` in a window of `n` slots centred about zero. */
  function SlotX(i: int, n: int, spacing: real): real {
    StartX(n, spacing) + i as real * spacing
  }

  /** The centred layout is symmetric about zero, one spacing per step. */
  lemma LayoutCentred(i: int, n: int, spacing: real)
    ensures SlotX(i, n, spacing) + SlotX(n - 1 - i, n, spacing) == 0.0
    ensures SlotX(i + 1, n, spacing) - SlotX(i, n, spacing) == spacing
  {
    var a := i as real * spacing;
    var b := (n - 1 - i) as real * spacing;
    assert a + b == (n - 1) as real * spacing;
    assert (i + 1) as real * spacing == a + spacing;
  }

  /** Half a spacing when the window has an even number of slots, none otherwise.
      The window size is positive, so the remainder agrees with C#'s `%`.
      Taking the correction off the leftmost slot's position leaves a whole
      number of spacings, which is what brings a slot onto the centre line. */
  function EvenCorrection(n: int, spacing: real): (c: real)
    ensures n >= 1 ==> StartX(n, spacing) - c == -(n / 2) as real * spacing
  {
    var m := n / 2;
    assert n >= 1 ==> StartX(n, spacing) - (if n % 2 == 0 then spacing / 2.0 else 0.0) == -m as real * spacing by {
      if n >= 1 {
        var a := (n - 1) as real * spacing;
        var b := m as real * spacing;
        if n % 2 == 0 {
          assert n - 1 == 2 * m - 1;
          assert a == 2.0 * b - spacing;
        } else {
          assert n - 1 == 2 * m;
          assert a == 2.0 * b;
        }
      }
    }
    if n % 2 == 0 then spacing / 2.0 else 0.0
  }

  /** The strip's target before jitter: `stop` slots along, pulled back half a
      slot for an even window. */
  function CentredTarget(stop: int, n: int, spacing: real): (x: real)
    ensures n >= 1 ==> x == SlotX(stop + n - 1 - n / 2, n, spacing)
  {
    var m := n / 2;
    assert n >= 1 ==> spacing * stop as real - EvenCorrection(n, spacing) == SlotX(stop + n - 1 - m, n, spacing) by {
      if n >= 1 {
        var a := (stop + n - 1 - m) as real * spacing;
        var b := (n - 1 - m) as real * spacing;
        var c := m as real * spacing;
        assert a == spacing * stop as real + b;
        assert b == (n - 1) as real * spacing - c;
      }
    }
    spacing * stop as real - EvenCorrection(n, spacing)
  }

  /** Where the strip comes to rest: the target, optionally jittered, negated
      because the strip moves against the apparent item motion. */
  function EndPosition(stop: int, n: int, spacing: real, offset: bool, jitter: real): (e: real)
    requires spacing > 0.0
    requires offset ==> Abs(jitter) <= spacing / 2.0
    ensures Abs(e + CentredTarget(stop, n, spacing)) <= spacing / 2.0
    ensures !offset ==> e == -CentredTarget(stop, n, spacing)
    ensures Abs(e + spacing * stop as real) <= spacing
  {
    -(CentredTarget(stop, n, spacing) + (if offset then jitter else 0.0))
  }

  /** The crossing number at which the recycled slot gets the winner's colour. */
  function WinnerCrossing(stop: int, n: int): (c: int)
    ensures n - 2 <= 2 * ((n - 1) - (stop - c)) <= n - 1
  {
    stop - n / 2
  }

  /** Whether the closing check after the last frame adds one more recycle:
      the end position is at least a spacing less an absolute 0.1 from the
      last recycle point, however far beyond that it is. */
  predicate FinalShiftDue(endPosition: real, lastPosition: real, spacing: real): (due: bool)
    ensures Abs(endPosition - lastPosition) >= spacing ==> due
    ensures spacing <= 0.1 ==> due
  {
    Abs(endPosition - lastPosition) >= spacing - 0.1
  }

  /** One recycle step: the leftmost slot moves one spacing past the rightmost
      and becomes the rightmost, showing `item`. */
  function Recycle(s: seq<Slot>, spacing: real, item: nat): (r: seq<Slot>)
    requires |s| >= 2
    ensures |r| == |s|
    ensures forall i :: 0 <= i < |s| - 1 ==> r[i] == s[i + 1]
    ensures r[|s| - 1].handle == s[0].handle
    ensures r[|s| - 1].x == r[|s| - 2].x + spacing
    ensures r[|s| - 1].tint == ItemTint(item)
  {
    s[1..] + [s[0].(x := s[|s| - 1].x + spacing, tint := ItemTint(item))]
  }

  /** The colour a recycle step applies: the winner on the crossing that brings
      it in, the drawn filler on every other. */
  function RecycleTint(crossing: int, stop: int, n: int, winner: nat, filler: nat): nat {
    if crossing == WinnerCrossing(stop, n) then winner else filler
  }

  /** Recycling keeps the same sprites, in another order. */
  lemma RecycleRotates(s: seq<Slot>, spacing: real, item: nat)
    requires |s| >= 2
    ensures multiset(Handles(Recycle(s, spacing, item))) == multiset(Handles(s))
  {
    var r := Recycle(s, spacing, item);
    var moved := s[0].(x := s[|s| - 1].x + spacing, tint := ItemTint(item));
    HandlesAppend(s[1..], [moved]);
    HandlesAppend([s[0]], s[1..]);
    assert [s[0]] + s[1..] == s;
    assert Handles([moved]) == Handles([s[0]]);
    calc {
      multiset(Handles(r));
      multiset(Handles(s[1..]) + Handles([s[0]]));
      multiset(Handles(s[1..])) + multiset(Handles([s[0]]));
      multiset(Handles([s[0]]) + Handles(s[1..]));
      multiset(Handles(s));
    }
  }

  /** Recycling with an item's colour keeps every slot showing an item. */
  lemma RecycleKeepsItems(s: seq<Slot>, spacing: real, item: nat, itemCount: nat)
    requires |s| >= 2 && ShowsItems(s, itemCount) && item < itemCount
    ensures ShowsItems(Recycle(s, spacing, item), itemCount)
  {
    RecycleRotates(s, spacing, item);
  }

  /** Recycling brings in no new sprite: every handle stays below a bound. */
  lemma RecycleKeepsHandles(s: seq<Slot>, spacing: real, item: nat, bound: nat)
    requires |s| >= 2 && HandlesBelow(s, bound)
    ensures HandlesBelow(Recycle(s, spacing, item), bound)
  {
    RecycleRotates(s, spacing, item);
  }

  /** Each slot sits one spacing to the right of the one before it. */
  ghost predicate Spaced(s: seq<Slot>, spacing: real) {
    forall j :: 0 <= j < |s| - 1 ==> s[j + 1].x == s[j].x + spacing
  }

  /** The slots sit at consecutive positions of the centred layout, starting
      `k` places to the right of its leftmost position. */
  ghost predicate LaidOutFrom(s: seq<Slot>, k: int, spacing: real) {
    |s| >= 1 && s[0].x == SlotX(k, |s|, spacing) && Spaced(s, spacing)
  }

  /** In a laid-out window, slot `j` is at place `k + j` of the centred layout. */
  lemma {:induction false} LaidOutAt(s: seq<Slot>, k: int, spacing: real, j: int)
    requires LaidOutFrom(s, k, spacing) && 0 <= j < |s|
    ensures s[j].x == SlotX(k + j, |s|, spacing)
  {
    if j > 0 {
      LaidOutAt(s, k, spacing, j - 1);
      LayoutCentred(k + j - 1, |s|, spacing);
    }
  }

  /** Slots placed at the centred layout's places `k`, `k + 1`, ... are laid out. */
  lemma LaidOutFromPlaces(s: seq<Slot>, k: int, spacing: real)
    requires |s| >= 1
    requires forall j :: 0 <= j < |s| ==> s[j].x == SlotX(k + j, |s|, spacing)
    ensures LaidOutFrom(s, k, spacing)
  {
    forall j | 0 <= j < |s| - 1
      ensures s[j + 1].x == s[j].x + spacing
    {
      LayoutCentred(k + j, |s|, spacing);
    }
  }

  /** A recycle step moves the whole window one place to the right. */
  lemma RecycleAdvancesLayout(s: seq<Slot>, k: int, spacing: real, item: nat)
    requires |s| >= 2 && LaidOutFrom(s, k, spacing)
    ensures LaidOutFrom(Recycle(s, spacing, item), k + 1, spacing)
  {
    RecycleRotates(s, spacing, item);
    LayoutCentred(k, |s|, spacing);
  }

  /** After `k` crossings, the slot that took the winner's colour at crossing
      `c` has moved `k - c` places left of the rightmost end and, while it is
      still in the window, shows the winner. */
  ghost predicate WinnerHeld(s: seq<Slot>, k: int, c: int, winner: nat) {
    1 <= c <= k < c + |s| ==> s[|s| - 1 - (k - c)].tint == ItemTint(winner)
  }

  /** One more recycle step, with the colour rule of the reel, keeps the
      winner in its place in the window. */
  lemma RecycleKeepsWinner(s: seq<Slot>, k: int, stop: int, winner: nat, filler: nat, spacing: real)
    requires |s| >= 2 && k >= 0
    requires WinnerHeld(s, k, WinnerCrossing(stop, |s|), winner)
    ensures WinnerHeld(Recycle(s, spacing, RecycleTint(k + 1, stop, |s|, winner, filler)),
                       k + 1, WinnerCrossing(stop, |s|), winner)
  {
    var n := |s|;
    var c := WinnerCrossing(stop, n);
    var item := RecycleTint(k + 1, stop, n, winner, filler);
    var r := Recycle(s, spacing, item);
    if 1 <= c <= k + 1 < c + n {
      if c == k + 1 {
        assert item == winner;
        assert r[n - 1].tint == ItemTint(winner);
      } else {
        var i := n - 1 - (k + 1 - c);
        assert 0 <= i < n - 1;
        assert r[i] == s[i + 1];
        assert s[i + 1].tint == ItemTint(winner);
      }
    }
  }

  /** Wherever the strip has got to, once it rests at the end position the
      winner's slot is on the centre line, displaced only by the jitter: the
      half-slot correction for even windows and the crossing number cancel
      the window's own offset exactly. */
  lemma {:induction false} WinnerLandsCentred(stop: int, n: int, spacing: real, offset: bool, jitter: real, k: int)
    requires n >= 1 && spacing > 0.0
    requires offset ==> Abs(jitter) <= spacing / 2.0
    requires WinnerCrossing(stop, n) <= k < WinnerCrossing(stop, n) + n
    ensures EndPosition(stop, n, spacing, offset, jitter)
              + SlotX(k + (n - 1 - (k - WinnerCrossing(stop, n))), n, spacing)
            == -(if offset then jitter else 0.0)
  {
    var c := WinnerCrossing(stop, n);
    var j := if offset then jitter else 0.0;
    var m := n / 2;
    assert k + (n - 1 - (k - c)) == n - 1 + stop - m;
    var e := EndPosition(stop, n, spacing, offset, jitter);
    assert e == -(spacing * stop as real) + EvenCorrection(n, spacing) - j;
    var x := SlotX(n - 1 + stop - m, n, spacing);
    assert x == -(n - 1) as real * spacing / 2.0 + (n - 1 + stop - m) as real * spacing;
    if n % 2 == 0 {
      assert n == 2 * m;
      assert x == (2 * m - 1) as real * spacing / 2.0 + (stop - m) as real * spacing;
      assert x == spacing * stop as real - spacing / 2.0;
    } else {
      assert n == 2 * m + 1;
      assert x == (2 * m) as real * spacing / 2.0 + (stop - m) as real * spacing;
      assert x == spacing * stop as real;
    }
  }

  /** At rest at `position`, the slot that took the winner's colour, when it
      is still in the window, shows the winner and its world position is
      `centre`. `k` is the crossing count, `shift` how many places the window
      has moved since it was last laid out. */
  ghost predicate WinnerCentred(s: seq<Slot>, k: int, shift: int, stop: int, spacing: real,
                                winner: nat, position: real, centre: real)
  {
    var c := WinnerCrossing(stop, |s|);
    1 <= c <= k < c + |s| ==>
      && s[|s| - 1 - (k - c)].tint == ItemTint(winner)
      && position + s[|s| - 1 - (k - c)].x == centre + (shift - k) as real * spacing
  }

  /** A window that has held the winner and kept its layout through every
      crossing shows the winner on the centre line once the strip rests at the
      end position. */
  lemma SettledWinner(s: seq<Slot>, k: int, shift: int, stop: int, spacing: real,
                      offset: bool, jitter: real, winner: nat)
    requires |s| >= 1 && spacing > 0.0
    requires offset ==> Abs(jitter) <= spacing / 2.0
    requires LaidOutFrom(s, shift, spacing)
    requires WinnerHeld(s, k, WinnerCrossing(stop, |s|), winner)
    ensures WinnerCentred(s, k, shift, stop, spacing, winner,
                          EndPosition(stop, |s|, spacing, offset, jitter), -(if offset then jitter else 0.0))
  {
    var n := |s|;
    var c := WinnerCrossing(stop, n);
    if 1 <= c <= k < c + n {
      var idx := n - 1 - (k - c);
      WinnerLandsCentred(stop, n, spacing, offset, jitter, k);
      LaidOutAt(s, shift, spacing, idx);
      var a, b := (shift + idx) as real * spacing, (k + idx) as real * spacing;
      assert a == b + (shift - k) as real * spacing;
    }
  }

  /** A sweep that carries the strip from zero to its end position in one
      direction recycles once per whole spacing of the distance, leaving the
      last recycle point on the last whole spacing, and then once more if the
      closing check is due. For every stop whose winner crossing is a real
      crossing, that total lies in the window of crossings that keep the
      winner's slot on screen, so the resting reel shows it. */
  lemma SweepShowsWinner(stop: int, n: int, spacing: real, offset: bool, jitter: real)
    requires n >= 3 && spacing > 0.0
    requires offset ==> Abs(jitter) <= spacing / 2.0
    requires WinnerCrossing(stop, n) >= 1
    ensures EndPosition(stop, n, spacing, offset, jitter) < 0.0
    ensures var e := EndPosition(stop, n, spacing, offset, jitter);
            var k := Crossings(e, spacing);
            var total := k + (if FinalShiftDue(e, -(k as real * spacing), spacing) then 1 else 0);
            WinnerCrossing(stop, n) <= total < WinnerCrossing(stop, n) + n
  {
    var e := EndPosition(stop, n, spacing, offset, jitter);
    EndNearStop(stop, n, spacing, offset, jitter);
    CountNearStop(e, stop, spacing);
    assert n - n / 2 >= 2;
  }

  /** For a stop of at least two, the end position is negative and its
      distance from zero is within one spacing of `stop` spacings, short of
      `stop + 1` of them. */
  lemma EndNearStop(stop: int, n: int, spacing: real, offset: bool, jitter: real)
    requires spacing > 0.0 && stop >= 2
    requires offset ==> Abs(jitter) <= spacing / 2.0
    ensures var e := EndPosition(stop, n, spacing, offset, jitter);
            e < 0.0 && (stop - 1) as real * spacing <= -e < (stop + 1) as real * spacing
  {
    var j := if offset then jitter else 0.0;
    var c := EvenCorrection(n, spacing);
    var p := spacing * stop as real;
    var d := p - c + j;
    assert -spacing / 2.0 <= j <= spacing / 2.0;
    assert 0.0 <= c <= spacing / 2.0;
    MulMonotone(2.0, stop as real, spacing);
    assert p >= 2.0 * spacing;
    var below, above := (stop - 1) as real, (stop + 1) as real;
    assert below * spacing == p - spacing;
    assert above * spacing == p + spacing;
    assert EndPosition(stop, n, spacing, offset, jitter) == -d;
    assert p - spacing <= d < p + spacing;
    WithinOneWidth(d, p, spacing, below * spacing, above * spacing);
  }

  /** The linear step of `EndNearStop`, with the products named. */
  lemma WithinOneWidth(d: real, p: real, spacing: real, lo: real, hi: real)
    requires p >= 2.0 * spacing && spacing > 0.0 && p - spacing <= d < p + spacing
    requires lo == p - spacing && hi == p + spacing
    ensures 0.0 < d && lo <= d < hi
  {
  }

  /** A distance within one spacing of `stop` spacings, short of `stop + 1`,
      counts `stop - 1` or `stop` whole spacings. */
  lemma CountNearStop(e: real, stop: int, spacing: real)
    requires spacing > 0.0
    requires (stop - 1) as real * spacing <= Abs(e) < (stop + 1) as real * spacing
    ensures stop - 1 <= Crossings(e, spacing) <= stop
  {
    var k := Crossings(e, spacing);
    MulCancel((stop - 1) as real, (k + 1) as real, spacing, Abs(e));
    MulCancel(k as real, (stop + 1) as real, spacing, Abs(e));
  }

  /** Five slots ten apart, stop ten, no jitter: the strip ends at -100 after
      ten crossings with no closing recycle, and the winner, brought in on
      crossing eight, rests in the middle slot exactly on the centre line. */
  lemma OddWindowExample()
    ensures EndPosition(10, 5, 10.0, false, 0.0) == -100.0
    ensures Crossings(-100.0, 10.0) == 10
    ensures !FinalShiftDue(-100.0, -100.0, 10.0)
    ensures WinnerCrossing(10, 5) == 8
    ensures 5 - 1 - (10 - WinnerCrossing(10, 5)) == 2
    ensures -100.0 + SlotX(10 + 2, 5, 10.0) == 0.0
  {
    CrossingsUnique(-100.0, 10.0, 10);
  }

  /** Four slots ten apart, stop ten, no jitter: the even window pulls the
      stop back half a slot to -95, nine crossings and no closing recycle,
      and the winner again rests on the centre line. */
  lemma EvenWindowExample()
    ensures EndPosition(10, 4, 10.0, false, 0.0) == -95.0
    ensures Crossings(-95.0, 10.0) == 9
    ensures !FinalShiftDue(-95.0, -90.0, 10.0)
    ensures WinnerCrossing(10, 4) == 8
    ensures 4 - 1 - (9 - WinnerCrossing(10, 4)) == 2
    ensures -95.0 + SlotX(9 + 2, 4, 10.0) == 0.0
  {
    CrossingsUnique(-95.0, 10.0, 9);
  }
}
