/** The display slots both reels recycle. A slot stands for one sprite object:
    its identity, the colour it currently shows and its local x-position. */
module Slots {

  /** What a slot shows: the prefab's own colour until an item's colour is
      applied. Items are identified by their index in the configured item list. */
  datatype Tint = PrefabTint | ItemTint(item: nat)

  datatype Slot = Slot(handle: nat, tint: Tint, x: real)

  /** The sprite identities of a run of slots, in order. */
  function Handles(s: seq<Slot>): (h: seq<nat>)
    ensures |h| == |s|
    ensures forall i :: 0 <= i < |s| ==> h[i] == s[i].handle
  {
    if s == [] then [] else [s[0].handle] + Handles(s[1..])
  }

  lemma {:induction false} HandlesAppend(a: seq<Slot>, b: seq<Slot>)
    ensures Handles(a + b) == Handles(a) + Handles(b)
  {
    assert |Handles(a + b)| == |Handles(a) + Handles(b)|;
    forall i | 0 <= i < |a + b|
      ensures Handles(a + b)[i] == (Handles(a) + Handles(b))[i]
    {
      if i < |a| {
        assert (a + b)[i] == a[i];
      } else {
        assert (a + b)[i] == b[i - |a|];
      }
    }
  }

  /** Every slot shows the colour of one of the `itemCount` configured items. */
  predicate ShowsItems(s: seq<Slot>, itemCount: nat) {
    forall i :: 0 <= i < |s| ==> s[i].tint.ItemTint? && s[i].tint.item < itemCount
  }

  /** All handles are below `bound`, so a handle numbered `bound` or more is new. */
  predicate HandlesBelow(s: seq<Slot>, bound: nat) {
    forall i :: 0 <= i < |s| ==> s[i].handle < bound
  }
}
