/** Positions in an endless stream and the slots of a ring that hold them. */
module Rings {

  // p modulo size, by taking whole turns away.
  function Slot(p: nat, size: nat): (i: nat)
    requires size > 0
    ensures i < size
    decreases p
  {
    if p < size then p else Slot(p - size, size)
  }

  // What the code does to an index.
  function Plus(i: nat, k: nat, size: nat): (r: nat)
    requires size > 0
    ensures r < size
  {
    (i + k) % size
  }

  // How far it is from one slot to another.
  function Distance(i: nat, j: nat, size: nat): (d: nat)
    requires i < size
    ensures d < size
  {
    (size + j - i) % size
  }

  lemma OneTurn(r: nat, size: nat)
    requires r < 2 * size
    ensures r % size == if r < size then r else r - size
  {
  }

  /** Advancing a slot advances the position. */
  lemma {:induction false} SlotPlus(p: nat, k: nat, size: nat)
    requires size > 0 && k <= size
    ensures Plus(Slot(p, size), k, size) == Slot(p + k, size)
    decreases p
  {
    if p >= size { SlotPlus(p - size, k, size); } else { OneTurn(p + k, size); }
  }

  /** Positions less than a whole ring apart have their own slots. */
  lemma {:induction false} SlotsDiffer(p: nat, q: nat, size: nat)
    requires p < q < p + size
    ensures Slot(p, size) != Slot(q, size)
    decreases p
  {
    if p >= size { SlotsDiffer(p - size, q - size, size); }
  }

  /** The distance between two slots tells the distance of the positions. */
  lemma {:induction false} SlotDistance(p: nat, q: nat, size: nat)
    requires p <= q < p + size
    ensures Distance(Slot(p, size), Slot(q, size), size) == q - p
    decreases p
  {
    if p >= size { SlotDistance(p - size, q - size, size); } else { OneTurn(size + Slot(q, size) - p, size); }
  }

  /** Head and tail meet exactly when the positions do. */
  lemma MeetIff(p: nat, q: nat, size: nat)
    requires p <= q < p + size
    ensures Slot(p, size) == Slot(q, size) <==> p == q
  {
    if p < q { SlotsDiffer(p, q, size); }
  }

  /** Every slot holds one of any size consecutive positions. */
  lemma SlotCovers(p: nat, i: nat, size: nat)
    requires i < size
    ensures Slot(p + Distance(Slot(p, size), i, size), size) == i
  {
    var s := Slot(p, size);
    OneTurn(size + i - s, size);
    var k := if i < s then size + i - s else i - s;
    SlotPlus(p, k, size);
    OneTurn(s + k, size);
  }
}
