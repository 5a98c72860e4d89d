/**
 * The carousel's index and offset arithmetic (src/components/RoomCarousel.tsx).
 * Pixel quantities are reals; the viewport measurement that produces a card
 * width is an input, not part of the model.
 */
module RoomCarousel {
  import opened Wrappers
  import RoomCatalog

  /** Horizontal gap between two cards, in pixels (`gap-12`). */
  const GAP: real := 48.0
  /** Flick speed, in pixels per second, above which a drag moves one card. */
  const VELOCITY_THRESHOLD: real := 300.0

  function Max(a: int, b: int): int { if a >= b then a else b }
  function MaxReal(a: real, b: real): real { if a >= b then a else b }
  function MinReal(a: real, b: real): real { if a <= b then a else b }
  function AbsReal(a: real): real { if a >= 0.0 then a else -a }

  /** The index `snapTo` settles on: `Math.max(0, Math.min(idx, len - 1))`. */
  function BoundedIndex(idx: int, len: nat): (b: int)
    ensures 0 <= b <= Max(len - 1, 0)
    ensures len == 0 ==> b == 0
    ensures 0 <= idx < len ==> b == idx
    ensures idx < 0 ==> b == 0
    ensures len > 0 && idx >= len ==> b == len - 1
  {
    Max(0, RoomCatalog.Min(idx, len - 1))
  }

  /** Clamping an index that is already clamped changes nothing. */
  lemma BoundedIndexIdempotent(idx: int, len: nat)
    ensures BoundedIndex(BoundedIndex(idx, len), len) == BoundedIndex(idx, len)
  {
  }

  /**
   * The index the single-room view shows once it knows the list is not empty:
   * `Math.min(Math.max(activeIndex, 0), len - 1)`.
   */
  function SingleModeIndex(activeIndex: int, len: nat): (b: int)
    requires len > 0
    ensures 0 <= b < len
    ensures 0 <= activeIndex < len ==> b == activeIndex
  {
    RoomCatalog.Min(Max(activeIndex, 0), len - 1)
  }

  /** On a non-empty list the single view and `snapTo` clamp, in opposite orders, to the same index. */
  lemma SingleModeAgreesWithSnap(activeIndex: int, len: nat)
    requires len > 0
    ensures SingleModeIndex(activeIndex, len) == BoundedIndex(activeIndex, len)
  {
  }

  /** The track offset that centres card `index`: `-index * cardFull + centerOffset`. */
  function SnapOffset(index: int, cardFull: real, centerOffset: real): real
  {
    -(index as real) * cardFull + centerOffset
  }

  /** How far the track may be dragged left: `Math.max(0, cardFull * (len - 1))`. */
  function MaxDrag(cardFull: real, len: nat): (m: real)
    ensures m >= 0.0
    ensures m >= cardFull * ((len - 1) as real)
    ensures m == 0.0 || m == cardFull * ((len - 1) as real)
    ensures cardFull >= 0.0 && len >= 1 ==> m == cardFull * ((len - 1) as real)
  {
    MaxReal(0.0, cardFull * ((len - 1) as real))
  }

  /** The left edge of the drag range is exactly the snap offset of the last card. */
  lemma MaxDragReachesLastCard(cardFull: real, centerOffset: real, len: nat)
    requires cardFull > 0.0 && len >= 1
    ensures centerOffset - MaxDrag(cardFull, len) == SnapOffset(len - 1, cardFull, centerOffset)
  {
  }

  /** A drag ends with a leftward signal: a fast flick left or a pull past a quarter card. */
  predicate Leftward(velocity: real, offset: real, cardFull: real)
  {
    velocity < -VELOCITY_THRESHOLD || offset < -cardFull / 4.0
  }

  /** A drag ends with a rightward signal: a fast flick right or a push past a quarter card. */
  predicate Rightward(velocity: real, offset: real, cardFull: real)
  {
    velocity > VELOCITY_THRESHOLD || offset > cardFull / 4.0
  }

  /**
   * The net step a drag end asks for. Leftward moves to the next card,
   * rightward to the previous one, and the two together cancel.
   */
  function DragDelta(velocity: real, offset: real, cardFull: real): (d: int)
    ensures -1 <= d <= 1
    ensures d == 1 <==> Leftward(velocity, offset, cardFull) && !Rightward(velocity, offset, cardFull)
    ensures d == -1 <==> Rightward(velocity, offset, cardFull) && !Leftward(velocity, offset, cardFull)
    ensures d == 0 <==> (Leftward(velocity, offset, cardFull) <==> Rightward(velocity, offset, cardFull))
  {
    (if Leftward(velocity, offset, cardFull) then 1 else 0)
      - (if Rightward(velocity, offset, cardFull) then 1 else 0)
  }

  /**
   * The requested index at the end of a drag, computed as `handleDragEnd`
   * does: start at the active index, add one for a leftward signal, then
   * subtract one for a rightward signal.
   */
  method NextAfterDrag(activeIndex: int, velocity: real, offset: real, cardFull: real) returns (next: int)
    ensures next == activeIndex + DragDelta(velocity, offset, cardFull)
    ensures activeIndex - 1 <= next <= activeIndex + 1
  {
    next := activeIndex;
    if velocity < -VELOCITY_THRESHOLD || offset < -cardFull / 4.0 {
      next := next + 1;
    }
    if velocity > VELOCITY_THRESHOLD || offset > cardFull / 4.0 {
      next := next - 1;
    }
  }

  /** A quiet drag (slow and within a quarter card either way) requests no move. */
  lemma QuietDragStays(velocity: real, offset: real, cardFull: real)
    requires cardFull > 0.0
    requires AbsReal(velocity) <= VELOCITY_THRESHOLD && AbsReal(offset) <= cardFull / 4.0
    ensures DragDelta(velocity, offset, cardFull) == 0
  {
  }

  /** Pulling 100 px left on 300 px cards, with no flick, moves to the next card. */
  lemma DragExampleOffset()
    ensures DragDelta(0.0, -100.0, 300.0) == 1
  {
  }

  /** A rightward flick of 400 px/s with no displacement moves to the previous card. */
  lemma DragExampleVelocity()
    ensures DragDelta(400.0, 0.0, 300.0) == -1
  {
  }

  /** From a valid index, the index a drag end settles on is at most one card away. */
  lemma DragEndMovesAtMostOne(activeIndex: int, velocity: real, offset: real, cardFull: real, len: nat)
    requires 0 <= activeIndex < len
    ensures -1 <= BoundedIndex(activeIndex + DragDelta(velocity, offset, cardFull), len) - activeIndex <= 1
  {
  }

  /** The wheel's new live offset, `x - deltaY` clamped into `[centerOffset - maxDrag, centerOffset]`. */
  function WheelClamp(x: real, deltaY: real, centerOffset: real, maxDrag: real): (newX: real)
    ensures newX >= centerOffset - maxDrag
    ensures maxDrag >= 0.0 ==> newX <= centerOffset
    ensures centerOffset - maxDrag <= x - deltaY <= centerOffset ==> newX == x - deltaY
    ensures x - deltaY > centerOffset && maxDrag >= 0.0 ==> newX == centerOffset
    ensures x - deltaY < centerOffset - maxDrag ==> newX == centerOffset - maxDrag
  {
    MaxReal(-maxDrag + centerOffset, MinReal(centerOffset, x - deltaY))
  }

  /** JavaScript's `Math.round`: the nearest integer, halves rounding up. */
  function Round(r: real): (n: int)
    ensures r - 0.5 < n as real <= r + 0.5
  {
    (r + 0.5).Floor
  }

  /** Rounding an integer gives it back. */
  lemma RoundOfInt(n: int)
    ensures Round(n as real) == n
  {
  }

  /** The card nearest to live offset x, `Math.round(|x - centerOffset| / cardFull)`. */
  function WheelIndex(x: real, centerOffset: real, cardFull: real): (i: int)
    requires cardFull > 0.0
    ensures i >= 0
  {
    Round(AbsReal(x - centerOffset) / cardFull)
  }

  /** Resolving the snap offset of card i gives i back. */
  lemma WheelIndexOfSnap(i: nat, cardFull: real, centerOffset: real)
    requires cardFull > 0.0
    ensures WheelIndex(SnapOffset(i, cardFull, centerOffset), centerOffset, cardFull) == i
  {
    var d := SnapOffset(i, cardFull, centerOffset) - centerOffset;
    assert d == -(i as real) * cardFull;
    assert AbsReal(d) == (i as real) * cardFull;
    assert AbsReal(d) / cardFull == i as real;
    RoundOfInt(i);
  }

  /** Every offset inside the wheel's clamp range resolves to a card that exists (or to 0). */
  lemma WheelIndexInRange(x: real, centerOffset: real, cardFull: real, len: nat)
    requires cardFull > 0.0
    requires centerOffset - MaxDrag(cardFull, len) <= x <= centerOffset
    ensures WheelIndex(x, centerOffset, cardFull) <= Max(len - 1, 0)
  {
    var d := centerOffset - x;
    assert AbsReal(x - centerOffset) == d;
    if len == 0 {
      assert d == 0.0;
    } else {
      var k := (len - 1) as real;
      assert d <= cardFull * k;
      assert d / cardFull <= k by {
        assert d / cardFull * cardFull == d;
      }
    }
  }

  /** The visual state of one card. */
  datatype CardStyle = CardStyle(scale: real, opacity: real, blurPx: nat, zIndex: int)

  /** `cardStyle(i)`: the active card is full size, opaque, sharp and on top. */
  function CardStyleOf(i: int, activeIndex: int, isRoomsMode: bool): (s: CardStyle)
    ensures i == activeIndex ==> s == CardStyle(1.0, 1.0, 0, 2)
    ensures i != activeIndex ==> s.scale == 0.96 && s.opacity == 0.5 && s.zIndex == 1
    ensures s.blurPx > 0 <==> isRoomsMode && i != activeIndex
    ensures s.blurPx > 0 ==> s.blurPx == 8
  {
    var isActive := i == activeIndex;
    CardStyle(
      if isActive then 1.0 else 0.96,
      if isActive then 1.0 else 0.5,
      if isRoomsMode then (if isActive then 0 else 8) else 0,
      if isActive then 2 else 1)
  }

  /** The active card is stacked above, and drawn at least as large as, every other card. */
  lemma ActiveCardOnTop(i: int, activeIndex: int, isRoomsMode: bool)
    requires i != activeIndex
    ensures CardStyleOf(i, activeIndex, isRoomsMode).zIndex < CardStyleOf(activeIndex, activeIndex, isRoomsMode).zIndex
    ensures CardStyleOf(i, activeIndex, isRoomsMode).scale < CardStyleOf(activeIndex, activeIndex, isRoomsMode).scale
  {
  }

  /** Whether the track can be dragged: `rooms.length > 1`. */
  function DragEnabled(len: nat): (b: bool)
    // Dragging is on exactly when there are two distinct cards to snap to.
    ensures b <==> BoundedIndex(0, len) != BoundedIndex(len - 1, len)
  {
    len > 1
  }

  /** Whether the add-room slot offers a button: `getNextAvailableRoom(rooms) !== null`. */
  function CanAddMore(rooms: seq<string>): (b: bool)
    ensures b <==> |rooms| < |RoomCatalog.RoomImages()|
  {
    RoomCatalog.NextAvailableRoom(rooms) != None
  }

  /**
   * The carousel's own measured state and live track position. The room
   * list, the active index and the mode are the parent's and are passed in.
   */
  class Carousel {
    /** Width of one card plus the gap. */
    var cardFull: real
    /** Track offset that centres the first card. */
    var centerOffset: real
    /** How far left of `centerOffset` the track may go. */
    var maxDrag: real
    /** The live track offset (the `x` motion value). */
    var x: real
    /** The offset the track animation is heading to. */
    var target: real
    /** The offset captured by the pending wheel timer, if one is pending. */
    var pendingX: Option<real>

    ghost predicate Valid()
      reads this
    {
      cardFull >= 0.0 && maxDrag >= 0.0 && (pendingX.Some? ==> cardFull > 0.0)
    }

    /** The state before the first measurement: every number is 0. */
    constructor ()
      ensures Valid()
      ensures cardFull == 0.0 && centerOffset == 0.0 && maxDrag == 0.0
      ensures x == 0.0 && target == 0.0 && pendingX == None
    {
      cardFull, centerOffset, maxDrag := 0.0, 0.0, 0.0;
      x, target, pendingX := 0.0, 0.0, None;
    }

    /**
     * `recalc`: measure from a card width and, when the wrapper element is
     * mounted, its client width; then jump the track to the active card.
     */
    method Recalc(cardW: real, wrapperWidth: Option<real>, len: nat, activeIndex: int)
      requires Valid()
      requires cardW >= 0.0
      modifies this
      ensures Valid()
      ensures cardFull == cardW + GAP && cardFull > 0.0
      ensures pendingX == old(pendingX)
      ensures wrapperWidth.None? ==>
        centerOffset == old(centerOffset) && maxDrag == old(maxDrag) && x == old(x) && target == old(target)
      ensures wrapperWidth.Some? ==>
        && centerOffset == (wrapperWidth.value - cardW) / 2.0
        && maxDrag == MaxDrag(cardFull, len)
        && x == target == SnapOffset(activeIndex, cardFull, centerOffset)
    {
      cardFull := cardW + GAP;
      if wrapperWidth.Some? {
        var center := (wrapperWidth.value - cardW) / 2.0;
        centerOffset := center;
        maxDrag := MaxDrag(cardW + GAP, len);
        target := SnapOffset(activeIndex, cardW + GAP, center);
        x := SnapOffset(activeIndex, cardW + GAP, center);
      }
    }

    /** `snapTo`: clamp the requested index and start the track towards that card. */
    method SnapTo(idx: int, len: nat) returns (bounded: int)
      requires Valid()
      modifies this
      ensures Valid()
      ensures bounded == BoundedIndex(idx, len)
      ensures 0 <= bounded <= Max(len - 1, 0)
      ensures target == SnapOffset(bounded, cardFull, centerOffset)
      ensures cardFull == old(cardFull) && centerOffset == old(centerOffset) && maxDrag == old(maxDrag)
      ensures x == old(x) && pendingX == old(pendingX)
    {
      bounded := Max(0, RoomCatalog.Min(idx, len - 1));
      target := -(bounded as real) * cardFull + centerOffset;
    }

    /** `handleDragEnd`: step by at most one card, then snap. Returns the new active index. */
    method HandleDragEnd(velocity: real, offset: real, activeIndex: int, len: nat) returns (bounded: int)
      requires Valid()
      modifies this
      ensures Valid()
      ensures bounded == BoundedIndex(activeIndex + DragDelta(velocity, offset, cardFull), len)
      ensures target == SnapOffset(bounded, cardFull, centerOffset)
      ensures cardFull == old(cardFull) && centerOffset == old(centerOffset) && maxDrag == old(maxDrag)
      ensures x == old(x) && pendingX == old(pendingX)
    {
      var next := NextAfterDrag(activeIndex, velocity, offset, cardFull);
      bounded := SnapTo(next, len);
    }

    /**
     * `handleWheel`: outside rooms mode nothing happens; otherwise move the
     * live offset by `-deltaY` within the drag range and (re)arm the timer
     * with the new offset, replacing any pending one.
     */
    method HandleWheel(deltaY: real, isRoomsMode: bool)
      requires Valid()
      requires isRoomsMode ==> cardFull > 0.0
      modifies this
      ensures Valid()
      ensures !isRoomsMode ==> x == old(x) && pendingX == old(pendingX)
      ensures isRoomsMode ==> x == WheelClamp(old(x), deltaY, centerOffset, maxDrag) && pendingX == Some(x)
      ensures isRoomsMode ==> centerOffset - maxDrag <= x <= centerOffset
      ensures cardFull == old(cardFull) && centerOffset == old(centerOffset) && maxDrag == old(maxDrag)
      ensures target == old(target)
    {
      if !isRoomsMode {
        return;
      }
      var newX := MaxReal(-maxDrag + centerOffset, MinReal(centerOffset, x - deltaY));
      x := newX;
      pendingX := Some(newX);
    }

    /** The wheel timer fires: snap to the card nearest the captured offset. */
    method FireWheelTimer(len: nat) returns (bounded: int)
      requires Valid()
      requires pendingX.Some?
      modifies this
      ensures Valid()
      ensures cardFull == old(cardFull) > 0.0
      ensures bounded == BoundedIndex(WheelIndex(old(pendingX).value, centerOffset, cardFull), len)
      ensures target == SnapOffset(bounded, cardFull, centerOffset)
      ensures pendingX == None
      ensures cardFull == old(cardFull) && centerOffset == old(centerOffset) && maxDrag == old(maxDrag)
      ensures x == old(x)
    {
      var newX := pendingX.value;
      pendingX := None;
      bounded := SnapTo(Round(AbsReal(newX - centerOffset) / cardFull), len);
    }
  }
}
