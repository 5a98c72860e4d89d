/**
 * The session that owns the room list, the active index and the mode, and
 * wires the carousel's callbacks to them (src/components/RoomVisualizer.tsx).
 */
module RoomVisualizer {
  import opened Wrappers
  import opened RoomCatalog
  import opened RoomCarousel

  /** The three pieces of session state, as a value. */
  datatype Session = Session(isRoomsMode: bool, activeIndex: int, roomList: seq<string>)

  /** The session invariant: the list is a catalog prefix and the index points into it (or is 0). */
  predicate SessionValid(s: Session)
  {
    IsCatalogPrefix(s.roomList) && 0 <= s.activeIndex < Max(|s.roomList|, 1)
  }

  /** The state before the mount effect: single-room mode, index 0, no rooms. */
  function InitialSession(): (s: Session)
    ensures SessionValid(s)
    ensures !s.isRoomsMode && s.activeIndex == 0 && s.roomList == []
  {
    Session(false, 0, [])
  }

  /** The mount effect: the room list becomes the initial rooms. */
  function Mounted(s: Session): (r: Session)
    ensures r.roomList == InitialRooms() && |r.roomList| == 2
    ensures r.activeIndex == s.activeIndex && r.isRoomsMode == s.isRoomsMode
  {
    s.(roomList := InitialRooms())
  }

  /** Mounting the fresh session gives a valid session showing the first room. */
  lemma MountedValid(s: Session)
    requires SessionValid(s) && s.roomList == []
    ensures SessionValid(Mounted(s))
    ensures Mounted(s).activeIndex == 0
  {
  }

  /**
   * `addRoom`: append the next catalog entry and focus it, or, when the
   * catalog is used up, leave the session as it was.
   */
  function AddedRoom(s: Session): (r: Session)
    ensures NextAvailableRoom(s.roomList).None? ==> r == s
    ensures NextAvailableRoom(s.roomList).Some? ==>
      && r.roomList == s.roomList + [RoomImages()[|s.roomList|]]
      && r.activeIndex == |s.roomList| == |r.roomList| - 1
      && r.isRoomsMode == s.isRoomsMode
  {
    match NextAvailableRoom(s.roomList)
    case None => s
    case Some(nextRoom) => s.(roomList := s.roomList + [nextRoom], activeIndex := |s.roomList|)
  }

  /** Adding a room keeps the session invariant, whether or not a room was added. */
  lemma AddRoomPreservesValid(s: Session)
    requires SessionValid(s)
    ensures SessionValid(AddedRoom(s))
  {
    if NextAvailableRoom(s.roomList).Some? {
      NextExtendsPrefix(s.roomList);
    }
  }

  /** `addRoom` called n times in a row. */
  function AddRoomTimes(s: Session, n: nat): Session
  {
    if n == 0 then s else AddedRoom(AddRoomTimes(s, n - 1))
  }

  /** From a valid session, n adds that fit in the catalog list its first |roomList| + n entries. */
  lemma {:induction false} AddRoomTimesPrefix(s: Session, n: nat)
    requires SessionValid(s)
    requires |s.roomList| + n <= |RoomImages()|
    ensures SessionValid(AddRoomTimes(s, n))
    ensures AddRoomTimes(s, n).roomList == RoomImages()[..|s.roomList| + n]
    ensures n > 0 ==> AddRoomTimes(s, n).activeIndex == |s.roomList| + n - 1
    ensures AddRoomTimes(s, n).isRoomsMode == s.isRoomsMode
  {
    if n > 0 {
      AddRoomTimesPrefix(s, n - 1);
      var p := AddRoomTimes(s, n - 1);
      assert |p.roomList| == |s.roomList| + n - 1;
      AddRoomPreservesValid(p);
      NextExtendsPrefix(p.roomList);
    }
  }

  /**
   * From the mounted session, the first nine adds each find a room, the tenth
   * does not and changes nothing, and the list is then the whole catalog.
   */
  lemma ExhaustCatalog()
    ensures forall k :: 0 <= k < 9 ==> NextAvailableRoom(AddRoomTimes(Mounted(InitialSession()), k).roomList).Some?
    ensures NextAvailableRoom(AddRoomTimes(Mounted(InitialSession()), 9).roomList).None?
    ensures AddRoomTimes(Mounted(InitialSession()), 10) == AddRoomTimes(Mounted(InitialSession()), 9)
    ensures AddRoomTimes(Mounted(InitialSession()), 9).roomList == RoomImages()
    ensures AddRoomTimes(Mounted(InitialSession()), 9).activeIndex == 10
  {
    var s0 := Mounted(InitialSession());
    MountedValid(InitialSession());
    forall k | 0 <= k < 9
      ensures NextAvailableRoom(AddRoomTimes(s0, k).roomList).Some?
    {
      AddRoomTimesPrefix(s0, k);
    }
    AddRoomTimesPrefix(s0, 9);
  }

  /** A product of n > 0 that lies strictly between -n and n has a zero factor. */
  lemma MulBetween(t: int, n: int)
    requires n > 0 && -n < t * n < n
    ensures t == 0
  {
  }

  /** Quotient and remainder are the only pair that writes a as q * n + r with 0 <= r < n. */
  lemma ModUnique(a: int, n: int, q: int, r: int)
    requires n > 0 && 0 <= r < n && a == q * n + r
    ensures a % n == r
  {
    var q0, r0 := a / n, a % n;
    assert a == q0 * n + r0;
    assert (q - q0) * n == r0 - r;
    MulBetween(q - q0, n);
  }

  /** JavaScript's `%` on a positive divisor: the remainder takes the sign of the dividend. */
  function JsRem(a: int, n: int): (r: int)
    requires n > 0
    ensures a >= 0 ==> 0 <= r < n && r == a % n
    ensures a < 0 ==> -n < r <= 0 && (a - r) % n == 0
  {
    if a >= 0 then a % n
    else
      var m := (-a) % n;
      assert -a == ((-a) / n) * n + m;
      ModUnique(a + m, n, -((-a) / n), 0);
      -m
  }

  /** `onChangeRoom`: move to the following room, wrapping from the last to the first. */
  function ChangedRoom(s: Session): (r: Session)
    requires |s.roomList| > 0
    ensures r.roomList == s.roomList && r.isRoomsMode == s.isRoomsMode
    ensures 0 <= s.activeIndex < |s.roomList| - 1 ==> r.activeIndex == s.activeIndex + 1
    ensures s.activeIndex == |s.roomList| - 1 ==> r.activeIndex == 0
  {
    s.(activeIndex := JsRem(s.activeIndex + 1, |s.roomList|))
  }

  /** Changing room keeps the session invariant. */
  lemma ChangeRoomPreservesValid(s: Session)
    requires SessionValid(s) && |s.roomList| > 0
    ensures SessionValid(ChangedRoom(s))
  {
  }

  /** `onChangeRoom` called k times in a row. */
  function ChangeRoomTimes(s: Session, k: nat): (r: Session)
    requires |s.roomList| > 0
    ensures r.roomList == s.roomList && r.isRoomsMode == s.isRoomsMode
  {
    if k == 0 then s else ChangedRoom(ChangeRoomTimes(s, k - 1))
  }

  /** After k changes the index has advanced k places around the list. */
  lemma {:induction false} ChangeRoomTimesAdvances(s: Session, k: nat)
    requires SessionValid(s) && |s.roomList| > 0
    ensures ChangeRoomTimes(s, k).activeIndex == (s.activeIndex + k) % |s.roomList|
    ensures SessionValid(ChangeRoomTimes(s, k))
  {
    if k > 0 {
      ChangeRoomTimesAdvances(s, k - 1);
      var n := |s.roomList|;
      var i := ChangeRoomTimes(s, k - 1).activeIndex;
      assert i == (s.activeIndex + k - 1) % n;
      ModSucc(s.activeIndex + k - 1, n);
    }
  }

  /** Advancing the remainder by one is the remainder of the successor. */
  lemma ModSucc(a: nat, n: nat)
    requires n > 0
    ensures (a % n + 1) % n == (a + 1) % n
  {
    var q := a / n;
    assert a == q * n + a % n;
    if a % n + 1 == n {
      ModUnique(a + 1, n, q + 1, 0);
      ModUnique(a % n + 1, n, 1, 0);
    } else {
      ModUnique(a + 1, n, q, a % n + 1);
      ModUnique(a % n + 1, n, 0, a % n + 1);
    }
  }

  /** Changing room as many times as there are rooms comes back to the starting room. */
  lemma ChangeRoomCycles(s: Session)
    requires SessionValid(s) && |s.roomList| > 0
    ensures ChangeRoomTimes(s, |s.roomList|) == s
  {
    ChangeRoomTimesAdvances(s, |s.roomList|);
    var n := |s.roomList|;
    ModUnique(s.activeIndex + n, n, 1, s.activeIndex);
  }

  /** `onToggleRoomsMode`: flip the mode and nothing else. */
  function Toggled(s: Session): (r: Session)
    ensures r.isRoomsMode == !s.isRoomsMode
    ensures r.activeIndex == s.activeIndex && r.roomList == s.roomList
  {
    s.(isRoomsMode := !s.isRoomsMode)
  }

  /** Toggling twice restores the session. */
  lemma ToggleTwice(s: Session)
    ensures Toggled(Toggled(s)) == s
  {
  }

  /** The carousel's `setActiveIndex` callback, given a requested index that `snapTo` clamps. */
  function Snapped(s: Session, idx: int): (r: Session)
    ensures r.roomList == s.roomList && r.isRoomsMode == s.isRoomsMode
    ensures 0 <= idx < |s.roomList| ==> r.activeIndex == idx
  {
    s.(activeIndex := BoundedIndex(idx, |s.roomList|))
  }

  /** Whatever index the carousel asks for, the session invariant survives the snap. */
  lemma SnappedPreservesValid(s: Session, idx: int)
    requires SessionValid(s)
    ensures SessionValid(Snapped(s, idx))
  {
  }

  /** The result of the add-room action: added, or refused because the catalog is used up. */
  datatype AddOutcome = Added | NoMoreRooms

  /** The session component, with its state in mutable fields and the carousel it renders. */
  class Visualizer {
    var isRoomsMode: bool
    var activeIndex: int
    var roomList: seq<string>
    const carousel: Carousel

    ghost function State(): Session
      reads this
    {
      Session(isRoomsMode, activeIndex, roomList)
    }

    ghost predicate Valid()
      reads this, carousel
    {
      SessionValid(State()) && carousel.Valid()
    }

    /** The `useState` initial values, before the mount effect. */
    constructor ()
      ensures Valid() && fresh(carousel)
      ensures State() == InitialSession()
    {
      isRoomsMode, activeIndex, roomList := false, 0, [];
      carousel := new Carousel();
    }

    /** The mount effect; it runs once, on the fresh state whose list is still empty. */
    method Mount()
      requires Valid() && roomList == []
      modifies this
      ensures Valid()
      ensures State() == Mounted(old(State()))
    {
      roomList := InitialRooms();
      MountedValid(old(State()));
    }

    /** `addRoom`; NoMoreRooms stands for the alert and leaves the state alone. */
    method AddRoom() returns (outcome: AddOutcome)
      requires Valid()
      modifies this
      ensures Valid()
      ensures outcome == NoMoreRooms <==> NextAvailableRoom(old(roomList)).None?
      ensures State() == AddedRoom(old(State()))
    {
      AddRoomPreservesValid(State());
      var nextRoom := NextAvailableRoom(roomList);
      if nextRoom.None? {
        return NoMoreRooms;
      }
      var oldLength := |roomList|;
      roomList := roomList + [nextRoom.value];
      activeIndex := oldLength;
      outcome := Added;
    }

    /** `onChangeRoom`. */
    method ChangeRoom()
      requires Valid() && |roomList| > 0
      modifies this
      ensures Valid()
      ensures State() == ChangedRoom(old(State()))
    {
      ChangeRoomPreservesValid(State());
      activeIndex := JsRem(activeIndex + 1, |roomList|);
    }

    /** `onToggleRoomsMode`. */
    method ToggleRoomsMode()
      requires Valid()
      modifies this
      ensures Valid()
      ensures State() == Toggled(old(State()))
    {
      isRoomsMode := !isRoomsMode;
    }

    /**
     * A measurement (mount, resize, or a change of mode, list length or index).
     * The wrapper element exists only when the rooms strip is rendered.
     */
    method Layout(cardW: real, wrapperWidth: real)
      requires Valid() && cardW >= 0.0
      modifies carousel
      ensures Valid() && State() == old(State())
      ensures carousel.cardFull == cardW + GAP
      ensures carousel.pendingX == old(carousel.pendingX)
      ensures isRoomsMode && |roomList| > 0 ==>
        && carousel.centerOffset == (wrapperWidth - cardW) / 2.0
        && carousel.maxDrag == MaxDrag(carousel.cardFull, |roomList|)
        && carousel.x == carousel.target == SnapOffset(activeIndex, carousel.cardFull, carousel.centerOffset)
      ensures !(isRoomsMode && |roomList| > 0) ==>
        && carousel.centerOffset == old(carousel.centerOffset) && carousel.maxDrag == old(carousel.maxDrag)
        && carousel.x == old(carousel.x) && carousel.target == old(carousel.target)
    {
      var wrapper := if isRoomsMode && |roomList| > 0 then Some(wrapperWidth) else None;
      carousel.Recalc(cardW, wrapper, |roomList|, activeIndex);
    }

    /** A drag ends; the track is draggable only in the rooms strip with two or more rooms. */
    method DragEnd(velocity: real, offset: real)
      requires Valid()
      modifies this, carousel
      ensures Valid()
      ensures carousel.cardFull == old(carousel.cardFull) && carousel.centerOffset == old(carousel.centerOffset)
      ensures carousel.maxDrag == old(carousel.maxDrag)
      ensures carousel.x == old(carousel.x) && carousel.pendingX == old(carousel.pendingX)
      ensures isRoomsMode && DragEnabled(|roomList|) ==>
        && State() == Snapped(old(State()), old(activeIndex) + DragDelta(velocity, offset, old(carousel.cardFull)))
        && carousel.target == SnapOffset(activeIndex, carousel.cardFull, carousel.centerOffset)
      ensures !(isRoomsMode && DragEnabled(|roomList|)) ==>
        State() == old(State()) && carousel.target == old(carousel.target)
      ensures -1 <= activeIndex - old(activeIndex) <= 1
    {
      if isRoomsMode && DragEnabled(|roomList|) {
        var bounded := carousel.HandleDragEnd(velocity, offset, activeIndex, |roomList|);
        SnappedPreservesValid(State(), activeIndex + DragDelta(velocity, offset, carousel.cardFull));
        activeIndex := bounded;
      }
    }

    /** A wheel event over the rooms strip, which is rendered only for a non-empty list. */
    method Wheel(deltaY: real)
      requires Valid()
      requires isRoomsMode && |roomList| > 0 ==> carousel.cardFull > 0.0
      modifies carousel
      ensures Valid() && State() == old(State())
      ensures carousel.cardFull == old(carousel.cardFull) && carousel.centerOffset == old(carousel.centerOffset)
      ensures carousel.maxDrag == old(carousel.maxDrag) && carousel.target == old(carousel.target)
      ensures isRoomsMode && |roomList| > 0 ==>
        && carousel.x == WheelClamp(old(carousel.x), deltaY, carousel.centerOffset, carousel.maxDrag)
        && carousel.pendingX == Some(carousel.x)
        && carousel.centerOffset - carousel.maxDrag <= carousel.x <= carousel.centerOffset
      ensures !(isRoomsMode && |roomList| > 0) ==>
        carousel.x == old(carousel.x) && carousel.pendingX == old(carousel.pendingX)
    {
      if |roomList| > 0 {
        carousel.HandleWheel(deltaY, isRoomsMode);
      }
    }

    /** The wheel timer fires and the carousel snaps to the nearest card. */
    method WheelTimer()
      requires Valid() && carousel.pendingX.Some?
      modifies this, carousel
      ensures Valid()
      ensures carousel.pendingX == None
      ensures carousel.cardFull == old(carousel.cardFull) > 0.0
      ensures carousel.centerOffset == old(carousel.centerOffset) && carousel.maxDrag == old(carousel.maxDrag)
      ensures carousel.x == old(carousel.x)
      ensures State() == Snapped(old(State()),
        WheelIndex(old(carousel.pendingX).value, old(carousel.centerOffset), old(carousel.cardFull)))
      ensures carousel.target == SnapOffset(activeIndex, carousel.cardFull, carousel.centerOffset)
    {
      ghost var idx := WheelIndex(carousel.pendingX.value, carousel.centerOffset, carousel.cardFull);
      var bounded := carousel.FireWheelTimer(|roomList|);
      SnappedPreservesValid(State(), idx);
      activeIndex := bounded;
    }
  }
}
