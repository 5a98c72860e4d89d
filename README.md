# Room carousel: a verified model of its index, offset and session logic

The application shows a fixed catalog of room photographs. In single-room mode
one room fills the screen. In rooms mode the rooms form a horizontal strip of
cards that can be dragged, scrolled with the wheel, and extended one catalog
room at a time. This project models the three parts of that program that hold
logic, and proves what they promise:

- **Room catalog** (`RoomCatalog`, room_catalog.dfy): the ordered list of 11
  image paths, the first-two-rooms selection, and the positional "next
  available room" lookup. It returns `None` (the source's `null`) once the
  catalog is used up. These are pure functions.
- **Carousel engine** (`RoomCarousel`, room_carousel.dfy): the pure
  formulas are the `snapTo` clamp, the single-view clamp, the snap offset,
  the drag range, the two-signal drag-end rule, the wheel clamp, the
  nearest-card rounding, the card style and the drag/add predicates. The
  class `Carousel` holds the measured state (`cardFull`, `centerOffset`,
  `maxDrag`), the live offset `x`, the animation target and the captured
  offset of a pending wheel timer. Its methods `Recalc`, `SnapTo`,
  `HandleDragEnd`, `HandleWheel` and `FireWheelTimer` update these fields.
  `NextAfterDrag` follows the step-by-step `let next` computation of the
  drag-end handler.
- **Session** (`RoomVisualizer`, room_visualizer.dfy): the value `Session`
  holds the mode, the active index and the room list. The functions
  `Mounted`, `AddedRoom`, `ChangedRoom`, `Toggled` and `Snapped` give the
  state after each transition, and the lemmas prove the session invariant
  and the end-to-end facts. The invariant says the list is a catalog prefix
  and the index points into it, or is 0 while the list is empty. The class
  `Visualizer` has the three fields and owns a `Carousel`. Each of its
  methods is proved to produce exactly the state the matching function
  gives, and to keep the invariant.

Pixel quantities are Dafny `real`s. A card width is an input to `Recalc`.
JavaScript's `Math.round` is `Floor(x + 0.5)`. JavaScript's `%` gets its own
definition (`JsRem`) because it truncates toward zero, while Dafny's `%` is
Euclidean.

Two consequences of the drag-end rule are worth stating:
- A rightward flick (velocity above +300 px/s) steps back one card: the index
  decreases by one (src/components/RoomCarousel.tsx:100).
- A leftward and a rightward signal together cancel to no move, because
  line 99 adds one and line 100 then subtracts one.

## Model

| member | source | states |
|---|---|---|
| `RoomCatalog.RoomImages` | src/utils/roomUtils.ts:7-21 | the catalog has exactly 11 paths, first and last as listed, pairwise distinct |
| `RoomCatalog.InitialRooms` | src/utils/roomUtils.ts:25-28 | the initial list is the catalog prefix of length min(2, 11): the first two rooms in catalog order |
| `RoomCatalog.NextAvailableRoom` | src/utils/roomUtils.ts:31-40 | the result is None exactly when the list is at least as long as the catalog; otherwise it is the catalog entry at index |list| |
| `RoomCatalog.NextDependsOnlyOnLength` | src/utils/roomUtils.ts:33 | two lists of equal length get the same answer whatever their contents, so repeated calls agree |
| `RoomCatalog.NextExtendsPrefix` | src/utils/roomUtils.ts:33-39 | appending the found room to a catalog prefix gives a catalog prefix one longer |
| `RoomCatalog.FullPrefixIsCatalog` | src/utils/roomUtils.ts:35-37 | a catalog prefix for which no room is left is the whole catalog |
| `RoomCarousel.BoundedIndex` | src/components/RoomCarousel.tsx:84 | the snapped index lies in [0, max(len-1, 0)]; it is 0 for an empty list or a negative request, len-1 for a request past the end, and the request itself when that is in range |
| `RoomCarousel.BoundedIndexIdempotent` | src/components/RoomCarousel.tsx:84 | clamping an already clamped index changes nothing |
| `RoomCarousel.SingleModeIndex` | src/components/RoomCarousel.tsx:183 | on a non-empty list the single view's index is a valid index, equal to the active index when that is in range |
| `RoomCarousel.SingleModeAgreesWithSnap` | src/components/RoomCarousel.tsx:183 | the single view's min-of-max clamp equals snapTo's max-of-min clamp on every non-empty list |
| `RoomCarousel.SnapOffset` | src/components/RoomCarousel.tsx:86 | the track offset that centres card i, -i*cardFull + centerOffset; its partners are MaxDragReachesLastCard and WheelIndexOfSnap |
| `RoomCarousel.Leftward` | src/components/RoomCarousel.tsx:99 | the leftward drag signal: velocity < -300 or offset < -cardFull/4; DragDelta and QuietDragStays state what it does |
| `RoomCarousel.Rightward` | src/components/RoomCarousel.tsx:100 | the rightward drag signal: velocity > 300 or offset > cardFull/4; DragDelta and QuietDragStays state what it does |
| `RoomCarousel.MaxDrag` | src/components/RoomCarousel.tsx:69 | the drag range is never negative; it is 0 or cardFull*(len-1), at least the latter, and equals it for len >= 1 |
| `RoomCarousel.MaxDragReachesLastCard` | src/components/RoomCarousel.tsx:69-72 | the left end of the drag range is the snap offset of the last card |
| `RoomCarousel.DragDelta` | src/components/RoomCarousel.tsx:98-100 | the step is in {-1, 0, +1}; +1 exactly for a leftward signal alone, -1 exactly for a rightward signal alone, 0 exactly when both or neither occur |
| `RoomCarousel.NextAfterDrag` | src/components/RoomCarousel.tsx:96-100 | the sequential `let next` update yields the active index plus DragDelta, at most one away from it |
| `RoomCarousel.QuietDragStays` | src/components/RoomCarousel.tsx:98-101 | with |velocity| <= 300 and |offset| <= cardFull/4 the drag requests no move |
| `RoomCarousel.DragExampleOffset` | src/components/RoomCarousel.tsx:99 | offset -100 on 300 px cards with no velocity moves one card forward |
| `RoomCarousel.DragExampleVelocity` | src/components/RoomCarousel.tsx:100 | velocity +400 with no offset moves one card back |
| `RoomCarousel.DragEndMovesAtMostOne` | src/components/RoomCarousel.tsx:98-101 | from a valid index, the clamped index after a drag is at most one card away |
| `RoomCarousel.WheelClamp` | src/components/RoomCarousel.tsx:109 | the new offset is never left of centerOffset-maxDrag, never right of centerOffset when maxDrag >= 0, equals x-deltaY when that is in range and the nearer end otherwise |
| `RoomCarousel.Round` | src/components/RoomCarousel.tsx:114 | the rounded value lies in (r-0.5, r+0.5], the nearest integer with halves going up |
| `RoomCarousel.RoundOfInt` | src/components/RoomCarousel.tsx:114 | rounding an integer gives it back |
| `RoomCarousel.WheelIndex` | src/components/RoomCarousel.tsx:114 | the wheel-resolved card index is never negative |
| `RoomCarousel.WheelIndexOfSnap` | src/components/RoomCarousel.tsx:86 | resolving the snap offset of card i yields i, so a wheel stop at a snapped card stays there |
| `RoomCarousel.WheelIndexInRange` | src/components/RoomCarousel.tsx:109-114 | every offset inside the wheel clamp range resolves to an index <= max(len-1, 0) |
| `RoomCarousel.CardStyleOf` | src/components/RoomCarousel.tsx:119-128 | the active card has scale 1, opacity 1, no blur, z 2; others 0.96, 0.5, z 1; blur (8 px) exactly for inactive cards in rooms mode |
| `RoomCarousel.ActiveCardOnTop` | src/components/RoomCarousel.tsx:122-125 | every inactive card is stacked below and drawn smaller than the active card |
| `RoomCarousel.DragEnabled` | src/components/RoomCarousel.tsx:218 | dragging is enabled exactly when the first and last card have distinct snap indices, i.e. len > 1 |
| `RoomCarousel.CanAddMore` | src/components/RoomCarousel.tsx:132 | the predicate is true exactly when the list is shorter than the catalog; it chooses between the "+" button and "No more rooms" in the inline add slot, which renders only when an `onAddRoom` callback is passed, and RoomVisualizer passes none |
| `RoomCarousel.Carousel.constructor` | src/components/RoomCarousel.tsx:35-40 | before measuring, card width, centre, drag range and offsets are 0 and no wheel timer is pending |
| `RoomCarousel.Carousel.Recalc` | src/components/RoomCarousel.tsx:62-74 | cardFull becomes cardW + 48; with a wrapper, centre is (clientWidth - cardW)/2, the drag range is MaxDrag and both offsets jump to the active card; without one nothing else changes |
| `RoomCarousel.Carousel.SnapTo` | src/components/RoomCarousel.tsx:83-87 | returns BoundedIndex(idx, len) and aims the track at that card's snap offset, changing nothing else |
| `RoomCarousel.Carousel.HandleDragEnd` | src/components/RoomCarousel.tsx:95-103 | the new active index is BoundedIndex(active + DragDelta) and the track aims at it |
| `RoomCarousel.Carousel.HandleWheel` | src/components/RoomCarousel.tsx:106-113 | outside rooms mode nothing changes; otherwise x becomes the wheel clamp of x - deltaY, lies in the drag range, and replaces any pending timer's offset |
| `RoomCarousel.Carousel.FireWheelTimer` | src/components/RoomCarousel.tsx:113-115 | snaps to BoundedIndex(WheelIndex(captured offset)) and clears the pending timer |
| `RoomVisualizer.InitialSession` | src/components/RoomVisualizer.tsx:8-10 | the session starts in single-room mode, at index 0, with no rooms, and is valid |
| `RoomVisualizer.Mounted` | src/components/RoomVisualizer.tsx:13-16 | the mount effect sets the list to the two initial rooms and keeps mode and index |
| `RoomVisualizer.MountedValid` | src/components/RoomVisualizer.tsx:13-16 | mounting the fresh session gives a valid session at index 0 |
| `RoomVisualizer.AddedRoom` | src/components/RoomVisualizer.tsx:18-31 | with no room left the session is unchanged; otherwise exactly the next catalog entry is appended, existing entries kept, and the index moves to the new last card |
| `RoomVisualizer.AddRoomPreservesValid` | src/components/RoomVisualizer.tsx:20-30 | adding a room keeps the list a catalog prefix and the index in range |
| `RoomVisualizer.AddRoomTimesPrefix` | src/components/RoomVisualizer.tsx:18-31 | n adds that fit in the catalog leave the first |list|+n catalog entries, focus the last, and keep the invariant |
| `RoomVisualizer.ExhaustCatalog` | src/components/RoomVisualizer.tsx:14-30 | from the mounted session the first nine adds find a room, the tenth is refused and changes nothing, and the list is then the whole catalog |
| `RoomVisualizer.JsRem` | src/components/RoomVisualizer.tsx:47 | JavaScript's remainder: in [0, n) and equal to Euclidean % for a non-negative dividend, in (-n, 0] and congruent to it for a negative one |
| `RoomVisualizer.ChangedRoom` | src/components/RoomVisualizer.tsx:47 | change-room moves a valid index to the next room and wraps from the last to the first; list and mode unchanged |
| `RoomVisualizer.ChangeRoomPreservesValid` | src/components/RoomVisualizer.tsx:47 | change-room keeps the index in [0, |list|-1] |
| `RoomVisualizer.ChangeRoomTimes` | src/components/RoomVisualizer.tsx:47 | repeated change-room never touches the list or the mode |
| `RoomVisualizer.ChangeRoomTimesAdvances` | src/components/RoomVisualizer.tsx:47 | after k changes the index is (start + k) mod |list| and the session stays valid |
| `RoomVisualizer.ChangeRoomCycles` | src/components/RoomVisualizer.tsx:47 | |list| changes in a row return to the starting session |
| `RoomVisualizer.Toggled` | src/components/RoomVisualizer.tsx:46 | the toggle flips the mode and changes neither index nor list |
| `RoomVisualizer.ToggleTwice` | src/components/RoomVisualizer.tsx:46 | toggling twice restores the session |
| `RoomVisualizer.Snapped` | src/components/RoomVisualizer.tsx:44 | the carousel's setActiveIndex callback keeps list and mode and takes an in-range request as is |
| `RoomVisualizer.SnappedPreservesValid` | src/components/RoomVisualizer.tsx:44 | whatever index the carousel requests, the clamped result keeps the session valid |
| `RoomVisualizer.Visualizer.constructor` | src/components/RoomVisualizer.tsx:8-10 | the component starts in the initial session with a fresh carousel |
| `RoomVisualizer.Visualizer.Mount` | src/components/RoomVisualizer.tsx:13-16 | the mount effect produces the Mounted session and keeps the invariant |
| `RoomVisualizer.Visualizer.AddRoom` | src/components/RoomVisualizer.tsx:18-31 | reports NoMoreRooms exactly when no room is left, and the new state is AddedRoom of the old one |
| `RoomVisualizer.Visualizer.ChangeRoom` | src/components/RoomVisualizer.tsx:47 | the new state is ChangedRoom of the old one and stays valid |
| `RoomVisualizer.Visualizer.ToggleRoomsMode` | src/components/RoomVisualizer.tsx:46 | the new state is Toggled of the old one |
| `RoomVisualizer.Visualizer.Layout` | src/components/RoomCarousel.tsx:62-74 | measuring keeps the session and any pending wheel offset and sets cardFull to cardW + 48; when the rooms strip (the wrapper) is rendered, the centre becomes (clientWidth - cardW)/2, the drag range MaxDrag and both offsets jump to the active card; otherwise centre, drag range and offsets stay |
| `RoomVisualizer.Visualizer.DragEnd` | src/components/RoomCarousel.tsx:218-225 | a drag end in the draggable strip gives Snapped(active + DragDelta judged by the width before the drag) and aims the track at the new card; otherwise session and target are unchanged; the measurements, live offset and pending timer never change; the index moves by at most one |
| `RoomVisualizer.Visualizer.Wheel` | src/components/RoomCarousel.tsx:200-213 | over a non-empty rooms strip the live offset becomes WheelClamp(old x, deltaY), inside the drag range, and becomes the pending timer's offset; otherwise offset and pending timer stay; session, measurements and target never change |
| `RoomVisualizer.Visualizer.WheelTimer` | src/components/RoomCarousel.tsx:113-115 | the timer's snap gives Snapped(WheelIndex(captured offset, old centre, old width)), aims the track at the new card and clears the pending timer; measurements and live offset stay |

## Left out

- Rendering: JSX, Tailwind classes, icons, images, the top bar and the placeholder views are presentation. The model keeps only the indices and offsets they use.
- src/components/AddRoomButton.tsx is not part of this model. It is a presentational button.
- Animation: framer-motion springs, `controls.start` and `AnimatePresence`. The model records only the target offset (`Carousel.target`); the live offset is not modelled as moving towards it.
- The 120 ms wheel debounce timing. The model keeps only the offset captured by the latest wheel event: a new event replaces it, which is the effect of `clearTimeout`. That holds only within one render: the timer handle is stored on the `handleWheel` function, which is new on every render. So a re-render between two wheel events leaves the earlier timer armed and two snaps fire. The model does not capture that double snap. `FireWheelTimer` is the timer firing. The deferred snap uses the carousel's current `cardFull`, `centerOffset` and list length, not the values captured when the timer was set.
- `getCardWidth`, `window.innerWidth`, `clientWidth` and resize listeners: `Recalc` and `Visualizer.Layout` take the card width and the wrapper width as parameters. When the effect re-runs is not modelled either; `Layout` is called explicitly.
- The `isDragging` motion value and `isDragActive` state are framework plumbing. So are framer-motion's elastic `dragConstraints` and the live offset during a drag.
- `alert(...)` is the `NoMoreRooms` outcome of `Visualizer.AddRoom`.
- IEEE floating point: pixel values are reals, and the NaN/Infinity values JavaScript would give for a zero card width are not modelled.
- RoomVisualizer.Visualizer.ChangeRoom: requires a non-empty list, because JavaScript's `% 0` gives NaN, which an integer index cannot hold. After the mount effect the list always holds at least two rooms.
- RoomVisualizer.Visualizer.Mount: requires the empty list of the freshly initialised state. The effect runs once, before any input event.
- RoomVisualizer.Visualizer.Wheel: requires a measured card width (`cardFull > 0`) when the rooms strip is shown. The wheel handler is attached only to the rooms strip, which is measured as soon as it is rendered.
- RoomCarousel.Carousel.Recalc: requires a non-negative card width. The source computes it as a viewport width times a positive fraction.
