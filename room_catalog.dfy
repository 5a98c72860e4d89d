/**
 * The room catalog: a fixed, ordered list of room image paths and the two
 * positional lookups over it (src/utils/roomUtils.ts).
 */
module RoomCatalog {
  import opened Wrappers

  /** Every room image the application knows about, in display order. */
  function RoomImages(): (r: seq<string>)
    ensures |r| == 11
    ensures r[0] == "/rooms/living-room.jpg" && r[10] == "/rooms/benjamin-child-0sT9YhNgSEs-unsplash.jpg"
    // The paths are used as React keys, so no two of them coincide.
    ensures forall i, j :: 0 <= i < j < |r| ==> r[i] != r[j]
  {
    [ "/rooms/living-room.jpg",
      "/rooms/study-room.jpg",
      "/rooms/bed-room.jpg",
      "/rooms/drew-coffman-jUOaONoXJQk-unsplash.jpg",
      "/rooms/spacejoy-TKFskJy8PQ8-unsplash.jpg",
      "/rooms/patrick-perkins-3wylDrjxH-E-unsplash.jpg",
      "/rooms/spacejoy-9M66C_w_ToM-unsplash.jpg",
      "/rooms/francesca-tosolini-tHkJAMcO3QE-unsplash.jpg",
      "/rooms/francesca-tosolini-w1RE0lBbREo-unsplash.jpg",
      "/rooms/spacejoy-umAXneH4GhA-unsplash.jpg",
      "/rooms/benjamin-child-0sT9YhNgSEs-unsplash.jpg" ]
  }

  /** A room list that consists of the first |rs| catalog entries, in catalog order. */
  predicate IsCatalogPrefix(rs: seq<string>)
  {
    |rs| <= |RoomImages()| && rs == RoomImages()[..|rs|]
  }

  function Min(a: int, b: int): int { if a <= b then a else b }

  /** The rooms a session starts with: `slice(0, 2)` of the catalog. */
  function InitialRooms(): (r: seq<string>)
    ensures |r| == Min(2, |RoomImages()|)
    ensures IsCatalogPrefix(r)
    ensures r == [RoomImages()[0], RoomImages()[1]]
  {
    RoomImages()[..Min(2, |RoomImages()|)]
  }

  /**
   * The catalog entry at position |currentRooms|, or None once that position
   * is past the end. Only the length of the list is consulted.
   */
  function NextAvailableRoom(currentRooms: seq<string>): (r: Option<string>)
    ensures r.None? <==> |currentRooms| >= |RoomImages()|
    ensures r.Some? ==> r.value == RoomImages()[|currentRooms|]
  {
    var nextIndex := |currentRooms|;
    if nextIndex >= |RoomImages()| then None else Some(RoomImages()[nextIndex])
  }

  /** Two lists of the same length get the same answer, whatever their contents. */
  lemma NextDependsOnlyOnLength(a: seq<string>, b: seq<string>)
    requires |a| == |b|
    ensures NextAvailableRoom(a) == NextAvailableRoom(b)
  {
  }

  /** Appending the next available room to a catalog prefix gives a longer catalog prefix. */
  lemma NextExtendsPrefix(rs: seq<string>)
    requires IsCatalogPrefix(rs)
    requires NextAvailableRoom(rs).Some?
    ensures IsCatalogPrefix(rs + [NextAvailableRoom(rs).value])
    ensures |rs + [NextAvailableRoom(rs).value]| == |rs| + 1
  {
    var c := RoomImages();
    var n := |rs|;
    assert (rs + [c[n]]) == c[..n + 1] by {
      forall k | 0 <= k < n + 1 ensures (rs + [c[n]])[k] == c[..n + 1][k] {
        if k < n { assert rs[k] == c[..n][k]; }
      }
    }
  }

  /** A catalog prefix of full length is the whole catalog, and nothing more can be added to it. */
  lemma FullPrefixIsCatalog(rs: seq<string>)
    requires IsCatalogPrefix(rs)
    requires NextAvailableRoom(rs).None?
    ensures rs == RoomImages()
  {
  }
}
