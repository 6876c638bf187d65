/**
 * The room catalogue page: one card per fetched room with its image, seat
 * count and schedules link, and placeholder cards until the fetch settles.
 */
module RoomList {
  import opened Wrappers
  import opened JsText
  import opened Catalog
  import SeatSelection

  /** The fixed image table keyed by movie title. */
  const MovieImages: map<JsString, JsString> := map[
    Utf16("Avatar 2") := Utf16("https://image.tmdb.org/t/p/w500/8YFL5QQVPy3AgrEQxNYVSgiPEbe.jpg"),
    Utf16("Spiderman 2") := Utf16("https://image.tmdb.org/t/p/w500/4q2NNj4S5dG2RLF9CpXsej7yXl.jpg"),
    Utf16("Avengers: Endgame") := Utf16("https://image.tmdb.org/t/p/w500/ulzhLuWrPK07P1YkdWQLZnQh1JL.jpg"),
    Utf16("Avatar Requiem") := Utf16("https://via.placeholder.com/300x180?text=Avatar+Requiem"),
    Utf16("Película Ejemplo") := Utf16("https://via.placeholder.com/300x180?text=Película")
  ]

  const Placeholder: JsString := Utf16("https://via.placeholder.com/300x180?text=Sala+de+Cine")

  const Http: JsString := Utf16("http")

  /** Every entry of the table is a non-empty URL, so a table hit always wins the `||`. */
  lemma TableEntriesNonEmpty(title: JsString)
    requires title in MovieImages
    ensures MovieImages[title] != []
  {
  }

  /** The card image: the table entry for the movie, else `img` when it starts with "http", else the placeholder. */
  function CardImage(room: Room): (url: JsString)
    ensures room.movie in MovieImages ==> url == MovieImages[room.movie]
    ensures room.movie !in MovieImages && room.img.Some? && StartsWith(room.img.value, Http) ==> url == room.img.value
    ensures room.movie !in MovieImages && (room.img.None? || !StartsWith(room.img.value, Http)) ==> url == Placeholder
    ensures url != []
  {
    var fromTable := if room.movie in MovieImages then MovieImages[room.movie] else [];
    assert room.movie in MovieImages ==> fromTable != [] by {
      if room.movie in MovieImages { TableEntriesNonEmpty(room.movie); }
    }
    if fromTable != [] then fromTable
    else if room.img.Some? && StartsWith(room.img.value, Http) then room.img.value
    else Placeholder
  }

  /** The seat count on the card is the number of seats the seat page renders for the room. */
  function SeatCount(room: Room): (n: nat)
    ensures n == |SeatSelection.Grid(room.rowsNum, room.columnsNum)|
  {
    room.rowsNum * room.columnsNum
  }

  const SchedulesPrefix: JsString := Utf16("/schedules/")

  /** A card: a grey placeholder while loading, or the room's card. */
  datatype Card =
    | Skeleton(index: nat)
    | RoomCard(key: int, image: JsString, name: JsString, movie: JsString,
               seats: nat, rows: nat, columns: nat, link: JsString)

  /** The card of `room`: keyed by its id, linking to `/schedules/<id>`. */
  function CardFor(room: Room): (c: Card)
    ensures c.RoomCard? && c.key == room.id && c.image == CardImage(room) && c.seats == SeatCount(room)
    ensures c.name == room.name && c.movie == room.movie && c.rows == room.rowsNum && c.columns == room.columnsNum
    ensures StartsWith(c.link, SchedulesPrefix) && ReadsAs(c.link[|SchedulesPrefix|..], room.id)
  {
    var link := SchedulesPrefix + IntToDecimal(room.id);
    assert link[..|SchedulesPrefix|] == SchedulesPrefix && link[|SchedulesPrefix|..] == IntToDecimal(room.id);
    RoomCard(room.id, CardImage(room), room.name, room.movie, SeatCount(room), room.rowsNum, room.columnsNum, link)
  }

  /** Two rooms' cards link to the same page exactly when the rooms have the same id. */
  lemma CardLinkInjective(r1: Room, r2: Room)
    ensures CardFor(r1).link == CardFor(r2).link <==> r1.id == r2.id
  {
    var l1, l2 := CardFor(r1).link, CardFor(r2).link;
    assert l1[|SchedulesPrefix|..] == IntToDecimal(r1.id);
    assert l2[|SchedulesPrefix|..] == IntToDecimal(r2.id);
    IntToDecimalInjective(r1.id, r2.id);
  }

  /** One card per room, in the fetched order. */
  function Cards(rooms: seq<Room>): (cards: seq<Card>)
    ensures |cards| == |rooms|
    ensures forall i :: 0 <= i < |rooms| ==> cards[i] == CardFor(rooms[i])
  {
    if rooms == [] then [] else [CardFor(rooms[0])] + Cards(rooms[1..])
  }

  const SkeletonCount: nat := 4

  /** The page's state: the fetched rooms and whether the fetch is still pending. */
  class RoomsList {
    var rooms: seq<Room>
    var loading: bool

    constructor ()
      ensures rooms == [] && loading
    {
      rooms, loading := [], true;
    }

    /** The fetch resolved with `data`. */
    method OnRoomsLoaded(data: seq<Room>)
      modifies this
      ensures rooms == data && !loading
    {
      rooms := data;
      loading := false;
    }

    /** The fetch was rejected: the rooms stay as they were and loading ends. */
    method OnRoomsFailed()
      modifies this
      ensures rooms == old(rooms) && !loading
    {
      loading := false;
    }

    /** The card grid: four skeletons while loading, then one card per room in fetched order. */
    function View(): (cards: seq<Card>)
      reads this
      ensures loading ==> |cards| == SkeletonCount && forall i :: 0 <= i < |cards| ==> cards[i] == Skeleton(i)
      ensures !loading ==> |cards| == |rooms| && forall i :: 0 <= i < |rooms| ==> cards[i] == CardFor(rooms[i])
    {
      if loading then seq(SkeletonCount, i requires 0 <= i < SkeletonCount => Skeleton(i)) else Cards(rooms)
    }
  }
}
