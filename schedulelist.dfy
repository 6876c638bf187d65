/**
 * The schedule list of one room: the room shown in the heading, the schedules
 * listed for it, and where choosing a schedule leads.
 */
module ScheduleList {
  import opened Wrappers
  import opened JsText
  import opened JsArray
  import opened Catalog

  function HasId(id: int): Room -> bool
  {
    (r: Room) => r.id == id
  }

  function InRoom(id: int): Schedule -> bool
  {
    (s: Schedule) => s.idCinema == id
  }

  /** The room the page shows: the first fetched room whose id is the route's id, if any. */
  function RoomFor(rooms: seq<Room>, id: int): (r: Option<Room>)
    ensures r.None? <==> forall i :: 0 <= i < |rooms| ==> rooms[i].id != id
    ensures r.Some? ==> r.value.id == id && exists i :: FirstMatch(rooms, HasId(id), i) && rooms[i] == r.value
  {
    var r := Find(rooms, HasId(id));
    assert r.None? <==> forall i :: 0 <= i < |rooms| ==> !HasId(id)(rooms[i]);
    r
  }

  /** The schedules listed: those whose `id_cinema` is the route's id. */
  function SchedulesFor(schedules: seq<Schedule>, id: int): (r: seq<Schedule>)
    ensures forall i :: 0 <= i < |r| ==> r[i].idCinema == id && r[i] in schedules
    ensures forall i :: 0 <= i < |schedules| && schedules[i].idCinema == id ==> schedules[i] in r
  {
    var r := Filter(schedules, InRoom(id));
    assert forall i :: 0 <= i < |r| ==> InRoom(id)(r[i]);
    r
  }

  /** The listing keeps the fetched order: it distributes over concatenation of the fetched list. */
  lemma SchedulesForKeepsOrder(a: seq<Schedule>, b: seq<Schedule>, id: int)
    ensures SchedulesFor(a + b, id) == SchedulesFor(a, id) + SchedulesFor(b, id)
  {
    FilterConcat(a, b, InRoom(id));
  }

  /** A fetched list that belongs to the room entirely is listed unchanged. */
  lemma SchedulesForKeepsMatching(schedules: seq<Schedule>, id: int)
    requires forall i :: 0 <= i < |schedules| ==> schedules[i].idCinema == id
    ensures SchedulesFor(schedules, id) == schedules
  {
    FilterKeepsAll(schedules, InRoom(id));
  }

  const SeatsPrefix: JsString := Utf16("/seats/")

  /** `handleSelect(s)`: the path `/seats/<s.id>`. */
  function SelectPath(s: Schedule): (path: JsString)
    ensures StartsWith(path, SeatsPrefix)
    ensures ReadsAs(path[|SeatsPrefix|..], s.id)
  {
    var path := SeatsPrefix + IntToDecimal(s.id);
    assert path[..|SeatsPrefix|] == SeatsPrefix && path[|SeatsPrefix|..] == IntToDecimal(s.id);
    path
  }

  /** Two schedules lead to the same path exactly when they have the same id. */
  lemma SelectPathInjective(s1: Schedule, s2: Schedule)
    ensures SelectPath(s1) == SelectPath(s2) <==> s1.id == s2.id
  {
    var p1, p2 := SelectPath(s1), SelectPath(s2);
    assert p1[|SeatsPrefix|..] == IntToDecimal(s1.id);
    assert p2[|SeatsPrefix|..] == IntToDecimal(s2.id);
    IntToDecimalInjective(s1.id, s2.id);
  }

  /** One button of the listing: its React key, its caption and the path it navigates to. */
  datatype ScheduleButton = ScheduleButton(key: int, caption: JsString, target: JsString)

  datatype Listing = NoSchedules | Buttons(buttons: seq<ScheduleButton>)

  /** The button of schedule `s`: keyed by its id, captioned "date — time", leading to its seat page. */
  function ButtonFor(s: Schedule): (b: ScheduleButton)
    ensures b.key == s.id
    ensures |b.caption| == |s.date| + 3 + |s.time|
    ensures StartsWith(b.caption, s.date) && b.caption[|s.date| + 3..] == s.time
    ensures StartsWith(b.target, SeatsPrefix) && ReadsAs(b.target[|SeatsPrefix|..], s.id)
  {
    ScheduleButton(s.id, s.date + Utf16(" — ") + s.time, SelectPath(s))
  }

  /** The body of the page: the "no schedules" message for an empty list, one button per schedule otherwise. */
  function ScheduleListing(schedules: seq<Schedule>): (l: Listing)
    ensures l.NoSchedules? <==> |schedules| == 0
    ensures l.Buttons? ==> |l.buttons| == |schedules|
    ensures l.Buttons? ==> forall i :: 0 <= i < |schedules| ==>
      l.buttons[i].key == schedules[i].id && l.buttons[i].target == SelectPath(schedules[i])
  {
    if |schedules| == 0 then NoSchedules
    else Buttons(seq(|schedules|, i requires 0 <= i < |schedules| => ButtonFor(schedules[i])))
  }

  /** Schedules with pairwise distinct ids get pairwise distinct React keys and distinct targets. */
  lemma ListingKeysDistinct(schedules: seq<Schedule>)
    requires forall i, j :: 0 <= i < j < |schedules| ==> schedules[i].id != schedules[j].id
    ensures ScheduleListing(schedules).Buttons? ==>
      var bs := ScheduleListing(schedules).buttons;
      forall i, j :: 0 <= i < j < |bs| ==> bs[i].key != bs[j].key && bs[i].target != bs[j].target
  {
    if |schedules| > 0 {
      var bs := ScheduleListing(schedules).buttons;
      forall i, j | 0 <= i < j < |bs| ensures bs[i].key != bs[j].key && bs[i].target != bs[j].target {
        SelectPathInjective(schedules[i], schedules[j]);
      }
    }
  }

  /** The heading's room name, `room?.name || 'Sala'`. */
  function Heading(room: Option<Room>): (title: JsString)
    ensures room.Some? && room.value.name != [] ==> title == room.value.name
    ensures room.None? || room.value.name == [] ==> title == Utf16("Sala")
    // The fallback exists so that the heading is never blank.
    ensures title != []
    ensures title == Utf16("Sala") || (room.Some? && title == room.value.name)
  {
    if room.Some? && room.value.name != [] then room.value.name else Utf16("Sala")
  }

  /**
   * The heading of the page for route id `id` is "Sala" or the name of a
   * fetched room with that id; it is the name of the first such room whenever
   * that name is non-empty.
   */
  lemma HeadingNamesRouteRoom(rooms: seq<Room>, id: int)
    ensures var title := Heading(RoomFor(rooms, id));
      title == Utf16("Sala") || exists i :: 0 <= i < |rooms| && rooms[i].id == id && rooms[i].name == title
    ensures forall i :: FirstMatch(rooms, HasId(id), i) && rooms[i].name != [] ==>
      Heading(RoomFor(rooms, id)) == rooms[i].name
  {
    var r := RoomFor(rooms, id);
    if r.Some? {
      var k :| FirstMatch(rooms, HasId(id), k) && rooms[k] == r.value;
      forall i | FirstMatch(rooms, HasId(id), i) ensures rooms[i] == r.value {
        FirstMatchUnique(rooms, HasId(id), i, k);
      }
    }
  }
}
