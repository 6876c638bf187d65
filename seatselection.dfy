/**
 * The seat-selection page of one showtime: seat labels derived from the grid,
 * the click toggle over the list of selected seat names, the colour each seat
 * shows, the loading sequence that commits schedule, room and seats, and the
 * screen the page renders from its state.
 */
module SeatSelection {
  import opened Wrappers
  import opened JsText
  import opened JsArray
  import opened Catalog

  // ---------------------------------------------------------------------------
  // Seat labels and the grid

  datatype Position = Position(row: nat, col: nat)

  /**
   * The label of the seat in 0-based `row` and `col`: the code unit 65 + row
   * (reduced modulo 2^16, as `String.fromCharCode` does), then the canonical
   * decimal numeral of col + 1.
   */
  function SeatLabel(row: nat, col: nat): (name: JsString)
    ensures |name| >= 2
    ensures name[0] as int == (65 + row) % 0x1_0000
    ensures IsNumeral(name[1..]) && DecimalValue(name[1..]) == col + 1
  {
    var name := [FromCharCode(65 + row)] + NatToDecimal(col + 1);
    assert name[1..] == NatToDecimal(col + 1);
    DecimalRoundTrip(col + 1);
    name
  }

  /** Within the first 65536 rows two seats share a label exactly when they are the same seat. */
  lemma LabelInjective(r1: nat, c1: nat, r2: nat, c2: nat)
    requires r1 < 0x1_0000 && r2 < 0x1_0000
    ensures SeatLabel(r1, c1) == SeatLabel(r2, c2) <==> r1 == r2 && c1 == c2
  {
  }

  /** `String.fromCharCode` wraps at 2^16, so row 65536 is labelled like row 0. */
  lemma LabelsRepeatAfter65536Rows(col: nat)
    ensures SeatLabel(0, col) == SeatLabel(0x1_0000, col)
  {
  }

  /** `p` comes before `q` reading the grid row by row. */
  predicate Before(p: Position, q: Position)
  {
    p.row < q.row || (p.row == q.row && p.col < q.col)
  }

  function RowCells(row: nat, cols: nat): (cells: seq<Position>)
    ensures |cells| == cols
    ensures forall c :: 0 <= c < cols ==> cells[c] == Position(row, c)
  {
    seq(cols, c requires 0 <= c < cols => Position(row, c))
  }

  /**
   * The positions the page renders for a room of `rows` by `cols` seats
   * (`[...Array(rows)].map` over `[...Array(cols)].map`), in rendering order.
   */
  function Grid(rows: nat, cols: nat): (g: seq<Position>)
    ensures |g| == rows * cols
    ensures forall i :: 0 <= i < |g| ==> g[i].row < rows && g[i].col < cols
    ensures forall i, j :: 0 <= i < j < |g| ==> Before(g[i], g[j])
  {
    if rows == 0 then []
    else
      var prefix, last := Grid(rows - 1, cols), RowCells(rows - 1, cols);
      assert rows * cols == (rows - 1) * cols + cols;
      var g := prefix + last;
      assert forall i :: |prefix| <= i < |g| ==> g[i] == Position(rows - 1, i - |prefix|);
      g
  }

  /** Every position inside the room's bounds is rendered. */
  lemma {:induction false} GridCovers(rows: nat, cols: nat, row: nat, col: nat)
    requires row < rows && col < cols
    ensures Position(row, col) in Grid(rows, cols)
  {
    if row == rows - 1 {
      assert RowCells(rows - 1, cols)[col] == Position(row, col);
      assert Grid(rows, cols) == Grid(rows - 1, cols) + RowCells(rows - 1, cols);
    } else {
      GridCovers(rows - 1, cols, row, col);
    }
  }

  /** `name` labels some seat of a room of `rows` by `cols` seats. */
  predicate LabelsSomeSeat(name: JsString, rows: nat, cols: nat)
  {
    exists r: nat, c: nat :: r < rows && c < cols && name == SeatLabel(r, c)
  }

  /** The labels of the rendered seats, in rendering order; these are also the React keys. */
  function GridLabels(rows: nat, cols: nat): (names: seq<JsString>)
    ensures |names| == rows * cols
    ensures forall i :: 0 <= i < |names| ==> LabelsSomeSeat(names[i], rows, cols)
    ensures forall r: nat, c: nat :: r < rows && c < cols ==> SeatLabel(r, c) in names
  {
    var g := Grid(rows, cols);
    var names := seq(|g|, i requires 0 <= i < |g| => SeatLabel(g[i].row, g[i].col));
    assert forall r: nat, c: nat :: r < rows && c < cols ==> SeatLabel(r, c) in names by {
      forall r: nat, c: nat | r < rows && c < cols ensures SeatLabel(r, c) in names {
        GridCovers(rows, cols, r, c);
        var k :| 0 <= k < |g| && g[k] == Position(r, c);
        assert names[k] == SeatLabel(r, c);
      }
    }
    assert forall i :: 0 <= i < |names| ==> LabelsSomeSeat(names[i], rows, cols) by {
      forall i | 0 <= i < |names| ensures LabelsSomeSeat(names[i], rows, cols) {
        var r: nat, c: nat := g[i].row, g[i].col;
        assert r < rows && c < cols && names[i] == SeatLabel(r, c);
      }
    }
    names
  }

  /** In a room of at most 65536 rows every rendered seat has its own label. */
  lemma GridLabelsDistinct(rows: nat, cols: nat)
    requires rows <= 0x1_0000
    ensures NoDup(GridLabels(rows, cols))
  {
    var g, names := Grid(rows, cols), GridLabels(rows, cols);
    forall i, j | 0 <= i < j < |names| ensures names[i] != names[j] {
      assert Before(g[i], g[j]);
      LabelInjective(g[i].row, g[i].col, g[j].row, g[j].col);
    }
  }

  // ---------------------------------------------------------------------------
  // Fetched seat status and the click toggle

  const ReservedStatus: JsString := Utf16("reserved")

  function NamedAs(name: JsString): Seat -> bool
  {
    (s: Seat) => s.fullName == name
  }

  function Other(name: JsString): JsString -> bool
  {
    (s: JsString) => s != name
  }

  /**
   * `seats.find(s => s.full_name === name)?.status === "reserved"`: the first
   * fetched seat carrying the name is marked reserved.
   */
  predicate IsReserved(seats: seq<Seat>, name: JsString)
    ensures IsReserved(seats, name) <==>
      exists i :: FirstMatch(seats, NamedAs(name), i) && seats[i].status == Some(ReservedStatus)
  {
    var seat := Find(seats, NamedAs(name));
    assert forall i :: FirstMatch(seats, NamedAs(name), i) ==> seat == Some(seats[i]) by {
      forall i | FirstMatch(seats, NamedAs(name), i) ensures seat == Some(seats[i]) {
        var j :| FirstMatch(seats, NamedAs(name), j) && seats[j] == seat.value;
        FirstMatchUnique(seats, NamedAs(name), i, j);
      }
    }
    seat.Some? && seat.value.status == Some(ReservedStatus)
  }

  /** A name missing from the fetched seats is not reserved. */
  lemma UnlistedSeatIsNotReserved(seats: seq<Seat>, name: JsString)
    requires forall i :: 0 <= i < |seats| ==> seats[i].fullName != name
    ensures !IsReserved(seats, name)
  {
  }

  /** The selection after `handleSeatClick(name)`. */
  function Click(selected: seq<JsString>, seats: seq<Seat>, name: JsString): (r: seq<JsString>)
    ensures IsReserved(seats, name) ==> r == selected
    ensures !IsReserved(seats, name) && name !in selected ==> r == selected + [name]
    ensures !IsReserved(seats, name) && name in selected ==>
      name !in r && forall i :: 0 <= i < |selected| && selected[i] != name ==> selected[i] in r
    ensures forall i :: 0 <= i < |r| && r[i] != name ==> r[i] in selected
  {
    if IsReserved(seats, name) then selected
    else if name in selected then Filter(selected, Other(name))
    else selected + [name]
  }

  /** Removing `name` from `a + [name] + b`, where neither part holds it, leaves `a + b`. */
  lemma RemoveBetween(a: seq<JsString>, name: JsString, b: seq<JsString>)
    requires name !in a && name !in b
    ensures Filter(a + [name] + b, Other(name)) == a + b
  {
    var p := Other(name);
    assert forall i :: 0 <= i < |a| ==> p(a[i]);
    assert forall i :: 0 <= i < |b| ==> p(b[i]);
    FilterDropsOne(a, name, b, p);
  }

  /** Deselecting an entry of a duplicate-free selection removes that entry and keeps the rest in order. */
  lemma ClickRemovesEntry(selected: seq<JsString>, seats: seq<Seat>, i: nat)
    requires NoDup(selected) && i < |selected| && !IsReserved(seats, selected[i])
    ensures Click(selected, seats, selected[i]) == selected[..i] + selected[i + 1..]
  {
    var name, a, b := selected[i], selected[..i], selected[i + 1..];
    assert selected == a + [name] + b;
    assert name !in a by {
      forall k | 0 <= k < |a| ensures a[k] != name { assert a[k] == selected[k]; }
    }
    assert name !in b by {
      forall k | 0 <= k < |b| ensures b[k] != name { assert b[k] == selected[i + 1 + k]; }
    }
    RemoveBetween(a, name, b);
  }

  /** Clicking the same free, unselected seat twice restores the selection. */
  lemma ClickTwiceRestores(selected: seq<JsString>, seats: seq<Seat>, name: JsString)
    requires !IsReserved(seats, name) && name !in selected
    ensures Click(Click(selected, seats, name), seats, name) == selected
  {
    var p := Other(name);
    FilterConcat(selected, [name], p);
    FilterKeepsAll(selected, p);
    assert Filter([name], p) == [];
  }

  /** A click never introduces a duplicate. */
  lemma ClickKeepsNoDup(selected: seq<JsString>, seats: seq<Seat>, name: JsString)
    requires NoDup(selected)
    ensures NoDup(Click(selected, seats, name))
  {
    if !IsReserved(seats, name) && name in selected {
      FilterNoDup(selected, Other(name));
    }
  }

  /** No selected name is a reserved seat of `seats`. */
  predicate SelectionFree(selected: seq<JsString>, seats: seq<Seat>)
  {
    forall i :: 0 <= i < |selected| ==> !IsReserved(seats, selected[i])
  }

  /** While the fetched seats stay the same, clicks never select a reserved seat. */
  lemma ClickKeepsSelectionFree(selected: seq<JsString>, seats: seq<Seat>, name: JsString)
    requires SelectionFree(selected, seats)
    ensures SelectionFree(Click(selected, seats, name), seats)
  {
  }

  /** The selection after clicking `names` one after another. */
  function Clicks(selected: seq<JsString>, seats: seq<Seat>, names: seq<JsString>): seq<JsString>
    decreases |names|
  {
    if names == [] then selected else Clicks(Click(selected, seats, names[0]), seats, names[1..])
  }

  /** Starting from the empty selection, no sequence of clicks produces a duplicate or a reserved entry. */
  lemma {:induction false} ClicksKeepInvariant(selected: seq<JsString>, seats: seq<Seat>, names: seq<JsString>)
    requires NoDup(selected) && SelectionFree(selected, seats)
    ensures NoDup(Clicks(selected, seats, names)) && SelectionFree(Clicks(selected, seats, names), seats)
    decreases |names|
  {
    if names != [] {
      ClickKeepsNoDup(selected, seats, names[0]);
      ClickKeepsSelectionFree(selected, seats, names[0]);
      ClicksKeepInvariant(Click(selected, seats, names[0]), seats, names[1..]);
    }
  }

  // ---------------------------------------------------------------------------
  // What each seat shows

  datatype Status = Available | Reserved | Selected

  /** `renderSeat`'s colour choice: start available, then reserved overrides, then selected overrides. */
  function DisplayStatus(seats: seq<Seat>, selected: seq<JsString>, name: JsString): (st: Status)
    ensures st == Selected <==> name in selected
    ensures st == Reserved <==> name !in selected && IsReserved(seats, name)
    ensures st == Available <==> name !in selected && !IsReserved(seats, name)
  {
    var isReserved := IsReserved(seats, name);
    var isSelected := name in selected;
    var bg0 := Available;
    var bg1 := if isReserved then Reserved else bg0;
    if isSelected then Selected else bg1
  }

  /** The background colour of each status, the same three the legend shows. */
  function Colour(st: Status): (c: JsString)
    ensures |c| == 7 && c[0] == '#' as int as CodeUnit
  {
    match st
    case Available => Utf16("#81c784")
    case Reserved => Utf16("#e57373")
    case Selected => Utf16("#64b5f6")
  }

  /** The three statuses are told apart by colour. */
  lemma ColoursDistinct(a: Status, b: Status)
    ensures Colour(a) == Colour(b) <==> a == b
  {
    assert Colour(Available)[1] != Colour(Reserved)[1];
    assert Colour(Available)[1] != Colour(Selected)[1];
    assert Colour(Reserved)[1] != Colour(Selected)[1];
  }

  /** One rendered seat: `blocked` is the not-allowed cursor and the cancel icon, both keyed on the fetched status. */
  datatype SeatTile = SeatTile(name: JsString, status: Status, colour: JsString, blocked: bool)

  function RenderSeat(seats: seq<Seat>, selected: seq<JsString>, row: nat, col: nat): (t: SeatTile)
    ensures t.name == SeatLabel(row, col)
    ensures t.status == Selected <==> t.name in selected
    ensures t.status == Reserved <==> t.name !in selected && t.blocked
    ensures t.status == Available <==> t.name !in selected && !t.blocked
    ensures t.blocked <==> IsReserved(seats, t.name)
    ensures t.colour == Colour(t.status)
  {
    var name := SeatLabel(row, col);
    var st := DisplayStatus(seats, selected, name);
    SeatTile(name, st, Colour(st), IsReserved(seats, name))
  }

  /** The tiles of a `rows` by `cols` room, row by row. */
  function SeatTiles(seats: seq<Seat>, selected: seq<JsString>, rows: nat, cols: nat): (tiles: seq<SeatTile>)
    ensures |tiles| == rows * cols
    ensures forall i :: 0 <= i < |tiles| ==> tiles[i].name == GridLabels(rows, cols)[i]
    ensures forall i :: 0 <= i < |tiles| ==>
      tiles[i] == RenderSeat(seats, selected, Grid(rows, cols)[i].row, Grid(rows, cols)[i].col)
  {
    var g := Grid(rows, cols);
    seq(|g|, i requires 0 <= i < |g| => RenderSeat(seats, selected, g[i].row, g[i].col))
  }

  /** A selected seat tile the pages show while the fetched seats are unchanged is never reserved. */
  lemma SelectedTilesAreFree(seats: seq<Seat>, selected: seq<JsString>, rows: nat, cols: nat, i: nat)
    requires SelectionFree(selected, seats)
    requires i < rows * cols
    ensures SeatTiles(seats, selected, rows, cols)[i].status == Selected ==> !SeatTiles(seats, selected, rows, cols)[i].blocked
  {
  }

  // ---------------------------------------------------------------------------
  // Loading

  /** What a successful load commits. */
  datatype Loaded = Loaded(schedule: Schedule, room: Room, seats: seq<Seat>)

  function WithId(id: int): Schedule -> bool
  {
    (s: Schedule) => s.id == id
  }

  function RoomOf(s: Schedule): Room -> bool
  {
    (r: Room) => r.id == s.idCinema
  }

  /**
   * The outcome of `fetchData` for schedule `id`, given the three responses:
   * the first schedule with that id, the first room with its `id_cinema`, and
   * the seat list (an absent body reads as no seats). Nothing when a request
   * fails or a lookup finds nothing.
   */
  function Load(id: int, schedulesRes: Fetch<seq<Schedule>>, roomsRes: Fetch<seq<Room>>,
                seatsRes: Fetch<Option<seq<Seat>>>): (r: Option<Loaded>)
    ensures r.Some? <==>
      && schedulesRes.Received? && roomsRes.Received? && seatsRes.Received?
      && exists i, k :: FirstMatch(schedulesRes.data, WithId(id), i) && 0 <= k < |roomsRes.data|
                        && roomsRes.data[k].id == schedulesRes.data[i].idCinema
    ensures r.Some? ==>
      && schedulesRes.Received? && roomsRes.Received? && seatsRes.Received?
      && (exists i :: FirstMatch(schedulesRes.data, WithId(id), i) && schedulesRes.data[i] == r.value.schedule)
      && (exists k :: FirstMatch(roomsRes.data, RoomOf(r.value.schedule), k) && roomsRes.data[k] == r.value.room)
      && r.value.schedule.id == id && r.value.room.id == r.value.schedule.idCinema
      && r.value.seats == seatsRes.data.GetOr([])
  {
    if schedulesRes.Failed? then None
    else
      var current := Find(schedulesRes.data, WithId(id));
      if current.None? then None
      else if roomsRes.Failed? then None
      else
        var matched := Find(roomsRes.data, RoomOf(current.value));
        assert forall i :: FirstMatch(schedulesRes.data, WithId(id), i) ==> schedulesRes.data[i] == current.value by {
          forall i | FirstMatch(schedulesRes.data, WithId(id), i) ensures schedulesRes.data[i] == current.value {
            var i0 :| FirstMatch(schedulesRes.data, WithId(id), i0) && schedulesRes.data[i0] == current.value;
            FirstMatchUnique(schedulesRes.data, WithId(id), i, i0);
          }
        }
        if matched.None? then None
        else if seatsRes.Failed? then None
        else
          var i :| FirstMatch(schedulesRes.data, WithId(id), i) && schedulesRes.data[i] == current.value;
          var k :| FirstMatch(roomsRes.data, RoomOf(current.value), k) && roomsRes.data[k] == matched.value;
          assert FirstMatch(schedulesRes.data, WithId(id), i) && 0 <= k < |roomsRes.data|
                 && roomsRes.data[k].id == schedulesRes.data[i].idCinema;
          Some(Loaded(current.value, matched.value, seatsRes.data.GetOr([])))
  }

  // ---------------------------------------------------------------------------
  // The page's state

  const LoadErrorMessage: JsString := Utf16("Error al cargar los asientos. Por favor, intenta nuevamente.")

  const ReservePrefix: JsString := Utf16("Reservando asientos: ")

  /** What the page shows: the spinner, the error alert with its retry button, or the seat map. */
  datatype Screen =
    | Spinner
    | ErrorAlert(message: JsString)
    | SeatMap(tiles: seq<SeatTile>, reserveAlert: Option<JsString>)

  class SeatSelector {
    var room: Option<Room>
    var schedule: Option<Schedule>
    var seats: seq<Seat>
    var loading: bool
    var error: Option<JsString>
    var selectedSeats: seq<JsString>

    /** The selection never holds a name twice. */
    ghost predicate Valid()
      reads this
    {
      NoDup(selectedSeats)
    }

    /** The state of a freshly mounted page. */
    constructor ()
      ensures Valid()
      ensures room == None && schedule == None && seats == [] && loading && error == None && selectedSeats == []
    {
      room, schedule, seats := None, None, [];
      loading, error := true, None;
      selectedSeats := [];
    }

    /**
     * `fetchData` for schedule `id`, with the three responses as inputs. The
     * try block commits schedule, room and seats together only after both
     * lookups succeed; the catch sets the error; the finally clears loading.
     */
    method FetchData(id: int, schedulesRes: Fetch<seq<Schedule>>, roomsRes: Fetch<seq<Room>>,
                     seatsRes: Fetch<Option<seq<Seat>>>)
      requires Valid()
      modifies this
      ensures Valid()
      ensures !loading && selectedSeats == old(selectedSeats)
      ensures Load(id, schedulesRes, roomsRes, seatsRes).Some? ==>
        var l := Load(id, schedulesRes, roomsRes, seatsRes).value;
        error == None && schedule == Some(l.schedule) && room == Some(l.room) && seats == l.seats
      ensures Load(id, schedulesRes, roomsRes, seatsRes).None? ==>
        error == Some(LoadErrorMessage) && schedule == old(schedule) && room == old(room) && seats == old(seats)
    {
      loading := true;
      error := None;
      var thrown := true;
      if schedulesRes.Received? {
        var currentSchedule := Find(schedulesRes.data, WithId(id));
        if currentSchedule.Some? && roomsRes.Received? {
          var matchedRoom := Find(roomsRes.data, RoomOf(currentSchedule.value));
          if matchedRoom.Some? && seatsRes.Received? {
            schedule := currentSchedule;
            room := matchedRoom;
            seats := seatsRes.data.GetOr([]);
            thrown := false;
          }
        }
      }
      if thrown {
        error := Some(LoadErrorMessage);
      }
      loading := false;
    }

    /**
     * The mount effect: loading starts only when the route supplied a schedule
     * id; without one the page keeps its initial state and shows the spinner.
     */
    method Mount(id: Option<int>, schedulesRes: Fetch<seq<Schedule>>, roomsRes: Fetch<seq<Room>>,
                 seatsRes: Fetch<Option<seq<Seat>>>)
      requires Valid()
      modifies this
      ensures Valid() && selectedSeats == old(selectedSeats)
      ensures id.None? ==> loading == old(loading) && error == old(error) && schedule == old(schedule)
                           && room == old(room) && seats == old(seats)
      ensures id.Some? ==> !loading
      ensures id.Some? && Load(id.value, schedulesRes, roomsRes, seatsRes).Some? ==>
        var l := Load(id.value, schedulesRes, roomsRes, seatsRes).value;
        error == None && schedule == Some(l.schedule) && room == Some(l.room) && seats == l.seats
      ensures id.Some? && Load(id.value, schedulesRes, roomsRes, seatsRes).None? ==>
        error == Some(LoadErrorMessage) && schedule == old(schedule) && room == old(room) && seats == old(seats)
    {
      if id.Some? {
        FetchData(id.value, schedulesRes, roomsRes, seatsRes);
      }
    }

    /** `handleSeatClick(name)`. */
    method HandleSeatClick(name: JsString)
      requires Valid()
      modifies this`selectedSeats
      ensures Valid()
      ensures selectedSeats == Click(old(selectedSeats), seats, name)
    {
      var seat := Find(seats, NamedAs(name));
      if seat.Some? && seat.value.status == Some(ReservedStatus) {
        return;
      }
      ClickKeepsNoDup(selectedSeats, seats, name);
      if name in selectedSeats {
        selectedSeats := Filter(selectedSeats, Other(name));
      } else {
        selectedSeats := selectedSeats + [name];
      }
    }

    /** The alert the reserve button raises, offered only while something is selected. */
    function ReserveAlert(): (a: Option<JsString>)
      reads this
      ensures a.Some? <==> |selectedSeats| > 0
      ensures a.Some? ==> StartsWith(a.value, ReservePrefix)
      ensures a.Some? ==> a.value[|ReservePrefix|..] == Join(selectedSeats, Utf16(", "))
    {
      if |selectedSeats| > 0 then Some(ReservePrefix + Join(selectedSeats, Utf16(", "))) else None
    }

    /** The screen for the current state. */
    function View(): (v: Screen)
      reads this
      ensures loading ==> v == Spinner
      ensures !loading && error.Some? && error.value != [] ==> v == ErrorAlert(error.value)
      ensures v.SeatMap? <==> !loading && (error.None? || error.value == [])
      ensures v.SeatMap? && room.None? ==> v.tiles == []
      ensures v.SeatMap? && room.Some? ==>
        v.tiles == SeatTiles(seats, selectedSeats, room.value.rowsNum, room.value.columnsNum)
      ensures v.SeatMap? ==> v.reserveAlert == ReserveAlert()
    {
      if loading then Spinner
      else if error.Some? && error.value != [] then ErrorAlert(error.value)
      else
        var tiles := if room.Some? then SeatTiles(seats, selectedSeats, room.value.rowsNum, room.value.columnsNum) else [];
        SeatMap(tiles, ReserveAlert())
    }
  }
}
