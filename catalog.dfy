/**
 * The records the REST API returns, as the pages read them. Field names follow
 * the JSON keys: `rows_num`, `columns_num`, `id_cinema`, `full_name`.
 * Identifiers, dimensions and times are integers here; a fetched value of
 * another JavaScript type is not modelled.
 */
module Catalog {
  import opened Wrappers
  import opened JsText

  /** A cinema room (`/rooms`); `img` may be absent. */
  datatype Room = Room(id: int, name: JsString, rowsNum: nat, columnsNum: nat, movie: JsString, img: Option<JsString>)

  /** A showtime (`/schedules`); `idCinema` is the id of the room it plays in. */
  datatype Schedule = Schedule(id: int, idCinema: int, date: JsString, time: JsString)

  /** A seat of one showtime (`/seats/<schedule id>`); `status` may be absent. */
  datatype Seat = Seat(fullName: JsString, status: Option<JsString>)

  /** The outcome of one HTTP request: the response body, or a rejected promise. */
  datatype Fetch<T> = Received(data: T) | Failed
}
