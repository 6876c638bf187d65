# Cinema front-end: seat selection, route guard and listings

This project models the client-side logic of a cinema ticketing web front-end
(React pages over a REST API) and proves its properties in Dafny:

- **Seat selection** (`SeatSelection`, `seatselection.dfy`). Each seat's label
  is built from its grid position: the code unit `65 + row` (modulo 2^16)
  followed by the decimal numeral of `col + 1`. A click toggles a seat name in the `selectedSeats`
  list, and clicks on seats fetched as `"reserved"` are refused. Each seat tile
  shows as selected over reserved over available: a selected seat shows as
  selected even when reserved, and an unselected reserved seat as reserved. Loading
  commits the schedule, the room and the seats together, and only after both
  lookups succeed. The page state is a class, `SeatSelector`, whose methods
  change its fields the way the React state setters do.
- **Route guard** (`ProtectedRoute`, `protectedroute.dfy`). The guard reads the
  stored `token`. It either renders the protected page, or redirects to
  `/login`, removing a malformed or expired token from storage on the way. The
  storage slot is a class, `LocalStorage`. `atob` and `JSON.parse` together are
  a parameter `decode`, a partial function. The clock is a parameter `now`.
- **Schedule list** (`ScheduleList`, `schedulelist.dfy`). This covers the
  heading's room lookup, the filter of schedules by `id_cinema`, and the
  `/seats/<id>` target of each button.
- **Room list** (`RoomList`, `roomlist.dfy`). This covers the card image
  fallback chain, the seat count `rows_num * columns_num`, and the switch from
  four placeholder cards to one card per fetched room. The switch is a class,
  `RoomsList`, driven by the fetch callbacks.

Support modules:

- `JsText`: JavaScript strings as sequences of UTF-16 code units.
  `String.fromCharCode` wraps modulo 2^16. A natural renders as its canonical
  decimal numeral (no leading zero), with a proved read-back in both
  directions; a negative integer renders as a minus sign before the numeral of
  its magnitude. `split` and `join` on one separator.
- `JsArray`: `find` and `filter`.
- `Catalog`: the fetched records and the outcome of one HTTP request.
- `Wrappers`: `Option`.

Fetched data, the route's schedule id, the clock and the token decoder are all
inputs. No HTTP request is modelled.

The repository holds no reservation service. The "Reservar Asientos" button
only raises an alert listing the selected seats
(`src/pages/SeatSelector.jsx:171`). The reserve action is therefore modelled
only as the alert text it shows (`SeatSelector.ReserveAlert`).

The route for the seat page declares the parameter `:cinemaId`
(`src/routes/index.jsx:67`). The page reads `id` (`src/pages/SeatSelector.jsx:11`).
So in the repository as written, the mount effect never starts loading, and
the page stays on its spinner. The model takes the schedule id as an explicit
parameter (`SeatSelector.Mount`, `SeatSelector.FetchData`). `Mount` with no id
states the spinner outcome.

## Model

| member | source | states |
|---|---|---|
| JsText.FromCharCode | src/pages/SeatSelector.jsx:60 | the code unit equals its argument inside 0..65535 and is congruent to it modulo 2^16 in general |
| JsText.NatToDecimal | src/pages/SeatSelector.jsx:60 | the numeral of a natural is canonical: non-empty, all digits, and without a leading zero |
| JsText.DecimalRoundTrip | src/pages/SeatSelector.jsx:60 | reading the numeral of n back in base 10 gives n |
| JsText.NumeralIsCanonical | src/pages/SeatSelector.jsx:60 | the other round trip: a canonical numeral is the numeral of its own value |
| JsText.NumeralsEqualByValue | src/pages/SeatSelector.jsx:60 | two canonical numerals are equal exactly when their values are |
| JsText.IntToDecimal | src/pages/ScheduleList.jsx:32 | a non-negative integer prints as its canonical numeral, whose value is the integer; a negative one as `-` followed by the canonical numeral of its magnitude; the result is all digits exactly when the integer is non-negative |
| JsText.ReadsAsUnique | src/pages/ScheduleList.jsx:32 | the printed form pins the string down: two strings printing integers are equal exactly when the integers are |
| JsText.IntToDecimalInjective | src/pages/ScheduleList.jsx:32 | two integers have the same numeral exactly when they are equal |
| JsText.Split | src/routes/ProtectedRoute.jsx:12 | a split has at least one piece and no piece contains the separator |
| JsText.JoinSplit | src/routes/ProtectedRoute.jsx:12 | joining the pieces with the separator restores the token |
| JsText.SplitHasSecond | src/routes/ProtectedRoute.jsx:12 | a second piece exists exactly when the token contains the separator |
| JsArray.Find | src/pages/SeatSelector.jsx:24 | nothing is found exactly when no element matches; otherwise the result is the element at the first matching position |
| JsArray.Filter | src/pages/ScheduleList.jsx:25 | every kept element matches and comes from the input; every matching input element is kept |
| JsArray.FilterConcat | src/pages/ScheduleList.jsx:25 | filtering distributes over concatenation, so the input order is kept |
| JsArray.FilterKeepsAll | src/pages/SeatSelector.jsx:53 | a list whose every element matches is kept unchanged |
| JsArray.FilterDropsOne | src/pages/SeatSelector.jsx:53 | dropping one rejected element between two kept parts joins the parts |
| JsArray.FilterNoDup | src/pages/SeatSelector.jsx:53 | filtering a duplicate-free list leaves it duplicate-free |
| SeatSelection.SeatLabel | src/pages/SeatSelector.jsx:60 | the first code unit is (65 + row) mod 2^16; the rest is the canonical numeral (no leading zero) of col + 1 |
| SeatSelection.LabelInjective | src/pages/SeatSelector.jsx:60 | within the first 65536 rows, two positions share a label exactly when they are equal |
| SeatSelection.LabelsRepeatAfter65536Rows | src/pages/SeatSelector.jsx:60 | row 65536 gets the same label as row 0, because `fromCharCode` wraps |
| SeatSelection.Grid | src/pages/SeatSelector.jsx:138-143 | the grid has rows × columns positions, all in bounds, in strictly row-by-row order |
| SeatSelection.GridCovers | src/pages/SeatSelector.jsx:138-143 | every in-bounds position is rendered |
| SeatSelection.GridLabels | src/pages/SeatSelector.jsx:138-143 | one label per rendered position; every label is the label of an in-bounds seat, and every in-bounds seat's label occurs |
| SeatSelection.GridLabelsDistinct | src/pages/SeatSelector.jsx:60-72 | in a room of at most 65536 rows, the rendered seats' labels, which are also their React keys, are pairwise distinct |
| SeatSelection.IsReserved | src/pages/SeatSelector.jsx:61-62 | a name is reserved exactly when the first fetched seat carrying it has status `"reserved"` |
| SeatSelection.UnlistedSeatIsNotReserved | src/pages/SeatSelector.jsx:61-62 | a name missing from the fetched seats is not reserved |
| SeatSelection.Click | src/pages/SeatSelector.jsx:48-57 | a reserved seat leaves the selection unchanged; a free unselected seat is appended; a free selected seat is removed and every other entry stays; no entry other than the clicked name is introduced |
| SeatSelection.ClickRemovesEntry | src/pages/SeatSelector.jsx:52-53 | deselecting entry i of a duplicate-free selection yields exactly the selection without position i, in the same order |
| SeatSelection.ClickTwiceRestores | src/pages/SeatSelector.jsx:52-56 | clicking the same free, unselected seat twice restores the original list |
| SeatSelection.ClickKeepsNoDup | src/pages/SeatSelector.jsx:52-56 | a click never creates a duplicate |
| SeatSelection.ClickKeepsSelectionFree | src/pages/SeatSelector.jsx:49-50 | with the fetched seats unchanged, a click never adds a reserved seat to the selection |
| SeatSelection.ClicksKeepInvariant | src/pages/SeatSelector.jsx:17 | from a duplicate-free selection with no reserved entry (the empty initial one included), any sequence of clicks keeps both properties |
| SeatSelection.DisplayStatus | src/pages/SeatSelector.jsx:61-67 | selected exactly when in the selection, even if reserved; otherwise reserved exactly when fetched as reserved; otherwise available, also when the seat is missing from the fetched list |
| SeatSelection.Colour | src/pages/SeatSelector.jsx:65-67 | each status's background is a seven-character `#` colour |
| SeatSelection.ColoursDistinct | src/pages/SeatSelector.jsx:65-67 | the three statuses have three different colours |
| SeatSelection.RenderSeat | src/pages/SeatSelector.jsx:59-92 | the tile carries the position's label; it shows as selected exactly when the label is selected, as reserved exactly when it is unselected and blocked, and as available exactly when it is unselected and not blocked; it is blocked (not-allowed cursor, cancel icon) exactly when the seat is fetched as reserved; its colour is its status's colour |
| SeatSelection.SeatTiles | src/pages/SeatSelector.jsx:138-143 | there are rows × columns tiles, tile i rendering grid position i with its label |
| SeatSelection.SelectedTilesAreFree | src/pages/SeatSelector.jsx:49-67 | while the selection holds no reserved seat, a tile shown as selected is never blocked |
| SeatSelection.Load | src/pages/SeatSelector.jsx:23-35 | loading succeeds exactly when all three requests answer, a schedule has the id, and a room matches the first such schedule's `id_cinema`; it then yields that first schedule, the first matching room, and the seat body (empty when absent) |
| SeatSelection.SeatSelector.constructor | src/pages/SeatSelector.jsx:12-17 | the initial state has no room, no schedule, no seats, loading on, no error and an empty selection |
| SeatSelection.SeatSelector.FetchData | src/pages/SeatSelector.jsx:19-42 | loading ends either way; on success schedule, room and seats are committed and the error is cleared; on failure the error message is set and schedule, room and seats are left as they were; the selection is untouched |
| SeatSelection.SeatSelector.Mount | src/pages/SeatSelector.jsx:44-46 | without an id nothing changes; with one, loading ends, and on a successful load schedule, room and seats are committed and the error cleared, while on a failed one the error message is set and schedule, room and seats are kept |
| SeatSelection.SeatSelector.HandleSeatClick | src/pages/SeatSelector.jsx:48-57 | the new selection is `Click` of the old one; the selection stays duplicate-free; no other field changes |
| SeatSelection.SeatSelector.ReserveAlert | src/pages/SeatSelector.jsx:162-171 | the reserve action is offered exactly when the selection is non-empty; its alert is the fixed prefix followed by the selection joined with `, ` |
| SeatSelection.SeatSelector.View | src/pages/SeatSelector.jsx:97-176 | the spinner while loading; the alert when an error is set; otherwise the seat map of the room's tiles, empty without a room, with the reserve action |
| ProtectedRoute.PayloadSegment | src/routes/ProtectedRoute.jsx:12-13 | the payload is the second `.`-separated piece when there is one, and the text `undefined` otherwise |
| ProtectedRoute.Expired | src/routes/ProtectedRoute.jsx:15 | claims without a numeric `exp` never expire; claims with one expire exactly when the clock, in whole seconds, has reached `exp` |
| ProtectedRoute.Decide | src/routes/ProtectedRoute.jsx:4-26 | no token or an empty one redirects and leaves storage alone; an undecodable payload or `now >= exp*1000` redirects and removes the token; otherwise the page renders and the token is kept; the only outcomes are the page or `/login` |
| ProtectedRoute.RendersExactlyWhenValid | src/routes/ProtectedRoute.jsx:15-20 | the page renders exactly when a non-empty token decodes to claims that have not expired |
| ProtectedRoute.ExpiryInstantIsExpired | src/routes/ProtectedRoute.jsx:15-17 | at `now == exp*1000` the token is already expired: it is removed and the user redirected |
| ProtectedRoute.TokenWithoutDotIsRemoved | src/routes/ProtectedRoute.jsx:12-24 | a non-empty token without a `.` hands `undefined` to the decoder; when that fails to decode, the token is removed and the user redirected |
| ProtectedRoute.AcceptedEarlierToo | src/routes/ProtectedRoute.jsx:15 | a token accepted at some instant is accepted at every earlier instant |
| ProtectedRoute.DecisionDependsOnPayload | src/routes/ProtectedRoute.jsx:12-15 | tokens with the same payload segment get the same decision |
| ProtectedRoute.RejectedTokenStaysRejected | src/routes/ProtectedRoute.jsx:5-24 | as long as nothing stores a new token (the login form does, at `src/pages/Login.jsx:27`), the check after a redirect, made on the slot the guard left, redirects again without touching storage |
| ProtectedRoute.LocalStorage.constructor | src/routes/ProtectedRoute.jsx:5 | the slot holds the value it is created with |
| ProtectedRoute.Guard | src/routes/ProtectedRoute.jsx:4-26 | the rendered route is the decision's route; the slot is emptied exactly when the decision removes the token |
| ScheduleList.RoomFor | src/pages/ScheduleList.jsx:20 | no room exactly when no id matches; otherwise the first room with the route id |
| ScheduleList.SchedulesFor | src/pages/ScheduleList.jsx:25 | the listed schedules are exactly the fetched ones whose `id_cinema` is the route id |
| ScheduleList.SchedulesForKeepsOrder | src/pages/ScheduleList.jsx:25 | the listing distributes over concatenation of the fetched list, so the fetched order is kept |
| ScheduleList.SchedulesForKeepsMatching | src/pages/ScheduleList.jsx:25 | a fetched list that belongs wholly to the room is listed unchanged |
| ScheduleList.SelectPath | src/pages/ScheduleList.jsx:30-33 | the target starts with `/seats/` and continues with exactly the printed id: the canonical numeral of a non-negative id, `-` and the numeral of the magnitude of a negative one |
| ScheduleList.SelectPathInjective | src/pages/ScheduleList.jsx:32 | two schedules navigate to the same path exactly when their ids agree |
| ScheduleList.ButtonFor | src/pages/ScheduleList.jsx:46-53 | the key is the schedule id; the caption starts with the date and ends with the time, three code units apart; the target starts with `/seats/` and continues with the printed id |
| ScheduleList.ScheduleListing | src/pages/ScheduleList.jsx:41-56 | an empty list shows the "no schedules" message; otherwise there is one button per schedule, in order, each navigating to its path |
| ScheduleList.ListingKeysDistinct | src/pages/ScheduleList.jsx:45-53 | schedules with pairwise distinct ids get pairwise distinct React keys and navigation targets |
| ScheduleList.Heading | src/pages/ScheduleList.jsx:38 | the heading is never blank: it is the room's name when a room is present with a non-empty name, and `Sala` in every other case |
| ScheduleList.HeadingNamesRouteRoom | src/pages/ScheduleList.jsx:20-38 | the heading is `Sala` or the name of a fetched room with the route id, and it is the first such room's name whenever that name is non-empty |
| RoomList.TableEntriesNonEmpty | src/pages/RoomList.jsx:8-14 | every entry of the image table is non-empty, so a table hit always wins the fallback |
| RoomList.CardImage | src/pages/RoomList.jsx:107-110 | the table entry for the movie; else `img` when present and starting with `http`; else the placeholder; never empty |
| RoomList.SeatCount | src/pages/RoomList.jsx:136 | the displayed count equals the number of seats the seat page renders for the room |
| RoomList.CardFor | src/pages/RoomList.jsx:88-146 | the card's key is the room id, its image the fallback chain's, its seat count the rendered seat count, and it shows the room's name, movie and dimensions; its link starts with `/schedules/` and continues with exactly the printed id |
| RoomList.CardLinkInjective | src/pages/RoomList.jsx:146 | two rooms' cards link to the same page exactly when the rooms' ids agree |
| RoomList.Cards | src/pages/RoomList.jsx:88 | one card per room, card i for room i |
| RoomList.RoomsList.constructor | src/pages/RoomList.jsx:17-18 | the page starts with no rooms and loading on |
| RoomList.RoomsList.OnRoomsLoaded | src/pages/RoomList.jsx:23-26 | a resolved fetch stores the rooms and ends loading |
| RoomList.RoomsList.OnRoomsFailed | src/pages/RoomList.jsx:27-30 | a rejected fetch ends loading and leaves the rooms as they were |
| RoomList.RoomsList.View | src/pages/RoomList.jsx:66-88 | exactly four skeleton cards while loading; afterwards one card per fetched room, in fetched order |

## Left out

- HTTP: every request through the `api` client. The response bodies are inputs (`Catalog.Fetch`). The order in which `fetchData` issues its three requests, and the fact that it skips the later ones after a failed lookup, are not observable in the model.
- React scheduling: state setters are batched and asynchronous. Each handler is modelled as one atomic update, so the intermediate `loading == true` of `fetchData` is not observable, and two overlapping loads are not modelled.
- Layout, styling and icons beyond the status decision: MUI components and `sx` props.
- Console logging: the `console.error` calls in the failure paths (`src/pages/SeatSelector.jsx:37`, `src/pages/RoomList.jsx:28`) have no effect on page state.
- Login, registration, the room form, the schedule form, the reservations board and the entry point. They copy form fields into a request or format rows for display.
- Routing: react-router matching and `parseInt` of route parameters. Ids reach the model as integers. The `:cinemaId` versus `id` mismatch is described above and not modelled further.
- `atob`, `JSON.parse` and `Date.now()`: these are the parameters `decode` and `now`. The decoder yields nothing exactly when `atob`, `JSON.parse`, the read of `decoded.exp` or its numeric conversion in `exp * 1000` throws, all caught at `src/routes/ProtectedRoute.jsx:21`. A payload that parses to `null` is one such case. An `exp` object, or an array element of `exp`, whose conversion throws because neither `valueOf` nor `toString` yields a primitive (for example `{"exp": {"toString": 1}}` or `{"exp": [{"toString": 1}]}`) is another. Otherwise it must report `exp` as `Claims(None)` exactly when `exp * 1000` is NaN in the browser: no `exp` (also for a payload that parses to a number, string or boolean), a string that does not read as a number, a non-array object whose conversion does not throw, or an array whose joined text does not read as a number. Such claims never expire, as NaN comparisons behave. Values that JavaScript converts to a number are reported as that number: `null`, `false`, `""`, `[]` and `[null]` as 0, `true` as 1, a numeric string or a one-element array such as `[5]` or `["5"]` as its value. A fractional `exp` is not modelled.
- JavaScript numbers: ids and times are unbounded integers. Room dimensions are naturals (`nat`), so a negative dimension is excluded: the source would show a negative seat count for it (`src/pages/RoomList.jsx:136`) and throw a RangeError in `Array(n)` on the seat page. Floating point, fractional dimensions and coercion of non-numeric values are not modelled.
- Fetched values of unexpected JavaScript types: a non-string `status` or `img`, a non-array seat body, and falsy bodies other than an absent one for `seatRes.data || []`.
- Object-prototype keys of the image table (`movieImages["constructor"]`) and a missing `movie` field, which looks up the key `undefined`. The table is a finite map keyed by the movie title.
- The schedule list's two fetches have no failure handler. A rejected fetch leaves the initial empty list and no room, which is what `ScheduleListing([])` and `Heading(None)` show.
- The router state `{ schedule }` that `handleSelect` passes along with the path (`src/pages/ScheduleList.jsx:32`): the seat page reloads the schedule by id and never reads it.
- Reservation itself: the button only raises an alert, and no server-side reservation or concurrency logic exists in the repository.
- `JsText.Utf16` (used only for the pages' string literals): a character outside the Basic Multilingual Plane becomes U+FFFD instead of a surrogate pair. No literal the model uses contains one; the emoji of the room cards (`src/pages/RoomList.jsx:121`, `:131`) lie outside it, but they are layout and are not modelled.
