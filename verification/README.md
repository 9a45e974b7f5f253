# Restaurant reservations: availability, booking guard, admin list, route guard

This project models the decision logic of a restaurant table-reservation site in Dafny, and proves properties of it:

- **Availability search** (`GET /api/reservations/available`). It validates `date`, `time`, `guests` and an optional `duration`. It looks up the tables that seat the party, together with their reservations that are not cancelled, and drops every table whose reservations overlap the requested window. It returns the bare table records in the order of the lookup.
- **Reservation creation** (`POST /api/reservations`). This is a short-circuiting cascade: table not found (404), then a required field missing (400), then too few seats (400, naming the table's number and capacity), then a clash with an active reservation on that table (409). Only then is `create` called, the handler's single write (201).
- **Admin dashboard** (`app/admin/dashboard/page.tsx`). The page holds the reservation list and two filters. It updates the list after a successful status change or delete. From the list it derives the visible rows, the four summary counts and the buttons offered on each row.
- **Admin route guard** (`middleware.ts`). It sends a signed-in visitor from `/admin` to `/admin/dashboard`. It sends a visitor who is not signed in from any `/admin/dashboard…` path to `/admin`. Every other request passes.

Shared rules:

- A reservation occupies the half-open interval `[date, date + duration·60000)` in milliseconds.
- A candidate window clashes with an existing one when `start < existingEnd && end > existingStart`, so two bookings that only touch at an endpoint do not clash (`Booking`).
- Store reads are inputs:
  - a `Db` value holds the table rows, in the order the capacity-ascending lookup returns them, and all reservations;
  - `Number(...)` and `new Date(...)` are function parameters that return `None` where JavaScript gives NaN or an invalid date.

Modules:

- `Seqs` (seqs.dfy): filter, map, subsequence and sortedness helpers.
- `Booking` (booking.dfy): the records, windows, the overlap test, the active-reservation query and the no-double-booking invariant.
- `AvailableRoute` (available_route.dfy): the search handler.
- `ReservationsRoute` (reservations_route.dfy): the creation handler.
- `HandlersAgree` (handlers_agree.dfy): the cross-check between the two handlers.
- `Dashboard` (dashboard.dfy): the pure list functions, and the class `DashboardPage` holding the page state.
- `AdminGuard` (admin_guard.dfy): the route guard.

Where the code does something a reader might not expect, the model follows the code:

- The search sorts by capacity only, so tables of equal capacity keep whatever order the store gives.
- The search validates neither the sign nor the size of `duration`. `duration=0` gives a zero-length window, because the string `"0"` is not falsy.
- Creation replaces a duration of 0 by 120.
- Creation rejects a guest count of 0 but accepts a negative one.
- Creation looks the table up before it checks the required fields.

## Model

| member | source | states |
|---|---|---|
| `Booking.Overlaps` | app/api/reservations/available/route.ts:61 | When the test fails the two half-open windows share no instant. When it holds and both windows are non-empty, the later of the two starts lies in both |
| `Booking.AnyOverlap` | app/api/reservations/available/route.ts:56-62 | The short-circuiting `some` over a reservation list is true exactly when some element's window overlaps the candidate |
| `Booking.ActiveReservations` | app/api/reservations/route.ts:60-65 | The store query yields exactly the reservations on the table that are not cancelled, in store order |
| `Booking.ActiveOverlapExists` | app/api/reservations/route.ts:60-71 | A candidate clashes with a table's non-cancelled reservations exactly when some reservation in the store is on that table, is not cancelled, and overlaps the candidate |
| `Booking.ActiveIgnoresCancelled` | app/api/reservations/route.ts:60-65 | Deleting every cancelled reservation beforehand does not change any table's active-reservation list |
| `Booking.OverlapsSymmetric` | app/api/reservations/route.ts:67-71 | The clash test gives the same answer when candidate and existing window swap roles |
| `Booking.TouchingWindowsDoNotOverlap` | app/api/reservations/available/route.ts:61 | A window that ends exactly when another starts does not clash with it, in either role |
| `Booking.Span` | app/api/reservations/route.ts:56-58 | A window starts at the given instant and is `minutes·60000` ms long, so it is non-empty for a positive duration |
| `AvailableRoute.RequestedDuration` | app/api/reservations/available/route.ts:10 | An absent or empty `duration` gives 120 minutes; any other text is converted as it stands, including "0" |
| `AvailableRoute.Validate` | app/api/reservations/available/route.ts:7-33 | Missing date, time or guests is `MissingParams`. Otherwise a guest count that is not a number or is below 1 is `InvalidGuests`. Otherwise an unparseable `date+"T"+time` is `InvalidDateTime`. A valid query yields guests ≥ 1, the parsed start and the requested duration |
| `AvailableRoute.HttpStatus` | app/api/reservations/available/route.ts:13-68 | Found tables go out with 200 and every validation error with 400 |
| `AvailableRoute.Search` | app/api/reservations/available/route.ts:4-68 | A 400 error exactly when validation fails, carrying its error. Otherwise the tables offered for the validated request, with status 200. No table lookup happens on an error |
| `AvailableRoute.FindTables` | app/api/reservations/available/route.ts:40-52 | The lookup's tables are exactly the stored tables seating the party, in store order. Each row carries that table's non-cancelled reservations |
| `AvailableRoute.Bookable` | app/api/reservations/available/route.ts:55-66 | At most as many tables as are stored. Every table returned is stored, seats the party, and has no non-cancelled reservation overlapping the window |
| `AvailableRoute.BookableIsOnePass` | app/api/reservations/available/route.ts:40-66 | The two stages (store capacity filter, then overlap filter and projection) equal one filter of the stored tables by "seats the party and is not blocked" |
| `AvailableRoute.BookableExactly` | app/api/reservations/available/route.ts:40-63 | A table is offered iff it is stored, has capacity ≥ guests, and (for a numeric duration) no non-cancelled reservation on it overlaps `[start, start+duration·60000)` |
| `AvailableRoute.BookableKeepsOrder` | app/api/reservations/available/route.ts:51-66 | The result is a subsequence of the stored table order. It is capacity-ascending whenever that order is |
| `AvailableRoute.CancelledNeverBlock` | app/api/reservations/available/route.ts:44-49 | The result is unchanged when every cancelled reservation is deleted first |
| `AvailableRoute.SmallerPartyStillOffered` | app/api/reservations/available/route.ts:40-43 | A table offered to a party is still offered to any smaller party of at least one guest |
| `AvailableRoute.NaNDurationBlocksNothing` | app/api/reservations/available/route.ts:35-61 | With a non-numeric duration the end instant is invalid and no comparison with it holds. Every table with enough seats is offered |
| `AvailableRoute.DefaultDurationIs120` | app/api/reservations/available/route.ts:10 | A query without `duration` answers exactly as the same query with `duration=120` |
| `AvailableRoute.SmallestSuitableFirst` | app/api/reservations/available/route.ts:40-66 | Tables seating 2, 4 and 6 with no bookings: a party of three is offered the 4-seat table, then the 6-seat one |
| `ReservationsRoute.FindTable` | app/api/reservations/route.ts:28-30 | The table found is stored and has the requested id. None is found exactly when no stored table has that id |
| `ReservationsRoute.MissingField` | app/api/reservations/route.ts:40 | A guest count of 0 counts as missing. When nothing is missing, name, email, phone and date are non-empty and guests is non-zero |
| `ReservationsRoute.CandidateDuration` | app/api/reservations/route.ts:56 | `body.duration \|\| 120`: never zero, equal to the body's duration when that is non-zero, and 120 when it is 0 |
| `ReservationsRoute.Guard` | app/api/reservations/route.ts:28-78 | The cascade in order: not-found, then missing field (0 guests counts as missing), then too few seats (carrying the table's number and capacity), then an invalid date (500 at `create`), then a clash with an active reservation on the table (409). A pass gives the found table and a window clashing with none of them |
| `ReservationsRoute.HttpStatus` | app/api/reservations/route.ts:33-102 | Only a creation is a success (201). A missing table is 404, a missing field or too few seats 400, a clash 409, a failed `create` 500 |
| `ReservationsRoute.Post` | app/api/reservations/route.ts:23-96 | A record is created exactly when the checks pass, and on a failure the check's error is the answer. The status is 201 iff the checks pass, 404 iff no stored table has the id, 400 iff the table exists and a field is missing or it has too few seats, 409 iff the checks end in a clash, 500 iff the date is invalid. The created data copies name, email, phone, the parsed date, guests and tableId, maps an empty note to null, and carries no duration |
| `ReservationsRoute.CreateData` | app/api/reservations/route.ts:81-90 | The create data copies name, email, phone, guests and tableId and the parsed date. An empty note becomes null and any other note is kept. No duration is passed, so the stored row always lasts 120 minutes |
| `ReservationsRoute.Stored` | app/api/reservations/route.ts:81-94 | The stored row keeps every field of the create data (name, email, phone, date, guests, tableId, notes) with the given id and creation time. Its status is PENDING, and its duration is the one passed or else the 120-minute column default |
| `ReservationsRoute.CancelledNeverConflict` | app/api/reservations/route.ts:60-65 | The verdict is unchanged when every cancelled reservation is deleted first |
| `ReservationsRoute.NegativeGuestsPass` | app/api/reservations/route.ts:40-53 | A negative guest count is neither missing nor over capacity, so it is booked |
| `ReservationsRoute.DroppedDurationDoubleBooks` | app/api/reservations/route.ts:56-94 | As written: a table is booked 19:00–21:00. A 60-minute request at 18:00 passes the check, but the stored row occupies 18:00–20:00 and double-books the table |
| `ReservationsRoute.CreateDataKeepingDuration` | app/api/reservations/route.ts:81-90 | Corrected create data: as written, plus the duration that was checked |
| `ReservationsRoute.PostKeepingDuration` | app/api/reservations/route.ts:23-96 | Corrected handler: same verdict as `Post`. The created data differs only in carrying the checked duration |
| `ReservationsRoute.KeepingDurationPreservesNoDoubleBooking` | app/api/reservations/route.ts:60-94 | With the checked duration stored, a successful create keeps every table free of overlapping active reservations |
| `HandlersAgree.OfferedTablePassesGuard` | app/api/reservations/route.ts:48-78 | Table ids are unique. Then every table the search offers for a request passes the creation checks for the same table, party, start and duration, and is created |
| `HandlersAgree.AcceptedTableIsOffered` | app/api/reservations/available/route.ts:40-63 | Every table the creation checks accept, for at least one guest, is offered by the search for the same party, start and duration |
| `HandlersAgree.ZeroDurationDisagreement` | app/api/reservations/available/route.ts:10 | An explicit duration of 0 is kept by the search and replaced by 120 at creation. A table the search offers at 19:00 is then refused with 409 |
| `Dashboard.CanTransition` | app/admin/dashboard/page.tsx:332-356 | The lifecycle never stays put and never goes back to PENDING. CANCELLED and COMPLETED have no way out |
| `Dashboard.Actions` | app/admin/dashboard/page.tsx:332-362 | Every row ends with a delete button, and every button before it is a status change |
| `Dashboard.ActionsFollowLifecycle` | app/admin/dashboard/page.tsx:332-356 | A status button to `t` is offered on a row with status `s` exactly when PENDING→CONFIRMED/CANCELLED or CONFIRMED→CANCELLED/COMPLETED allows `s`→`t` |
| `Dashboard.FinalStatusesOnlyDelete` | app/admin/dashboard/page.tsx:332-362 | CANCELLED and COMPLETED rows offer only delete |
| `Dashboard.WithStatus` | app/admin/dashboard/page.tsx:82-86 | Same length and order. An entry with the id gets the new status, any other keeps its own, and every other field is unchanged |
| `Dashboard.WithStatusIdempotent` | app/admin/dashboard/page.tsx:82-86 | Applying the same status change twice equals applying it once |
| `Dashboard.Without` | app/admin/dashboard/page.tsx:101-103 | After a delete the list holds exactly the entries with another id, in their original order |
| `Dashboard.DeleteAfterUpdate` | app/admin/dashboard/page.tsx:81-103 | Deleting an id after changing its status gives the same list as deleting it outright |
| `Dashboard.FilterRows` | app/admin/dashboard/page.tsx:109-116 | The rows shown are the list entries matching the non-empty status filter and the non-empty date filter, in list order |
| `Dashboard.NoFilterShowsAll` | app/admin/dashboard/page.tsx:109-116 | With both filters empty every entry is shown |
| `Dashboard.StatusCountsPartition` | app/admin/dashboard/page.tsx:128-131 | The pending, confirmed, cancelled and completed counts add up to the list length |
| `Dashboard.CountsOf` | app/admin/dashboard/page.tsx:128-137 | `total` is the list length. pending + confirmed ≤ total, and the day's count is at most the total |
| `Dashboard.CountsBounded` | app/admin/dashboard/page.tsx:128-137 | `total` is the list length. pending + confirmed + cancelled ≤ total, and today + cancelled ≤ total |
| `Dashboard.TodayAndCancelledDisjoint` | app/admin/dashboard/page.tsx:132-136 | Every entry counted for today is in the list, on today's local day, and not cancelled. So no cancelled entry is counted for today, and today + cancelled ≤ total |
| `Dashboard.DashboardPage.constructor` | app/admin/dashboard/page.tsx:46-49 | The page starts with an empty list, loading, and both filters empty |
| `Dashboard.DashboardPage.FetchReservations` | app/admin/dashboard/page.tsx:51-61 | A listed response replaces the list and a thrown error keeps it. Loading ends either way and the filters are untouched |
| `Dashboard.DashboardPage.Refresh` | app/admin/dashboard/page.tsx:234-238 | The refresh button leaves the same state as a load |
| `Dashboard.DashboardPage.UpdateStatus` | app/admin/dashboard/page.tsx:73-91 | A successful update sets the list to `WithStatus` of the old list. A failed one leaves it unchanged. Loading and filters are untouched |
| `Dashboard.DashboardPage.DeleteReservation` | app/admin/dashboard/page.tsx:93-107 | Only a confirmed and successful delete sets the list to the old list without that id. Declining or failing changes nothing |
| `Dashboard.DashboardPage.SetFilterDate` | app/admin/dashboard/page.tsx:197-201 | Sets the date filter only |
| `Dashboard.DashboardPage.SetFilterStatus` | app/admin/dashboard/page.tsx:208-211 | Sets the status filter only |
| `Dashboard.DashboardPage.ClearFilters` | app/admin/dashboard/page.tsx:223-226 | Both filters become empty, the list is untouched, and the rows shown equal the whole list |
| `AdminGuard.Middleware` | middleware.ts:5-22 | Redirect to the dashboard iff on `/admin` and signed in. Redirect to `/admin` iff on a path starting with `/admin/dashboard` and not signed in. Pass otherwise |
| `AdminGuard.IsDashboard` | middleware.ts:9 | `startsWith("/admin/dashboard")`: the path is at least as long as the prefix and begins with it |
| `AdminGuard.IsLoginPage` | middleware.ts:8 | Only `/admin` itself is the login page, and it is shorter than the dashboard prefix |
| `AdminGuard.LoginPageIsNotDashboard` | middleware.ts:8-9 | `/admin` does not start with `/admin/dashboard`, so the two redirect conditions never hold together |
| `AdminGuard.NoRedirectLoop` | middleware.ts:12-21 | The target of any redirect passes the guard for the same session |
| `AdminGuard.DashboardSubpathsGuarded` | middleware.ts:9-19 | Every path under `/admin/dashboard` redirects to `/admin` without a session and passes with one |

## Findings

| source | as written | input that shows it | evidently intended | confidence | as-written member | corrected member |
|---|---|---|---|---|---|---|
| app/api/reservations/route.ts:56-90 | The overlap check uses `body.duration \|\| 120`, but `create` is not given a duration, so the stored row takes the column default of 120 minutes | Table 1 booked 19:00–21:00. POST for table 1 at 18:00 with `duration: 60`. The check sees 18:00–19:00 and passes, but the stored row spans 18:00–20:00 | Pass the checked duration to `create` | medium, not executed; the booking page never sends `duration`, so only direct API calls reach it; the 120-minute column default comes from prisma/schema.prisma, which is not part of this model | `ReservationsRoute.DroppedDurationDoubleBooks` | `ReservationsRoute.KeepingDurationPreservesNoDoubleBooking` |

## Left out

- Store queries (`findMany`, `findUnique`, `create`) are inputs and outputs. `Db.tables` is taken to be already in the order the lookup's `orderBy: capacity` returns, so the sort itself, with its unspecified order among equal capacities, is not modelled. `create` is the payload handed to the store (`NewReservation`), plus `Stored` for the row it becomes; id and creation time are parameters.
- Store failures and the 500 responses of the `catch` blocks in both handlers are not modelled. The exception is an invalid creation date, which the model maps to `ServerError` where `create` would throw. The check-then-write race between the overlap check and `create` is not modelled either: it needs concurrency, and the code has no lock.
- `Number()` is modelled only for integers. Fractional or infinite guest counts and durations are not modelled. A missing or non-numeric `tableId` in the POST body is not modelled (the store would throw). Neither is a POST body field of an unexpected JSON type.
- JavaScript `Date` is not modelled: parsing, time zones, the valid-range limit of `Date`, `toISOString` and `toDateString`. All are parameters (`toInstant`, `isoDay`, `localDay`, `now`).
- Error responses carry a kind (`MissingParams`, `OverCapacity(number, capacity)`, …), not the Spanish message text.
- `GET /api/reservations` (a store read ordered by date) and the `/api/reservations/[id]` update and delete handlers are not modelled. The dashboard sees their results only as the `ok` flag and the listed data.
- Dashboard session handling is not modelled: the `useSession` status, the redirect of an unauthenticated visitor and the sign-out button. Neither are the loading spinner, the rendering, or the joined `table` field of each row.
- `Dashboard.DashboardPage.FetchReservations`: a list request that answers with an error object replaces the list with that object, and the page then fails to render. The model takes the answer to be a list or a thrown error.
- `AdminGuard.Middleware`: the `matcher` configuration that limits the guard to `/admin` paths, the token lookup (the boolean `isAuth`) and URL building are not modelled.
