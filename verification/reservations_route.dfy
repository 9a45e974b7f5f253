/** Reservation creation (`POST /api/reservations`): an early-return
    cascade (table exists, required fields present, capacity suffices, no
    overlap with the table's non-cancelled reservations) followed by the
    single write, `create`. The write is modelled by the payload that the
    handler hands to the store; a failure hands over nothing.

    `new Date(body.date)` is the parameter `toInstant`, `None` for an
    invalid date. */
module ReservationsRoute {
  import opened Seqs
  import opened Booking

  /** The JSON body. A text field that is absent, null or empty is ""; a
      numeric field that is absent, null or 0 is 0: the handler treats each
      group alike, as falsy. */
  datatype Body = Body(
    tableId: int,
    name: string,
    email: string,
    phone: string,
    date: string,
    guests: int,
    duration: int,
    notes: string)

  /** The data passed to `create`. `duration` is `None` when the handler
      does not pass one, so that the column default applies. */
  datatype NewReservation = NewReservation(
    name: string,
    email: string,
    phone: string,
    date: int,
    guests: int,
    tableId: int,
    notes: Option<string>,
    duration: Option<int>)

  datatype PostResponse =
    | Created(reservation: NewReservation, table: Table)
    | TableNotFound
    | MissingFields
    | OverCapacity(tableNumber: int, capacity: int)
    | Conflict
    | ServerError

  /** The outcome of the checks: go ahead with the found table and the
      parsed start instant, or answer with an error. */
  datatype Verdict = Pass(table: Table, start: int) | Reject(response: PostResponse)

  /** Column defaults the store fills in on `create` (the schema file,
      prisma/schema.prisma, is not part of this model). */
  const ColumnDefaultDuration: int := 120
  const ColumnDefaultStatus: Status := Pending

  /** The status code each answer is sent with: only a creation is a
      success, and each error kind has its own code except the two 400s. */
  function HttpStatus(r: PostResponse): (code: int)
    ensures 200 <= code < 300 <==> r.Created?
    ensures code == 201 <==> r.Created?
    ensures code == 404 <==> r.TableNotFound?
    ensures code == 400 <==> r.MissingFields? || r.OverCapacity?
    ensures code == 409 <==> r.Conflict?
    ensures code == 500 <==> r.ServerError?
  {
    match r
    case Created(_, _) => 201
    case TableNotFound => 404
    case MissingFields => 400
    case OverCapacity(_, _) => 400
    case Conflict => 409
    case ServerError => 500
  }

  /** `findUnique` by id: the first table with that id, if any. */
  function FindTable(tables: seq<Table>, id: int): (r: Option<Table>)
    ensures r.Some? ==> r.value in tables && r.value.id == id
    ensures r.None? <==> forall i :: 0 <= i < |tables| ==> tables[i].id != id
  {
    if tables == [] then None
    else if tables[0].id == id then Some(tables[0])
    else FindTable(tables[1..], id)
  }

  /** One of name, email, phone, date or guests is falsy; a guest count of
      zero is as missing as an absent one. */
  function MissingField(b: Body): (r: bool)
    ensures b.guests == 0 ==> r
    ensures !r ==> |b.name| > 0 && |b.email| > 0 && |b.phone| > 0 && |b.date| > 0 && b.guests != 0
  {
    b.name == "" || b.email == "" || b.phone == "" || b.date == "" || b.guests == 0
  }

  /** `body.duration || 120`: zero and absent both mean the default. */
  function CandidateDuration(b: Body): (d: int)
    ensures d != 0
    ensures b.duration != 0 ==> d == b.duration
    ensures b.duration == 0 ==> d == DefaultDurationMinutes
  {
    if b.duration == 0 then DefaultDurationMinutes else b.duration
  }

  /** The checks, in the order the handler runs them. An invalid date
      passes the overlap test (its start is NaN, so no comparison holds)
      and is refused by the store at `create`, which surfaces as a 500. */
  function Guard(db: Db, b: Body, toInstant: string -> Option<int>): (v: Verdict)
    ensures v == Reject(TableNotFound) <==> FindTable(db.tables, b.tableId).None?
    ensures v == Reject(MissingFields) <==> FindTable(db.tables, b.tableId).Some? && MissingField(b)
    ensures (v.Reject? && v.response.OverCapacity?) <==>
      FindTable(db.tables, b.tableId).Some? && !MissingField(b) &&
      FindTable(db.tables, b.tableId).value.capacity < b.guests
    ensures v.Reject? && v.response.OverCapacity? ==>
      v.response.tableNumber == FindTable(db.tables, b.tableId).value.number &&
      v.response.capacity == FindTable(db.tables, b.tableId).value.capacity
    ensures v == Reject(ServerError) <==>
      FindTable(db.tables, b.tableId).Some? && !MissingField(b) &&
      Fits(FindTable(db.tables, b.tableId).value, b.guests) && toInstant(b.date).None?
    ensures v == Reject(Conflict) <==>
      FindTable(db.tables, b.tableId).Some? && !MissingField(b) &&
      Fits(FindTable(db.tables, b.tableId).value, b.guests) && toInstant(b.date).Some? &&
      exists i :: 0 <= i < |db.reservations| && db.reservations[i].tableId == b.tableId &&
        IsActive(db.reservations[i]) &&
        Overlaps(Span(toInstant(b.date).value, CandidateDuration(b)), Occupied(db.reservations[i]))
    ensures v.Pass? ==>
      && v.table in db.tables && v.table.id == b.tableId
      && !MissingField(b) && Fits(v.table, b.guests)
      && toInstant(b.date) == Some(v.start)
      && forall i ::
           (0 <= i < |db.reservations| && db.reservations[i].tableId == b.tableId && IsActive(db.reservations[i]))
           ==> !Overlaps(Span(v.start, CandidateDuration(b)), Occupied(db.reservations[i]))
    ensures v.Reject? ==> !v.response.Created?
  {
    var found := FindTable(db.tables, b.tableId);
    if found.None? then Reject(TableNotFound)
    else if MissingField(b) then Reject(MissingFields)
    else if found.value.capacity < b.guests then Reject(OverCapacity(found.value.number, found.value.capacity))
    else
      match toInstant(b.date)
      case None => Reject(ServerError)
      case Some(start) =>
        var w := Span(start, CandidateDuration(b));
        ActiveOverlapExists(w, db.reservations, b.tableId);
        if AnyOverlap(w, ActiveReservations(db.reservations, b.tableId)) then Reject(Conflict)
        else Pass(found.value, start)
  }

  /** The `create` data as the handler writes it: the body's fields, the
      parsed date, a falsy note as null, and no duration. */
  function CreateData(b: Body, start: int): (p: NewReservation)
    ensures p.name == b.name && p.email == b.email && p.phone == b.phone
    ensures p.date == start && p.guests == b.guests && p.tableId == b.tableId
    ensures p.notes.None? <==> b.notes == ""
    ensures p.notes.Some? ==> p.notes.value == b.notes
    ensures p.duration.None?
    ensures forall id, createdAt :: Stored(p, id, createdAt).duration == ColumnDefaultDuration
  {
    NewReservation(b.name, b.email, b.phone, start, b.guests, b.tableId,
                   if b.notes == "" then None else Some(b.notes), None)
  }

  function Post(db: Db, b: Body, toInstant: string -> Option<int>): (r: PostResponse)
    ensures r.Created? <==> Guard(db, b, toInstant).Pass?
    ensures !r.Created? ==> r == Guard(db, b, toInstant).response
    ensures HttpStatus(r) == 201 <==> Guard(db, b, toInstant).Pass?
    ensures HttpStatus(r) == 404 <==> FindTable(db.tables, b.tableId).None?
    ensures HttpStatus(r) == 400 <==>
      FindTable(db.tables, b.tableId).Some? &&
      (MissingField(b) || FindTable(db.tables, b.tableId).value.capacity < b.guests)
    ensures HttpStatus(r) == 409 <==> Guard(db, b, toInstant) == Reject(Conflict)
    ensures HttpStatus(r) == 500 <==> Guard(db, b, toInstant) == Reject(ServerError)
    ensures r.Created? ==>
      && r.table == Guard(db, b, toInstant).table
      && r.reservation.name == b.name && r.reservation.email == b.email && r.reservation.phone == b.phone
      && toInstant(b.date) == Some(r.reservation.date)
      && r.reservation.guests == b.guests && r.reservation.tableId == b.tableId
      && (b.notes == "" ==> r.reservation.notes == None)
      && (b.notes != "" ==> r.reservation.notes == Some(b.notes))
      && r.reservation.duration == None
  {
    match Guard(db, b, toInstant)
    case Reject(resp) => resp
    case Pass(t, start) => Created(CreateData(b, start), t)
  }

  /** The row the store holds after `create`: the given data, with the
      column defaults for whatever the data leaves out. */
  function Stored(p: NewReservation, id: int, createdAt: int): (r: Reservation)
    ensures r.date == p.date && r.tableId == p.tableId && r.status == ColumnDefaultStatus
    ensures p.duration.None? ==> r.duration == ColumnDefaultDuration
    ensures p.duration.Some? ==> r.duration == p.duration.value
    ensures r.name == p.name && r.email == p.email && r.phone == p.phone
    ensures r.guests == p.guests && r.notes == p.notes
    ensures r.id == id && r.createdAt == createdAt
  {
    Reservation(id, p.name, p.email, p.phone, p.date, p.guests,
                match p.duration { case None => ColumnDefaultDuration case Some(d) => d },
                ColumnDefaultStatus, p.tableId, p.notes, createdAt)
  }

  /** Cancelled reservations never cause a conflict: the checks give the
      same verdict when every cancelled reservation is deleted first. */
  lemma CancelledNeverConflict(db: Db, b: Body, toInstant: string -> Option<int>)
    ensures Guard(db, b, toInstant) == Guard(db.(reservations := Filter(db.reservations, IsActive)), b, toInstant)
  {
    ActiveIgnoresCancelled(db.reservations, b.tableId);
  }

  /** The guest count is only checked for being falsy and against the
      capacity, so a negative count is accepted. */
  lemma NegativeGuestsPass(db: Db, b: Body, toInstant: string -> Option<int>)
    requires b.guests < 0
    requires FindTable(db.tables, b.tableId).Some? && FindTable(db.tables, b.tableId).value.capacity >= 0
    requires b.name != "" && b.email != "" && b.phone != "" && b.date != ""
    requires toInstant(b.date).Some?
    requires ActiveReservations(db.reservations, b.tableId) == []
    ensures Post(db, b, toInstant).Created?
  {
  }

  // ---------------------------------------------------------------------
  // Finding: the overlap check uses body.duration, `create` does not.

  /** With a table booked 19:00-21:00, a request at 18:00 for 60 minutes
      passes the check (it ends as the booking starts), but the row written
      keeps the 120-minute column default and occupies 18:00-20:00, which
      overlaps the booking. */
  lemma DroppedDurationDoubleBooks(toInstant: string -> Option<int>)
    requires toInstant("2025-06-01T18:00") == Some(18 * 3600000)
    ensures var db := Db([Table(1, 1, 4)],
                         [Reservation(1, "Ana", "ana@example.com", "600000001", 19 * 3600000, 2, 120,
                                      Confirmed, 1, None, 0)]);
            var b := Body(1, "Bea", "bea@example.com", "600000002", "2025-06-01T18:00", 2, 60, "");
            && NoDoubleBooking(db.reservations)
            && Post(db, b, toInstant).Created?
            && !NoDoubleBooking(db.reservations + [Stored(Post(db, b, toInstant).reservation, 2, 0)])
  {
    var db := Db([Table(1, 1, 4)],
                 [Reservation(1, "Ana", "ana@example.com", "600000001", 19 * 3600000, 2, 120,
                              Confirmed, 1, None, 0)]);
    var b := Body(1, "Bea", "bea@example.com", "600000002", "2025-06-01T18:00", 2, 60, "");
    var r := Post(db, b, toInstant);
    assert !AnyOverlap(Span(18 * 3600000, 60), ActiveReservations(db.reservations, 1));
    var rs := db.reservations + [Stored(r.reservation, 2, 0)];
    assert Overlaps(Occupied(rs[0]), Occupied(rs[1]));
  }

  /** The corrected `create` data: the checked duration is written too. */
  function CreateDataKeepingDuration(b: Body, start: int): (p: NewReservation)
    ensures p.duration == Some(CandidateDuration(b))
    ensures p.(duration := None) == CreateData(b, start)
  {
    CreateData(b, start).(duration := Some(CandidateDuration(b)))
  }

  function PostKeepingDuration(db: Db, b: Body, toInstant: string -> Option<int>): (r: PostResponse)
    ensures r.Created? <==> Post(db, b, toInstant).Created?
    ensures !r.Created? ==> r == Post(db, b, toInstant)
    ensures r.Created? ==> r.reservation == Post(db, b, toInstant).reservation.(duration := Some(CandidateDuration(b)))
  {
    match Guard(db, b, toInstant)
    case Reject(resp) => resp
    case Pass(t, start) => Created(CreateDataKeepingDuration(b, start), t)
  }

  /** With the checked duration written, a successful create keeps every
      table free of overlapping active reservations. */
  lemma KeepingDurationPreservesNoDoubleBooking(db: Db, b: Body, toInstant: string -> Option<int>, id: int, createdAt: int)
    requires NoDoubleBooking(db.reservations)
    requires PostKeepingDuration(db, b, toInstant).Created?
    ensures NoDoubleBooking(db.reservations + [Stored(PostKeepingDuration(db, b, toInstant).reservation, id, createdAt)])
  {
    var v := Guard(db, b, toInstant);
    var n := Stored(PostKeepingDuration(db, b, toInstant).reservation, id, createdAt);
    var old_ := db.reservations;
    var rs := old_ + [n];
    assert Occupied(n) == Span(v.start, CandidateDuration(b));
    assert n.tableId == b.tableId;
    forall i, j | 0 <= i < |rs| && 0 <= j < |rs| && i != j
        && rs[i].tableId == rs[j].tableId && IsActive(rs[i]) && IsActive(rs[j])
      ensures !Overlaps(Occupied(rs[i]), Occupied(rs[j]))
    {
      if i < |old_| && j < |old_| {
        assert rs[i] == old_[i] && rs[j] == old_[j];
      } else if i == |old_| {
        assert rs[j] == old_[j];
        assert !Overlaps(Occupied(n), Occupied(old_[j]));
      } else {
        assert rs[i] == old_[i] && rs[j] == n;
        assert !Overlaps(Occupied(n), Occupied(old_[i]));
      }
    }
  }
}
