/** The availability search (`GET /api/reservations/available`): validate
    the query, look up the tables with enough seats together with their
    non-cancelled reservations, keep the tables none of whose reservations
    overlaps the requested window, and return the bare table records.

    `Number(...)` and `new Date(...)` are parameters: `toNumber` and
    `toInstant` give `None` where JavaScript gives NaN or an invalid date. */
module AvailableRoute {
  import opened Seqs
  import opened Booking

  /** The query string. A parameter that is absent and one that is empty
      are both falsy and are treated alike, so both are "" here. */
  datatype Query = Query(date: string, time: string, guests: string, duration: string)

  datatype SearchError = MissingParams | InvalidGuests | InvalidDateTime

  datatype SearchResponse = Found(tables: seq<Table>) | BadRequest(error: SearchError)

  /** A validated query: the guest count, the start instant and the
      duration in minutes, `None` when the duration is not a number. */
  datatype Request = Request(guests: int, start: int, duration: Option<int>)

  datatype Validated = Valid(request: Request) | Invalid(error: SearchError)

  /** One row of the table lookup: a table with its non-cancelled
      reservations. */
  datatype TableRow = TableRow(table: Table, reservations: seq<Reservation>)

  /** The status code each answer is sent with. */
  function HttpStatus(r: SearchResponse): (code: int)
    ensures code == 200 <==> r.Found?
    ensures code == 400 <==> r.BadRequest?
  {
    if r.Found? then 200 else 400
  }

  /** `Number(duration || 120)`: an absent or empty parameter gives the
      default; any other text, "0" included, is converted as it stands. */
  function RequestedDuration(q: Query, toNumber: string -> Option<int>): (d: Option<int>)
    ensures q.duration == "" ==> d == Some(DefaultDurationMinutes)
    ensures q.duration != "" ==> d == toNumber(q.duration)
  {
    if q.duration == "" then Some(DefaultDurationMinutes) else toNumber(q.duration)
  }

  /** The three guard clauses, in the order the handler runs them. */
  function Validate(q: Query, toNumber: string -> Option<int>, toInstant: string -> Option<int>): (v: Validated)
    ensures v == Invalid(MissingParams) <==> q.date == "" || q.time == "" || q.guests == ""
    ensures v == Invalid(InvalidGuests) <==>
      q.date != "" && q.time != "" && q.guests != "" &&
      (toNumber(q.guests).None? || toNumber(q.guests).value < 1)
    ensures v == Invalid(InvalidDateTime) <==>
      q.date != "" && q.time != "" && q.guests != "" &&
      toNumber(q.guests).Some? && toNumber(q.guests).value >= 1 &&
      toInstant(q.date + "T" + q.time).None?
    ensures v.Valid? ==>
              && v.request.guests >= 1
              && Some(v.request.guests) == toNumber(q.guests)
              && Some(v.request.start) == toInstant(q.date + "T" + q.time)
              && v.request.duration == RequestedDuration(q, toNumber)
  {
    if q.date == "" || q.time == "" || q.guests == "" then Invalid(MissingParams)
    else
      var guests := toNumber(q.guests);
      if guests.None? || guests.value < 1 then Invalid(InvalidGuests)
      else
        var start := toInstant(q.date + "T" + q.time);
        if start.None? then Invalid(InvalidDateTime)
        else Valid(Request(guests.value, start.value, RequestedDuration(q, toNumber)))
  }

  function HasCapacity(guests: int): Table -> bool {
    (t: Table) => Fits(t, guests)
  }

  function WithActive(rs: seq<Reservation>): Table -> TableRow {
    (t: Table) => TableRow(t, ActiveReservations(rs, t.id))
  }

  /** The table lookup: tables seating at least `guests`, each with its
      non-cancelled reservations, in the order the store returns them. */
  function FindTables(db: Db, guests: int): (r: seq<TableRow>)
    ensures Map(r, TableOf) == Filter(db.tables, HasCapacity(guests))
    ensures forall i :: 0 <= i < |r| ==> r[i].table in db.tables && Fits(r[i].table, guests)
    ensures forall i :: 0 <= i < |r| ==> r[i].reservations == ActiveReservations(db.reservations, r[i].table.id)
  {
    var fits := Filter(db.tables, HasCapacity(guests));
    FilterMembers(db.tables, HasCapacity(guests));
    var rows := Map(fits, WithActive(db.reservations));
    assert Map(rows, TableOf) == fits;
    rows
  }

  /** Does a row's reservation list block the request? With a NaN duration
      the end instant is invalid, every comparison with it is false, and
      nothing blocks. */
  predicate Blocked(row: TableRow, req: Request) {
    req.duration.Some? && AnyOverlap(Span(req.start, req.duration.value), row.reservations)
  }

  function Unblocked(req: Request): TableRow -> bool {
    (row: TableRow) => !Blocked(row, req)
  }

  /** The projection that drops the reservations from each row. */
  function TableOf(row: TableRow): Table {
    row.table
  }

  /** The tables offered for a validated request: each one is stored, seats
      the party and is not blocked (completeness is `BookableExactly`). */
  function Bookable(db: Db, req: Request): (r: seq<Table>)
    ensures |r| <= |db.tables|
    ensures forall t :: t in r ==> t in db.tables && Offered(db, req, t)
  {
    var rows := FindTables(db, req.guests);
    var free := Filter(rows, Unblocked(req));
    FilterMembers(rows, Unblocked(req));
    assert |rows| == |Map(rows, TableOf)| <= |db.tables|;
    Map(free, TableOf)
  }

  function Search(q: Query, toNumber: string -> Option<int>, toInstant: string -> Option<int>, db: Db): (r: SearchResponse)
    ensures r.BadRequest? <==> Validate(q, toNumber, toInstant).Invalid?
    ensures r.BadRequest? ==> r.error == Validate(q, toNumber, toInstant).error
    ensures r.Found? ==> r.tables == Bookable(db, Validate(q, toNumber, toInstant).request)
    ensures HttpStatus(r) == 200 <==> Validate(q, toNumber, toInstant).Valid?
    ensures HttpStatus(r) == 400 <==> Validate(q, toNumber, toInstant).Invalid?
  {
    match Validate(q, toNumber, toInstant)
    case Invalid(e) => BadRequest(e)
    case Valid(req) => Found(Bookable(db, req))
  }

  // ---------------------------------------------------------------------
  // Reference definition: one pass over the stored tables.

  /** Would table `t` be offered? Enough seats, and (unless the duration is
      NaN) no active reservation of the table overlapping the window. */
  predicate Offered(db: Db, req: Request, t: Table) {
    Fits(t, req.guests) &&
    !(req.duration.Some? &&
      AnyOverlap(Span(req.start, req.duration.value), ActiveReservations(db.reservations, t.id)))
  }

  function OfferedIn(db: Db, req: Request): Table -> bool {
    (t: Table) => Offered(db, req, t)
  }

  lemma {:induction false} OnePass(ts: seq<Table>, rs: seq<Reservation>, req: Request)
    ensures Map(Filter(Map(Filter(ts, HasCapacity(req.guests)), WithActive(rs)), Unblocked(req)), TableOf)
         == Filter(ts, OfferedIn(Db(ts, rs), req))
  {
    if ts != [] {
      OnePass(ts[1..], rs, req);
      var db := Db(ts, rs);
      var db' := Db(ts[1..], rs);
      FilterCongruent(ts[1..], OfferedIn(db', req), OfferedIn(db, req));
      var fits := Filter(ts, HasCapacity(req.guests));
      if Fits(ts[0], req.guests) {
        assert fits == [ts[0]] + Filter(ts[1..], HasCapacity(req.guests));
        var rows := Map(fits, WithActive(rs));
        assert rows == [WithActive(rs)(ts[0])] + Map(Filter(ts[1..], HasCapacity(req.guests)), WithActive(rs));
      }
    }
  }

  /** The search's two stages (the store's capacity filter, then the
      overlap filter and projection) equal a single filter over the stored
      tables: the result is exactly the offered tables, in stored order. */
  lemma BookableIsOnePass(db: Db, req: Request)
    ensures Bookable(db, req) == Filter(db.tables, OfferedIn(db, req))
  {
    OnePass(db.tables, db.reservations, req);
    assert Db(db.tables, db.reservations) == db;
  }

  /** Soundness and completeness: a table is offered exactly when it is
      stored, seats the party, and (for a numeric duration) no reservation
      on it that is not cancelled overlaps [start, start + duration). */
  lemma BookableExactly(db: Db, req: Request, t: Table)
    ensures t in Bookable(db, req) <==>
      t in db.tables && t.capacity >= req.guests &&
      (req.duration.Some? ==>
        forall i :: 0 <= i < |db.reservations| && db.reservations[i].tableId == t.id && IsActive(db.reservations[i])
          ==> !Overlaps(Span(req.start, req.duration.value), Occupied(db.reservations[i])))
  {
    BookableIsOnePass(db, req);
    FilterMembership(db.tables, OfferedIn(db, req), t);
    if req.duration.Some? {
      ActiveOverlapExists(Span(req.start, req.duration.value), db.reservations, t.id);
    }
  }

  /** The result keeps the lookup's order: it is a subsequence of the
      stored tables, and capacity-ascending when the stored order is. */
  lemma BookableKeepsOrder(db: Db, req: Request)
    ensures IsSubsequence(Bookable(db, req), db.tables)
    ensures Ascending(db.tables, (t: Table) => t.capacity) ==>
      Ascending(Bookable(db, req), (t: Table) => t.capacity)
  {
    BookableIsOnePass(db, req);
    FilterIsSubsequence(db.tables, OfferedIn(db, req));
    if Ascending(db.tables, (t: Table) => t.capacity) {
      FilterAscending(db.tables, OfferedIn(db, req), (t: Table) => t.capacity);
    }
  }

  /** Cancelled reservations never remove a table: the result is the same
      when every cancelled reservation is deleted first. */
  lemma CancelledNeverBlock(db: Db, req: Request)
    ensures Bookable(db, req) == Bookable(db.(reservations := Filter(db.reservations, IsActive)), req)
  {
    var db' := db.(reservations := Filter(db.reservations, IsActive));
    BookableIsOnePass(db, req);
    BookableIsOnePass(db', req);
    forall i | 0 <= i < |db.tables|
      ensures OfferedIn(db, req)(db.tables[i]) == OfferedIn(db', req)(db.tables[i])
    {
      ActiveIgnoresCancelled(db.reservations, db.tables[i].id);
    }
    FilterCongruent(db.tables, OfferedIn(db, req), OfferedIn(db', req));
  }

  /** A table offered to a party is offered to any smaller party of at
      least one guest. */
  lemma SmallerPartyStillOffered(db: Db, req: Request, t: Table, guests: int)
    requires t in Bookable(db, req)
    requires 1 <= guests <= req.guests
    ensures t in Bookable(db, req.(guests := guests))
  {
    BookableExactly(db, req, t);
    BookableExactly(db, req.(guests := guests), t);
  }

  /** A non-numeric duration blocks nothing: every table with enough seats
      is offered, whatever is booked. */
  lemma NaNDurationBlocksNothing(db: Db, req: Request)
    requires req.duration.None?
    ensures Bookable(db, req) == Filter(db.tables, HasCapacity(req.guests))
  {
    BookableIsOnePass(db, req);
    FilterCongruent(db.tables, OfferedIn(db, req), HasCapacity(req.guests));
  }

  /** An absent duration is the same query as an explicit "120". */
  lemma DefaultDurationIs120(q: Query, toNumber: string -> Option<int>, toInstant: string -> Option<int>, db: Db)
    requires q.duration == ""
    requires toNumber("120") == Some(120)
    ensures Search(q, toNumber, toInstant, db) == Search(q.(duration := "120"), toNumber, toInstant, db)
  {
  }

  /** Three tables seating 2, 4 and 6 and no bookings: a party of three is
      offered the 4-seat table, then the 6-seat one. */
  lemma SmallestSuitableFirst(req: Request)
    requires req.guests == 3
    ensures Bookable(Db([Table(1, 1, 2), Table(2, 2, 4), Table(3, 3, 6)], []), req)
         == [Table(2, 2, 4), Table(3, 3, 6)]
  {
    var db := Db([Table(1, 1, 2), Table(2, 2, 4), Table(3, 3, 6)], []);
    BookableIsOnePass(db, req);
    assert db.tables[1..][1..] == [Table(3, 3, 6)];
  }
}
