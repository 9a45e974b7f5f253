/** The search and the creation guard use the same occupancy rule over the
    same store, so they agree: a table the search offers passes the
    creation checks for the same window and party, and a table the checks
    accept is one the search would offer. The one place they part is an
    explicit duration of zero, which the search keeps and creation replaces
    by the default. */
module HandlersAgree {
  import opened Seqs
  import opened Booking
  import opened AvailableRoute
  import opened ReservationsRoute

  /** Table ids are unique in the store. */
  predicate DistinctIds(ts: seq<Table>) {
    forall i, j :: 0 <= i < |ts| && 0 <= j < |ts| && i != j ==> ts[i].id != ts[j].id
  }

  /** A body that books `t` for the request: same table, same party, same
      start instant, same duration, and contact fields filled in. */
  predicate BooksFor(b: Body, toInstant: string -> Option<int>, req: Request, t: Table) {
    && b.tableId == t.id
    && b.guests == req.guests
    && toInstant(b.date) == Some(req.start)
    && req.duration == Some(CandidateDuration(b))
    && b.name != "" && b.email != "" && b.phone != "" && b.date != ""
  }

  lemma FindTableUnique(ts: seq<Table>, t: Table)
    requires DistinctIds(ts) && t in ts
    ensures FindTable(ts, t.id) == Some(t)
  {
  }

  /** Every table the search offers passes the creation checks for the
      same request. */
  lemma OfferedTablePassesGuard(db: Db, req: Request, t: Table, b: Body, toInstant: string -> Option<int>)
    requires DistinctIds(db.tables)
    requires req.guests >= 1
    requires t in Bookable(db, req)
    requires BooksFor(b, toInstant, req, t)
    ensures Guard(db, b, toInstant) == Pass(t, req.start)
    ensures Post(db, b, toInstant).Created? && Post(db, b, toInstant).table == t
  {
    BookableExactly(db, req, t);
    FindTableUnique(db.tables, t);
  }

  /** Every table the creation checks accept is one the search offers for
      the same party, start and duration. */
  lemma AcceptedTableIsOffered(db: Db, b: Body, toInstant: string -> Option<int>)
    requires b.guests >= 1
    requires Guard(db, b, toInstant).Pass?
    ensures Guard(db, b, toInstant).table in
      Bookable(db, Request(b.guests, Guard(db, b, toInstant).start, Some(CandidateDuration(b))))
  {
    var v := Guard(db, b, toInstant);
    BookableExactly(db, Request(b.guests, v.start, Some(CandidateDuration(b))), v.table);
  }

  /** An explicit duration of "0" is kept by the search (the string is not
      falsy) but replaced by 120 at creation (the number is). With a table
      booked from 19:00, a zero-minute search at 19:00 offers the table and
      the booking for it is refused as a conflict. */
  lemma ZeroDurationDisagreement(toNumber: string -> Option<int>, toInstant: string -> Option<int>)
    requires toNumber("2") == Some(2) && toNumber("0") == Some(0)
    requires toInstant("2025-06-01T19:00") == Some(19 * 3600000)
    ensures var db := Db([Table(1, 1, 4)],
                         [Reservation(1, "Ana", "ana@example.com", "600000001", 19 * 3600000, 2, 120,
                                      Confirmed, 1, None, 0)]);
            && Search(Query("2025-06-01", "19:00", "2", "0"), toNumber, toInstant, db) == Found([Table(1, 1, 4)])
            && Post(db, Body(1, "Bea", "bea@example.com", "600000002", "2025-06-01T19:00", 2, 0, ""), toInstant) == Conflict
  {
    var db := Db([Table(1, 1, 4)],
                 [Reservation(1, "Ana", "ana@example.com", "600000001", 19 * 3600000, 2, 120,
                              Confirmed, 1, None, 0)]);
    var q := Query("2025-06-01", "19:00", "2", "0");
    assert q.date + "T" + q.time == "2025-06-01T19:00";
    var req := Request(2, 19 * 3600000, Some(0));
    assert Validate(q, toNumber, toInstant) == Valid(req);
    BookableExactly(db, req, Table(1, 1, 4));
    BookableIsOnePass(db, req);
    var b := Body(1, "Bea", "bea@example.com", "600000002", "2025-06-01T19:00", 2, 0, "");
    assert Overlaps(Span(19 * 3600000, CandidateDuration(b)), Occupied(db.reservations[0]));
  }
}
