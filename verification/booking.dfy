/** The records both reservation handlers read, and the occupancy rule they
    share: a reservation occupies the half-open interval
    [date, date + duration minutes), and two intervals clash when each starts
    before the other ends. Instants are milliseconds since the epoch. */
module Booking {
  import opened Seqs

  datatype Option<T> = None | Some(value: T)

  /** Milliseconds per minute, the factor both handlers multiply by. */
  const MinuteMs: int := 60000

  /** Minutes a booking lasts when the request gives no duration. */
  const DefaultDurationMinutes: int := 120

  datatype Status = Pending | Confirmed | Cancelled | Completed

  datatype Table = Table(id: int, number: int, capacity: int)

  datatype Reservation = Reservation(
    id: int,
    name: string,
    email: string,
    phone: string,
    date: int,
    guests: int,
    duration: int,
    status: Status,
    tableId: int,
    notes: Option<string>,
    createdAt: int)

  /** What the store holds: the table rows in the order the lookup returns
      them, and every reservation. */
  datatype Db = Db(tables: seq<Table>, reservations: seq<Reservation>)

  /** The half-open interval [start, end). */
  datatype Window = Window(start: int, end: int)

  /** The window that starts at `start` and lasts `minutes`. */
  function Span(start: int, minutes: int): (w: Window)
    ensures w.start == start
    ensures minutes > 0 ==> w.start < w.end
    ensures w.end - w.start == minutes * MinuteMs
  {
    Window(start, start + minutes * MinuteMs)
  }

  /** The window an existing reservation occupies. */
  function Occupied(r: Reservation): Window {
    Span(r.date, r.duration)
  }

  /** The clash test of both handlers: the candidate starts before the
      existing window ends and ends after it starts. */
  function Overlaps(candidate: Window, existing: Window): (b: bool)
    ensures !b ==> forall t :: !(Contains(candidate, t) && Contains(existing, t))
    ensures b && candidate.start < candidate.end && existing.start < existing.end ==>
      var t := if candidate.start < existing.start then existing.start else candidate.start;
      Contains(candidate, t) && Contains(existing, t)
  {
    candidate.start < existing.end && candidate.end > existing.start
  }

  /** The instant `t` lies in the half-open window. */
  predicate Contains(w: Window, t: int) {
    w.start <= t < w.end
  }

  /** Does the candidate clash with any of `rs` (the `some` of the source)? */
  function AnyOverlap(w: Window, rs: seq<Reservation>): (b: bool)
    ensures b <==> exists i :: 0 <= i < |rs| && Overlaps(w, Occupied(rs[i]))
  {
    if rs == [] then false
    else
      assert forall i :: 1 <= i < |rs| ==> rs[1..][i - 1] == rs[i];
      Overlaps(w, Occupied(rs[0])) || AnyOverlap(w, rs[1..])
  }

  predicate Fits(t: Table, guests: int) {
    t.capacity >= guests
  }

  /** A reservation that still occupies its table. */
  predicate IsActive(r: Reservation) {
    r.status != Cancelled
  }

  /** The store's query "reservations of this table whose status is not
      CANCELLED". */
  function ActiveOn(tableId: int): Reservation -> bool {
    (r: Reservation) => r.tableId == tableId && IsActive(r)
  }

  function ActiveReservations(rs: seq<Reservation>, tableId: int): (r: seq<Reservation>)
    ensures forall x :: x in r <==> x in rs && x.tableId == tableId && IsActive(x)
    ensures IsSubsequence(r, rs)
  {
    FilterMembers(rs, ActiveOn(tableId));
    FilterIsSubsequence(rs, ActiveOn(tableId));
    Filter(rs, ActiveOn(tableId))
  }

  /** No table holds two active reservations whose windows overlap. */
  predicate NoDoubleBooking(rs: seq<Reservation>) {
    forall i, j :: 0 <= i < |rs| && 0 <= j < |rs| && i != j
      && rs[i].tableId == rs[j].tableId && IsActive(rs[i]) && IsActive(rs[j])
      ==> !Overlaps(Occupied(rs[i]), Occupied(rs[j]))
  }

  /** The clash test does not depend on which window is the candidate. */
  lemma OverlapsSymmetric(a: Window, b: Window)
    ensures Overlaps(a, b) <==> Overlaps(b, a)
  {
  }

  /** Half-open: a window ending exactly when another starts does not clash
      with it, in either role. */
  lemma TouchingWindowsDoNotOverlap(a: Window, b: Window)
    requires a.end == b.start
    ensures !Overlaps(a, b) && !Overlaps(b, a)
  {
  }

  /** A candidate clashes with a table's active reservations exactly when
      one reservation in the whole list is on that table, not cancelled, and
      overlaps the candidate. */
  lemma {:induction false} ActiveOverlapExists(w: Window, rs: seq<Reservation>, tableId: int)
    ensures AnyOverlap(w, ActiveReservations(rs, tableId)) <==>
      exists i :: 0 <= i < |rs| && rs[i].tableId == tableId && IsActive(rs[i]) && Overlaps(w, Occupied(rs[i]))
  {
    var act := ActiveReservations(rs, tableId);
    if AnyOverlap(w, act) {
      var k :| 0 <= k < |act| && Overlaps(w, Occupied(act[k]));
      var i :| 0 <= i < |rs| && rs[i] == act[k];
      assert rs[i].tableId == tableId && IsActive(rs[i]) && Overlaps(w, Occupied(rs[i]));
    }
    if exists i :: 0 <= i < |rs| && rs[i].tableId == tableId && IsActive(rs[i]) && Overlaps(w, Occupied(rs[i])) {
      var i :| 0 <= i < |rs| && rs[i].tableId == tableId && IsActive(rs[i]) && Overlaps(w, Occupied(rs[i]));
      var k :| 0 <= k < |act| && act[k] == rs[i];
      assert Overlaps(w, Occupied(act[k]));
    }
  }

  /** Only active reservations matter: dropping every cancelled one first
      leaves each table's active list as it was. */
  lemma ActiveIgnoresCancelled(rs: seq<Reservation>, tableId: int)
    ensures ActiveReservations(Filter(rs, IsActive), tableId) == ActiveReservations(rs, tableId)
  {
    FilterNested(rs, IsActive, ActiveOn(tableId));
  }
}
