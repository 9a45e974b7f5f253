/** The admin dashboard's list logic: the page holds the reservation list
    and the two filters, replaces the list after a successful status change
    or delete, and derives from them the rows shown, the summary counts and
    the action buttons offered on each row.

    The date conversions are parameters: `isoDay` is
    `new Date(d).toISOString().split("T")[0]` and `localDay` is
    `new Date(d).toDateString()`. */
module Dashboard {
  import opened Seqs
  import opened Booking

  /** A button in a row's actions column. */
  datatype Action = SetStatus(target: Status) | Delete

  /** The reservation lifecycle: a pending reservation may be confirmed or
      cancelled, a confirmed one completed or cancelled; cancelled and
      completed are final. */
  function CanTransition(from: Status, to: Status): (r: bool)
    ensures r ==> from != to && to != Pending
    ensures r ==> from != Cancelled && from != Completed
  {
    || (from == Pending && (to == Confirmed || to == Cancelled))
    || (from == Confirmed && (to == Completed || to == Cancelled))
  }

  /** The buttons shown for a row with status `s`, left to right. */
  function Actions(s: Status): (acts: seq<Action>)
    ensures |acts| >= 1 && acts[|acts| - 1] == Delete
    ensures forall i :: 0 <= i < |acts| - 1 ==> acts[i].SetStatus?
  {
    (if s == Pending then [SetStatus(Confirmed)] else [])
    + (if s == Pending || s == Confirmed then [SetStatus(Cancelled)] else [])
    + (if s == Confirmed then [SetStatus(Completed)] else [])
    + [Delete]
  }

  /** The status buttons offered are exactly the lifecycle's transitions. */
  lemma ActionsFollowLifecycle(s: Status, t: Status)
    ensures SetStatus(t) in Actions(s) <==> CanTransition(s, t)
  {
  }

  /** Cancelled and completed rows can only be deleted. */
  lemma FinalStatusesOnlyDelete(s: Status)
    requires s == Cancelled || s == Completed
    ensures Actions(s) == [Delete]
  {
  }

  /** The list after a successful status change: every entry with that id
      gets the new status, and nothing else changes. */
  function WithStatus(rs: seq<Reservation>, id: int, s: Status): (r: seq<Reservation>)
    ensures |r| == |rs|
    ensures forall i :: 0 <= i < |rs| ==> r[i].(status := rs[i].status) == rs[i]
    ensures forall i :: 0 <= i < |rs| ==> r[i].status == (if rs[i].id == id then s else rs[i].status)
  {
    if rs == [] then []
    else [if rs[0].id == id then rs[0].(status := s) else rs[0]] + WithStatus(rs[1..], id, s)
  }

  function NotId(id: int): Reservation -> bool {
    (r: Reservation) => r.id != id
  }

  /** The list after a successful delete: exactly the entries with another
      id, in their order. */
  function Without(rs: seq<Reservation>, id: int): (r: seq<Reservation>)
    ensures forall x :: x in r <==> x in rs && x.id != id
    ensures IsSubsequence(r, rs)
  {
    FilterMembers(rs, NotId(id));
    FilterIsSubsequence(rs, NotId(id));
    Filter(rs, NotId(id))
  }

  /** Applying the same status change twice is the same as once. */
  lemma WithStatusIdempotent(rs: seq<Reservation>, id: int, s: Status)
    ensures WithStatus(WithStatus(rs, id, s), id, s) == WithStatus(rs, id, s)
  {
    var once := WithStatus(rs, id, s);
    var twice := WithStatus(once, id, s);
    forall i | 0 <= i < |rs| ensures twice[i] == once[i] {
      assert twice[i].(status := once[i].status) == once[i];
    }
  }

  /** Deleting an entry makes an earlier status change on it irrelevant. */
  lemma {:induction false} DeleteAfterUpdate(rs: seq<Reservation>, id: int, s: Status)
    ensures Without(WithStatus(rs, id, s), id) == Without(rs, id)
  {
    if rs != [] {
      DeleteAfterUpdate(rs[1..], id, s);
      var w := WithStatus(rs, id, s);
      assert w[1..] == WithStatus(rs[1..], id, s);
    }
  }

  // ---------------------------------------------------------------------
  // Filters

  /** The row filter: a non-empty status filter must match the status, a
      non-empty date filter must match the reservation's UTC day. */
  function Shown(filterStatus: Option<Status>, filterDate: string, isoDay: int -> string): Reservation -> bool {
    (r: Reservation) =>
      (filterStatus.None? || r.status == filterStatus.value) &&
      (filterDate == "" || isoDay(r.date) == filterDate)
  }

  /** The rows shown are the list's entries that match both filters, in the
      list's order. */
  function FilterRows(rs: seq<Reservation>, filterStatus: Option<Status>, filterDate: string, isoDay: int -> string): (r: seq<Reservation>)
    ensures forall x :: x in r <==>
      x in rs &&
      (filterStatus.Some? ==> x.status == filterStatus.value) &&
      (filterDate != "" ==> isoDay(x.date) == filterDate)
    ensures IsSubsequence(r, rs)
  {
    FilterMembers(rs, Shown(filterStatus, filterDate, isoDay));
    FilterIsSubsequence(rs, Shown(filterStatus, filterDate, isoDay));
    Filter(rs, Shown(filterStatus, filterDate, isoDay))
  }

  /** With both filters empty every entry is shown. */
  lemma NoFilterShowsAll(rs: seq<Reservation>, isoDay: int -> string)
    ensures FilterRows(rs, None, "", isoDay) == rs
  {
    FilterAll(rs, Shown(None, "", isoDay));
  }

  // ---------------------------------------------------------------------
  // Summary counts

  datatype Counts = Counts(total: int, pending: int, confirmed: int, today: int)

  function HasStatus(s: Status): Reservation -> bool {
    (r: Reservation) => r.status == s
  }

  /** Not cancelled and on the same local day as `now`. */
  function DueToday(localDay: int -> string, now: int): Reservation -> bool {
    (r: Reservation) => localDay(r.date) == localDay(now) && r.status != Cancelled
  }

  /** The four summary cards: every entry is counted once in the total,
      pending and confirmed are disjoint parts of it, and the day's count is
      part of it too. */
  function CountsOf(rs: seq<Reservation>, localDay: int -> string, now: int): (c: Counts)
    ensures c.total == |rs|
    ensures 0 <= c.pending && 0 <= c.confirmed && c.pending + c.confirmed <= c.total
    ensures 0 <= c.today <= c.total
  {
    StatusCountsPartition(rs);
    Counts(|rs|,
           |Filter(rs, HasStatus(Pending))|,
           |Filter(rs, HasStatus(Confirmed))|,
           |Filter(rs, DueToday(localDay, now))|)
  }

  /** Every entry has exactly one status, so the four status counts add up
      to the total. */
  lemma {:induction false} StatusCountsPartition(rs: seq<Reservation>)
    ensures |Filter(rs, HasStatus(Pending))| + |Filter(rs, HasStatus(Confirmed))|
          + |Filter(rs, HasStatus(Cancelled))| + |Filter(rs, HasStatus(Completed))| == |rs|
  {
    if rs != [] {
      StatusCountsPartition(rs[1..]);
    }
  }

  /** Together with the cancelled entries, the pending and confirmed
      counts, and separately the day's count, still fit in the total. */
  lemma CountsBounded(rs: seq<Reservation>, localDay: int -> string, now: int)
    ensures CountsOf(rs, localDay, now).total == |rs|
    ensures CountsOf(rs, localDay, now).pending + CountsOf(rs, localDay, now).confirmed
          + |Filter(rs, HasStatus(Cancelled))| <= CountsOf(rs, localDay, now).total
    ensures CountsOf(rs, localDay, now).today + |Filter(rs, HasStatus(Cancelled))| <= CountsOf(rs, localDay, now).total
  {
    StatusCountsPartition(rs);
    TodayAndCancelledDisjoint(rs, localDay, now);
  }

  /** The day's count takes only entries on today's local day that are not
      cancelled, so no entry is counted both for today and as cancelled. */
  lemma {:induction false} TodayAndCancelledDisjoint(rs: seq<Reservation>, localDay: int -> string, now: int)
    ensures forall x :: x in Filter(rs, DueToday(localDay, now)) ==>
      x in rs && localDay(x.date) == localDay(now) && x.status != Cancelled
    ensures forall x :: x in Filter(rs, HasStatus(Cancelled)) ==> x !in Filter(rs, DueToday(localDay, now))
    ensures |Filter(rs, DueToday(localDay, now))| + |Filter(rs, HasStatus(Cancelled))| <= |rs|
  {
    FilterMembers(rs, DueToday(localDay, now));
    FilterMembers(rs, HasStatus(Cancelled));
    if rs != [] {
      TodayAndCancelledDisjoint(rs[1..], localDay, now);
    }
  }

  // ---------------------------------------------------------------------
  // The page state

  /** What the list request gives back: the list, or a thrown error. */
  datatype FetchOutcome = Listed(data: seq<Reservation>) | Failed

  class DashboardPage {
    var reservations: seq<Reservation>
    var loading: bool
    var filterDate: string
    var filterStatus: Option<Status>

    constructor ()
      ensures reservations == [] && loading
      ensures filterDate == "" && filterStatus == None
    {
      reservations := [];
      loading := true;
      filterDate := "";
      filterStatus := None;
    }

    /** The rows the table renders. */
    function Filtered(isoDay: int -> string): seq<Reservation>
      reads this
    {
      FilterRows(reservations, filterStatus, filterDate, isoDay)
    }

    /** Load the list; loading ends whether or not the request succeeded. */
    method FetchReservations(outcome: FetchOutcome)
      modifies this
      ensures reservations == (if outcome.Listed? then outcome.data else old(reservations))
      ensures !loading
      ensures filterDate == old(filterDate) && filterStatus == old(filterStatus)
    {
      if outcome.Listed? {
        reservations := outcome.data;
      }
      loading := false;
    }

    /** The refresh button: show the spinner, then load again. */
    method Refresh(outcome: FetchOutcome)
      modifies this
      ensures reservations == (if outcome.Listed? then outcome.data else old(reservations))
      ensures !loading
      ensures filterDate == old(filterDate) && filterStatus == old(filterStatus)
    {
      loading := true;
      FetchReservations(outcome);
    }

    /** A status button; `ok` is whether the update request succeeded. */
    method UpdateStatus(id: int, newStatus: Status, ok: bool)
      modifies this
      ensures reservations == (if ok then WithStatus(old(reservations), id, newStatus) else old(reservations))
      ensures loading == old(loading)
      ensures filterDate == old(filterDate) && filterStatus == old(filterStatus)
    {
      if ok {
        reservations := WithStatus(reservations, id, newStatus);
      }
    }

    /** The delete button; `confirmed` is the answer to the confirmation
      prompt, `ok` whether the delete request succeeded. */
    method DeleteReservation(id: int, confirmed: bool, ok: bool)
      modifies this
      ensures reservations == (if confirmed && ok then Without(old(reservations), id) else old(reservations))
      ensures loading == old(loading)
      ensures filterDate == old(filterDate) && filterStatus == old(filterStatus)
    {
      if !confirmed {
        return;
      }
      if ok {
        reservations := Without(reservations, id);
      }
    }

    method SetFilterDate(d: string)
      modifies this
      ensures filterDate == d
      ensures reservations == old(reservations) && loading == old(loading) && filterStatus == old(filterStatus)
    {
      filterDate := d;
    }

    method SetFilterStatus(s: Option<Status>)
      modifies this
      ensures filterStatus == s
      ensures reservations == old(reservations) && loading == old(loading) && filterDate == old(filterDate)
    {
      filterStatus := s;
    }

    /** The clear-filters button: both filters emptied, so every entry is
      shown. */
    method ClearFilters(isoDay: int -> string)
      modifies this
      ensures filterDate == "" && filterStatus == None
      ensures reservations == old(reservations) && loading == old(loading)
      ensures Filtered(isoDay) == reservations
    {
      filterDate := "";
      filterStatus := None;
      NoFilterShowsAll(reservations, isoDay);
    }
  }
}
