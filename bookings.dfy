/** The records of the booking register and the queries the data layer
    answers without changing anything: the overlap test, availability of a
    unit for a range, the search for available units, the lookups by id, and
    the two per-day views the calendar uses. */
module Bookings {
  import opened Wrappers
  import opened Sequences
  import opened Dates

  type Id = string

  /** An ISO-8601 timestamp, always supplied by the caller. */
  type Timestamp = string

  /** A rental unit ("departamento"). */
  datatype Unit = Unit(
    id: Id,
    name: string,
    capacity: int,
    description: string,
    createdAt: Timestamp,
    modifiedAt: Option<Timestamp>)

  /** A booking ("reserva") of one unit from `checkIn` to `checkOut`. */
  datatype Reservation = Reservation(
    id: Id,
    unitId: Id,
    guest: string,
    checkIn: Day,
    checkOut: Day,
    createdAt: Timestamp,
    modifiedAt: Option<Timestamp>)

  function UnitKey(u: Unit): Id { u.id }

  function ReservationKey(r: Reservation): Id { r.id }

  // ---------------------------------------------------------------------
  // Overlap and availability
  // ---------------------------------------------------------------------

  /** The half-open ranges `[a1, a2)` and `[b1, b2)` share a day. */
  predicate Overlaps(a1: Day, a2: Day, b1: Day, b2: Day)
  {
    a1 < b2 && b1 < a2
  }

  /** The three-clause test of the availability check: the requested check-in
      falls inside `r`, or the requested check-out does, or `r` lies within the
      requested range. */
  predicate Conflicts(checkIn: Day, checkOut: Day, r: Reservation)
  {
    || (checkIn >= r.checkIn && checkIn < r.checkOut)
    || (checkOut > r.checkIn && checkOut <= r.checkOut)
    || (checkIn <= r.checkIn && checkOut >= r.checkOut)
  }

  /** For well-formed ranges the three clauses say exactly that the half-open
      ranges overlap. */
  lemma ConflictsIsOverlap(checkIn: Day, checkOut: Day, r: Reservation)
    requires checkIn < checkOut && r.checkIn < r.checkOut
    ensures Conflicts(checkIn, checkOut, r) <==> Overlaps(checkIn, checkOut, r.checkIn, r.checkOut)
  {
  }

  /** A stay ending on the day another starts does not conflict with it, in
      either order. */
  lemma BackToBackStaysDoNotConflict(r: Reservation, d: Day)
    requires r.checkIn < r.checkOut
    ensures d < r.checkIn ==> !Conflicts(d, r.checkIn, r)
    ensures r.checkOut < d ==> !Conflicts(r.checkOut, d, r)
  {
  }

  /** `r` is the reservation being edited: `excludeReservaId` is given, is not
      the empty (falsy) string, and is `r`'s id. */
  predicate Excluded(r: Reservation, exclude: Option<Id>)
  {
    exclude.Some? && exclude.value != "" && r.id == exclude.value
  }

  /** `r` stands in the way of booking `unitId` from `checkIn` to `checkOut`. */
  predicate Blocks(r: Reservation, unitId: Id, checkIn: Day, checkOut: Day, exclude: Option<Id>)
  {
    !Excluded(r, exclude) && r.unitId == unitId && Conflicts(checkIn, checkOut, r)
  }

  /** The availability check: no reservation of `rs` other than the excluded
      one, for the same unit, conflicts with the requested range. */
  function IsAvailable(rs: seq<Reservation>, unitId: Id, checkIn: Day, checkOut: Day, exclude: Option<Id>): (ok: bool)
    ensures ok <==> forall i :: 0 <= i < |rs| ==> !Blocks(rs[i], unitId, checkIn, checkOut, exclude)
    decreases |rs|
  {
    if rs == [] then true
    else
      assert forall i :: 0 < i < |rs| ==> rs[i] == rs[1..][i - 1];
      !Blocks(rs[0], unitId, checkIn, checkOut, exclude) && IsAvailable(rs[1..], unitId, checkIn, checkOut, exclude)
  }

  /** Every reservation's check-out is after its check-in. */
  predicate ValidRanges(rs: seq<Reservation>)
  {
    forall i :: 0 <= i < |rs| ==> rs[i].checkIn < rs[i].checkOut
  }

  /** Two reservations can coexist: other units, or ranges that do not overlap. */
  predicate Compatible(a: Reservation, b: Reservation)
  {
    a.unitId != b.unitId || !Overlaps(a.checkIn, a.checkOut, b.checkIn, b.checkOut)
  }

  /** No unit is booked twice for the same day. */
  predicate NoDoubleBooking(rs: seq<Reservation>)
  {
    Pairwise(rs, Compatible)
  }

  /** Every reservation names a unit that exists. */
  predicate AllReferenced(units: seq<Unit>, rs: seq<Reservation>)
  {
    forall i :: 0 <= i < |rs| ==> HasKey(units, UnitKey, rs[i].unitId)
  }

  /** Over well-formed data, a range is available exactly when no
      reservation that counts overlaps it as a half-open range. */
  lemma AvailableIffNoOverlap(rs: seq<Reservation>, unitId: Id, checkIn: Day, checkOut: Day, exclude: Option<Id>)
    requires ValidRanges(rs) && checkIn < checkOut
    ensures IsAvailable(rs, unitId, checkIn, checkOut, exclude) <==>
      forall i :: 0 <= i < |rs| && !Excluded(rs[i], exclude) && rs[i].unitId == unitId ==>
        !Overlaps(checkIn, checkOut, rs[i].checkIn, rs[i].checkOut)
  {
    forall i | 0 <= i < |rs| {
      ConflictsIsOverlap(checkIn, checkOut, rs[i]);
    }
  }

  /** Once a reservation is appended, every range overlapping it is unavailable
      for its unit. */
  lemma BookedRangeUnavailable(rs: seq<Reservation>, r: Reservation, checkIn: Day, checkOut: Day)
    requires r.checkIn < r.checkOut && checkIn < checkOut
    requires Overlaps(checkIn, checkOut, r.checkIn, r.checkOut)
    ensures !IsAvailable(rs + [r], r.unitId, checkIn, checkOut, None)
  {
    assert (rs + [r])[|rs|] == r;
    ConflictsIsOverlap(checkIn, checkOut, r);
  }

  /** Appending an available, well-formed reservation keeps the register free
      of double bookings. */
  lemma AppendKeepsNoDoubleBooking(rs: seq<Reservation>, r: Reservation)
    requires NoDoubleBooking(rs) && ValidRanges(rs) && r.checkIn < r.checkOut
    requires IsAvailable(rs, r.unitId, r.checkIn, r.checkOut, None)
    ensures NoDoubleBooking(rs + [r]) && ValidRanges(rs + [r])
  {
    var s := rs + [r];
    forall i, j | 0 <= i < j < |s| ensures Compatible(s[i], s[j]) {
      if j == |rs| {
        assert s[i] == rs[i] && s[j] == r;
        ConflictsIsOverlap(r.checkIn, r.checkOut, rs[i]);
      } else {
        assert s[i] == rs[i] && s[j] == rs[j];
      }
    }
  }

  /** Replacing the reservation at `k` by one with the same id, checked as
      available with that id excluded, keeps the register free of double
      bookings, provided ids are unique. An empty id excludes nothing, which
      only makes the availability check stricter. */
  lemma ReplaceKeepsNoDoubleBooking(rs: seq<Reservation>, k: nat, r: Reservation)
    requires NoDoubleBooking(rs) && ValidRanges(rs) && UniqueKeys(rs, ReservationKey)
    requires k < |rs| && r.id == rs[k].id && r.checkIn < r.checkOut
    requires IsAvailable(rs, r.unitId, r.checkIn, r.checkOut, Some(r.id))
    ensures NoDoubleBooking(rs[k := r]) && ValidRanges(rs[k := r])
  {
    var s := rs[k := r];
    forall i, j | 0 <= i < j < |s| ensures Compatible(s[i], s[j]) {
      if i == k {
        assert ReservationKey(rs[k]) != ReservationKey(rs[j]);
        ConflictsIsOverlap(r.checkIn, r.checkOut, rs[j]);
      } else if j == k {
        assert ReservationKey(rs[i]) != ReservationKey(rs[k]);
        ConflictsIsOverlap(r.checkIn, r.checkOut, rs[i]);
      } else {
        assert Compatible(rs[i], rs[j]);
      }
    }
  }

  /** Re-submitting a stored reservation's own unit and dates never conflicts
      with itself, because its id is excluded. */
  lemma OwnDatesStayAvailable(rs: seq<Reservation>, k: nat)
    requires NoDoubleBooking(rs) && ValidRanges(rs)
    requires k < |rs| && rs[k].id != ""
    ensures IsAvailable(rs, rs[k].unitId, rs[k].checkIn, rs[k].checkOut, Some(rs[k].id))
  {
    var r := rs[k];
    forall i | 0 <= i < |rs| ensures !Blocks(rs[i], r.unitId, r.checkIn, r.checkOut, Some(r.id)) {
      if i != k {
        assert i < k ==> Compatible(rs[i], rs[k]);
        assert k < i ==> Compatible(rs[k], rs[i]);
        ConflictsIsOverlap(r.checkIn, r.checkOut, rs[i]);
      }
    }
  }

  /** Removing reservations (a subsequence of the register) keeps every invariant
      that is stated per reservation or per pair of reservations. */
  lemma SubsequenceKeepsInvariants(units: seq<Unit>, a: seq<Reservation>, rs: seq<Reservation>)
    requires IsSubsequence(a, rs)
    ensures NoDoubleBooking(rs) ==> NoDoubleBooking(a)
    ensures ValidRanges(rs) ==> ValidRanges(a)
    ensures AllReferenced(units, rs) ==> AllReferenced(units, a)
  {
    SubsequenceMembers(a, rs);
    if NoDoubleBooking(rs) {
      SubsequencePairwise(a, rs, Compatible);
    }
    forall i | 0 <= i < |a| ensures exists j :: 0 <= j < |rs| && rs[j] == a[i] {
      assert a[i] in rs;
    }
  }

  // ---------------------------------------------------------------------
  // Lookups and search
  // ---------------------------------------------------------------------

  /** `obtenerDepartamentoPorId`: the first unit with that id, or none. */
  function FindUnit(units: seq<Unit>, id: Id): (r: Option<Unit>)
    ensures r.None? <==> !HasKey(units, UnitKey, id)
    ensures r.Some? ==> r.value in units && r.value.id == id
    ensures r.Some? ==> r.value == units[IndexOfKey(units, UnitKey, id)]
  {
    var k := IndexOfKey(units, UnitKey, id);
    if k < 0 then None else Some(units[k])
  }

  /** `obtenerReservaPorId`: the first reservation with that id, or none. */
  function FindReservation(rs: seq<Reservation>, id: Id): (r: Option<Reservation>)
    ensures r.None? <==> !HasKey(rs, ReservationKey, id)
    ensures r.Some? ==> r.value in rs && r.value.id == id
    ensures r.Some? ==> r.value == rs[IndexOfKey(rs, ReservationKey, id)]
  {
    var k := IndexOfKey(rs, ReservationKey, id);
    if k < 0 then None else Some(rs[k])
  }

  /** `obtenerReservasPorDepartamento`: the reservations of one unit, in order. */
  function ReservationsOfUnit(rs: seq<Reservation>, unitId: Id): (r: seq<Reservation>)
    ensures forall x :: x in r <==> x in rs && x.unitId == unitId
    ensures forall x :: multiset(r)[x] == if x.unitId == unitId then multiset(rs)[x] else 0
    ensures r == [] <==> forall i :: 0 <= i < |rs| ==> rs[i].unitId != unitId
    ensures IsSubsequence(r, rs)
  {
    var r := Filter(rs, (x: Reservation) => x.unitId == unitId);
    assert r == [] <==> forall x :: x in rs ==> x.unitId != unitId;
    r
  }

  /** Search criteria; an absent field is an empty form input. */
  datatype Criteria = Criteria(checkIn: Option<Day>, checkOut: Option<Day>, capacity: Option<int>)

  /** A unit meets the criteria: enough capacity when one is given, and free
      for the range when both dates are given. */
  predicate MeetsCriteria(u: Unit, rs: seq<Reservation>, c: Criteria)
  {
    && (c.capacity.Some? ==> u.capacity >= c.capacity.value)
    && (c.checkIn.Some? && c.checkOut.Some? ==>
          IsAvailable(rs, u.id, c.checkIn.value, c.checkOut.value, None))
  }

  /** `buscarDepartamentosDisponibles`: filter by capacity when given, then by
      availability when both dates are given. The result keeps the units'
      order and holds exactly the units meeting the criteria. */
  function FindAvailableUnits(units: seq<Unit>, rs: seq<Reservation>, c: Criteria): (r: seq<Unit>)
    ensures IsSubsequence(r, units)
    ensures forall u :: u in r <==> u in units && MeetsCriteria(u, rs, c)
    ensures forall u :: multiset(r)[u] == if MeetsCriteria(u, rs, c) then multiset(units)[u] else 0
  {
    SubsequenceReflexive(units);
    var byCapacity :=
      if c.capacity.Some? then
        var min := c.capacity.value;
        Filter(units, (u: Unit) => u.capacity >= min)
      else
        units;
    if c.checkIn.Some? && c.checkOut.Some? then
      var checkIn, checkOut := c.checkIn.value, c.checkOut.value;
      var r := Filter(byCapacity, (u: Unit) => IsAvailable(rs, u.id, checkIn, checkOut, None));
      SubsequenceTransitive(r, byCapacity, units);
      r
    else
      byCapacity
  }

  // ---------------------------------------------------------------------
  // Per-day views for the calendar
  // ---------------------------------------------------------------------

  /** How a booked day is drawn: first day, last day, or a day in between. */
  datatype DayKind = CheckInDay | CheckOutDay | Booked

  function KindOn(r: Reservation, d: Day): DayKind
  {
    if d == r.checkIn then CheckInDay else if d == r.checkOut then CheckOutDay else Booked
  }

  /** The calendar counts both the check-in and the check-out day as taken:
      a closed range, unlike the availability check. */
  predicate Covers(r: Reservation, d: Day)
  {
    r.checkIn <= d <= r.checkOut
  }

  datatype DayInfo = DayInfo(reservation: Reservation, kind: DayKind)

  /** The first reservation of `own`, in order, whose closed range contains day `d`. */
  predicate FirstCovering(own: seq<Reservation>, d: Day, i: int)
  {
    0 <= i < |own| && Covers(own[i], d) && forall j :: 0 <= j < i ==> !Covers(own[j], d)
  }

  /** The loop of `verificarFechaReservada`: scan `own` in order and stop at
      the first reservation whose closed range contains day `d`. */
  method ScanForDay(own: seq<Reservation>, d: Day) returns (info: Option<DayInfo>)
    ensures info.None? <==> forall j :: 0 <= j < |own| ==> !Covers(own[j], d)
    ensures info.Some? ==>
      && info.value.kind == KindOn(info.value.reservation, d)
      && exists i :: FirstCovering(own, d, i) && own[i] == info.value.reservation
  {
    for i := 0 to |own|
      invariant forall j :: 0 <= j < i ==> !Covers(own[j], d)
    {
      var r := own[i];
      if r.checkIn <= d && d <= r.checkOut {
        assert FirstCovering(own, d, i);
        return Some(DayInfo(r, KindOn(r, d)));
      }
    }
    return None;
  }

  /** `verificarFechaReservada`: scan the unit's reservations in order and
      report the first whose closed range contains day `d`. */
  method FindReservationOnDay(rs: seq<Reservation>, unitId: Id, d: Day) returns (info: Option<DayInfo>)
    ensures info.None? <==> forall x :: x in rs && x.unitId == unitId ==> !Covers(x, d)
    ensures info.Some? ==>
      && info.value.reservation in rs
      && info.value.reservation.unitId == unitId
      && Covers(info.value.reservation, d)
      && info.value.kind == KindOn(info.value.reservation, d)
    ensures info.Some? ==>
      exists i :: FirstCovering(ReservationsOfUnit(rs, unitId), d, i) &&
        ReservationsOfUnit(rs, unitId)[i] == info.value.reservation
  {
    var own := ReservationsOfUnit(rs, unitId);
    info := ScanForDay(own, d);
    if info.None? {
      forall x | x in rs && x.unitId == unitId ensures !Covers(x, d) {
        assert x in own;
      }
    } else {
      assert info.value.reservation in own;
    }
  }

  /** One day of the month view: day of the month, kind, guest and reservation. */
  datatype DayMark = DayMark(day: int, kind: DayKind, guest: string, reservationId: Id)

  /** The marks reservation `r` contributes to the month whose days are
      `[lo, hi)`, for the days of `r` before `upTo`, keyed by day of the month. */
  function MarksOf(r: Reservation, lo: Day, hi: Day, upTo: Day): map<int, DayMark>
  {
    map k | 1 <= k <= hi - lo && MarkedBefore(r, lo, k, upTo) ::
      DayMark(k, KindOn(r, lo + k - 1), r.guest, r.id)
  }

  /** Day `k` of the month starting on day `lo` is one of `r`'s days, closed
      range, and comes before `upTo`. */
  predicate MarkedBefore(r: Reservation, lo: Day, k: int, upTo: Day)
  {
    Covers(r, lo + k - 1) && lo + k - 1 < upTo
  }

  /** The month view of a unit's reservations: each later reservation
      overwrites the marks of earlier ones on shared days (`Map.set`). */
  function MonthMarks(own: seq<Reservation>, lo: Day, hi: Day): map<int, DayMark>
    decreases |own|
  {
    if own == [] then map[]
    else
      var last := own[|own| - 1];
      MonthMarks(own[..|own| - 1], lo, hi) + MarksOf(last, lo, hi, last.checkOut + 1)
  }

  /** A day of the month is marked exactly when some reservation's closed range
      covers it. */
  lemma {:induction false} MonthMarksCoverage(own: seq<Reservation>, lo: Day, hi: Day, k: int)
    requires 1 <= k <= hi - lo
    ensures k in MonthMarks(own, lo, hi) <==> exists i :: 0 <= i < |own| && Covers(own[i], lo + k - 1)
    decreases |own|
  {
    if own != [] {
      var n, d := |own| - 1, lo + k - 1;
      var init, last := own[..n], own[n];
      MonthMarksCoverage(init, lo, hi, k);
      assert forall i :: 0 <= i < n ==> init[i] == own[i];
      var mark := MarksOf(last, lo, hi, last.checkOut + 1);
      assert MonthMarks(own, lo, hi) == MonthMarks(init, lo, hi) + mark;
      assert k in mark <==> Covers(last, d) by {
        assert MarkedBefore(last, lo, k, last.checkOut + 1) <==> Covers(last, d);
      }
    }
  }

  /** The last reservation of `own`, in order, whose closed range contains day `d`. */
  predicate LastCovering(own: seq<Reservation>, d: Day, i: int)
  {
    0 <= i < |own| && Covers(own[i], d) && forall j :: i < j < |own| ==> !Covers(own[j], d)
  }

  /** Appending a reservation that does not hold day `d` keeps the last
      reservation holding it. */
  lemma LastCoveringExtends(own: seq<Reservation>, r: Reservation, d: Day, i: int)
    requires LastCovering(own, d, i) && !Covers(r, d)
    ensures LastCovering(own + [r], d, i)
  {
    var own' := own + [r];
    assert forall j :: i < j < |own'| ==> own'[j] == if j < |own| then own[j] else r;
  }

  /** The mark of a marked day names the day, its kind and the last
      reservation whose closed range covers it. */
  lemma {:induction false} MonthMarksLastCover(own: seq<Reservation>, lo: Day, hi: Day, k: int)
    requires 1 <= k <= hi - lo
    ensures k in MonthMarks(own, lo, hi) ==>
      exists i :: LastCovering(own, lo + k - 1, i) &&
        MonthMarks(own, lo, hi)[k] == DayMark(k, KindOn(own[i], lo + k - 1), own[i].guest, own[i].id)
    decreases |own|
  {
    if own != [] {
      var n, d := |own| - 1, lo + k - 1;
      var init, last := own[..n], own[n];
      assert own == init + [last];
      MonthMarksLastCover(init, lo, hi, k);
      var m, mark := MonthMarks(own, lo, hi), MarksOf(last, lo, hi, last.checkOut + 1);
      assert m == MonthMarks(init, lo, hi) + mark;
      if Covers(last, d) {
        assert MarkedBefore(last, lo, k, last.checkOut + 1);
        assert LastCovering(own, d, n);
      } else if k in m {
        assert k !in mark;
        var i :| LastCovering(init, d, i) &&
          MonthMarks(init, lo, hi)[k] == DayMark(k, KindOn(init[i], d), init[i].guest, init[i].id);
        LastCoveringExtends(init, last, d, i);
        assert init[i] == own[i];
      }
    }
  }

  /** Only days of the month are marked, each under its own day number. */
  lemma {:induction false} MonthMarksShape(own: seq<Reservation>, lo: Day, hi: Day)
    ensures forall k :: k in MonthMarks(own, lo, hi) ==> 1 <= k <= hi - lo && MonthMarks(own, lo, hi)[k].day == k
    decreases |own|
  {
    if own != [] {
      MonthMarksShape(own[..|own| - 1], lo, hi);
    }
  }

  lemma MarksOfNextDay(r: Reservation, lo: Day, hi: Day, day: Day)
    ensures MarksOf(r, lo, hi, day + 1) ==
      if lo <= day < hi && r.checkIn <= day <= r.checkOut
      then MarksOf(r, lo, hi, day)[day - lo + 1 := DayMark(day - lo + 1, KindOn(r, day), r.guest, r.id)]
      else MarksOf(r, lo, hi, day)
  {
  }

  /** The inner loop of `obtenerReservasPorMes`: walk reservation `r` day by
      day from check-in to check-out inclusive and set the mark of every day
      that falls in `[lo, hi)`, under its day of the month. */
  method MarkStay(marks0: map<int, DayMark>, r: Reservation, lo: Day, hi: Day) returns (marks: map<int, DayMark>)
    ensures marks == marks0 + MarksOf(r, lo, hi, r.checkOut + 1)
  {
    marks := marks0;
    var day := r.checkIn;
    while day <= r.checkOut
      invariant day == r.checkIn || r.checkIn <= day <= r.checkOut + 1
      invariant marks == marks0 + MarksOf(r, lo, hi, day)
      decreases r.checkOut + 1 - day
    {
      MarksOfNextDay(r, lo, hi, day);
      if lo <= day < hi {
        marks := marks[day - lo + 1 := DayMark(day - lo + 1, KindOn(r, day), r.guest, r.id)];
      }
      day := day + 1;
    }
    assert MarksOf(r, lo, hi, day) == MarksOf(r, lo, hi, r.checkOut + 1);
  }

  /** The outer loop of `obtenerReservasPorMes`: mark the stays of `own` in
      order, a later stay overwriting an earlier one on a shared day. */
  method MarkDays(own: seq<Reservation>, lo: Day, hi: Day) returns (marks: map<int, DayMark>)
    ensures marks == MonthMarks(own, lo, hi)
  {
    marks := map[];
    for i := 0 to |own|
      invariant marks == MonthMarks(own[..i], lo, hi)
    {
      marks := MarkStay(marks, own[i], lo, hi);
      assert own[..i + 1][..i] == own[..i];
    }
    assert own[..|own|] == own;
  }

  /** `obtenerReservasPorMes`: the month view of the unit's reservations for
      month `month` (0 is January) of `year`. */
  method ReservedDaysInMonth(rs: seq<Reservation>, unitId: Id, year: int, month: Month)
    returns (marks: map<int, DayMark>)
    ensures marks == MonthMarks(ReservationsOfUnit(rs, unitId), MonthWindow(year, month).0, MonthWindow(year, month).1)
    ensures forall k :: k in marks ==> 1 <= k <= DaysInMonth(year, month + 1) && marks[k].day == k
  {
    var own := ReservationsOfUnit(rs, unitId);
    var (lo, hi) := MonthWindow(year, month);
    marks := MarkDays(own, lo, hi);
    MonthMarksShape(own, lo, hi);
  }
}
