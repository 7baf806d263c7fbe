/** The controller's logic behind the forms and the calendar: the checks
    the search, unit and reservation forms make before anything reaches
    the data layer, the dispatch to create or update that follows them,
    and the calendar's month cursor. Showing alerts and rendering are left to the caller: a
    refused form is a `Failure` naming the alert. */
module Controller {
  import opened Wrappers
  import opened Sequences
  import opened Dates
  import opened Text
  import opened Bookings
  import opened ModelStore

  // ---------------------------------------------------------------------
  // Search form
  // ---------------------------------------------------------------------

  /** The alerts `buscarDisponibilidad` can show instead of searching. */
  datatype SearchAlert =
    | MissingCriteria       // no field filled in
    | SearchDatesOutOfOrder // check-out not after check-in
    | SearchNeedsBothDates  // only one of the two dates

  /** The checks of `buscarDisponibilidad`, in its order. An empty form field
      is `None`; a filled capacity field is `Some` whatever its number. */
  function SearchGate(c: Criteria): (r: Result<Criteria, SearchAlert>)
    ensures r == Failure(MissingCriteria) <==> c.checkIn.None? && c.checkOut.None? && c.capacity.None?
    ensures r == Failure(SearchDatesOutOfOrder) <==>
      c.checkIn.Some? && c.checkOut.Some? && c.checkOut.value <= c.checkIn.value
    ensures r == Failure(SearchNeedsBothDates) <==> c.checkIn.Some? != c.checkOut.Some?
    ensures r.Success? <==>
      && (c.checkIn.Some? || c.checkOut.Some? || c.capacity.Some?)
      && (c.checkIn.Some? <==> c.checkOut.Some?)
      && (c.checkIn.Some? ==> c.checkIn.value < c.checkOut.value)
    ensures r.Success? ==> r.value == c
  {
    if c.checkIn.None? && c.checkOut.None? && c.capacity.None? then Failure(MissingCriteria)
    else if c.checkIn.Some? && c.checkOut.Some? && c.checkOut.value <= c.checkIn.value then
      Failure(SearchDatesOutOfOrder)
    else if c.checkIn.Some? != c.checkOut.Some? then Failure(SearchNeedsBothDates)
    else Success(c)
  }

  /** `buscarDisponibilidad`: the gate, then the data layer's search. */
  function Search(units: seq<Unit>, rs: seq<Reservation>, c: Criteria): (r: Result<seq<Unit>, SearchAlert>)
    ensures SearchGate(c).Failure? ==> r == Failure(SearchGate(c).error)
    ensures SearchGate(c).Success? ==> r.Success? && IsSubsequence(r.value, units)
    ensures r.Success? ==> forall u :: u in r.value <==> u in units && MeetsCriteria(u, rs, c)
    ensures r.Success? ==> forall u :: multiset(r.value)[u] == if MeetsCriteria(u, rs, c) then multiset(units)[u] else 0
  {
    var g := SearchGate(c);
    if g.Failure? then Failure(g.error) else Success(FindAvailableUnits(units, rs, c))
  }

  /** A unit the search offers for a range shares no day of that range
      with any reservation of the unit, counting check-out as free. */
  lemma SearchResultsAreFree(units: seq<Unit>, rs: seq<Reservation>, ci: Day, co: Day, cap: Option<int>, u: Unit)
    requires ValidRanges(rs)
    requires var r := Search(units, rs, Criteria(Some(ci), Some(co), cap)); r.Success? && u in r.value
    ensures ci < co && u in units
    ensures forall i :: 0 <= i < |rs| && rs[i].unitId == u.id ==> !Overlaps(ci, co, rs[i].checkIn, rs[i].checkOut)
    ensures cap.Some? ==> u.capacity >= cap.value
  {
    AvailableIffNoOverlap(rs, u.id, ci, co, None);
  }

  // ---------------------------------------------------------------------
  // Unit form
  // ---------------------------------------------------------------------

  /** The unit form: the hidden id ("" for a new unit), the name and
      description as typed, and the capacity field (`None` when empty). */
  datatype UnitForm = UnitForm(id: Id, name: string, capacity: Option<int>, description: string)

  datatype UnitAlert =
    | NameRequired     // name empty after trimming
    | CapacityBelowOne // capacity missing or below 1

  /** The data-layer call `guardarDepartamento` makes once the form passes. */
  datatype UnitCommand = AddUnit(input: UnitInput) | EditUnit(id: Id, input: UnitInput)

  /** The checks of `guardarDepartamento`, in its order, then the choice
      between updating (the form has an id) and creating. */
  function UnitFormGate(f: UnitForm): (r: Result<UnitCommand, UnitAlert>)
    ensures r == Failure(NameRequired) <==> IsBlank(f.name)
    ensures r == Failure(CapacityBelowOne) <==> !IsBlank(f.name) && (f.capacity.None? || f.capacity.value < 1)
    ensures r.Success? ==>
      && r.value.input == UnitInput(f.name, f.capacity.value, Some(f.description))
      && (r.value.EditUnit? <==> f.id != "")
      && (r.value.EditUnit? ==> r.value.id == f.id)
  {
    if Trim(f.name) == [] then Failure(NameRequired)
    else if f.capacity.None? || f.capacity.value < 1 then Failure(CapacityBelowOne)
    else
      var input := UnitInput(f.name, f.capacity.value, Some(f.description));
      if f.id != "" then Success(EditUnit(f.id, input)) else Success(AddUnit(input))
  }

  /** What the gate lets through is a unit the data layer stores with a
      non-empty name that is its own trim, and a capacity of at least 1. */
  lemma GatedUnitIsWellFormed(f: UnitForm, id: Id, now: Timestamp)
    requires UnitFormGate(f).Success?
    ensures var u := NewUnit(UnitFormGate(f).value.input, id, now);
      u.name != [] && Trim(u.name) == u.name && u.capacity >= 1
  {
    TrimIdempotent(f.name);
  }

  /** The data layer alone stores a blank name and a zero capacity; only
      the form gate refuses them. */
  lemma OnlyTheGateRefusesBlankNames(id: Id, now: Timestamp)
    ensures NewUnit(UnitInput(" ", 0, None), id, now).name == ""
    ensures UnitFormGate(UnitForm("", " ", Some(0), "")) == Failure(NameRequired)
    ensures UnitFormGate(UnitForm("", "Studio", Some(0), "")) == Failure(CapacityBelowOne)
  {
    assert IsSpace(' ');
  }

  /** `guardarDepartamento`: on a refused form nothing changes; otherwise
      the update or create it chose is carried out. */
  method SaveUnit(store: Store, f: UnitForm, newId: Id, now: Timestamp) returns (r: Result<UnitCommand, UnitAlert>)
    modifies store
    ensures r == UnitFormGate(f)
    ensures r.Failure? ==> store.units == old(store.units)
    ensures r.Success? && r.value.AddUnit? ==> store.units == old(store.units) + [NewUnit(r.value.input, newId, now)]
    ensures r.Success? && r.value.EditUnit? && !HasKey(old(store.units), UnitKey, f.id) ==>
      store.units == old(store.units)
    ensures r.Success? && r.value.EditUnit? && HasKey(old(store.units), UnitKey, f.id) ==>
      var k := IndexOfKey(old(store.units), UnitKey, f.id);
      store.units == old(store.units)[k := EditedUnit(old(store.units)[k], r.value.input, now)]
    ensures store.reservations == old(store.reservations) && store.syncing == old(store.syncing)
  {
    r := UnitFormGate(f);
    if r.Success? {
      match r.value
      case AddUnit(input) =>
        var _ := store.CreateUnit(input, newId, now);
      case EditUnit(id, input) =>
        var _ := store.UpdateUnit(id, input, now);
    }
  }

  // ---------------------------------------------------------------------
  // Reservation form
  // ---------------------------------------------------------------------

  /** The reservation form: the hidden id ("" for a new booking), the
      selected unit ("" when none), the guest as typed, and the two dates
      (`None` when empty). */
  datatype ReservationForm = ReservationForm(id: Id, unitId: Id, guest: string, checkIn: Option<Day>, checkOut: Option<Day>)

  datatype ReservationAlert =
    | UnitRequired  // no unit selected
    | GuestRequired // guest empty after trimming
    | DatesRequired // a date missing

  /** The data-layer call `guardarReserva` makes once the form passes. */
  datatype ReservationCommand =
    | AddReservation(input: ReservationInput)
    | EditReservation(id: Id, input: ReservationInput)

  /** The checks of `guardarReserva`, in its order, then the choice between
      updating and creating. The order of the dates is left to the data layer. */
  function ReservationFormGate(f: ReservationForm): (r: Result<ReservationCommand, ReservationAlert>)
    ensures r == Failure(UnitRequired) <==> f.unitId == ""
    ensures r == Failure(GuestRequired) <==> f.unitId != "" && IsBlank(f.guest)
    ensures r == Failure(DatesRequired) <==>
      f.unitId != "" && !IsBlank(f.guest) && (f.checkIn.None? || f.checkOut.None?)
    ensures r.Success? ==>
      && r.value.input == ReservationInput(f.unitId, f.guest, f.checkIn.value, f.checkOut.value)
      && (r.value.EditReservation? <==> f.id != "")
      && (r.value.EditReservation? ==> r.value.id == f.id)
  {
    if f.unitId == "" then Failure(UnitRequired)
    else if Trim(f.guest) == [] then Failure(GuestRequired)
    else if f.checkIn.None? || f.checkOut.None? then Failure(DatesRequired)
    else
      var input := ReservationInput(f.unitId, f.guest, f.checkIn.value, f.checkOut.value);
      if f.id != "" then Success(EditReservation(f.id, input)) else Success(AddReservation(input))
  }

  /** A booking the gate lets through is stored with a non-empty guest name
      that is its own trim, whether created or edited. */
  lemma GatedReservationHasGuest(f: ReservationForm, r: Reservation, id: Id, now: Timestamp)
    requires ReservationFormGate(f).Success?
    ensures var input := ReservationFormGate(f).value.input;
      && NewReservation(input, id, now).guest != []
      && EditedReservation(r, input, now).guest != []
      && Trim(NewReservation(input, id, now).guest) == NewReservation(input, id, now).guest
  {
    var input := ReservationFormGate(f).value.input;
    assert input.guest == f.guest && !IsBlank(f.guest);
    TrimIdempotent(f.guest);
  }

  /** `guardarReserva`: on a refused form nothing changes; otherwise the
      update or create it chose is carried out, with the data layer's own
      checks. */
  method SaveReservation(store: Store, f: ReservationForm, newId: Id, now: Timestamp)
    returns (r: Result<ReservationCommand, ReservationAlert>, outcome: Option<Result<Option<Reservation>, StoreError>>)
    modifies store
    ensures r == ReservationFormGate(f)
    ensures r.Failure? <==> outcome.None?
    ensures r.Failure? ==> store.reservations == old(store.reservations)
    ensures outcome.Some? && outcome.value.Failure? ==> store.reservations == old(store.reservations)
    ensures outcome.Some? && outcome.value.Success? && outcome.value.value.Some? ==>
      && outcome.value.value.value in store.reservations
      && outcome.value.value.value.guest != []
    ensures outcome.Some? && outcome.value == Success(None) ==> store.reservations == old(store.reservations)
    ensures r.Success? && r.value.AddReservation? && outcome.Some? && outcome.value.Success? ==>
      && outcome.value.value == Some(NewReservation(r.value.input, newId, now))
      && store.reservations == old(store.reservations) + [NewReservation(r.value.input, newId, now)]
    ensures r.Success? && r.value.EditReservation? && outcome.Some? && outcome.value.Success? && outcome.value.value.Some? ==>
      && HasKey(old(store.reservations), ReservationKey, f.id)
      && var k := IndexOfKey(old(store.reservations), ReservationKey, f.id);
      && outcome.value.value.value == EditedReservation(old(store.reservations)[k], r.value.input, now)
      && store.reservations == old(store.reservations)[k := outcome.value.value.value]
    ensures r.Success? && r.value.AddReservation? ==>
      var input, known := r.value.input, HasKey(old(store.units), UnitKey, r.value.input.unitId);
      && outcome.Some?
      && (outcome.value == Failure(UnitNotFound) <==> !known)
      && (outcome.value == Failure(CheckOutNotAfterCheckIn) <==> known && input.checkOut <= input.checkIn)
      && (outcome.value == Failure(DatesTaken) <==>
            (known && input.checkIn < input.checkOut &&
             !IsAvailable(old(store.reservations), input.unitId, input.checkIn, input.checkOut, None)))
      && (outcome.value.Success? <==>
            (known && input.checkIn < input.checkOut &&
             IsAvailable(old(store.reservations), input.unitId, input.checkIn, input.checkOut, None)))
    ensures r.Success? && r.value.EditReservation? ==>
      var input, known := r.value.input, HasKey(old(store.reservations), ReservationKey, f.id);
      && outcome.Some?
      && (outcome.value == Success(None) <==> !known)
      && (outcome.value == Failure(CheckOutNotAfterCheckIn) <==> known && input.checkOut <= input.checkIn)
      && (outcome.value == Failure(DatesTaken) <==>
            (known && input.checkIn < input.checkOut &&
             !IsAvailable(old(store.reservations), input.unitId, input.checkIn, input.checkOut, Some(f.id))))
      && (outcome.value.Success? && outcome.value.value.Some? <==>
            (known && input.checkIn < input.checkOut &&
             IsAvailable(old(store.reservations), input.unitId, input.checkIn, input.checkOut, Some(f.id))))
    ensures store.units == old(store.units) && store.syncing == old(store.syncing)
  {
    r := ReservationFormGate(f);
    if r.Failure? {
      return r, None;
    }
    var input := r.value.input;
    match r.value
    case AddReservation(_) =>
      var created := store.CreateReservation(input, newId, now);
      outcome := Some(if created.Success? then Success(Some(created.value)) else Failure(created.error));
    case EditReservation(id, _) =>
      var edited := store.UpdateReservation(id, input, now);
      if edited.Success? && edited.value.Some? {
        var k := IndexOfKey(old(store.reservations), ReservationKey, id);
        assert store.reservations[k] == edited.value.value;
      }
      outcome := Some(edited);
  }

  // ---------------------------------------------------------------------
  // Calendar cursor
  // ---------------------------------------------------------------------

  /** One step of `cambiarMesCalendario` on (year, month): add `direction`
      to the month, then a month past December becomes January of the next
      year and one before January becomes December of the previous year. */
  function MonthStep(year: int, month: int, direction: int): (ym: (int, int))
    ensures 0 <= ym.1 <= 11
  {
    var m := month + direction;
    if m > 11 then (year + 1, 0)
    else if m < 0 then (year - 1, 11)
    else (year, m)
  }

  /** A step of one month forward or back moves the cursor by exactly one
      month on the running count `year * 12 + month`. */
  lemma MonthStepByOne(year: int, month: Month, direction: int)
    requires direction == 1 || direction == -1
    ensures var (y, m) := MonthStep(year, month, direction);
      y * 12 + m == year * 12 + month + direction
  {
  }

  /** Forward then back, or back then forward, returns to the same month. */
  lemma MonthStepInverse(year: int, month: Month)
    ensures var (y, m) := MonthStep(year, month, 1); MonthStep(y, m, -1) == (year, month)
    ensures var (y, m) := MonthStep(year, month, -1); MonthStep(y, m, 1) == (year, month)
  {
    MonthStepByOne(year, month, 1);
    MonthStepByOne(year, month, -1);
  }

  /** The calendar's cursor, `calendarioActual`: absent until a unit is
      shown, then the unit and the month (0 is January) on display. */
  class Calendar {
    var hasCursor: bool
    var unitId: Id
    var year: int
    var month: int

    predicate Valid()
      reads this
    {
      0 <= month <= 11
    }

    constructor ()
      ensures !hasCursor && Valid()
    {
      hasCursor := false;
      unitId := "";
      year := 0;
      month := 0;
    }

    /** The cursor part of `actualizarCalendario`: the first time, the
        cursor starts at today's month; afterwards only the unit changes. */
    method ShowUnit(id: Id, todayYear: int, todayMonth: Month)
      modifies this
      ensures hasCursor && unitId == id
      ensures old(hasCursor) ==> year == old(year) && month == old(month)
      ensures !old(hasCursor) ==> year == todayYear && month == todayMonth
      ensures old(Valid()) ==> Valid()
    {
      if !hasCursor {
        hasCursor, year, month := true, todayYear, todayMonth;
      }
      unitId := id;
    }

    /** The "today" button: with a unit selected, a new cursor on it and
        today's month; with none (`id == ""`), only an alert, and the cursor
        stays as it was. */
    method ShowToday(id: Id, todayYear: int, todayMonth: Month)
      modifies this
      ensures id != "" ==> hasCursor && unitId == id && year == todayYear && month == todayMonth
      ensures id == "" ==>
        hasCursor == old(hasCursor) && unitId == old(unitId) && year == old(year) && month == old(month)
      ensures old(Valid()) ==> Valid()
      ensures id != "" ==> Valid()
    {
      if id != "" {
        hasCursor, unitId, year, month := true, id, todayYear, todayMonth;
      }
    }

    /** `cambiarMesCalendario`: nothing happens while no unit is shown;
        otherwise the month moves by `direction`, wrapping into the next or
        previous year. */
    method ChangeMonth(direction: int)
      modifies this
      ensures !old(hasCursor) || old(unitId) == "" ==>
        year == old(year) && month == old(month)
      ensures old(hasCursor) && old(unitId) != "" ==>
        (year, month) == MonthStep(old(year), old(month), direction)
      ensures hasCursor == old(hasCursor) && unitId == old(unitId)
      ensures old(Valid()) ==> Valid()
      ensures old(Valid()) && old(hasCursor) && old(unitId) != "" && (direction == 1 || direction == -1) ==>
        year * 12 + month == old(year) * 12 + old(month) + direction
    {
      if !hasCursor || unitId == "" {
        return;
      }
      ghost var y0, m0 := year, month;
      month := month + direction;
      if month > 11 {
        month := 0;
        year := year + 1;
      } else if month < 0 {
        month := 11;
        year := year - 1;
      }
      if 0 <= m0 <= 11 && (direction == 1 || direction == -1) {
        MonthStepByOne(y0, m0, direction);
      }
    }
  }
}
