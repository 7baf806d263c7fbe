/** The sample register `datos-ejemplo.js` loads (five units, five
    reservations in November 2025) and concrete consequences of the model
    on it. */
module Fixtures {
  import opened Wrappers
  import opened Sequences
  import opened Dates
  import opened Text
  import opened Bookings
  import opened ModelStore
  import opened Controller

  /** Day `d` of November 2025, as a day number. */
  function Nov(d: int): Day
  {
    20392 + d
  }

  /** `Nov` agrees with the civil calendar: day numbers count from
      1970-01-01, and the first sample check-in, 2025-11-10, is day 20402. */
  lemma NovIsCivil(d: int)
    ensures Nov(d) == DaysFromCivil(2025, 11, d)
    ensures DaysFromCivil(1970, 1, 1) == 0
    ensures Nov(10) == 20402
    ensures MonthWindow(2025, 10) == (Nov(1), Nov(31))
  {
  }

  const Dept001 := Unit("dept001", "Departamento 101 - Vista al Mar", 4,
    "2 dormitorios, balcón con vista panorámica, totalmente equipado", "2025-11-01T10:00:00.000Z", None)
  const Dept002 := Unit("dept002", "Departamento 202 - Céntrico", 2,
    "1 dormitorio, ideal para pareja, cerca de todo", "2025-11-01T10:15:00.000Z", None)
  const Dept003 := Unit("dept003", "Departamento 303 - Familiar", 6,
    "3 dormitorios, 2 baños, cocina completa, sala amplia", "2025-11-01T10:30:00.000Z", None)
  const Dept004 := Unit("dept004", "Studio A - Moderno", 2,
    "Studio moderno, WiFi, Smart TV, cocina americana", "2025-11-01T10:45:00.000Z", None)
  const Dept005 := Unit("dept005", "Penthouse 501", 8,
    "Penthouse de lujo, terraza privada, jacuzzi, 4 dormitorios", "2025-11-01T11:00:00.000Z", None)

  const Res001 := Reservation("res001", "dept001", "María González", Nov(10), Nov(15), "2025-11-02T14:00:00.000Z", None)
  const Res002 := Reservation("res002", "dept002", "Carlos Ramírez", Nov(8), Nov(12), "2025-11-02T15:30:00.000Z", None)
  const Res003 := Reservation("res003", "dept003", "Familia Rodríguez", Nov(20), Nov(27), "2025-11-03T09:00:00.000Z", None)
  const Res004 := Reservation("res004", "dept001", "Juan Pérez", Nov(18), Nov(22), "2025-11-03T10:00:00.000Z", None)
  const Res005 := Reservation("res005", "dept004", "Ana Martínez", Nov(5), Nov(7), "2025-11-01T16:00:00.000Z", None)

  const SampleUnits := [Dept001, Dept002, Dept003, Dept004, Dept005]
  const SampleReservations := [Res001, Res002, Res003, Res004, Res005]

  /** The sample register keeps every invariant the guards protect. */
  lemma SampleIsConsistent()
    ensures ValidRanges(SampleReservations)
    ensures NoDoubleBooking(SampleReservations)
    ensures AllReferenced(SampleUnits, SampleReservations)
    ensures UniqueKeys(SampleUnits, UnitKey) && UniqueKeys(SampleReservations, ReservationKey)
  {
    var rs := SampleReservations;
    assert UnitKey(SampleUnits[0]) == rs[0].unitId && UnitKey(SampleUnits[0]) == rs[3].unitId;
    assert UnitKey(SampleUnits[1]) == rs[1].unitId && UnitKey(SampleUnits[2]) == rs[2].unitId;
    assert UnitKey(SampleUnits[3]) == rs[4].unitId;
  }

  /** Around `res001` (dept001, 10 to 15 November): the days before it and
      the gap up to `res004` are free, a range reaching into it is not, and
      its own dates are free when it is the reservation being edited. */
  lemma Res001Availability()
    ensures IsAvailable(SampleReservations, "dept001", Nov(5), Nov(10), None)
    ensures IsAvailable(SampleReservations, "dept001", Nov(15), Nov(18), None)
    ensures !IsAvailable(SampleReservations, "dept001", Nov(10), Nov(11), None)
    ensures !IsAvailable(SampleReservations, "dept001", Nov(14), Nov(20), None)
    ensures IsAvailable(SampleReservations, "dept001", Nov(10), Nov(15), Some("res001"))
    ensures !IsAvailable(SampleReservations, "dept001", Nov(10), Nov(15), Some(""))
    ensures IsAvailable(SampleReservations, "dept001", Nov(15), Nov(16), None)
  {
    assert Blocks(SampleReservations[0], "dept001", Nov(10), Nov(11), None);
    assert Blocks(SampleReservations[0], "dept001", Nov(10), Nov(15), Some(""));
  }

  /** The calendar shows 15 November as the last day of `res001`, although
      a new stay may start that day. */
  method CheckOutDayShownTaken() returns (info: Option<DayInfo>)
    ensures info == Some(DayInfo(Res001, CheckOutDay))
    ensures IsAvailable(SampleReservations, "dept001", Nov(15), Nov(16), None)
  {
    info := FindReservationOnDay(SampleReservations, "dept001", Nov(15));
    assert Res001 in SampleReservations && Covers(Res001, Nov(15));
    Res001Availability();
  }

  /** From 5 to 7 November every sample unit is free but Studio A. */
  lemma FreeFromNov5ToNov7()
    ensures !IsAvailable(SampleReservations, "dept004", Nov(5), Nov(7), None)
    ensures IsAvailable(SampleReservations, "dept001", Nov(5), Nov(7), None)
    ensures IsAvailable(SampleReservations, "dept002", Nov(5), Nov(7), None)
    ensures IsAvailable(SampleReservations, "dept003", Nov(5), Nov(7), None)
    ensures IsAvailable(SampleReservations, "dept005", Nov(5), Nov(7), None)
  {
    assert Blocks(SampleReservations[4], "dept004", Nov(5), Nov(7), None);
  }

  /** A search for two guests from 5 to 7 November offers every unit but
      Studio A, which Ana Martínez has booked for those days; a search with
      the dates reversed or only one date is refused. */
  lemma SearchExample()
    ensures var r := Search(SampleUnits, SampleReservations, Criteria(Some(Nov(5)), Some(Nov(7)), Some(2)));
      && r.Success?
      && Dept004 !in r.value
      && Dept001 in r.value && Dept002 in r.value && Dept003 in r.value && Dept005 in r.value
    ensures Search(SampleUnits, SampleReservations, Criteria(Some(Nov(7)), Some(Nov(5)), Some(2))) ==
      Failure(SearchDatesOutOfOrder)
    ensures Search(SampleUnits, SampleReservations, Criteria(Some(Nov(5)), None, None)) ==
      Failure(SearchNeedsBothDates)
  {
    FreeFromNov5ToNov7();
  }

  const StudioInput := UnitInput("Studio A - Moderno", 2, None)
  const AnaInput := ReservationInput("dept004", "Ana Martínez", Nov(5), Nov(7))

  /** In a register holding only the new studio, Ana's booking names an
      existing unit and is well ordered and free. */
  lemma AnaCanBook(studio: Unit)
    requires studio.id == "dept004"
    ensures HasKey([studio], UnitKey, AnaInput.unitId)
    ensures AnaInput.checkIn < AnaInput.checkOut && IsAvailable([], AnaInput.unitId, AnaInput.checkIn, AnaInput.checkOut, None)
    ensures !HasKey([], ReservationKey, "res005")
  {
    assert UnitKey([studio][0]) == "dept004";
  }

  /** Ana's name has no padding, so her booking keeps it as typed. */
  lemma AnaNameKept(now: Timestamp)
    ensures NewReservation(AnaInput, "res005", now).guest == "Ana Martínez"
  {
    TrimUnpadded("Ana Martínez");
  }

  /** A fresh store: Studio A is created and Ana books it from 5 to 7
      November, her name stored as typed since it has no padding. */
  method BookStudio() returns (store: Store, studio: Unit, first: Result<Reservation, StoreError>)
    ensures fresh(store)
    ensures first.Success? && first.value.guest == "Ana Martínez"
    ensures first.value.unitId == studio.id && first.value.checkIn == Nov(5) && first.value.checkOut == Nov(7)
    ensures store.units == [studio] && store.reservations == [first.value]
    ensures store.Consistent()
  {
    store := new Store(None, None);
    studio := store.CreateUnit(StudioInput, "dept004", "2025-11-01T10:45:00.000Z");
    AnaCanBook(studio);
    AnaNameKept("2025-11-01T16:00:00.000Z");
    first := store.CreateReservation(AnaInput, "res005", "2025-11-01T16:00:00.000Z");
  }

  /** After Ana's booking, a second booking reaching into her stay is
      refused, a search for her nights no longer offers the studio, and one
      starting on her check-out day does. */
  method StudioScenario() returns (store: Store, second: Result<Reservation, StoreError>)
    ensures second == Failure(DatesTaken)
    ensures |store.units| == 1 && |store.reservations| == 1
    ensures Search(store.units, store.reservations, Criteria(Some(Nov(5)), Some(Nov(7)), None)) == Success([])
    ensures var r := Search(store.units, store.reservations, Criteria(Some(Nov(7)), Some(Nov(9)), None));
      r.Success? && store.units[0] in r.value
  {
    var studio, first;
    store, studio, first := BookStudio();
    AnaBlocksHerNights(first.value, studio);
    second := store.CreateReservation(ReservationInput(studio.id, "Carlos Ramírez", Nov(6), Nov(8)), "res006", "2025-11-02T09:00:00.000Z");
  }

  /** With only Ana's stay booked, the studio is taken for her nights and for
      any range reaching into them, and free from her check-out day. */
  lemma AnaBlocksHerNights(ana: Reservation, studio: Unit)
    requires ana.unitId == studio.id && ana.checkIn == Nov(5) && ana.checkOut == Nov(7)
    ensures !IsAvailable([ana], studio.id, Nov(5), Nov(7), None)
    ensures !IsAvailable([ana], studio.id, Nov(6), Nov(8), None)
    ensures IsAvailable([ana], studio.id, Nov(7), Nov(9), None)
    ensures Search([studio], [ana], Criteria(Some(Nov(5)), Some(Nov(7)), None)) == Success([])
    ensures var r := Search([studio], [ana], Criteria(Some(Nov(7)), Some(Nov(9)), None));
      r.Success? && studio in r.value
  {
    assert Blocks([ana][0], studio.id, Nov(5), Nov(7), None);
    assert Blocks([ana][0], studio.id, Nov(6), Nov(8), None);
  }

  /** Editing a reservation to name a unit that does not exist is accepted:
      the update does not check the unit, so the register can be left with
      a reservation whose unit is missing. */
  method UpdateCanOrphan() returns (store: Store, result: Result<Option<Reservation>, StoreError>)
    ensures result.Success? && result.value.Some?
    ensures !AllReferenced(store.units, store.reservations)
  {
    store := new Store(Some([Dept001]), Some([Res001]));
    assert ReservationKey(store.reservations[0]) == "res001";
    assert IsAvailable(store.reservations, "dept999", Nov(10), Nov(15), Some("res001"));
    assert IndexOfKey(store.reservations, ReservationKey, "res001") == 0;
    result := store.UpdateReservation("res001", ReservationInput("dept999", "María González", Nov(10), Nov(15)), "2025-11-04T08:00:00.000Z");
    assert result.Success? && result.value.Some?;
    assert store.reservations[0].unitId == "dept999";
    assert !HasKey(store.units, UnitKey, "dept999");
  }

  /** Replaying the "added" change of `dept004` over three other units
      leaves one record for it. */
  lemma ReplayedStudio()
    ensures CountKey(ApplyChanges([Dept001, Dept002, Dept003], [Change(Added, Dept004), Change(Added, Dept004)], UnitKey),
      UnitKey, "dept004") == 1
  {
    var s0 := [Dept001, Dept002, Dept003];
    assert !HasKey(s0, UnitKey, "dept004");
    ReplayedBatchLeavesOne(s0, Change(Added, Dept004), UnitKey);
  }

  /** A batch holding only the "removed" change of `dept004` leaves no
      record for it, whatever the units were. */
  lemma StudioRemoved(s1: seq<Unit>)
    ensures !HasKey(ApplyChanges(s1, [Change(Removed, Dept004)], UnitKey), UnitKey, "dept004")
  {
    var removed := Change(Removed, Dept004);
    assert [removed] == [] + [removed];
    ApplyChangesSnoc(s1, [], removed, UnitKey);
  }

  /** The same "added" change reported twice leaves a single record for
      its id; a later "removed" change leaves none. */
  method ReplayedChange() returns (store: Store, once: nat)
    ensures once == 1
    ensures !HasKey(store.units, UnitKey, "dept004")
  {
    store := new Store(Some([Dept001, Dept002, Dept003]), None);
    store.ApplyUnitChanges([Change(Added, Dept004), Change(Added, Dept004)]);
    ReplayedStudio();
    once := CountKey(store.units, UnitKey, "dept004");
    StudioRemoved(store.units);
    store.ApplyUnitChanges([Change(Removed, Dept004)]);
  }
}
