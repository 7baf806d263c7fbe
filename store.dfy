/** The data layer's local store: the two collections of units and
    reservations, the create/update/delete operations with their guards, the
    handlers that apply changes reported by the remote collection listener,
    and export/import of both collections. Fresh ids and timestamps are
    supplied by the caller. */
module ModelStore {
  import opened Wrappers
  import opened Sequences
  import opened Dates
  import opened Text
  import opened Bookings

  /** The fields of the unit form, capacity already read as a number. An
      absent description is `None`. */
  datatype UnitInput = UnitInput(name: string, capacity: int, description: Option<string>)

  /** The fields of the reservation form, dates already read as day numbers. */
  datatype ReservationInput = ReservationInput(unitId: Id, guest: string, checkIn: Day, checkOut: Day)

  /** Why an operation refused to change the store (the thrown errors). */
  datatype StoreError =
    | UnitNotFound            // "El departamento no existe"
    | CheckOutNotAfterCheckIn // "La fecha de salida debe ser posterior ..."
    | DatesTaken              // "El departamento ya está reservado en esas fechas"
    | UnitHasReservations     // "No se puede eliminar un departamento con reservas asociadas"

  /** `descripcion?.trim() || ''`: an absent description is stored as "". */
  function DescriptionOf(d: Option<string>): string
  {
    if d.Some? then Trim(d.value) else ""
  }

  /** The record `crearDepartamento` stores. */
  function NewUnit(input: UnitInput, id: Id, now: Timestamp): Unit
  {
    Unit(id, Trim(input.name), input.capacity, DescriptionOf(input.description), now, None)
  }

  /** The record `actualizarDepartamento` stores over `u`: the spread keeps
      the id and the creation time. */
  function EditedUnit(u: Unit, input: UnitInput, now: Timestamp): Unit
  {
    u.(name := Trim(input.name), capacity := input.capacity,
       description := DescriptionOf(input.description), modifiedAt := Some(now))
  }

  /** The record `crearReserva` stores. */
  function NewReservation(input: ReservationInput, id: Id, now: Timestamp): Reservation
  {
    Reservation(id, input.unitId, Trim(input.guest), input.checkIn, input.checkOut, now, None)
  }

  /** The record `actualizarReserva` stores over `r`: the spread keeps the id
      and the creation time. */
  function EditedReservation(r: Reservation, input: ReservationInput, now: Timestamp): Reservation
  {
    r.(unitId := input.unitId, guest := Trim(input.guest), checkIn := input.checkIn,
       checkOut := input.checkOut, modifiedAt := Some(now))
  }

  /** Some reservation of `rs` is for unit `unitId` (`reservas.some(...)`). */
  predicate IsBooked(rs: seq<Reservation>, unitId: Id)
  {
    exists i :: 0 <= i < |rs| && rs[i].unitId == unitId
  }

  /** What `exportarDatos` returns. */
  datatype Backup = Backup(units: seq<Unit>, reservations: seq<Reservation>, exportedAt: Timestamp)

  /** What `importarDatos` accepts: either collection may be missing. */
  datatype ImportData = ImportData(units: Option<seq<Unit>>, reservations: Option<seq<Reservation>>)

  /** The import that puts back what an export took. */
  function Restore(b: Backup): ImportData
  {
    ImportData(Some(b.units), Some(b.reservations))
  }

  /** Removing a unit that no reservation names keeps every reservation's
      unit in the collection. */
  lemma RemoveUnbookedKeepsReferences(units: seq<Unit>, rs: seq<Reservation>, id: Id)
    requires AllReferenced(units, rs) && !IsBooked(rs, id)
    ensures AllReferenced(RemoveKey(units, UnitKey, id), rs)
  {
    var left := RemoveKey(units, UnitKey, id);
    forall i | 0 <= i < |rs| ensures HasKey(left, UnitKey, rs[i].unitId) {
      var j :| 0 <= j < |units| && UnitKey(units[j]) == rs[i].unitId;
      assert units[j] in left;
      var m :| 0 <= m < |left| && left[m] == units[j];
    }
  }

  /** Writing a record over one with the same id leaves the set of ids as
      it was, so every reference stays resolved and ids stay unique. */
  lemma ReplaceSameKeyKeepsKeys<T(!new)>(s: seq<T>, k: nat, x: T, key: T -> string)
    requires k < |s| && key(s[k]) == key(x)
    ensures forall id :: HasKey(s[k := x], key, id) <==> HasKey(s, key, id)
    ensures UniqueKeys(s, key) ==> UniqueKeys(s[k := x], key)
  {
    forall id | HasKey(s, key, id) ensures HasKey(s[k := x], key, id) {
      var j :| 0 <= j < |s| && key(s[j]) == id;
      assert key(s[k := x][j]) == id;
    }
    forall id | HasKey(s[k := x], key, id) ensures HasKey(s, key, id) {
      var j :| 0 <= j < |s| && key(s[k := x][j]) == id;
      assert key(s[j]) == id;
    }
  }

  /** Appending a record keeps every key that was present. */
  lemma AppendKeepsKeys<T(!new)>(s: seq<T>, x: T, key: T -> string)
    ensures forall id :: HasKey(s, key, id) ==> HasKey(s + [x], key, id)
    ensures HasKey(s + [x], key, key(x))
    ensures UniqueKeys(s, key) && !HasKey(s, key, key(x)) ==> UniqueKeys(s + [x], key)
  {
    assert (s + [x])[|s|] == x;
    forall id | HasKey(s, key, id) ensures HasKey(s + [x], key, id) {
      var j :| 0 <= j < |s| && key(s[j]) == id;
      assert (s + [x])[j] == s[j];
    }
  }

  /** The local store: `localStorage`'s two collections, read back as
      `JSON.parse(...) || []`, and the listener's guard flag. */
  class Store {
    var units: seq<Unit>
    var reservations: seq<Reservation>
    /** `sincronizandoFirebase`: starts false and nothing sets it. */
    var syncing: bool

    /** The invariants the guards are there to keep: ranges are well formed,
        no unit is booked twice for a day, every reservation names a stored
        unit, and ids are unique in both collections. */
    predicate Consistent()
      reads this
    {
      && ValidRanges(reservations)
      && NoDoubleBooking(reservations)
      && AllReferenced(units, reservations)
      && UniqueKeys(units, UnitKey)
      && UniqueKeys(reservations, ReservationKey)
    }

    /** `init`: a collection that was never stored starts empty. */
    constructor (storedUnits: Option<seq<Unit>>, storedReservations: Option<seq<Reservation>>)
      ensures units == (if storedUnits.Some? then storedUnits.value else [])
      ensures reservations == (if storedReservations.Some? then storedReservations.value else [])
      ensures !syncing
      ensures storedUnits.None? && storedReservations.None? ==> Consistent()
    {
      units := if storedUnits.Some? then storedUnits.value else [];
      reservations := if storedReservations.Some? then storedReservations.value else [];
      syncing := false;
    }

    /** `crearDepartamento`: no validation; the trimmed record is appended
        under the fresh id `newId`. */
    method CreateUnit(input: UnitInput, newId: Id, now: Timestamp) returns (u: Unit)
      modifies this
      ensures u == NewUnit(input, newId, now)
      ensures units == old(units) + [u] && reservations == old(reservations)
      ensures syncing == old(syncing)
      ensures FindUnit(units, newId).Some?
      ensures old(Consistent()) && !HasKey(old(units), UnitKey, newId) ==> Consistent()
    {
      u := NewUnit(input, newId, now);
      AppendKeepsKeys(units, u, UnitKey);
      units := units + [u];
    }

    /** `actualizarDepartamento`: `None` for an unknown id; otherwise the
        first unit with that id is edited in place, keeping its id and
        creation time, and nothing else changes. */
    method UpdateUnit(id: Id, input: UnitInput, now: Timestamp) returns (r: Option<Unit>)
      modifies this
      ensures r.None? <==> !HasKey(old(units), UnitKey, id)
      ensures r.None? ==> units == old(units)
      ensures r.Some? ==>
        var k := IndexOfKey(old(units), UnitKey, id);
        && r.value == EditedUnit(old(units)[k], input, now)
        && units == old(units)[k := r.value]
      ensures r.Some? ==> r.value.id == id
      ensures reservations == old(reservations) && syncing == old(syncing)
      ensures old(Consistent()) ==> Consistent()
    {
      var k := IndexOfKey(units, UnitKey, id);
      if k == -1 {
        return None;
      }
      var u := EditedUnit(units[k], input, now);
      ReplaceSameKeyKeepsKeys(units, k, u, UnitKey);
      units := units[k := u];
      r := Some(u);
    }

    /** `eliminarDepartamento`: refuses while any reservation names the unit
        (checked first, whether or not the unit exists); `false` when no
        unit has the id; otherwise every unit with that id is removed and
        the others stay in order. */
    method DeleteUnit(id: Id) returns (result: Result<bool, StoreError>)
      modifies this
      ensures result == Failure(UnitHasReservations) <==> IsBooked(old(reservations), id)
      ensures result == Success(false) <==> !IsBooked(old(reservations), id) && !HasKey(old(units), UnitKey, id)
      ensures result == Success(true) <==> !IsBooked(old(reservations), id) && HasKey(old(units), UnitKey, id)
      ensures result != Success(true) ==> units == old(units)
      ensures result == Success(true) ==> units == RemoveKey(old(units), UnitKey, id)
      ensures !HasKey(units, UnitKey, id) || result.Failure?
      ensures reservations == old(reservations) && syncing == old(syncing)
      ensures old(Consistent()) ==> Consistent()
    {
      if IsBooked(reservations, id) {
        return Failure(UnitHasReservations);
      }
      var left := RemoveKey(units, UnitKey, id);
      if |units| == |left| {
        return Success(false);
      }
      if AllReferenced(units, reservations) {
        RemoveUnbookedKeepsReferences(units, reservations, id);
      }
      if UniqueKeys(units, UnitKey) {
        SubsequenceKeepsUniqueKeys(left, units, UnitKey);
      }
      units := left;
      result := Success(true);
    }

    /** `crearReserva`: refuses, changing nothing, when the unit does not
        exist, when check-out is not after check-in, or when the range is
        taken, checked in that order. Otherwise the reservation, guest name
        trimmed, is appended under `newId`, and the range is then taken. */
    method CreateReservation(input: ReservationInput, newId: Id, now: Timestamp)
      returns (result: Result<Reservation, StoreError>)
      modifies this
      ensures result == Failure(UnitNotFound) <==> !HasKey(old(units), UnitKey, input.unitId)
      ensures result == Failure(CheckOutNotAfterCheckIn) <==>
        HasKey(old(units), UnitKey, input.unitId) && input.checkOut <= input.checkIn
      ensures result == Failure(DatesTaken) <==>
        && HasKey(old(units), UnitKey, input.unitId) && input.checkIn < input.checkOut
        && !IsAvailable(old(reservations), input.unitId, input.checkIn, input.checkOut, None)
      ensures result.Success? <==>
        && HasKey(old(units), UnitKey, input.unitId) && input.checkIn < input.checkOut
        && IsAvailable(old(reservations), input.unitId, input.checkIn, input.checkOut, None)
      ensures result.Failure? ==> reservations == old(reservations)
      ensures result.Success? ==>
        && result.value == NewReservation(input, newId, now)
        && reservations == old(reservations) + [result.value]
      ensures result.Success? ==> !IsAvailable(reservations, input.unitId, input.checkIn, input.checkOut, None)
      ensures units == old(units) && syncing == old(syncing)
      ensures old(Consistent()) && !HasKey(old(reservations), ReservationKey, newId) ==> Consistent()
    {
      if FindUnit(units, input.unitId).None? {
        return Failure(UnitNotFound);
      }
      if input.checkOut <= input.checkIn {
        return Failure(CheckOutNotAfterCheckIn);
      }
      if !IsAvailable(reservations, input.unitId, input.checkIn, input.checkOut, None) {
        return Failure(DatesTaken);
      }
      var r := NewReservation(input, newId, now);
      BookedRangeUnavailable(reservations, r, r.checkIn, r.checkOut);
      if NoDoubleBooking(reservations) && ValidRanges(reservations) {
        AppendKeepsNoDoubleBooking(reservations, r);
      }
      AppendKeepsKeys(reservations, r, ReservationKey);
      AppendKeepsReferences(units, reservations, r);
      reservations := reservations + [r];
      result := Success(r);
    }

    /** `actualizarReserva`: `None` for an unknown id; refuses, changing
        nothing, when check-out is not after check-in or when the range is
        taken by a reservation other than this one. The unit is not checked.
        Otherwise the first reservation with that id is edited in place,
        keeping its id and creation time. */
    method UpdateReservation(id: Id, input: ReservationInput, now: Timestamp)
      returns (result: Result<Option<Reservation>, StoreError>)
      modifies this
      ensures result == Success(None) <==> !HasKey(old(reservations), ReservationKey, id)
      ensures result == Failure(CheckOutNotAfterCheckIn) <==>
        HasKey(old(reservations), ReservationKey, id) && input.checkOut <= input.checkIn
      ensures result == Failure(DatesTaken) <==>
        && HasKey(old(reservations), ReservationKey, id) && input.checkIn < input.checkOut
        && !IsAvailable(old(reservations), input.unitId, input.checkIn, input.checkOut, Some(id))
      ensures result.Success? && result.value.Some? <==>
        && HasKey(old(reservations), ReservationKey, id) && input.checkIn < input.checkOut
        && IsAvailable(old(reservations), input.unitId, input.checkIn, input.checkOut, Some(id))
      ensures result.Failure? || result == Success(None) ==> reservations == old(reservations)
      ensures result.Success? && result.value.Some? ==>
        var k := IndexOfKey(old(reservations), ReservationKey, id);
        && result.value.value == EditedReservation(old(reservations)[k], input, now)
        && reservations == old(reservations)[k := result.value.value]
      ensures result.Success? && result.value.Some? ==> result.value.value.id == id
      ensures units == old(units) && syncing == old(syncing)
      ensures old(Consistent()) && HasKey(old(units), UnitKey, input.unitId) ==> Consistent()
    {
      var k := IndexOfKey(reservations, ReservationKey, id);
      if k == -1 {
        return Success(None);
      }
      if input.checkOut <= input.checkIn {
        return Failure(CheckOutNotAfterCheckIn);
      }
      if !IsAvailable(reservations, input.unitId, input.checkIn, input.checkOut, Some(id)) {
        return Failure(DatesTaken);
      }
      var r := EditedReservation(reservations[k], input, now);
      if NoDoubleBooking(reservations) && ValidRanges(reservations)
        && UniqueKeys(reservations, ReservationKey) {
        ReplaceKeepsNoDoubleBooking(reservations, k, r);
      }
      ReplaceSameKeyKeepsKeys(reservations, k, r, ReservationKey);
      ReplaceKeepsReferences(units, reservations, k, r);
      reservations := reservations[k := r];
      result := Success(Some(r));
    }

    /** `eliminarReserva`: `false` for an unknown id; otherwise every
        reservation with that id is removed and the others stay in order. */
    method DeleteReservation(id: Id) returns (deleted: bool)
      modifies this
      ensures deleted <==> HasKey(old(reservations), ReservationKey, id)
      ensures reservations == if deleted then RemoveKey(old(reservations), ReservationKey, id) else old(reservations)
      ensures !HasKey(reservations, ReservationKey, id)
      ensures units == old(units) && syncing == old(syncing)
      ensures old(Consistent()) ==> Consistent()
    {
      var left := RemoveKey(reservations, ReservationKey, id);
      if |reservations| == |left| {
        return false;
      }
      SubsequenceKeepsInvariants(units, left, reservations);
      if UniqueKeys(reservations, ReservationKey) {
        SubsequenceKeepsUniqueKeys(left, reservations, ReservationKey);
      }
      reservations := left;
      deleted := true;
    }

    /** One change of the unit listener's `forEach`: an added or modified
        document replaces the first record with its id, or is pushed when there
        is none; a removed one filters out every record with its id. */
    method ApplyUnitChange(c: Change<Unit>)
      modifies this
      ensures units == ApplyChange(old(units), c, UnitKey)
      ensures reservations == old(reservations) && syncing == old(syncing)
    {
      if c.kind == Added || c.kind == Modified {
        var k := IndexOfKey(units, UnitKey, c.doc.id);
        if k >= 0 {
          units := units[k := c.doc];
        } else {
          units := units + [c.doc];
        }
      } else {
        units := RemoveKey(units, UnitKey, c.doc.id);
      }
    }

    /** The unit listener's callback: unless a sync is under way, each
        change in order is upserted by id or, when removed, filtered out. */
    method ApplyUnitChanges(changes: seq<Change<Unit>>)
      modifies this
      ensures units == if old(syncing) then old(units) else ApplyChanges(old(units), changes, UnitKey)
      ensures reservations == old(reservations) && syncing == old(syncing)
    {
      if syncing {
        return;
      }
      for i := 0 to |changes|
        invariant units == ApplyChanges(old(units), changes[..i], UnitKey)
        invariant reservations == old(reservations) && syncing == old(syncing)
      {
        ApplyUnitChange(changes[i]);
        assert changes[..i + 1][..i] == changes[..i];
      }
      assert changes[..|changes|] == changes;
    }

    /** One change of the reservation listener's `forEach`: an added or modified
        document replaces the first record with its id, or is pushed when there
        is none; a removed one filters out every record with its id. */
    method ApplyReservationChange(c: Change<Reservation>)
      modifies this
      ensures reservations == ApplyChange(old(reservations), c, ReservationKey)
      ensures units == old(units) && syncing == old(syncing)
    {
      if c.kind == Added || c.kind == Modified {
        var k := IndexOfKey(reservations, ReservationKey, c.doc.id);
        if k >= 0 {
          reservations := reservations[k := c.doc];
        } else {
          reservations := reservations + [c.doc];
        }
      } else {
        reservations := RemoveKey(reservations, ReservationKey, c.doc.id);
      }
    }

    /** The reservation listener's callback, the same as for units. */
    method ApplyReservationChanges(changes: seq<Change<Reservation>>)
      modifies this
      ensures reservations ==
        if old(syncing) then old(reservations) else ApplyChanges(old(reservations), changes, ReservationKey)
      ensures units == old(units) && syncing == old(syncing)
    {
      if syncing {
        return;
      }
      for i := 0 to |changes|
        invariant reservations == ApplyChanges(old(reservations), changes[..i], ReservationKey)
        invariant units == old(units) && syncing == old(syncing)
      {
        ApplyReservationChange(changes[i]);
        assert changes[..i + 1][..i] == changes[..i];
      }
      assert changes[..|changes|] == changes;
    }

    /** `exportarDatos`: both collections as they are, stamped `now`. */
    method Export(now: Timestamp) returns (b: Backup)
      ensures b.units == units && b.reservations == reservations && b.exportedAt == now
    {
      b := Backup(units, reservations, now);
    }

    /** Importing what was just exported leaves both collections as they
        were, and the backup holds them. */
    method ExportThenImport(now: Timestamp) returns (b: Backup)
      modifies this
      ensures b.units == old(units) && b.reservations == old(reservations) && b.exportedAt == now
      ensures units == old(units) && reservations == old(reservations) && syncing == old(syncing)
    {
      b := Export(now);
      Import(Restore(b));
    }

    /** `importarDatos`: each collection that is present replaces the stored
        one; a missing one is left as it was. */
    method Import(d: ImportData)
      modifies this
      ensures units == if d.units.Some? then d.units.value else old(units)
      ensures reservations == if d.reservations.Some? then d.reservations.value else old(reservations)
      ensures syncing == old(syncing)
    {
      if d.units.Some? {
        units := d.units.value;
      }
      if d.reservations.Some? {
        reservations := d.reservations.value;
      }
    }

    /** `limpiarTodo`: both collections removed, then `init` starts them again empty. */
    method Clear()
      modifies this
      ensures units == [] && reservations == [] && syncing == old(syncing)
      ensures Consistent()
    {
      units := [];
      reservations := [];
    }
  }

  /** Appending a reservation for a stored unit keeps every reference resolved. */
  lemma AppendKeepsReferences(units: seq<Unit>, rs: seq<Reservation>, r: Reservation)
    requires HasKey(units, UnitKey, r.unitId)
    ensures AllReferenced(units, rs) ==> AllReferenced(units, rs + [r])
  {
    if AllReferenced(units, rs) {
      forall i | 0 <= i < |rs| + 1 ensures HasKey(units, UnitKey, (rs + [r])[i].unitId) {
        if i < |rs| {
          assert (rs + [r])[i] == rs[i];
        }
      }
    }
  }

  /** Editing a reservation so that it names a stored unit keeps every
      reference resolved. */
  lemma ReplaceKeepsReferences(units: seq<Unit>, rs: seq<Reservation>, k: nat, r: Reservation)
    requires k < |rs|
    ensures AllReferenced(units, rs) && HasKey(units, UnitKey, r.unitId) ==> AllReferenced(units, rs[k := r])
  {
  }

  /** Dropping elements keeps the remaining keys unique. */
  lemma SubsequenceKeepsUniqueKeys<T(!new)>(a: seq<T>, s: seq<T>, key: T -> string)
    requires IsSubsequence(a, s) && UniqueKeys(s, key)
    ensures UniqueKeys(a, key)
  {
    SubsequencePairwise(a, s, (x: T, y: T) => key(x) != key(y));
  }
}
