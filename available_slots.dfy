/**
 * The slot query handler: for one account, one date and one service length,
 * the start times at which each active staff member can still be booked.
 * Candidates lie on a 30-minute grid from the start of the staff member's
 * working shift for that weekday; a candidate survives when it ends by the
 * shift end and meets no partial exception and no open reservation of that
 * staff member on that date. The survivors are sorted by their `HH:MM` text.
 */
module AvailableSlots {
  import opened Wrappers
  import opened JsText
  import opened Clock
  import opened Seqs
  import opened Schema
  import opened TimeSort

  /** Distance between two candidate start times. */
  const SlotStep: int := 30
  /** The `duration` query parameter when it is missing or empty. */
  const DefaultDuration: string := "60"
  /** Length assumed for a reservation stored without an end time. */
  const DefaultBookingLength: int := 60

  datatype SlotQuery = SlotQuery(date: Option<string>, staffId: Option<string>, duration: Option<string>)

  datatype Slot = Slot(time: string, staffName: string, staffId: string)

  datatype SlotsOutcome = MissingDate | Slots(date: string, slots: seq<Slot>)

  /** `parseInt(duration || "60")`; `None` is `NaN`. */
  function RequestedDuration(duration: Option<string>): Option<int> {
    ParseInt(if Truthy(duration) then duration.value else DefaultDuration)
  }

  /** The staff query: the account's active staff, narrowed to `staff_id` when one is given. */
  predicate StaffSelected(s: StaffMember, userId: string, staffId: Option<string>) {
    s.userId == userId && s.isActive && (Truthy(staffId) ==> s.id == staffId.value)
  }

  function SelectStaff(staff: seq<StaffMember>, userId: string, staffId: Option<string>): seq<StaffMember> {
    Filter(staff, (s: StaffMember) => StaffSelected(s, userId, staffId))
  }

  lemma {:induction false} SelectStaffMember(staff: seq<StaffMember>, userId: string, staffId: Option<string>, x: StaffMember)
    ensures x in SelectStaff(staff, userId, staffId) <==> x in staff && StaffSelected(x, userId, staffId)
  {
    FilterMember(staff, (s: StaffMember) => StaffSelected(s, userId, staffId), x);
  }

  function StaffIds(staff: seq<StaffMember>): (ids: seq<string>)
    ensures |ids| == |staff|
    ensures forall i :: 0 <= i < |staff| ==> ids[i] == staff[i].id
  {
    seq(|staff|, i requires 0 <= i < |staff| => staff[i].id)
  }

  /** The shift query: working shifts of the selected staff on the weekday. */
  predicate ShiftSelected(sh: StaffShift, ids: seq<string>, dayOfWeek: int) {
    sh.staffMemberId in ids && sh.dayOfWeek == dayOfWeek && sh.isWorking
  }

  function DayShifts(shifts: seq<StaffShift>, ids: seq<string>, dayOfWeek: int): seq<StaffShift> {
    Filter(shifts, (sh: StaffShift) => ShiftSelected(sh, ids, dayOfWeek))
  }

  /** The exception query: exceptions of the selected staff on the date. */
  predicate ExceptionSelected(e: ShiftException, ids: seq<string>, date: string) {
    e.staffMemberId in ids && e.exceptionDate == date
  }

  function DateExceptions(exceptions: seq<ShiftException>, ids: seq<string>, date: string): seq<ShiftException> {
    Filter(exceptions, (e: ShiftException) => ExceptionSelected(e, ids, date))
  }

  /** The reservation query: the account's reservations on the date that are not cancelled. */
  predicate ReservationSelected(r: Reservation, userId: string, date: string) {
    r.userId == userId && r.date == date && NotCancelled(r.status)
  }

  function DateReservations(reservations: seq<Reservation>, userId: string, date: string): seq<Reservation> {
    Filter(reservations, (r: Reservation) => ReservationSelected(r, userId, date))
  }

  /** `shifts.find(s => s.staff_member_id === staffId)`. */
  function FindShift(shifts: seq<StaffShift>, staffId: string): (r: Option<StaffShift>)
    ensures r.Some? ==> r.value in shifts && r.value.staffMemberId == staffId
    ensures r.None? ==> forall i :: 0 <= i < |shifts| ==> shifts[i].staffMemberId != staffId
    ensures r.Some? ==> exists i :: 0 <= i < |shifts| && shifts[i] == r.value &&
                          forall j :: 0 <= j < i ==> shifts[j].staffMemberId != staffId
  {
    if shifts == [] then None
    else if shifts[0].staffMemberId == staffId then Some(shifts[0])
    else
      var r := FindShift(shifts[1..], staffId);
      assert r.Some? ==> exists i :: 0 <= i < |shifts| && shifts[i] == r.value &&
                          forall j :: 0 <= j < i ==> shifts[j].staffMemberId != staffId by {
        if r.Some? {
          var i :| 0 <= i < |shifts[1..]| && shifts[1..][i] == r.value &&
                   forall j :: 0 <= j < i ==> shifts[1..][j].staffMemberId != staffId;
          assert shifts[i + 1] == r.value;
          forall j | 0 <= j < i + 1 ensures shifts[j].staffMemberId != staffId {
            if j > 0 { assert shifts[j] == shifts[1..][j - 1]; }
          }
        }
      }
      r
  }

  /** An exception with neither start nor end time blocks the whole day. */
  predicate IsFullDay(e: ShiftException) {
    e.startTime.None? && e.endTime.None?
  }

  predicate FullDayOff(exceptions: seq<ShiftException>, staffId: string) {
    exists e :: e in exceptions && e.staffMemberId == staffId && IsFullDay(e)
  }

  /** Half-open intersection of `[start, end)` and `[otherStart, otherEnd)`: touching does not count. */
  predicate Overlaps(start: int, end: int, otherStart: int, otherEnd: int) {
    start < otherEnd && end > otherStart
  }

  /** Only an exception with both times set blocks a range; one with a single time set blocks nothing. */
  predicate ExceptionBlocks(e: ShiftException, staffId: string, start: int, end: int) {
    e.staffMemberId == staffId && e.startTime.Some? && e.endTime.Some? &&
    Overlaps(start, end, e.startTime.value, e.endTime.value)
  }

  function BookingEnd(r: Reservation): int {
    if r.endTime.Some? then r.endTime.value else r.time + DefaultBookingLength
  }

  predicate ReservationBlocks(r: Reservation, staffId: string, start: int, end: int) {
    r.staffMemberId == Some(staffId) && Overlaps(start, end, r.time, BookingEnd(r))
  }

  predicate BlockedByException(exceptions: seq<ShiftException>, staffId: string, start: int, end: int) {
    exists e :: e in exceptions && ExceptionBlocks(e, staffId, start, end)
  }

  predicate BlockedByReservation(reservations: seq<Reservation>, staffId: string, start: int, end: int) {
    exists r :: r in reservations && ReservationBlocks(r, staffId, start, end)
  }

  predicate Free(exceptions: seq<ShiftException>, reservations: seq<Reservation>, staffId: string, start: int, duration: int) {
    !BlockedByException(exceptions, staffId, start, start + duration) &&
    !BlockedByReservation(reservations, staffId, start, start + duration)
  }

  /** Candidate number `k` counted from the shift start. */
  function GridPoint(start: int, k: nat): int {
    start + SlotStep * k
  }

  /** How many candidates fit: the `k` with `GridPoint(start, k) + duration <= end`. */
  function GridCount(start: int, end: int, duration: int): nat {
    if start + duration > end then 0 else (end - duration - start) / SlotStep + 1
  }

  lemma {:induction false} GridCountFits(start: int, end: int, duration: int, k: nat)
    ensures k < GridCount(start, end, duration) <==> GridPoint(start, k) + duration <= end
  {
    if start + duration <= end {
      var q := (end - duration - start) / SlotStep;
      assert SlotStep * q <= end - duration - start < SlotStep * (q + 1);
      if k <= q {
        assert SlotStep * k <= SlotStep * q;
      } else {
        assert SlotStep * k >= SlotStep * (q + 1);
      }
    }
  }

  function SlotAt(staff: StaffMember, minutes: int): Slot {
    Slot(FormatClock(minutes), staff.name, staff.id)
  }

  /** The slots among the first `n` candidates of a shift starting at `start`. */
  function GridSlots(staff: StaffMember, start: int, duration: int,
                     exceptions: seq<ShiftException>, reservations: seq<Reservation>, n: nat): seq<Slot>
  {
    if n == 0 then []
    else
      var minutes := GridPoint(start, n - 1);
      GridSlots(staff, start, duration, exceptions, reservations, n - 1) +
      (if Free(exceptions, reservations, staff.id, minutes, duration) then [SlotAt(staff, minutes)] else [])
  }

  /** The slots one staff member contributes. */
  function StaffSlots(staff: StaffMember, shifts: seq<StaffShift>, exceptions: seq<ShiftException>,
                      reservations: seq<Reservation>, duration: Option<int>): seq<Slot>
  {
    match FindShift(shifts, staff.id)
    case None => []
    case Some(shift) =>
      if FullDayOff(exceptions, staff.id) || duration.None? then []
      else GridSlots(staff, shift.startTime, duration.value, exceptions, reservations,
                     GridCount(shift.startTime, shift.endTime, duration.value))
  }

  /** The slots of all the given staff members, in staff order, before sorting. */
  function AllSlots(staff: seq<StaffMember>, shifts: seq<StaffShift>, exceptions: seq<ShiftException>,
                    reservations: seq<Reservation>, duration: Option<int>): seq<Slot>
  {
    if staff == [] then []
    else AllSlots(staff[..|staff| - 1], shifts, exceptions, reservations, duration) +
         StaffSlots(staff[|staff| - 1], shifts, exceptions, reservations, duration)
  }

  function SlotTime(s: Slot): string {
    s.time
  }

  /** What the handler answers, as a function of the tables, the account, the query and the weekday. */
  function AvailableSlotsFor(staffRows: seq<StaffMember>, shiftRows: seq<StaffShift>,
                             exceptionRows: seq<ShiftException>, reservationRows: seq<Reservation>,
                             userId: string, q: SlotQuery, dayOfWeek: int): (r: SlotsOutcome)
    ensures r.MissingDate? <==> !Truthy(q.date)
    ensures r.Slots? ==> r.date == q.date.value
    ensures r.Slots? && (forall x :: x in staffRows ==> !StaffSelected(x, userId, q.staffId)) ==> r.slots == []
  {
    if !Truthy(q.date) then MissingDate
    else
      var date := q.date.value;
      var staff := SelectStaff(staffRows, userId, q.staffId);
      FilterProperties(staffRows, (s: StaffMember) => StaffSelected(s, userId, q.staffId));
      if staff == [] then Slots(date, [])
      else
        var ids := StaffIds(staff);
        var all := AllSlots(staff, DayShifts(shiftRows, ids, dayOfWeek), DateExceptions(exceptionRows, ids, date),
                            DateReservations(reservationRows, userId, date), RequestedDuration(q.duration));
        Slots(date, SortBy(all, SlotTime))
  }

  /** The inner loop of the handler: one staff member's candidates from `startMinutes` to `endMinutes`. */
  method ShiftSlots(staff: StaffMember, startMinutes: int, endMinutes: int, duration: int,
                    exceptions: seq<ShiftException>, reservations: seq<Reservation>) returns (found: seq<Slot>)
    ensures found == GridSlots(staff, startMinutes, duration, exceptions, reservations,
                               GridCount(startMinutes, endMinutes, duration))
  {
    found := [];
    ghost var count := GridCount(startMinutes, endMinutes, duration);
    ghost var k: nat := 0;
    var mins := startMinutes;
    while mins + duration <= endMinutes
      invariant k <= count
      invariant mins == GridPoint(startMinutes, k)
      invariant found == GridSlots(staff, startMinutes, duration, exceptions, reservations, k)
      decreases count - k
    {
      GridCountFits(startMinutes, endMinutes, duration, k);
      ghost var free := Free(exceptions, reservations, staff.id, mins, duration);
      ghost var prefix := found;
      var endMins := mins + duration;
      var exception := BlockedByException(exceptions, staff.id, mins, endMins);
      if !exception {
        var booking := BlockedByReservation(reservations, staff.id, mins, endMins);
        if !booking {
          found := found + [Slot(FormatClock(mins), staff.name, staff.id)];
        }
      }
      assert found == prefix + (if free then [SlotAt(staff, mins)] else []);
      mins := mins + SlotStep;
      k := k + 1;
    }
    GridCountFits(startMinutes, endMinutes, duration, k);
  }

  /** The body of the outer loop: one staff member's slots, or none without a shift, on a day off or for a `NaN` duration. */
  method StaffMemberSlots(staff: StaffMember, shifts: seq<StaffShift>, exceptions: seq<ShiftException>,
                          reservations: seq<Reservation>, duration: Option<int>) returns (found: seq<Slot>)
    ensures found == StaffSlots(staff, shifts, exceptions, reservations, duration)
  {
    var shift := FindShift(shifts, staff.id);
    if shift.None? {
      return [];
    }
    if FullDayOff(exceptions, staff.id) || duration.None? {
      // a NaN duration fails the loop test `mins + duration <= endMinutes` at once
      return [];
    }
    found := ShiftSlots(staff, shift.value.startTime, shift.value.endTime, duration.value, exceptions, reservations);
  }

  /** The outer loop of the handler: every selected staff member's slots, in the order of the staff rows. */
  method CollectSlots(staffMembers: seq<StaffMember>, shifts: seq<StaffShift>, exceptions: seq<ShiftException>,
                      reservations: seq<Reservation>, duration: Option<int>) returns (slots: seq<Slot>)
    ensures slots == AllSlots(staffMembers, shifts, exceptions, reservations, duration)
  {
    slots := [];
    for i := 0 to |staffMembers|
      invariant slots == AllSlots(staffMembers[..i], shifts, exceptions, reservations, duration)
    {
      var staff := staffMembers[i];
      assert staffMembers[..i + 1][..i] == staffMembers[..i] && staffMembers[..i + 1][i] == staff;
      var found := StaffMemberSlots(staff, shifts, exceptions, reservations, duration);
      slots := slots + found;
    }
    assert staffMembers[..|staffMembers|] == staffMembers;
  }

  /**
   * The handler after authentication: `dayOfWeek` is the weekday of `q.date`
   * (0 = Sunday), which the handler takes from the runtime's date library.
   */
  method GetAvailableSlots(db: Database, userId: string, q: SlotQuery, dayOfWeek: int) returns (outcome: SlotsOutcome)
    ensures outcome == AvailableSlotsFor(db.staffMembers, db.staffShifts, db.shiftExceptions, db.reservations,
                                         userId, q, dayOfWeek)
  {
    var duration := RequestedDuration(q.duration);
    if !Truthy(q.date) {
      return MissingDate;
    }
    var date := q.date.value;
    var staffMembers := SelectStaff(db.staffMembers, userId, q.staffId);
    if |staffMembers| == 0 {
      return Slots(date, []);
    }
    var staffIds := StaffIds(staffMembers);
    var shifts := DayShifts(db.staffShifts, staffIds, dayOfWeek);
    var exceptions := DateExceptions(db.shiftExceptions, staffIds, date);
    var reservations := DateReservations(db.reservations, userId, date);

    var slots := CollectSlots(staffMembers, shifts, exceptions, reservations, duration);
    slots := SortBy(slots, SlotTime);
    return Slots(date, slots);
  }

  // ------------------------------------------------------------------
  // What an offered slot means, stated on the raw table rows.

  /** `m` is a candidate of shift `sh` for a service of `duration` minutes. */
  predicate ShiftCovers(sh: StaffShift, m: int, duration: int) {
    sh.startTime <= m && m + duration <= sh.endTime && (m - sh.startTime) % SlotStep == 0
  }

  /**
   * Reference definition: `staff` can take a `duration`-minute booking at
   * minute `m` of `date`, a `dayOfWeek`, when a working shift row of that
   * weekday covers it, no exception row of the date takes the whole day off
   * or overlaps it with both bounds set, and no open reservation row of the
   * account on the date overlaps it.
   */
  ghost predicate Bookable(staff: StaffMember, m: int, duration: int,
                           shiftRows: seq<StaffShift>, exceptionRows: seq<ShiftException>,
                           reservationRows: seq<Reservation>, userId: string, date: string, dayOfWeek: int)
  {
    (exists sh :: sh in shiftRows && sh.staffMemberId == staff.id && sh.dayOfWeek == dayOfWeek && sh.isWorking &&
                  ShiftCovers(sh, m, duration)) &&
    (forall e :: e in exceptionRows && e.staffMemberId == staff.id && e.exceptionDate == date ==>
                 !IsFullDay(e) && !ExceptionBlocks(e, staff.id, m, m + duration)) &&
    (forall r :: r in reservationRows && ReservationSelected(r, userId, date) ==>
                 !ReservationBlocks(r, staff.id, m, m + duration))
  }

  /** A shorter service fits wherever a longer one does: `Bookable` only gets easier as the duration shrinks. */
  lemma {:induction false} BookableShorter(staff: StaffMember, m: int, duration: int, shorter: int,
                                           shiftRows: seq<StaffShift>, exceptionRows: seq<ShiftException>,
                                           reservationRows: seq<Reservation>, userId: string, date: string, dayOfWeek: int)
    requires shorter <= duration
    requires Bookable(staff, m, duration, shiftRows, exceptionRows, reservationRows, userId, date, dayOfWeek)
    ensures Bookable(staff, m, shorter, shiftRows, exceptionRows, reservationRows, userId, date, dayOfWeek)
  {
    var sh :| sh in shiftRows && sh.staffMemberId == staff.id && sh.dayOfWeek == dayOfWeek && sh.isWorking &&
              ShiftCovers(sh, m, duration);
    assert ShiftCovers(sh, m, shorter);
  }

  lemma {:induction false} GridSlotsMember(staff: StaffMember, start: int, duration: int,
                                           exceptions: seq<ShiftException>, reservations: seq<Reservation>,
                                           n: nat, s: Slot)
    ensures s in GridSlots(staff, start, duration, exceptions, reservations, n) <==>
            exists k :: 0 <= k < n && Free(exceptions, reservations, staff.id, GridPoint(start, k), duration) &&
                        s == SlotAt(staff, GridPoint(start, k))
  {
    if n > 0 {
      var m := GridPoint(start, n - 1);
      var prev := GridSlots(staff, start, duration, exceptions, reservations, n - 1);
      var free := Free(exceptions, reservations, staff.id, m, duration);
      assert GridSlots(staff, start, duration, exceptions, reservations, n) ==
             prev + (if free then [SlotAt(staff, m)] else []);
      GridSlotsMember(staff, start, duration, exceptions, reservations, n - 1, s);
      if s in prev {
        var k :| 0 <= k < n - 1 && Free(exceptions, reservations, staff.id, GridPoint(start, k), duration) &&
                 s == SlotAt(staff, GridPoint(start, k));
        assert 0 <= k < n;
      } else if free && s == SlotAt(staff, m) {
        assert 0 <= n - 1 < n;
      } else {
        forall k | 0 <= k < n && Free(exceptions, reservations, staff.id, GridPoint(start, k), duration)
          ensures s != SlotAt(staff, GridPoint(start, k))
        {
          if k < n - 1 {
          }
        }
      }
    }
  }

  lemma {:induction false} GridPointCovers(sh: StaffShift, duration: int, m: int)
    ensures ShiftCovers(sh, m, duration) <==>
            exists k :: 0 <= k < GridCount(sh.startTime, sh.endTime, duration) && m == GridPoint(sh.startTime, k)
  {
    if ShiftCovers(sh, m, duration) {
      var k: nat := (m - sh.startTime) / SlotStep;
      assert m == GridPoint(sh.startTime, k);
      GridCountFits(sh.startTime, sh.endTime, duration, k);
    }
    forall k | 0 <= k < GridCount(sh.startTime, sh.endTime, duration) && m == GridPoint(sh.startTime, k)
      ensures ShiftCovers(sh, m, duration)
    {
      GridCountFits(sh.startTime, sh.endTime, duration, k);
      assert m - sh.startTime == SlotStep * k;
    }
  }

  /** A staff member offers exactly the free candidates of the first shift for them, unless the day is off. */
  lemma {:induction false} StaffSlotsMember(staff: StaffMember, shifts: seq<StaffShift>, exceptions: seq<ShiftException>,
                         reservations: seq<Reservation>, duration: int, s: Slot)
    ensures s in StaffSlots(staff, shifts, exceptions, reservations, Some(duration)) <==>
            FindShift(shifts, staff.id).Some? && !FullDayOff(exceptions, staff.id) &&
            exists m :: ShiftCovers(FindShift(shifts, staff.id).value, m, duration) &&
                        Free(exceptions, reservations, staff.id, m, duration) && s == SlotAt(staff, m)
  {
    var found := FindShift(shifts, staff.id);
    if found.Some? && !FullDayOff(exceptions, staff.id) {
      var sh := found.value;
      var n := GridCount(sh.startTime, sh.endTime, duration);
      GridSlotsMember(staff, sh.startTime, duration, exceptions, reservations, n, s);
      if s in StaffSlots(staff, shifts, exceptions, reservations, Some(duration)) {
        var k :| 0 <= k < n && Free(exceptions, reservations, staff.id, GridPoint(sh.startTime, k), duration) &&
                 s == SlotAt(staff, GridPoint(sh.startTime, k));
        GridPointCovers(sh, duration, GridPoint(sh.startTime, k));
      }
      forall m | ShiftCovers(sh, m, duration) && Free(exceptions, reservations, staff.id, m, duration) && s == SlotAt(staff, m)
        ensures s in StaffSlots(staff, shifts, exceptions, reservations, Some(duration))
      {
        GridPointCovers(sh, duration, m);
        var k :| 0 <= k < n && m == GridPoint(sh.startTime, k);
      }
    }
  }

  lemma {:induction false} AllSlotsMember(staff: seq<StaffMember>, shifts: seq<StaffShift>, exceptions: seq<ShiftException>,
                                          reservations: seq<Reservation>, duration: Option<int>, s: Slot)
    ensures s in AllSlots(staff, shifts, exceptions, reservations, duration) <==>
            exists i :: 0 <= i < |staff| && s in StaffSlots(staff[i], shifts, exceptions, reservations, duration)
  {
    if s in AllSlots(staff, shifts, exceptions, reservations, duration) {
      var i := AllSlotsOwner(staff, shifts, exceptions, reservations, duration, s);
    }
    if exists i :: 0 <= i < |staff| && s in StaffSlots(staff[i], shifts, exceptions, reservations, duration) {
      var i :| 0 <= i < |staff| && s in StaffSlots(staff[i], shifts, exceptions, reservations, duration);
      AllSlotsHasOwn(staff, shifts, exceptions, reservations, duration, s, i);
    }
  }

  /** Every slot of the combined list comes from some staff member's own list. */
  lemma {:induction false} AllSlotsOwner(staff: seq<StaffMember>, shifts: seq<StaffShift>, exceptions: seq<ShiftException>,
                                         reservations: seq<Reservation>, duration: Option<int>, s: Slot) returns (i: nat)
    requires s in AllSlots(staff, shifts, exceptions, reservations, duration)
    ensures i < |staff| && s in StaffSlots(staff[i], shifts, exceptions, reservations, duration)
  {
    var init := staff[..|staff| - 1];
    var before := AllSlots(init, shifts, exceptions, reservations, duration);
    assert AllSlots(staff, shifts, exceptions, reservations, duration) ==
           before + StaffSlots(staff[|staff| - 1], shifts, exceptions, reservations, duration);
    if s in before {
      i := AllSlotsOwner(init, shifts, exceptions, reservations, duration, s);
      assert init[i] == staff[i];
    } else {
      i := |staff| - 1;
    }
  }

  /** Every staff member's own slots are in the combined list. */
  lemma {:induction false} AllSlotsHasOwn(staff: seq<StaffMember>, shifts: seq<StaffShift>, exceptions: seq<ShiftException>,
                                          reservations: seq<Reservation>, duration: Option<int>, s: Slot, i: nat)
    requires i < |staff| && s in StaffSlots(staff[i], shifts, exceptions, reservations, duration)
    ensures s in AllSlots(staff, shifts, exceptions, reservations, duration)
  {
    var init := staff[..|staff| - 1];
    var before := AllSlots(init, shifts, exceptions, reservations, duration);
    assert AllSlots(staff, shifts, exceptions, reservations, duration) ==
           before + StaffSlots(staff[|staff| - 1], shifts, exceptions, reservations, duration);
    if i < |staff| - 1 {
      assert init[i] == staff[i];
      AllSlotsHasOwn(init, shifts, exceptions, reservations, duration, s, i);
    }
  }

  /** On the queried date, the filtered exception and reservation rows block exactly what the raw rows block. */
  lemma {:induction false} FreeOnRawRows(staff: StaffMember, ids: seq<string>, m: int, duration: int,
                      exceptionRows: seq<ShiftException>, reservationRows: seq<Reservation>, userId: string, date: string)
    requires staff.id in ids
    ensures (!FullDayOff(DateExceptions(exceptionRows, ids, date), staff.id) &&
             Free(DateExceptions(exceptionRows, ids, date), DateReservations(reservationRows, userId, date), staff.id, m, duration))
            <==>
            (forall e :: e in exceptionRows && e.staffMemberId == staff.id && e.exceptionDate == date ==>
                         !IsFullDay(e) && !ExceptionBlocks(e, staff.id, m, m + duration)) &&
            (forall r :: r in reservationRows && ReservationSelected(r, userId, date) ==>
                         !ReservationBlocks(r, staff.id, m, m + duration))
  {
    var excs := DateExceptions(exceptionRows, ids, date);
    var res := DateReservations(reservationRows, userId, date);
    forall e ensures e in excs <==> e in exceptionRows && ExceptionSelected(e, ids, date) {
      FilterMember(exceptionRows, (e: ShiftException) => ExceptionSelected(e, ids, date), e);
    }
    forall r ensures r in res <==> r in reservationRows && ReservationSelected(r, userId, date) {
      FilterMember(reservationRows, (r: Reservation) => ReservationSelected(r, userId, date), r);
    }
  }

  /** The first shift the handler finds for a selected staff member is a working row of the weekday. */
  lemma {:induction false} FoundShiftIsRow(shiftRows: seq<StaffShift>, ids: seq<string>, dayOfWeek: int, staffId: string)
    requires FindShift(DayShifts(shiftRows, ids, dayOfWeek), staffId).Some?
    ensures var sh := FindShift(DayShifts(shiftRows, ids, dayOfWeek), staffId).value;
            sh in shiftRows && sh.staffMemberId == staffId && sh.dayOfWeek == dayOfWeek && sh.isWorking
  {
    var sh := FindShift(DayShifts(shiftRows, ids, dayOfWeek), staffId).value;
    FilterMember(shiftRows, (sh: StaffShift) => ShiftSelected(sh, ids, dayOfWeek), sh);
  }

  /** With one shift per staff member and weekday, that row is the one the handler finds. */
  lemma {:induction false} RowIsFoundShift(shiftRows: seq<StaffShift>, ids: seq<string>, dayOfWeek: int, sh: StaffShift)
    requires ShiftKeysUnique(shiftRows)
    requires sh in shiftRows && sh.staffMemberId in ids && sh.dayOfWeek == dayOfWeek && sh.isWorking
    ensures FindShift(DayShifts(shiftRows, ids, dayOfWeek), sh.staffMemberId) == Some(sh)
  {
    var day := DayShifts(shiftRows, ids, dayOfWeek);
    FilterMember(shiftRows, (sh: StaffShift) => ShiftSelected(sh, ids, dayOfWeek), sh);
    var found := FindShift(day, sh.staffMemberId);
    FoundShiftIsRow(shiftRows, ids, dayOfWeek, sh.staffMemberId);
    var other := found.value;
    var i :| 0 <= i < |shiftRows| && shiftRows[i] == sh;
    var j :| 0 <= j < |shiftRows| && shiftRows[j] == other;
  }

  /** Soundness: every slot in the answer is a bookable time of a selected staff member. */
  lemma {:induction false} OfferedSlotIsBookable(staffRows: seq<StaffMember>, shiftRows: seq<StaffShift>,
                              exceptionRows: seq<ShiftException>, reservationRows: seq<Reservation>,
                              userId: string, q: SlotQuery, dayOfWeek: int, s: Slot)
    requires AvailableSlotsFor(staffRows, shiftRows, exceptionRows, reservationRows, userId, q, dayOfWeek).Slots?
    requires s in AvailableSlotsFor(staffRows, shiftRows, exceptionRows, reservationRows, userId, q, dayOfWeek).slots
    ensures RequestedDuration(q.duration).Some?
    ensures exists staff, m :: staff in staffRows && StaffSelected(staff, userId, q.staffId) && s == SlotAt(staff, m) &&
              Bookable(staff, m, RequestedDuration(q.duration).value, shiftRows, exceptionRows, reservationRows,
                       userId, q.date.value, dayOfWeek)
  {
    var date := q.date.value;
    var selected := SelectStaff(staffRows, userId, q.staffId);
    var ids := StaffIds(selected);
    var shifts := DayShifts(shiftRows, ids, dayOfWeek);
    var excs := DateExceptions(exceptionRows, ids, date);
    var res := DateReservations(reservationRows, userId, date);
    var duration := RequestedDuration(q.duration);
    var all := AllSlots(selected, shifts, excs, res, duration);
    SortSortsAndPermutes(all, SlotTime);
    assert s in multiset(SortBy(all, SlotTime));
    AllSlotsMember(selected, shifts, excs, res, duration, s);
    var i :| 0 <= i < |selected| && s in StaffSlots(selected[i], shifts, excs, res, duration);
    var staff := selected[i];
    SelectStaffMember(staffRows, userId, q.staffId, staff);
    assert duration.Some?;
    var d := duration.value;
    StaffSlotsMember(staff, shifts, excs, res, d, s);
    var m :| ShiftCovers(FindShift(shifts, staff.id).value, m, d) && Free(excs, res, staff.id, m, d) && s == SlotAt(staff, m);
    FoundShiftIsRow(shiftRows, ids, dayOfWeek, staff.id);
    assert staff.id in ids by { assert ids[i] == staff.id; }
    FreeOnRawRows(staff, ids, m, d, exceptionRows, reservationRows, userId, date);
    assert staff in staffRows && StaffSelected(staff, userId, q.staffId);
    assert Bookable(staff, m, d, shiftRows, exceptionRows, reservationRows, userId, date, dayOfWeek);
  }

  /** A bookable time of a selected staff member is among that staff member's slots. */
  lemma {:induction false} BookableInStaffSlots(staff: StaffMember, m: int, d: int, ids: seq<string>,
                             shiftRows: seq<StaffShift>, exceptionRows: seq<ShiftException>,
                             reservationRows: seq<Reservation>, userId: string, date: string, dayOfWeek: int)
    requires ShiftKeysUnique(shiftRows)
    requires staff.id in ids
    requires Bookable(staff, m, d, shiftRows, exceptionRows, reservationRows, userId, date, dayOfWeek)
    ensures SlotAt(staff, m) in StaffSlots(staff, DayShifts(shiftRows, ids, dayOfWeek), DateExceptions(exceptionRows, ids, date),
                                           DateReservations(reservationRows, userId, date), Some(d))
  {
    var shifts := DayShifts(shiftRows, ids, dayOfWeek);
    var excs := DateExceptions(exceptionRows, ids, date);
    var res := DateReservations(reservationRows, userId, date);
    var sh :| sh in shiftRows && sh.staffMemberId == staff.id && sh.dayOfWeek == dayOfWeek && sh.isWorking &&
              ShiftCovers(sh, m, d);
    RowIsFoundShift(shiftRows, ids, dayOfWeek, sh);
    FreeOnRawRows(staff, ids, m, d, exceptionRows, reservationRows, userId, date);
    StaffSlotsMember(staff, shifts, excs, res, d, SlotAt(staff, m));
  }

  /** Completeness: with one shift per staff member and weekday, every bookable time is offered. */
  lemma {:induction false} BookableSlotIsOffered(staffRows: seq<StaffMember>, shiftRows: seq<StaffShift>,
                              exceptionRows: seq<ShiftException>, reservationRows: seq<Reservation>,
                              userId: string, q: SlotQuery, dayOfWeek: int, staff: StaffMember, m: int)
    requires ShiftKeysUnique(shiftRows)
    requires Truthy(q.date) && RequestedDuration(q.duration).Some?
    requires staff in staffRows && StaffSelected(staff, userId, q.staffId)
    requires Bookable(staff, m, RequestedDuration(q.duration).value, shiftRows, exceptionRows, reservationRows,
                      userId, q.date.value, dayOfWeek)
    ensures AvailableSlotsFor(staffRows, shiftRows, exceptionRows, reservationRows, userId, q, dayOfWeek).Slots?
    ensures SlotAt(staff, m) in AvailableSlotsFor(staffRows, shiftRows, exceptionRows, reservationRows, userId, q, dayOfWeek).slots
  {
    var date := q.date.value;
    var selected := SelectStaff(staffRows, userId, q.staffId);
    FilterMember(staffRows, (s: StaffMember) => StaffSelected(s, userId, q.staffId), staff);
    var i :| 0 <= i < |selected| && selected[i] == staff;
    var ids := StaffIds(selected);
    assert staff.id in ids by { assert ids[i] == staff.id; }
    var shifts := DayShifts(shiftRows, ids, dayOfWeek);
    var excs := DateExceptions(exceptionRows, ids, date);
    var res := DateReservations(reservationRows, userId, date);
    var duration := RequestedDuration(q.duration);
    var slot := SlotAt(staff, m);
    BookableInStaffSlots(staff, m, duration.value, ids, shiftRows, exceptionRows, reservationRows, userId, date, dayOfWeek);
    var all := AllSlots(selected, shifts, excs, res, duration);
    assert slot in all by {
      AllSlotsMember(selected, shifts, excs, res, duration, slot);
    }
    SortSortsAndPermutes(all, SlotTime);
    assert slot in multiset(all);
    assert slot in multiset(SortBy(all, SlotTime));
  }

  // ------------------------------------------------------------------
  // Further properties of the answer.

  /** Without a `duration` parameter, or with an empty one, services last an hour. */
  lemma {:induction false} DefaultDurationIsAnHour(duration: Option<string>)
    requires !Truthy(duration)
    ensures RequestedDuration(duration) == Some(60)
  {
    var text := DefaultDuration;
    assert SignFree(text) == text;
    assert DigitPrefixLength(text[2..]) == 0;
    assert DigitPrefixLength(text[1..]) == 1;
    assert DigitPrefixLength(text) == 2;
    assert text[..2] == text;
    assert text[..1] == "6";
    assert DigitsValue("6") == 6 by { assert "6"[..0] == []; }
    assert DigitsValue(text) == 10 * DigitsValue("6") + 0;
  }

  lemma {:induction false} NoDurationNoStaffSlots(staff: seq<StaffMember>, shifts: seq<StaffShift>,
                                                  exceptions: seq<ShiftException>, reservations: seq<Reservation>)
    ensures AllSlots(staff, shifts, exceptions, reservations, None) == []
  {
    if staff != [] {
      NoDurationNoStaffSlots(staff[..|staff| - 1], shifts, exceptions, reservations);
    }
  }

  /** A `duration` that is not a number (`NaN`) fails every comparison, so nothing is offered. */
  lemma {:induction false} UnparsableDurationNoSlots(staffRows: seq<StaffMember>, shiftRows: seq<StaffShift>,
                                  exceptionRows: seq<ShiftException>, reservationRows: seq<Reservation>,
                                  userId: string, q: SlotQuery, dayOfWeek: int)
    requires Truthy(q.date) && RequestedDuration(q.duration).None?
    ensures AvailableSlotsFor(staffRows, shiftRows, exceptionRows, reservationRows, userId, q, dayOfWeek) ==
            Slots(q.date.value, [])
  {
    var selected := SelectStaff(staffRows, userId, q.staffId);
    if selected != [] {
      var ids := StaffIds(selected);
      var all := AllSlots(selected, DayShifts(shiftRows, ids, dayOfWeek), DateExceptions(exceptionRows, ids, q.date.value),
                          DateReservations(reservationRows, userId, q.date.value), None);
      NoDurationNoStaffSlots(selected, DayShifts(shiftRows, ids, dayOfWeek), DateExceptions(exceptionRows, ids, q.date.value),
                             DateReservations(reservationRows, userId, q.date.value));
      assert all == [];
    }
  }

  /** The answer lists slots in clock order: for shifts inside the first hundred hours, earlier times first. */
  lemma {:induction false} SlotsInClockOrder(staffRows: seq<StaffMember>, shiftRows: seq<StaffShift>,
                          exceptionRows: seq<ShiftException>, reservationRows: seq<Reservation>,
                          userId: string, q: SlotQuery, dayOfWeek: int, i: int, j: int, a: nat, b: nat)
    requires AvailableSlotsFor(staffRows, shiftRows, exceptionRows, reservationRows, userId, q, dayOfWeek).Slots?
    requires 0 <= i < j < |AvailableSlotsFor(staffRows, shiftRows, exceptionRows, reservationRows, userId, q, dayOfWeek).slots|
    requires a < 6000 && b < 6000
    requires AvailableSlotsFor(staffRows, shiftRows, exceptionRows, reservationRows, userId, q, dayOfWeek).slots[i].time == FormatClock(a)
    requires AvailableSlotsFor(staffRows, shiftRows, exceptionRows, reservationRows, userId, q, dayOfWeek).slots[j].time == FormatClock(b)
    ensures a <= b
  {
    var out := AvailableSlotsFor(staffRows, shiftRows, exceptionRows, reservationRows, userId, q, dayOfWeek);
    var selected := SelectStaff(staffRows, userId, q.staffId);
    if selected != [] {
      var ids := StaffIds(selected);
      var all := AllSlots(selected, DayShifts(shiftRows, ids, dayOfWeek), DateExceptions(exceptionRows, ids, q.date.value),
                          DateReservations(reservationRows, userId, q.date.value), RequestedDuration(q.duration));
      SortSortsAndPermutes(all, SlotTime);
      assert out.slots == SortBy(all, SlotTime);
      assert !CollatesBefore(SlotTime(out.slots[j]), SlotTime(out.slots[i]));
      ClockOrderIsNumeric(b, a);
    }
  }

  /** Slots at the same time keep the order of the staff query: the sort is stable. */
  lemma {:induction false} SameTimeKeepsStaffOrder(staffRows: seq<StaffMember>, shiftRows: seq<StaffShift>,
                                exceptionRows: seq<ShiftException>, reservationRows: seq<Reservation>,
                                userId: string, q: SlotQuery, dayOfWeek: int, time: string)
    requires Truthy(q.date) && SelectStaff(staffRows, userId, q.staffId) != []
    ensures var selected := SelectStaff(staffRows, userId, q.staffId);
            var ids := StaffIds(selected);
            var all := AllSlots(selected, DayShifts(shiftRows, ids, dayOfWeek), DateExceptions(exceptionRows, ids, q.date.value),
                                DateReservations(reservationRows, userId, q.date.value), RequestedDuration(q.duration));
            WithKey(AvailableSlotsFor(staffRows, shiftRows, exceptionRows, reservationRows, userId, q, dayOfWeek).slots, SlotTime, time) ==
            WithKey(all, SlotTime, time)
  {
    var selected := SelectStaff(staffRows, userId, q.staffId);
    var ids := StaffIds(selected);
    var all := AllSlots(selected, DayShifts(shiftRows, ids, dayOfWeek), DateExceptions(exceptionRows, ids, q.date.value),
                        DateReservations(reservationRows, userId, q.date.value), RequestedDuration(q.duration));
    SortStable(all, SlotTime, time);
  }

  /** A service exactly as long as a free shift fits once, at the shift start. */
  lemma {:induction false} WholeShiftSingleSlot(staff: StaffMember, shifts: seq<StaffShift>, exceptions: seq<ShiftException>,
                             reservations: seq<Reservation>, duration: int)
    requires FindShift(shifts, staff.id).Some? && !FullDayOff(exceptions, staff.id)
    requires duration == FindShift(shifts, staff.id).value.endTime - FindShift(shifts, staff.id).value.startTime
    requires Free(exceptions, reservations, staff.id, FindShift(shifts, staff.id).value.startTime, duration)
    ensures StaffSlots(staff, shifts, exceptions, reservations, Some(duration)) ==
            [SlotAt(staff, FindShift(shifts, staff.id).value.startTime)]
  {
    var sh := FindShift(shifts, staff.id).value;
    assert GridCount(sh.startTime, sh.endTime, duration) == 1;
    assert GridPoint(sh.startTime, 0) == sh.startTime;
    assert GridSlots(staff, sh.startTime, duration, exceptions, reservations, 1) ==
           GridSlots(staff, sh.startTime, duration, exceptions, reservations, 0) + [SlotAt(staff, sh.startTime)];
  }
}
