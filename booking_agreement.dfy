/**
 * How the three booking handlers agree and where they do not. The slot
 * generator treats bookings as half-open ranges and gives a booking without
 * an end time one hour; the booking handler's conflict query is closed at
 * both ends and ignores bookings without an end time.
 */
module BookingAgreement {
  import opened Wrappers
  import opened JsText
  import opened Clock
  import opened Seqs
  import opened Schema
  import AvailableSlots
  import CreateReservation
  import CancelReservation

  /** A booking with an end time that the generator sees overlapping a range also conflicts in the booking handler. */
  lemma {:induction false} OverlapIsConflict(r: Reservation, userId: string, staffId: string, date: string, start: int, duration: int)
    requires AvailableSlots.ReservationSelected(r, userId, date)
    requires AvailableSlots.ReservationBlocks(r, staffId, start, start + duration)
    requires r.endTime.Some?
    ensures CreateReservation.ClosedConflict(r, userId, staffId, date, start, start + duration)
  {
  }

  /**
   * A time the generator leaves out because a booking with an end time
   * overlaps it is refused with 409 by the booking handler, for the same
   * staff member, date and service length.
   */
  lemma {:induction false} ExcludedTimeIsRefused(staff: seq<StaffMember>, products: seq<Product>, reservations: seq<Reservation>,
                              userId: string, b: CreateReservation.ReservationRequest, m: nat, r: Reservation)
    requires CreateReservation.HasRequiredFields(b) && Truthy(b.staffId)
    requires CreateReservation.StaffOwned(staff, userId, b.staffId.value)
    requires b.time == Some(FormatClock(m))
    requires r in reservations && r.endTime.Some?
    requires AvailableSlots.ReservationSelected(r, userId, b.date.value)
    requires AvailableSlots.ReservationBlocks(r, b.staffId.value, m,
                                              m + CreateReservation.ServiceLength(products, userId, b.productId))
    ensures CreateReservation.Admit(staff, products, reservations, userId, b) == CreateReservation.Refused(CreateReservation.SlotTaken)
  {
    ClockRoundTrip(m, []);
    assert FormatClock(m) + [] == FormatClock(m);
    OverlapIsConflict(r, userId, b.staffId.value, b.date.value, m, CreateReservation.ServiceLength(products, userId, b.productId));
  }

  /**
   * The other way round, an offered time can still be refused, but only by a
   * booking that touches it: one ending exactly at its start or starting
   * exactly at its end.
   */
  lemma {:induction false} OfferedTimeConflictsOnlyAtEdges(reservations: seq<Reservation>, userId: string, staffId: string, date: string,
                                        m: int, duration: int, r: Reservation)
    requires !AvailableSlots.BlockedByReservation(AvailableSlots.DateReservations(reservations, userId, date), staffId, m, m + duration)
    requires r in reservations && CreateReservation.ClosedConflict(r, userId, staffId, date, m, m + duration)
    ensures r.endTime == Some(m) || r.time == m + duration
  {
    FilterMember(reservations, (x: Reservation) => AvailableSlots.ReservationSelected(x, userId, date), r);
    assert !AvailableSlots.ReservationBlocks(r, staffId, m, m + duration);
  }

  /** A booking 09:00-10:00 of staff member `staffId` on `date`. */
  function NineToTen(userId: string, staffId: string, date: string): Reservation {
    Reservation("r1", userId, "Anna", None, None, date, 540, Some(600), Some(staffId), None, Some(Confirmed), None, None)
  }

  /**
   * Back-to-back bookings: with 09:00-10:00 taken, the generator offers 10:00
   * for an hour's service. One instance of OfferedTimeConflictsOnlyAtEdges,
   * which states the general case.
   */
  lemma {:induction false} TouchingBookingOffered(userId: string, staffId: string, date: string)
    ensures !AvailableSlots.BlockedByReservation(AvailableSlots.DateReservations([NineToTen(userId, staffId, date)], userId, date),
                                                 staffId, 600, 660)
  {
    var rs := [NineToTen(userId, staffId, date)];
    forall x | x in AvailableSlots.DateReservations(rs, userId, date) ensures !AvailableSlots.ReservationBlocks(x, staffId, 600, 660) {
      FilterMember(rs, (r: Reservation) => AvailableSlots.ReservationSelected(r, userId, date), x);
    }
  }

  /**
   * A request whose time reads as minute `m` (padded or not, with or without
   * seconds) reaches the conflict check with that time and the service
   * length, and then the insert's foreign keys.
   */
  lemma {:induction false} AdmitParsed(staff: seq<StaffMember>, products: seq<Product>, reservations: seq<Reservation>,
                                       userId: string, b: CreateReservation.ReservationRequest, m: int)
    requires CreateReservation.HasRequiredFields(b) && ParseClock(b.time.value) == Some(m)
    requires Truthy(b.staffId) && CreateReservation.StaffOwned(staff, userId, b.staffId.value)
    ensures var end := m + CreateReservation.ServiceLength(products, userId, b.productId);
            CreateReservation.Admit(staff, products, reservations, userId, b) ==
            if CreateReservation.HasConflict(reservations, userId, b.staffId.value, b.date.value, m, end)
            then CreateReservation.Refused(CreateReservation.SlotTaken)
            else if !CreateReservation.ReferencesExist(staff, products, b)
            then CreateReservation.Refused(CreateReservation.StorageError)
            else CreateReservation.Admitted(m, end)
  {
  }

  /** Ben's request for an hour's service with `staffId` on `date` at minute `m`. */
  function BenAt(staffId: string, date: string, m: int): CreateReservation.ReservationRequest {
    CreateReservation.ReservationRequest(Some("Ben"), None, None, Some(date), Some(FormatClock(m)), Some(staffId), None, None)
  }

  /**
   * ... and the booking handler refuses a one-hour booking at 10:00 with 409:
   * the touching booking OfferedTimeConflictsOnlyAtEdges allows for.
   */
  lemma {:induction false} TouchingBookingRefused(staff: seq<StaffMember>, userId: string, staffId: string, date: string)
    requires CreateReservation.StaffOwned(staff, userId, staffId)
    requires Truthy(Some(staffId)) && Truthy(Some(date))
    ensures CreateReservation.Admit(staff, [], [NineToTen(userId, staffId, date)], userId, BenAt(staffId, date, 600)) ==
            CreateReservation.Refused(CreateReservation.SlotTaken)
  {
    var rs := [NineToTen(userId, staffId, date)];
    ClockRoundTrip(600, []);
    assert FormatClock(600) + [] == FormatClock(600);
    AdmitParsed(staff, [], rs, userId, BenAt(staffId, date, 600), 600);
    assert CreateReservation.ServiceLength([], userId, None) == 60;
    assert rs[0] in rs && CreateReservation.ClosedConflict(rs[0], userId, staffId, date, 600, 660);
  }

  /** A booking 09:00 of staff member `staffId` on `date` stored without an end time. */
  function NineOpenEnded(userId: string, staffId: string, date: string): Reservation {
    NineToTen(userId, staffId, date).(endTime := None)
  }

  /** The generator gives the open-ended 09:00 booking an hour and so does not offer 09:00. */
  lemma {:induction false} OpenEndedBlocksNine(userId: string, staffId: string, date: string)
    ensures AvailableSlots.BlockedByReservation(AvailableSlots.DateReservations([NineOpenEnded(userId, staffId, date)], userId, date),
                                                staffId, 540, 600)
  {
    var r := NineOpenEnded(userId, staffId, date);
    FilterMember([r], (x: Reservation) => AvailableSlots.ReservationSelected(x, userId, date), r);
    assert AvailableSlots.ReservationBlocks(r, staffId, 540, 600);
  }

  /** The booking handler does not see the open-ended 09:00 booking and admits 09:00. */
  lemma {:induction false} OpenEndedAdmitsNine(staff: seq<StaffMember>, userId: string, staffId: string, date: string)
    requires CreateReservation.StaffOwned(staff, userId, staffId)
    requires Truthy(Some(staffId)) && Truthy(Some(date))
    ensures CreateReservation.Admit(staff, [], [NineOpenEnded(userId, staffId, date)], userId, BenAt(staffId, date, 540)) ==
            CreateReservation.Admitted(540, 600)
  {
    var rs := [NineOpenEnded(userId, staffId, date)];
    ClockRoundTrip(540, []);
    assert FormatClock(540) + [] == FormatClock(540);
    AdmitParsed(staff, [], rs, userId, BenAt(staffId, date, 540), 540);
    CreateReservation.OwnedStaffExists(staff, userId, staffId);
    assert CreateReservation.ServiceLength([], userId, None) == 60;
    assert !CreateReservation.HasConflict(rs, userId, staffId, date, 540, 600);
  }

  /**
   * A booking stored without an end time blocks an hour in the generator
   * but nothing in the booking handler: 09:00 is not offered, yet a request
   * for 09:00 is admitted. The handler's side holds for every request, as
   * CreateReservation.OpenEndedRowNeverConflicts states.
   */
  lemma {:induction false} OpenEndedBookingBlocksOnlyOffers(staff: seq<StaffMember>, userId: string, staffId: string, date: string)
    requires CreateReservation.StaffOwned(staff, userId, staffId)
    requires Truthy(Some(staffId)) && Truthy(Some(date))
    ensures var r := NineOpenEnded(userId, staffId, date);
            AvailableSlots.BlockedByReservation(AvailableSlots.DateReservations([r], userId, date), staffId, 540, 600) &&
            CreateReservation.Admit(staff, [], [r], userId, BenAt(staffId, date, 540)) == CreateReservation.Admitted(540, 600)
  {
    OpenEndedBlocksNine(userId, staffId, date);
    OpenEndedAdmitsNine(staff, userId, staffId, date);
  }

  /**
   * Cancelling frees the time again: when every open booking that blocked a
   * range was among the cancelled ones, the generator sees the range free.
   */
  lemma {:induction false} CancellationFreesTime(rs: seq<Reservation>, userId: string, b: CancelReservation.CancelRequest,
                              date: string, staffId: string, start: int, end: int)
    requires ReservationIdsUnique(rs)
    requires forall i :: 0 <= i < |rs| && AvailableSlots.ReservationSelected(rs[i], userId, date) &&
                         AvailableSlots.ReservationBlocks(rs[i], staffId, start, end) ==>
                         CancelReservation.Selected(rs[i], userId, CancelReservation.CriteriaOf(b))
    ensures var after := CancelReservation.CancelIds(rs, CancelReservation.IdsOf(
                           CancelReservation.Matching(rs, userId, CancelReservation.CriteriaOf(b))));
            !AvailableSlots.BlockedByReservation(AvailableSlots.DateReservations(after, userId, date), staffId, start, end)
  {
    var c := CancelReservation.CriteriaOf(b);
    var after := CancelReservation.CancelIds(rs, CancelReservation.IdsOf(CancelReservation.Matching(rs, userId, c)));
    CancelReservation.ExactlySelectedRowsCancelled(rs, userId, b);
    forall x | x in AvailableSlots.DateReservations(after, userId, date)
      ensures !AvailableSlots.ReservationBlocks(x, staffId, start, end)
    {
      FilterMember(after, (r: Reservation) => AvailableSlots.ReservationSelected(r, userId, date), x);
      var i :| 0 <= i < |after| && after[i] == x;
    }
  }
}
