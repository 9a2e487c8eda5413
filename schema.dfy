/**
 * The database rows the three API-key handlers read and write (the tables of
 * the generated Supabase types), and the in-memory store that holds them.
 * Time-of-day columns hold minutes since midnight; dates are kept as the
 * `YYYY-MM-DD` text the callers send.
 */
module Schema {
  import opened Wrappers

  datatype ReservationStatus = Pending | Confirmed | Cancelled | Completed | NoShow

  datatype ReservationSource = VoiceAgent | Manual | Website | Phone | N8n

  datatype StaffMember = StaffMember(
    id: string, userId: string, name: string, color: Option<string>, isActive: bool)

  /** One weekly working pattern entry, keyed by (staff member, day of week 0..6 from Sunday). */
  datatype StaffShift = StaffShift(
    id: string, staffMemberId: string, dayOfWeek: int,
    startTime: int, endTime: int, isWorking: bool)

  /** A date-specific exception; both times absent means the whole day is off. */
  datatype ShiftException = ShiftException(
    id: string, staffMemberId: string, exceptionDate: string,
    startTime: Option<int>, endTime: Option<int>, reason: Option<string>)

  datatype Reservation = Reservation(
    id: string, userId: string,
    customerName: string, customerPhone: Option<string>, customerEmail: Option<string>,
    date: string, time: int, endTime: Option<int>,
    staffMemberId: Option<string>, productId: Option<string>,
    status: Option<ReservationStatus>, source: Option<ReservationSource>, notes: Option<string>)

  datatype Product = Product(
    id: string, userId: string, name: string, category: string,
    durationMinutes: int, price: int, isActive: bool, sortOrder: Option<int>)

  datatype Contact = Contact(
    id: string, userId: string, name: string,
    phone: Option<string>, email: Option<string>,
    bookingCount: Option<int>, lastVisit: Option<string>)

  /**
   * The filter `.neq("status", "cancelled")`: in SQL a NULL status compares
   * as unknown, so those rows are dropped as well.
   */
  predicate NotCancelled(status: Option<ReservationStatus>) {
    status.Some? && status.value != Cancelled
  }

  /** Reservation ids are the table's primary key. */
  ghost predicate ReservationIdsUnique(rs: seq<Reservation>) {
    forall i, j :: 0 <= i < |rs| && 0 <= j < |rs| && rs[i].id == rs[j].id ==> i == j
  }

  /** At most one shift per (staff member, day of week): the key the shift upsert conflicts on. */
  ghost predicate ShiftKeysUnique(shifts: seq<StaffShift>) {
    forall i, j :: (0 <= i < |shifts| && 0 <= j < |shifts| &&
                    shifts[i].staffMemberId == shifts[j].staffMemberId &&
                    shifts[i].dayOfWeek == shifts[j].dayOfWeek) ==> i == j
  }

  ghost predicate ContactIdsUnique(cs: seq<Contact>) {
    forall i, j :: 0 <= i < |cs| && 0 <= j < |cs| && cs[i].id == cs[j].id ==> i == j
  }

  /** The tables of one database; the handlers read them and update reservations and contacts. */
  class Database {
    var staffMembers: seq<StaffMember>
    var staffShifts: seq<StaffShift>
    var shiftExceptions: seq<ShiftException>
    var reservations: seq<Reservation>
    var products: seq<Product>
    var contacts: seq<Contact>

    ghost predicate Valid()
      reads this
    {
      ReservationIdsUnique(reservations) && ContactIdsUnique(contacts)
    }

    constructor (staffMembers: seq<StaffMember>, staffShifts: seq<StaffShift>,
                 shiftExceptions: seq<ShiftException>, reservations: seq<Reservation>,
                 products: seq<Product>, contacts: seq<Contact>)
      ensures this.staffMembers == staffMembers && this.staffShifts == staffShifts
      ensures this.shiftExceptions == shiftExceptions && this.reservations == reservations
      ensures this.products == products && this.contacts == contacts
    {
      this.staffMembers := staffMembers;
      this.staffShifts := staffShifts;
      this.shiftExceptions := shiftExceptions;
      this.reservations := reservations;
      this.products := products;
      this.contacts := contacts;
    }
  }
}
