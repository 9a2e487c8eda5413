/**
 * The booking handler: validates a booking request, works out the service
 * length from the product, checks that the staff member belongs to the
 * account and is not already booked, stores a confirmed reservation, and
 * creates or updates the customer's contact record.
 */
module CreateReservation {
  import opened Wrappers
  import opened JsText
  import opened Clock
  import opened Seqs
  import opened Schema

  /** Service length when no product is named or the product lookup finds no single row. */
  const DefaultServiceLength: int := 60
  /** The text the contact lookup puts in place of a missing phone or e-mail. */
  const NullText: string := "null"

  /** The JSON body; a field the caller leaves out is `None`. */
  datatype ReservationRequest = ReservationRequest(
    customerName: Option<string>, customerPhone: Option<string>, customerEmail: Option<string>,
    date: Option<string>, time: Option<string>, staffId: Option<string>, productId: Option<string>,
    notes: Option<string>)

  /** The answers: 200 with the new id, 400 for missing fields or a foreign staff member, 409, and 500. */
  datatype CreateOutcome = Created(reservationId: string) | MissingFields | InvalidStaff | SlotTaken | StorageError

  /** The gate in front of the insert: either a reason to refuse, or the booked range in minutes. */
  datatype Admission = Refused(reason: CreateOutcome) | Admitted(start: int, end: int)

  predicate HasRequiredFields(b: ReservationRequest) {
    Truthy(b.customerName) && Truthy(b.date) && Truthy(b.time)
  }

  predicate ProductMatches(p: Product, productId: string, userId: string) {
    p.id == productId && p.userId == userId
  }

  /**
   * The service length: the product's `duration_minutes` when the product
   * lookup (`maybeSingle`) finds exactly one row of the account, else an hour.
   */
  function ServiceLength(products: seq<Product>, userId: string, productId: Option<string>): (d: int)
    ensures d != DefaultServiceLength ==>
              Truthy(productId) &&
              exists p :: p in products && ProductMatches(p, productId.value, userId) && p.durationMinutes == d
  {
    if !Truthy(productId) then DefaultServiceLength
    else
      var found := Filter(products, (p: Product) => ProductMatches(p, productId.value, userId));
      FilterProperties(products, (p: Product) => ProductMatches(p, productId.value, userId));
      if |found| == 1 then found[0].durationMinutes else DefaultServiceLength
  }

  predicate StaffMatches(s: StaffMember, staffId: string, userId: string) {
    s.id == staffId && s.userId == userId
  }

  /** The staff lookup (`maybeSingle`) finds exactly one row of the account. */
  predicate StaffOwned(staff: seq<StaffMember>, userId: string, staffId: string) {
    |Filter(staff, (s: StaffMember) => StaffMatches(s, staffId, userId))| == 1
  }

  /**
   * The conflict query: an open reservation of the account, staff member and
   * date with `end_time >= start` and `time <= end`. The comparison is closed
   * at both ends, and a row whose `end_time` is NULL never satisfies it.
   */
  predicate ClosedConflict(r: Reservation, userId: string, staffId: string, date: string, start: int, end: int) {
    r.userId == userId && r.staffMemberId == Some(staffId) && r.date == date && NotCancelled(r.status) &&
    r.endTime.Some? && r.endTime.value >= start && r.time <= end
  }

  predicate HasConflict(reservations: seq<Reservation>, userId: string, staffId: string, date: string, start: int, end: int) {
    exists r :: r in reservations && ClosedConflict(r, userId, staffId, date, start, end)
  }

  /**
   * The insert's foreign keys: a `staff_id` or `product_id` the request sends
   * must be the id of some row of `staff_members` or `products` (of any
   * account), or the insert fails.
   */
  predicate ReferencesExist(staff: seq<StaffMember>, products: seq<Product>, b: ReservationRequest) {
    (b.staffId.Some? ==> exists s :: s in staff && s.id == b.staffId.value) &&
    (b.productId.Some? ==> exists p :: p in products && p.id == b.productId.value)
  }

  /**
   * The checks in the handler's order. An unparsable `time` passes the staff
   * and conflict checks (the conflict query fails and is ignored) and makes
   * the insert fail: a 500 with nothing stored. So does a reference the
   * insert's foreign keys reject, such as a `product_id` of no product: the
   * product lookup ignores it, and the insert runs after the conflict check.
   */
  function Admit(staff: seq<StaffMember>, products: seq<Product>, reservations: seq<Reservation>,
                 userId: string, b: ReservationRequest): (r: Admission)
    ensures r == Refused(MissingFields) <==> !HasRequiredFields(b)
    ensures r == Refused(InvalidStaff) <==>
              HasRequiredFields(b) && Truthy(b.staffId) && !StaffOwned(staff, userId, b.staffId.value)
    ensures r == Refused(SlotTaken) <==>
              HasRequiredFields(b) && Truthy(b.staffId) && StaffOwned(staff, userId, b.staffId.value) &&
              ParseClock(b.time.value).Some? &&
              HasConflict(reservations, userId, b.staffId.value, b.date.value, ParseClock(b.time.value).value,
                          ParseClock(b.time.value).value + ServiceLength(products, userId, b.productId))
    ensures r.Admitted? <==>
              HasRequiredFields(b) && ParseClock(b.time.value).Some? && ReferencesExist(staff, products, b) &&
              (Truthy(b.staffId) ==>
                 StaffOwned(staff, userId, b.staffId.value) &&
                 !HasConflict(reservations, userId, b.staffId.value, b.date.value, ParseClock(b.time.value).value,
                              ParseClock(b.time.value).value + ServiceLength(products, userId, b.productId)))
    ensures r.Admitted? ==>
              HasRequiredFields(b) && ParseClock(b.time.value) == Some(r.start) &&
              r.end == r.start + ServiceLength(products, userId, b.productId) &&
              ReferencesExist(staff, products, b) &&
              (Truthy(b.staffId) ==> StaffOwned(staff, userId, b.staffId.value) &&
                                     !HasConflict(reservations, userId, b.staffId.value, b.date.value, r.start, r.end))
  {
    if !HasRequiredFields(b) then Refused(MissingFields)
    else
      var duration := ServiceLength(products, userId, b.productId);
      var start := ParseClock(b.time.value);
      if Truthy(b.staffId) && !StaffOwned(staff, userId, b.staffId.value) then Refused(InvalidStaff)
      else if start.None? then Refused(StorageError)
      else if Truthy(b.staffId) &&
              HasConflict(reservations, userId, b.staffId.value, b.date.value, start.value, start.value + duration)
      then Refused(SlotTaken)
      else if !ReferencesExist(staff, products, b) then Refused(StorageError)
      else Admitted(start.value, start.value + duration)
  }

  /** The inserted row: confirmed, from the voice agent, carrying the computed end time. */
  function NewReservation(id: string, userId: string, b: ReservationRequest, start: int, end: int): Reservation
    requires HasRequiredFields(b)
  {
    Reservation(id, userId, b.customerName.value, b.customerPhone, b.customerEmail, b.date.value, start, Some(end),
                b.staffId, b.productId, Some(Confirmed), Some(VoiceAgent), b.notes)
  }

  /** `value || "null"`, as spliced into the contact filter. */
  function LookupText(o: Option<string>): string {
    if Truthy(o) then o.value else NullText
  }

  /** The contact filter: the account's contacts whose phone or e-mail equals the looked-up text. */
  predicate ContactMatches(c: Contact, userId: string, b: ReservationRequest) {
    c.userId == userId && (c.phone == Some(LookupText(b.customerPhone)) || c.email == Some(LookupText(b.customerEmail)))
  }

  /** The update of the single matched contact: fields the request leaves out keep their value. */
  function RefreshedContact(c: Contact, matched: Contact, b: ReservationRequest): Contact
    requires HasRequiredFields(b)
  {
    c.(name := b.customerName.value,
       phone := if b.customerPhone.Some? then b.customerPhone else c.phone,
       email := if b.customerEmail.Some? then b.customerEmail else c.email,
       bookingCount := Some(matched.bookingCount.GetOr(0) + 1),
       lastVisit := b.date)
  }

  function NewContact(id: string, userId: string, b: ReservationRequest): Contact
    requires HasRequiredFields(b)
  {
    Contact(id, userId, b.customerName.value, b.customerPhone, b.customerEmail, Some(1), b.date)
  }

  /**
   * The contacts table after a booking: untouched without phone and e-mail;
   * the single match refreshed; otherwise (no match, or several, where
   * `maybeSingle` fails) a new contact.
   */
  function ContactsAfter(contacts: seq<Contact>, userId: string, b: ReservationRequest, contactId: string): (r: seq<Contact>)
    requires HasRequiredFields(b)
    ensures !(Truthy(b.customerPhone) || Truthy(b.customerEmail)) ==> r == contacts
    ensures |contacts| <= |r| <= |contacts| + 1
    ensures forall i :: 0 <= i < |contacts| ==> r[i].id == contacts[i].id && r[i].userId == contacts[i].userId
    ensures |r| > |contacts| ==> r[|contacts|] == NewContact(contactId, userId, b)
  {
    if !(Truthy(b.customerPhone) || Truthy(b.customerEmail)) then contacts
    else
      var found := Filter(contacts, (c: Contact) => ContactMatches(c, userId, b));
      if |found| == 1 then
        seq(|contacts|, i requires 0 <= i < |contacts| =>
              if contacts[i].id == found[0].id then RefreshedContact(contacts[i], found[0], b) else contacts[i])
      else contacts + [NewContact(contactId, userId, b)]
  }

  function ReservationIds(rs: seq<Reservation>): set<string> {
    set r | r in rs :: r.id
  }

  function ContactIds(cs: seq<Contact>): set<string> {
    set c | c in cs :: c.id
  }

  /**
   * The handler after authentication. The database chooses the ids of new
   * rows; here they are the parameters `reservationId` and `contactId`.
   */
  method CreateReservation(db: Database, userId: string, b: ReservationRequest, reservationId: string, contactId: string)
    returns (outcome: CreateOutcome)
    requires db.Valid()
    requires reservationId !in ReservationIds(db.reservations) && contactId !in ContactIds(db.contacts)
    modifies db
    ensures db.Valid()
    ensures db.staffMembers == old(db.staffMembers) && db.staffShifts == old(db.staffShifts)
    ensures db.shiftExceptions == old(db.shiftExceptions) && db.products == old(db.products)
    ensures match Admit(old(db.staffMembers), old(db.products), old(db.reservations), userId, b)
            case Refused(reason) =>
              outcome == reason && db.reservations == old(db.reservations) && db.contacts == old(db.contacts)
            case Admitted(start, end) =>
              outcome == Created(reservationId) &&
              db.reservations == old(db.reservations) + [NewReservation(reservationId, userId, b, start, end)] &&
              db.contacts == ContactsAfter(old(db.contacts), userId, b, contactId)
  {
    if !HasRequiredFields(b) {
      return MissingFields;
    }
    var durationMinutes := ServiceLength(db.products, userId, b.productId);
    var startMinutes := ParseClock(b.time.value);
    if Truthy(b.staffId) && !StaffOwned(db.staffMembers, userId, b.staffId.value) {
      return InvalidStaff;
    }
    if startMinutes.None? {
      return StorageError;
    }
    var endMinutes := startMinutes.value + durationMinutes;
    if Truthy(b.staffId) &&
       HasConflict(db.reservations, userId, b.staffId.value, b.date.value, startMinutes.value, endMinutes) {
      return SlotTaken;
    }
    if !ReferencesExist(db.staffMembers, db.products, b) {
      return StorageError;
    }
    assert Admit(db.staffMembers, db.products, db.reservations, userId, b) == Admitted(startMinutes.value, endMinutes);
    var row := NewReservation(reservationId, userId, b, startMinutes.value, endMinutes);
    ReservationIdsStayUnique(db.reservations, row);
    db.reservations := db.reservations + [row];
    ContactIdsStayUnique(db.contacts, userId, b, contactId);
    db.contacts := ContactsAfter(db.contacts, userId, b, contactId);
    return Created(reservationId);
  }

  // ------------------------------------------------------------------
  // Properties.

  lemma {:induction false} ReservationIdsStayUnique(rs: seq<Reservation>, row: Reservation)
    requires ReservationIdsUnique(rs) && row.id !in ReservationIds(rs)
    ensures ReservationIdsUnique(rs + [row])
  {
  }

  /** The contacts table keeps one row per id. */
  lemma {:induction false} ContactIdsStayUnique(contacts: seq<Contact>, userId: string, b: ReservationRequest, contactId: string)
    requires HasRequiredFields(b)
    requires ContactIdsUnique(contacts) && contactId !in ContactIds(contacts)
    ensures ContactIdsUnique(ContactsAfter(contacts, userId, b, contactId))
    ensures ContactIds(ContactsAfter(contacts, userId, b, contactId)) <= ContactIds(contacts) + {contactId}
  {
    var after := ContactsAfter(contacts, userId, b, contactId);
    if Truthy(b.customerPhone) || Truthy(b.customerEmail) {
      var found := Filter(contacts, (c: Contact) => ContactMatches(c, userId, b));
      if |found| == 1 {
        assert |after| == |contacts|;
        assert forall i :: 0 <= i < |after| ==> after[i].id == contacts[i].id;
        forall x | x in ContactIds(after) ensures x in ContactIds(contacts) {
          var c :| c in after && c.id == x;
          var i :| 0 <= i < |after| && after[i] == c;
          assert contacts[i] in contacts;
        }
      } else {
        var all := contacts + [NewContact(contactId, userId, b)];
        forall x | x in ContactIds(all) ensures x in ContactIds(contacts) + {contactId} {
          var c :| c in all && c.id == x;
          var i :| 0 <= i < |all| && all[i] == c;
          if i < |contacts| {
            assert contacts[i] in contacts;
          }
        }
      }
    }
  }

  /** A product the account owns, whose id is unique, sets the service length. */
  lemma {:induction false} ProductSetsServiceLength(products: seq<Product>, userId: string, i: nat)
    requires i < |products| && products[i].userId == userId
    requires forall j :: 0 <= j < |products| && j != i ==> products[j].id != products[i].id
    requires Truthy(Some(products[i].id))
    ensures ServiceLength(products, userId, Some(products[i].id)) == products[i].durationMinutes
  {
    var id := products[i].id;
    FilterSingle(products, (p: Product) => ProductMatches(p, id, userId), i);
  }

  /** Two staff rows with the requested id make the lookup fail, so the staff member is refused. */
  lemma {:induction false} DuplicateStaffRefused(staff: seq<StaffMember>, products: seq<Product>, reservations: seq<Reservation>,
                              userId: string, b: ReservationRequest, i: nat, j: nat)
    requires HasRequiredFields(b) && Truthy(b.staffId)
    requires i < j < |staff| && StaffMatches(staff[i], b.staffId.value, userId) && StaffMatches(staff[j], b.staffId.value, userId)
    ensures Admit(staff, products, reservations, userId, b) == Refused(InvalidStaff)
  {
    FilterTwo(staff, (s: StaffMember) => StaffMatches(s, b.staffId.value, userId), i, j);
  }

  /**
   * A staff id with no row of the account, such as another account's staff
   * member or an id nobody has, makes the lookup find nothing: refused with 400.
   */
  lemma {:induction false} ForeignStaffRefused(staff: seq<StaffMember>, products: seq<Product>, reservations: seq<Reservation>,
                                               userId: string, b: ReservationRequest)
    requires HasRequiredFields(b) && Truthy(b.staffId)
    requires forall i :: 0 <= i < |staff| ==> !StaffMatches(staff[i], b.staffId.value, userId)
    ensures Admit(staff, products, reservations, userId, b) == Refused(InvalidStaff)
  {
    forall x | x in staff ensures !StaffMatches(x, b.staffId.value, userId) {
      var i :| 0 <= i < |staff| && staff[i] == x;
    }
    FilterDropsAll(staff, (s: StaffMember) => StaffMatches(s, b.staffId.value, userId));
  }

  /** A stored reservation without an end time never blocks a new booking. */
  lemma {:induction false} OpenEndedRowNeverConflicts(staff: seq<StaffMember>, products: seq<Product>, reservations: seq<Reservation>,
                                   userId: string, b: ReservationRequest, r: Reservation)
    requires r.endTime.None?
    ensures Admit(staff, products, reservations + [r], userId, b) == Admit(staff, products, reservations, userId, b)
  {
    forall staffId, date, start, end
      ensures HasConflict(reservations + [r], userId, staffId, date, start, end) ==
              HasConflict(reservations, userId, staffId, date, start, end)
    {
      if HasConflict(reservations + [r], userId, staffId, date, start, end) {
        var x :| x in reservations + [r] && ClosedConflict(x, userId, staffId, date, start, end);
        assert x != r;
      }
    }
  }

  /**
   * Repeating an admitted request for a staff member is refused with 409:
   * the reservation just stored conflicts with it, as long as the service
   * length is not negative.
   */
  lemma {:induction false} RepeatedBookingRefused(staff: seq<StaffMember>, products: seq<Product>, reservations: seq<Reservation>,
                               userId: string, b: ReservationRequest, reservationId: string)
    requires Admit(staff, products, reservations, userId, b).Admitted?
    requires Truthy(b.staffId)
    requires ServiceLength(products, userId, b.productId) >= 0
    ensures var a := Admit(staff, products, reservations, userId, b);
            Admit(staff, products, reservations + [NewReservation(reservationId, userId, b, a.start, a.end)], userId, b) ==
            Refused(SlotTaken)
  {
    var a := Admit(staff, products, reservations, userId, b);
    var row := NewReservation(reservationId, userId, b, a.start, a.end);
    assert ClosedConflict(row, userId, b.staffId.value, b.date.value, a.start, a.end);
    assert row in reservations + [row];
  }

  /** The stored end time is the `HH:MM` text the handler writes, read back as minutes. */
  lemma {:induction false} StoredEndTimeReadsBack(staff: seq<StaffMember>, products: seq<Product>, reservations: seq<Reservation>,
                               userId: string, b: ReservationRequest)
    requires Admit(staff, products, reservations, userId, b).Admitted?
    requires Admit(staff, products, reservations, userId, b).end >= 0
    ensures ParseClock(FormatClock(Admit(staff, products, reservations, userId, b).end)) ==
            Some(Admit(staff, products, reservations, userId, b).end)
  {
    ClockRoundTrip(Admit(staff, products, reservations, userId, b).end, []);
    assert FormatClock(Admit(staff, products, reservations, userId, b).end) + [] ==
           FormatClock(Admit(staff, products, reservations, userId, b).end);
  }

  /** A staff member the lookup finds is a row of the staff table, so its foreign key holds. */
  lemma {:induction false} OwnedStaffExists(staff: seq<StaffMember>, userId: string, staffId: string)
    requires StaffOwned(staff, userId, staffId)
    ensures exists s :: s in staff && s.id == staffId
  {
    var found := Filter(staff, (s: StaffMember) => StaffMatches(s, staffId, userId));
    FilterProperties(staff, (s: StaffMember) => StaffMatches(s, staffId, userId));
    assert found[0] in staff && found[0].id == staffId;
  }

  /**
   * A `product_id` that names no product of any account is never stored: the
   * request is refused, with 500 when it gets as far as the insert.
   */
  lemma {:induction false} UnknownProductNotStored(staff: seq<StaffMember>, products: seq<Product>, reservations: seq<Reservation>,
                                                   userId: string, b: ReservationRequest)
    requires b.productId.Some?
    requires forall i :: 0 <= i < |products| ==> products[i].id != b.productId.value
    ensures Admit(staff, products, reservations, userId, b).Refused?
  {
    forall p | p in products ensures p.id != b.productId.value {
      var i :| 0 <= i < |products| && products[i] == p;
    }
  }

  /**
   * A returning customer, matched by exactly one contact: that contact's
   * booking count goes up by one and its last visit becomes the booking
   * date; every other contact stays as it was.
   */
  lemma {:induction false} ReturningCustomerCounted(contacts: seq<Contact>, userId: string, b: ReservationRequest, contactId: string, i: nat)
    requires HasRequiredFields(b) && (Truthy(b.customerPhone) || Truthy(b.customerEmail))
    requires ContactIdsUnique(contacts)
    requires i < |contacts| && ContactMatches(contacts[i], userId, b)
    requires forall j :: 0 <= j < |contacts| && j != i ==> !ContactMatches(contacts[j], userId, b)
    ensures var after := ContactsAfter(contacts, userId, b, contactId);
            |after| == |contacts| &&
            after[i].id == contacts[i].id &&
            after[i].bookingCount == Some(contacts[i].bookingCount.GetOr(0) + 1) &&
            after[i].lastVisit == b.date && after[i].name == b.customerName.value &&
            forall j :: 0 <= j < |contacts| && j != i ==> after[j] == contacts[j]
  {
    FilterSingle(contacts, (c: Contact) => ContactMatches(c, userId, b), i);
  }

  /** A new customer gets a fresh contact with one booking. */
  lemma {:induction false} NewCustomerAdded(contacts: seq<Contact>, userId: string, b: ReservationRequest, contactId: string)
    requires HasRequiredFields(b) && (Truthy(b.customerPhone) || Truthy(b.customerEmail))
    requires forall j :: 0 <= j < |contacts| ==> !ContactMatches(contacts[j], userId, b)
    ensures ContactsAfter(contacts, userId, b, contactId) ==
            contacts + [Contact(contactId, userId, b.customerName.value, b.customerPhone, b.customerEmail, Some(1), b.date)]
  {
    FilterDropsAll(contacts, (c: Contact) => ContactMatches(c, userId, b));
  }

  /** An ambiguous match (two contacts or more) makes `maybeSingle` fail, so a fresh contact is added too. */
  lemma {:induction false} AmbiguousContactAdded(contacts: seq<Contact>, userId: string, b: ReservationRequest, contactId: string,
                                                 i: nat, j: nat)
    requires HasRequiredFields(b) && (Truthy(b.customerPhone) || Truthy(b.customerEmail))
    requires i < j < |contacts| && ContactMatches(contacts[i], userId, b) && ContactMatches(contacts[j], userId, b)
    ensures ContactsAfter(contacts, userId, b, contactId) == contacts + [NewContact(contactId, userId, b)]
  {
    FilterTwo(contacts, (c: Contact) => ContactMatches(c, userId, b), i, j);
  }

  /**
   * A complete request without a staff member skips the staff and conflict
   * checks: it is admitted whenever its time parses and its references exist.
   */
  lemma {:induction false} NoStaffAdmitted(staff: seq<StaffMember>, products: seq<Product>, reservations: seq<Reservation>,
                                           userId: string, b: ReservationRequest, m: int)
    requires HasRequiredFields(b) && !Truthy(b.staffId) && ParseClock(b.time.value) == Some(m)
    requires ReferencesExist(staff, products, b)
    ensures Admit(staff, products, reservations, userId, b) == Admitted(m, m + ServiceLength(products, userId, b.productId))
  {
  }
}
