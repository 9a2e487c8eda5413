/**
 * The browser-side store of the demo calendar: four JSON lists in
 * `localStorage`, read back with fallbacks and updated by upsert and
 * delete by id.
 */
module StorageService {
  import opened Wrappers
  import opened Seqs
  import opened AppTypes
  import opened Seeds

  const AppointmentsKey: string := "zenbook_db_appointments"
  const StaffKey: string := "zenbook_db_staff"
  const ServicesKey: string := "zenbook_db_services"
  const CustomersKey: string := "zenbook_db_customers"

  /** The values of the key table, in declaration order. */
  const StorageKeys: seq<string> := [AppointmentsKey, StaffKey, ServicesKey, CustomersKey]

  function KeysOf(keys: seq<string>): set<string> {
    set k | k in keys
  }

  /** The key table names four distinct keys, all with the `zenbook_db_` prefix. */
  lemma {:induction false} FourDistinctKeys()
    ensures KeysOf(StorageKeys) == {AppointmentsKey, StaffKey, ServicesKey, CustomersKey}
    ensures |KeysOf(StorageKeys)| == 4
    ensures forall k :: k in KeysOf(StorageKeys) ==> |k| > 11 && k[..11] == "zenbook_db_"
  {
    assert AppointmentsKey[..11] == "zenbook_db_";
    assert StaffKey[..11] == "zenbook_db_";
    assert ServicesKey[..11] == "zenbook_db_";
    assert CustomersKey[..11] == "zenbook_db_";
    assert AppointmentsKey != StaffKey by { assert AppointmentsKey[11] != StaffKey[11]; }
    assert AppointmentsKey != ServicesKey by { assert AppointmentsKey[11] != ServicesKey[11]; }
    assert AppointmentsKey != CustomersKey by { assert AppointmentsKey[11] != CustomersKey[11]; }
    assert StaffKey != ServicesKey by { assert StaffKey[12] != ServicesKey[12]; }
    assert StaffKey != CustomersKey by { assert StaffKey[11] != CustomersKey[11]; }
    assert ServicesKey != CustomersKey by { assert ServicesKey[11] != CustomersKey[11]; }
  }

  /**
   * What `localStorage` holds under one key: the empty string, text that is
   * not JSON, or the JSON of a list of records.
   */
  datatype Stored =
    | Blank
    | Unparsable
    | AppointmentList(appointments: seq<Appointment>)
    | StaffList(staff: seq<Staff>)
    | ServiceList(services: seq<Service>)
    | CustomerList(customers: seq<Customer>)

  /** `localStorage.getItem(key)` is truthy: present and not the empty string. */
  predicate Holds(entries: map<string, Stored>, key: string) {
    key in entries && !entries[key].Blank?
  }

  /** Each key holds its own entity's list, or blank or unparsable text. */
  predicate KindFits(key: string, v: Stored) {
    v.Blank? || v.Unparsable? ||
    (key == AppointmentsKey && v.AppointmentList?) || (key == StaffKey && v.StaffList?) ||
    (key == ServicesKey && v.ServiceList?) || (key == CustomersKey && v.CustomerList?)
  }

  // ------------------------------------------------------------------
  // The list operations behind every save and delete.

  /** Replace the first element with the item's id, or append the item. */
  function Upserted<T>(list: seq<T>, item: T, key: T -> string): seq<T> {
    match FirstIndexOf(list, key(item), key)
    case Some(i) => list[i := item]
    case None => list + [item]
  }

  /** `list.filter(x => key(x) !== id)`. */
  function Deleted<T>(list: seq<T>, id: string, key: T -> string): seq<T> {
    Filter(list, (x: T) => key(x) != id)
  }

  /** The `findIndex` loop. */
  method FindIndex<T>(list: seq<T>, id: string, key: T -> string) returns (index: int)
    ensures index == (if FirstIndexOf(list, id, key).Some? then FirstIndexOf(list, id, key).value as int else -1)
  {
    index := 0;
    while index < |list|
      invariant 0 <= index <= |list|
      invariant forall j :: 0 <= j < index ==> key(list[j]) != id
    {
      if key(list[index]) == id {
        FirstIndexIsLeast(list, id, key, index);
        return;
      }
      index := index + 1;
    }
    index := -1;
  }

  /** Saving an item whose id is present replaces the first such element in place. */
  lemma {:induction false} UpsertReplacesFirst<T>(list: seq<T>, item: T, key: T -> string, i: nat)
    requires i < |list| && key(list[i]) == key(item)
    requires forall j :: 0 <= j < i ==> key(list[j]) != key(item)
    ensures var r := Upserted(list, item, key);
            |r| == |list| && r[i] == item && forall j :: 0 <= j < |list| && j != i ==> r[j] == list[j]
  {
    FirstIndexIsLeast(list, key(item), key, i);
  }

  /** Saving an item with a new id appends it. */
  lemma {:induction false} UpsertAppendsNew<T>(list: seq<T>, item: T, key: T -> string)
    requires forall j :: 0 <= j < |list| ==> key(list[j]) != key(item)
    ensures Upserted(list, item, key) == list + [item]
  {
    assert FirstIndexOf(list, key(item), key).None?;
  }

  /** After a save, looking the item's id up finds the item; every other id finds what it found before. */
  lemma {:induction false} UpsertThenFind<T>(list: seq<T>, item: T, key: T -> string, id: string)
    ensures var r := Upserted(list, item, key);
            FirstIndexOf(r, key(item), key).Some? && r[FirstIndexOf(r, key(item), key).value] == item &&
            (id != key(item) ==> FirstIndexOf(r, id, key) == FirstIndexOf(list, id, key))
  {
    var r := Upserted(list, item, key);
    match FirstIndexOf(list, key(item), key)
    case Some(i) =>
      FirstIndexIsLeast(r, key(item), key, i);
      if id != key(item) {
        match FirstIndexOf(list, id, key)
        case Some(k) => FirstIndexIsLeast(r, id, key, k);
        case None =>
      }
    case None =>
      FirstIndexIsLeast(r, key(item), key, |list|);
      if id != key(item) {
        match FirstIndexOf(list, id, key)
        case Some(k) => FirstIndexIsLeast(r, id, key, k);
        case None =>
      }
  }

  /** A delete leaves no element with the id and keeps every other element. */
  lemma {:induction false} DeleteRemovesExactlyId<T>(list: seq<T>, id: string, key: T -> string, x: T)
    ensures x in Deleted(list, id, key) <==> x in list && key(x) != id
  {
    FilterMember(list, (y: T) => key(y) != id, x);
  }

  /** A delete keeps the order of what remains. */
  lemma {:induction false} DeleteKeepsOrder<T>(list: seq<T>, id: string, key: T -> string, i: nat, j: nat)
    requires i < j < |Deleted(list, id, key)|
    ensures exists a, b :: 0 <= a < b < |list| && list[a] == Deleted(list, id, key)[i] && list[b] == Deleted(list, id, key)[j]
  {
    var u, v := FilterIsSubsequence(list, (y: T) => key(y) != id, i, j);
  }

  /** Deleting an id nobody has changes nothing. */
  lemma {:induction false} DeleteAbsentId<T>(list: seq<T>, id: string, key: T -> string)
    requires forall j :: 0 <= j < |list| ==> key(list[j]) != id
    ensures Deleted(list, id, key) == list
  {
    FilterKeepsAll(list, (y: T) => key(y) != id);
  }

  // ------------------------------------------------------------------
  // Seeding.

  function SeedIfEmpty(entries: map<string, Stored>, key: string, v: Stored): map<string, Stored> {
    if Holds(entries, key) then entries else entries[key := v]
  }

  /** Seeding a key with a list of its own kind keeps every entry of its kind. */
  lemma {:induction false} SeedKeepsKinds(entries: map<string, Stored>, key: string, v: Stored)
    requires forall k :: k in entries ==> KindFits(k, entries[k])
    requires KindFits(key, v)
    ensures forall k :: k in SeedIfEmpty(entries, key, v) ==> KindFits(k, SeedIfEmpty(entries, key, v)[k])
  {
    forall k | k in SeedIfEmpty(entries, key, v) ensures KindFits(k, SeedIfEmpty(entries, key, v)[k]) {
      if !Holds(entries, key) && k != key {
        assert SeedIfEmpty(entries, key, v)[k] == entries[k];
      }
    }
  }

  /** The storage after `init`, given the seed lists at the time of the call. */
  function Initialized(entries: map<string, Stored>, appointments: seq<Appointment>, staff: seq<Staff>,
                       services: seq<Service>, customers: seq<Customer>): map<string, Stored>
  {
    SeedIfEmpty(SeedIfEmpty(SeedIfEmpty(SeedIfEmpty(entries,
      AppointmentsKey, AppointmentList(appointments)),
      StaffKey, StaffList(staff)),
      ServicesKey, ServiceList(services)),
      CustomersKey, CustomerList(customers))
  }

  /** `init` writes a seed only under an empty key: every other entry, and every key already holding text, stays. */
  lemma {:induction false} InitKeepsHeldKeys(entries: map<string, Stored>, appointments: seq<Appointment>, staff: seq<Staff>,
                          services: seq<Service>, customers: seq<Customer>, key: string)
    requires Holds(entries, key) || key !in StorageKeys
    ensures var after := Initialized(entries, appointments, staff, services, customers);
            (key in entries <==> key in after) && (key in entries ==> after[key] == entries[key])
  {
  }

  // ------------------------------------------------------------------
  // The getters, on the stored entries and the seed each falls back on.

  /** `getAppointments`: the seed for an empty key; text that does not parse gives the empty list. */
  function AppointmentsIn(entries: map<string, Stored>, seed: seq<Appointment>): seq<Appointment> {
    if !Holds(entries, AppointmentsKey) then seed
    else match entries[AppointmentsKey]
      case AppointmentList(list) => list
      case _ => []
  }

  /** `getStaff`: the seed for an empty key; `None` where `JSON.parse` throws. */
  function StaffIn(entries: map<string, Stored>, seed: seq<Staff>): Option<seq<Staff>> {
    if !Holds(entries, StaffKey) then Some(seed)
    else match entries[StaffKey]
      case StaffList(list) => Some(list)
      case _ => None
  }

  /** `getServices`: the seed for an empty key; `None` where `JSON.parse` throws. */
  function ServicesIn(entries: map<string, Stored>, seed: seq<Service>): Option<seq<Service>> {
    if !Holds(entries, ServicesKey) then Some(seed)
    else match entries[ServicesKey]
      case ServiceList(list) => Some(list)
      case _ => None
  }

  /** `getCustomers`: the seed for an empty key; text that does not parse gives the empty list. */
  function CustomersIn(entries: map<string, Stored>, seed: seq<Customer>): seq<Customer> {
    if !Holds(entries, CustomersKey) then seed
    else match entries[CustomersKey]
      case CustomerList(list) => list
      case _ => []
  }

  /** `init` writes each empty key's own seed under it. */
  lemma {:induction false} InitSeedsEmptyKeys(entries: map<string, Stored>, appointments: seq<Appointment>, staff: seq<Staff>,
                                              services: seq<Service>, customers: seq<Customer>)
    ensures var after := Initialized(entries, appointments, staff, services, customers);
            (!Holds(entries, AppointmentsKey) ==> after[AppointmentsKey] == AppointmentList(appointments)) &&
            (!Holds(entries, StaffKey) ==> after[StaffKey] == StaffList(staff)) &&
            (!Holds(entries, ServicesKey) ==> after[ServicesKey] == ServiceList(services)) &&
            (!Holds(entries, CustomersKey) ==> after[CustomersKey] == CustomerList(customers))
  {
    FourDistinctKeys();
  }

  /** After `init`, all four keys hold text; calling `init` again changes nothing. */
  lemma {:induction false} InitIdempotent(entries: map<string, Stored>, appointments: seq<Appointment>, staff: seq<Staff>,
                       services: seq<Service>, customers: seq<Customer>)
    ensures var once := Initialized(entries, appointments, staff, services, customers);
            (forall key :: key in StorageKeys ==> Holds(once, key)) &&
            Initialized(once, appointments, staff, services, customers) == once
  {
    var once := Initialized(entries, appointments, staff, services, customers);
    assert Holds(once, AppointmentsKey) && Holds(once, StaffKey) && Holds(once, ServicesKey) && Holds(once, CustomersKey);
  }

  /**
   * `init` changes what no getter answers: a key that held text keeps it, and
   * an empty key gets the very seed its getter fell back on.
   */
  lemma {:induction false} InitKeepsReads(entries: map<string, Stored>, appointments: seq<Appointment>, staff: seq<Staff>,
                                          services: seq<Service>, customers: seq<Customer>)
    ensures var after := Initialized(entries, appointments, staff, services, customers);
            AppointmentsIn(after, appointments) == AppointmentsIn(entries, appointments) &&
            StaffIn(after, staff) == StaffIn(entries, staff) &&
            ServicesIn(after, services) == ServicesIn(entries, services) &&
            CustomersIn(after, customers) == CustomersIn(entries, customers)
  {
    InitSeedsEmptyKeys(entries, appointments, staff, services, customers);
    if Holds(entries, AppointmentsKey) {
      InitKeepsHeldKeys(entries, appointments, staff, services, customers, AppointmentsKey);
    }
    if Holds(entries, StaffKey) {
      InitKeepsHeldKeys(entries, appointments, staff, services, customers, StaffKey);
    }
    if Holds(entries, ServicesKey) {
      InitKeepsHeldKeys(entries, appointments, staff, services, customers, ServicesKey);
    }
    if Holds(entries, CustomersKey) {
      InitKeepsHeldKeys(entries, appointments, staff, services, customers, CustomersKey);
    }
    InitIdempotent(entries, appointments, staff, services, customers);
  }

  /**
   * The store. Besides `localStorage` it holds the four seed lists: a getter
   * on an empty key hands out the seed array itself, so a save made then
   * edits the seed in place.
   */
  class LocalStorage {
    var entries: map<string, Stored>
    var initialAppointments: seq<Appointment>
    var staffSeed: seq<Staff>
    var servicesSeed: seq<Service>
    var customersSeed: seq<Customer>

    ghost predicate Valid()
      reads this
    {
      forall key :: key in entries ==> KindFits(key, entries[key])
    }

    /** A browser store holding `entries`, with the seeds as the module loads them. */
    constructor (entries: map<string, Stored>, todayAtNine: int)
      requires forall key :: key in entries ==> KindFits(key, entries[key])
      ensures Valid()
      ensures this.entries == entries && initialAppointments == SeedAppointments(todayAtNine)
      ensures staffSeed == SeedStaff && servicesSeed == SeedServices && customersSeed == SeedCustomers
    {
      this.entries := entries;
      initialAppointments := SeedAppointments(todayAtNine);
      staffSeed := SeedStaff;
      servicesSeed := SeedServices;
      customersSeed := SeedCustomers;
    }

    /** `getAppointments` on this store. */
    function Appointments(): seq<Appointment>
      reads this
    {
      AppointmentsIn(entries, initialAppointments)
    }

    /** `getStaff` on this store. */
    function StaffMembers(): Option<seq<Staff>>
      reads this
    {
      StaffIn(entries, staffSeed)
    }

    /** `getServices` on this store. */
    function Services(): Option<seq<Service>>
      reads this
    {
      ServicesIn(entries, servicesSeed)
    }

    /** `getCustomers` on this store. */
    function Customers(): seq<Customer>
      reads this
    {
      CustomersIn(entries, customersSeed)
    }

    method Init()
      requires Valid()
      modifies this
      ensures Valid()
      ensures entries == Initialized(old(entries), initialAppointments, staffSeed, servicesSeed, customersSeed)
      ensures unchanged(this`initialAppointments) && unchanged(this`staffSeed)
      ensures unchanged(this`servicesSeed) && unchanged(this`customersSeed)
      ensures forall key :: key in StorageKeys ==> Holds(entries, key)
      ensures Appointments() == old(Appointments()) && Customers() == old(Customers())
      ensures StaffMembers() == old(StaffMembers()) && Services() == old(Services())
    {
      var e := entries;
      if !Holds(e, AppointmentsKey) {
        SeedKeepsKinds(e, AppointmentsKey, AppointmentList(initialAppointments));
        e := e[AppointmentsKey := AppointmentList(initialAppointments)];
      }
      if !Holds(e, StaffKey) {
        SeedKeepsKinds(e, StaffKey, StaffList(staffSeed));
        e := e[StaffKey := StaffList(staffSeed)];
      }
      if !Holds(e, ServicesKey) {
        SeedKeepsKinds(e, ServicesKey, ServiceList(servicesSeed));
        e := e[ServicesKey := ServiceList(servicesSeed)];
      }
      if !Holds(e, CustomersKey) {
        SeedKeepsKinds(e, CustomersKey, CustomerList(customersSeed));
        e := e[CustomersKey := CustomerList(customersSeed)];
      }
      entries := e;
      InitIdempotent(old(entries), initialAppointments, staffSeed, servicesSeed, customersSeed);
      InitKeepsReads(old(entries), initialAppointments, staffSeed, servicesSeed, customersSeed);
    }

    method SaveAppointment(appointment: Appointment)
      requires Valid()
      modifies this
      ensures Valid()
      ensures entries == old(entries)[AppointmentsKey := AppointmentList(Upserted(old(Appointments()), appointment, AppointmentId))]
      ensures Appointments() == Upserted(old(Appointments()), appointment, AppointmentId)
      ensures initialAppointments ==
              if old(Holds(entries, AppointmentsKey)) then old(initialAppointments) else Appointments()
      ensures unchanged(this`staffSeed) && unchanged(this`servicesSeed) && unchanged(this`customersSeed)
    {
      var appointments := Appointments();
      var existingIndex := FindIndex(appointments, appointment.id, AppointmentId);
      if existingIndex >= 0 {
        appointments := appointments[existingIndex := appointment];
      } else {
        appointments := appointments + [appointment];
      }
      if !Holds(entries, AppointmentsKey) {
        initialAppointments := appointments;
      }
      entries := entries[AppointmentsKey := AppointmentList(appointments)];
    }

    method DeleteAppointment(id: string)
      requires Valid()
      modifies this`entries
      ensures Valid()
      ensures entries == old(entries)[AppointmentsKey := AppointmentList(Deleted(old(Appointments()), id, AppointmentId))]
    {
      var appointments := Deleted(Appointments(), id, AppointmentId);
      entries := entries[AppointmentsKey := AppointmentList(appointments)];
    }

    /** `saveStaff`; `false` where reading the list throws, and then nothing is written. */
    method SaveStaff(staff: Staff) returns (saved: bool)
      requires Valid()
      modifies this
      ensures Valid()
      ensures saved <==> old(StaffMembers()).Some?
      ensures saved ==> entries == old(entries)[StaffKey := StaffList(Upserted(old(StaffMembers()).value, staff, StaffId))]
      ensures !saved ==> entries == old(entries)
      ensures staffSeed == if saved && !old(Holds(entries, StaffKey)) then Upserted(old(staffSeed), staff, StaffId) else old(staffSeed)
      ensures unchanged(this`initialAppointments) && unchanged(this`servicesSeed) && unchanged(this`customersSeed)
    {
      var staffList := StaffMembers();
      if staffList.None? {
        return false;
      }
      var list := staffList.value;
      var existingIndex := FindIndex(list, staff.id, StaffId);
      if existingIndex >= 0 {
        list := list[existingIndex := staff];
      } else {
        list := list + [staff];
      }
      if !Holds(entries, StaffKey) {
        staffSeed := list;
      }
      entries := entries[StaffKey := StaffList(list)];
      return true;
    }

    /** `saveService`; `false` where reading the list throws, and then nothing is written. */
    method SaveService(service: Service) returns (saved: bool)
      requires Valid()
      modifies this
      ensures Valid()
      ensures saved <==> old(Services()).Some?
      ensures saved ==> entries == old(entries)[ServicesKey := ServiceList(Upserted(old(Services()).value, service, ServiceId))]
      ensures !saved ==> entries == old(entries)
      ensures servicesSeed ==
              if saved && !old(Holds(entries, ServicesKey)) then Upserted(old(servicesSeed), service, ServiceId) else old(servicesSeed)
      ensures unchanged(this`initialAppointments) && unchanged(this`staffSeed) && unchanged(this`customersSeed)
    {
      var services := Services();
      if services.None? {
        return false;
      }
      var list := services.value;
      var existingIndex := FindIndex(list, service.id, ServiceId);
      if existingIndex >= 0 {
        list := list[existingIndex := service];
      } else {
        list := list + [service];
      }
      if !Holds(entries, ServicesKey) {
        servicesSeed := list;
      }
      entries := entries[ServicesKey := ServiceList(list)];
      return true;
    }

    method SaveCustomer(customer: Customer)
      requires Valid()
      modifies this
      ensures Valid()
      ensures entries == old(entries)[CustomersKey := CustomerList(Upserted(old(Customers()), customer, CustomerId))]
      ensures Customers() == Upserted(old(Customers()), customer, CustomerId)
      ensures customersSeed == if old(Holds(entries, CustomersKey)) then old(customersSeed) else Customers()
      ensures unchanged(this`initialAppointments) && unchanged(this`staffSeed) && unchanged(this`servicesSeed)
    {
      var customers := Customers();
      var existingIndex := FindIndex(customers, customer.id, CustomerId);
      if existingIndex >= 0 {
        customers := customers[existingIndex := customer];
      } else {
        customers := customers + [customer];
      }
      if !Holds(entries, CustomersKey) {
        customersSeed := customers;
      }
      entries := entries[CustomersKey := CustomerList(customers)];
    }

    method DeleteCustomer(id: string)
      requires Valid()
      modifies this`entries
      ensures Valid()
      ensures entries == old(entries)[CustomersKey := CustomerList(Deleted(old(Customers()), id, CustomerId))]
    {
      var customers := Deleted(Customers(), id, CustomerId);
      entries := entries[CustomersKey := CustomerList(customers)];
    }

    /** `clearAll`: removes the four keys, one by one, and nothing else. */
    method ClearAll()
      requires Valid()
      modifies this`entries
      ensures Valid()
      ensures entries == old(entries) - KeysOf(StorageKeys)
      ensures Appointments() == initialAppointments && Customers() == customersSeed
      ensures StaffMembers() == Some(staffSeed) && Services() == Some(servicesSeed)
    {
      for i := 0 to |StorageKeys|
        invariant entries == old(entries) - KeysOf(StorageKeys[..i])
      {
        assert KeysOf(StorageKeys[..i + 1]) == KeysOf(StorageKeys[..i]) + {StorageKeys[i]} by {
          assert StorageKeys[..i + 1] == StorageKeys[..i] + [StorageKeys[i]];
        }
        entries := entries - {StorageKeys[i]};
      }
      assert StorageKeys[..|StorageKeys|] == StorageKeys;
    }

    /**
     * The seed is shared: clearing the store, saving an appointment with a new
     * id and clearing again leaves the getter answering the seed with that
     * appointment appended.
     */
    method ClearedSaveEditsSeed(appointment: Appointment)
      requires Valid()
      requires forall j :: 0 <= j < |initialAppointments| ==> initialAppointments[j].id != appointment.id
      modifies this
      ensures Appointments() == old(initialAppointments) + [appointment]
    {
      ClearAll();
      SaveAppointment(appointment);
      UpsertAppendsNew(old(initialAppointments), appointment, AppointmentId);
      ClearAll();
    }
  }
}
