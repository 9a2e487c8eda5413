/**
 * The five-step onboarding wizard: the step counter, the service and staff
 * lists with their add/remove/edit handlers, the drafts the add forms edit,
 * and the rows the final step inserts into `products` and `staff_members`.
 */
module SalonRegistration {
  import opened Wrappers
  import opened JsText
  import opened Seqs

  const FirstStep: int := 1
  const LastStep: int := 5

  /** The palette new staff members cycle through. */
  const StaffColors: seq<string> := ["#f87171", "#fb923c", "#fbbf24", "#a3e635", "#34d399", "#22d3ee", "#60a5fa", "#a78bfa", "#f472b6"]

  datatype ServiceEntry = ServiceEntry(id: string, name: string, duration: int, price: int, category: string)
  datatype StaffInput = StaffInput(id: string, name: string, color: string)
  datatype ServiceDraft = ServiceDraft(name: string, duration: int, price: int)
  datatype StaffDraft = StaffDraft(name: string, color: string)
  datatype StaffField = Name | Color

  /** A row of the `products` insert. */
  datatype ProductRow = ProductRow(userId: string, name: string, category: string, durationMinutes: int,
                                   price: int, isActive: bool, sortOrder: int)
  /** A row of the `staff_members` insert. */
  datatype StaffRow = StaffRow(userId: string, name: string, color: string, isActive: bool, sortOrder: int)

  const EmptyServiceDraft: ServiceDraft := ServiceDraft("", 30, 0)

  /** `Math.min(s + 1, 5)`. */
  function NextStepOf(s: int): (r: int)
    ensures r <= LastStep
    ensures s < LastStep ==> r == s + 1
    ensures s >= LastStep ==> r == LastStep
  {
    if s + 1 < LastStep then s + 1 else LastStep
  }

  /** `Math.max(s - 1, 1)`. */
  function PrevStepOf(s: int): (r: int)
    ensures r >= FirstStep
    ensures s > FirstStep ==> r == s - 1
    ensures s <= FirstStep ==> r == FirstStep
  {
    if s - 1 > FirstStep then s - 1 else FirstStep
  }

  /** From any step of the wizard, both buttons keep it within steps 1 to 5, and back undoes forward below the last step. */
  lemma {:induction false} StepsStayInRange(s: int)
    requires FirstStep <= s <= LastStep
    ensures FirstStep <= NextStepOf(s) <= LastStep && FirstStep <= PrevStepOf(s) <= LastStep
    ensures s < LastStep ==> PrevStepOf(NextStepOf(s)) == s
  {
  }

  function StaffIdsOf(staff: seq<StaffInput>): set<string> {
    set m | m in staff :: m.id
  }

  ghost predicate StaffIdsUnique(staff: seq<StaffInput>) {
    forall i, j :: 0 <= i < |staff| && 0 <= j < |staff| && staff[i].id == staff[j].id ==> i == j
  }

  /** `staffMembers.map(s => s.id === id ? { ...s, [field]: value } : s)`. */
  function UpdatedStaff(staff: seq<StaffInput>, id: string, field: StaffField, value: string): (r: seq<StaffInput>)
    ensures |r| == |staff|
  {
    seq(|staff|, i requires 0 <= i < |staff| =>
          if staff[i].id != id then staff[i]
          else match field
            case Name => staff[i].(name := value)
            case Color => staff[i].(color := value))
  }

  /** Only the named field of the entries with the id changes; every other entry and field stays. */
  lemma {:induction false} UpdateChangesOnlyField(staff: seq<StaffInput>, id: string, field: StaffField, value: string)
    ensures var r := UpdatedStaff(staff, id, field, value);
            forall i :: 0 <= i < |staff| ==>
              r[i].id == staff[i].id &&
              (staff[i].id != id ==> r[i] == staff[i]) &&
              (staff[i].id == id && field == Name ==> r[i].name == value && r[i].color == staff[i].color) &&
              (staff[i].id == id && field == Color ==> r[i].color == value && r[i].name == staff[i].name)
  {
  }

  /** With unique ids, removing one staff member from a list of two or more leaves at least one. */
  lemma {:induction false} RemoveLeavesOne(staff: seq<StaffInput>, id: string)
    requires StaffIdsUnique(staff)
    ensures |Filter(staff, (m: StaffInput) => m.id != id)| >= |staff| - 1
  {
    FilterDropsAtMostOne(staff, (m: StaffInput) => m.id != id);
  }

  /** Removing entries keeps the remaining ids unique. */
  lemma {:induction false} RemoveKeepsIdsUnique(staff: seq<StaffInput>, id: string)
    requires StaffIdsUnique(staff)
    ensures StaffIdsUnique(Filter(staff, (m: StaffInput) => m.id != id))
  {
    var r := Filter(staff, (m: StaffInput) => m.id != id);
    forall a, b | 0 <= a < |r| && 0 <= b < |r| && r[a].id == r[b].id ensures a == b {
      if a < b {
        var x, y := FilterIsSubsequence(staff, (m: StaffInput) => m.id != id, a, b);
      } else if b < a {
        var x, y := FilterIsSubsequence(staff, (m: StaffInput) => m.id != id, b, a);
      }
    }
  }

  /** `validServices.map((s, idx) => ...)`: rows from index `from` on, numbered from `from`. */
  function ProductRowsFrom(named: seq<ServiceEntry>, userId: string, formCategory: string, from: nat): (rows: seq<ProductRow>)
    requires from <= |named|
    ensures |rows| == |named| - from
    ensures forall k :: 0 <= k < |rows| ==> rows[k].sortOrder == from + k
    decreases |named| - from
  {
    if from == |named| then []
    else
      var s := named[from];
      [ProductRow(userId, s.name, if s.category != "" then s.category else formCategory,
                  if s.duration != 0 then s.duration else 30, s.price, true, from)] +
      ProductRowsFrom(named, userId, formCategory, from + 1)
  }

  function NamedServices(services: seq<ServiceEntry>): seq<ServiceEntry> {
    Filter(services, (s: ServiceEntry) => s.name != "")
  }

  function ProductRows(services: seq<ServiceEntry>, userId: string, formCategory: string): seq<ProductRow> {
    ProductRowsFrom(NamedServices(services), userId, formCategory, 0)
  }

  lemma {:induction false} ProductRowsFromAt(named: seq<ServiceEntry>, userId: string, formCategory: string, from: nat, k: nat)
    requires from <= k < |named|
    ensures var row := ProductRowsFrom(named, userId, formCategory, from)[k - from];
            var s := named[k];
            row == ProductRow(userId, s.name, if s.category != "" then s.category else formCategory,
                              if s.duration != 0 then s.duration else 30, s.price, true, k)
    decreases k - from
  {
    if from < k {
      ProductRowsFromAt(named, userId, formCategory, from + 1, k);
    }
  }

  /**
   * One product row per named service, in list order, numbered from 0: an
   * empty category takes the salon's, a zero duration becomes 30 minutes,
   * and every row is active. Unnamed services are not saved.
   */
  lemma {:induction false} ProductRowsOfNamedServices(services: seq<ServiceEntry>, userId: string, formCategory: string)
    ensures var named := NamedServices(services);
            var rows := ProductRows(services, userId, formCategory);
            |rows| == |named| &&
            (forall s :: s in named <==> s in services && s.name != "") &&
            forall k :: 0 <= k < |rows| ==>
              rows[k] == ProductRow(userId, named[k].name,
                                    if named[k].category != "" then named[k].category else formCategory,
                                    if named[k].duration != 0 then named[k].duration else 30,
                                    named[k].price, true, k)
  {
    var named := NamedServices(services);
    forall s ensures s in named <==> s in services && s.name != "" {
      FilterMember(services, (s: ServiceEntry) => s.name != "", s);
    }
    forall k | 0 <= k < |named| ensures ProductRows(services, userId, formCategory)[k] ==
        ProductRow(userId, named[k].name, if named[k].category != "" then named[k].category else formCategory,
                   if named[k].duration != 0 then named[k].duration else 30, named[k].price, true, k) {
      ProductRowsFromAt(named, userId, formCategory, 0, k);
    }
  }

  function StaffRowsFrom(named: seq<StaffInput>, userId: string, from: nat): (rows: seq<StaffRow>)
    requires from <= |named|
    ensures |rows| == |named| - from
    ensures forall k :: 0 <= k < |rows| ==> rows[k] == StaffRow(userId, named[from + k].name, named[from + k].color, true, from + k)
    decreases |named| - from
  {
    if from == |named| then []
    else
      var rest := StaffRowsFrom(named, userId, from + 1);
      var rows := [StaffRow(userId, named[from].name, named[from].color, true, from)] + rest;
      assert forall k :: 0 < k < |rows| ==> rows[k] == rest[k - 1];
      rows
  }

  function NamedStaff(staff: seq<StaffInput>): seq<StaffInput> {
    Filter(staff, (m: StaffInput) => m.name != "")
  }

  /** One staff row per named staff member, in list order, numbered from 0. */
  function StaffRows(staff: seq<StaffInput>, userId: string): seq<StaffRow> {
    StaffRowsFrom(NamedStaff(staff), userId, 0)
  }

  /** One active staff row per named staff member, in list order, numbered from 0; unnamed rows are not saved. */
  lemma {:induction false} StaffRowsOfNamedStaff(staff: seq<StaffInput>, userId: string)
    ensures var named := NamedStaff(staff);
            var rows := StaffRows(staff, userId);
            |rows| == |named| &&
            (forall m :: m in named <==> m in staff && m.name != "") &&
            forall k :: 0 <= k < |rows| ==> rows[k] == StaffRow(userId, named[k].name, named[k].color, true, k)
  {
    forall m ensures m in NamedStaff(staff) <==> m in staff && m.name != "" {
      FilterMember(staff, (m: StaffInput) => m.name != "", m);
    }
  }

  /** The wizard's state. */
  class Registration {
    var step: int
    /** `formData.category`. */
    var category: string
    var services: seq<ServiceEntry>
    var staffMembers: seq<StaffInput>
    var newService: ServiceDraft
    var newStaff: StaffDraft

    ghost predicate Valid()
      reads this
    {
      FirstStep <= step <= LastStep && |staffMembers| >= 1 && StaffIdsUnique(staffMembers)
    }

    constructor ()
      ensures Valid()
      ensures step == FirstStep && category == "Haare"
      ensures services == [ServiceEntry("1", "Haarschnitt Standard", 45, 35, "Haare")]
      ensures staffMembers == [StaffInput("staff1", "", StaffColors[0])]
      ensures newService == EmptyServiceDraft && newStaff == StaffDraft("", StaffColors[1])
    {
      step := FirstStep;
      category := "Haare";
      services := [ServiceEntry("1", "Haarschnitt Standard", 45, 35, "Haare")];
      staffMembers := [StaffInput("staff1", "", StaffColors[0])];
      newService := EmptyServiceDraft;
      newStaff := StaffDraft("", StaffColors[1]);
    }

    method NextStep()
      requires Valid()
      modifies this`step
      ensures Valid() && step == NextStepOf(old(step))
    {
      step := NextStepOf(step);
    }

    method PrevStep()
      requires Valid()
      modifies this`step
      ensures Valid() && step == PrevStepOf(old(step))
    {
      step := PrevStepOf(step);
    }

    method SetCategory(value: string)
      modifies this`category
      ensures category == value
    {
      category := value;
    }

    method SetServiceName(value: string)
      modifies this`newService
      ensures newService == old(newService).(name := value)
    {
      newService := newService.(name := value);
    }

    /** The duration field: `parseInt(value) || 0`. */
    method SetServiceDuration(value: string)
      modifies this`newService
      ensures newService == old(newService).(duration := ParseInt(value).GetOr(0))
    {
      newService := newService.(duration := ParseInt(value).GetOr(0));
    }

    /** The price field: `parseInt(value) || 0`. */
    method SetServicePrice(value: string)
      modifies this`newService
      ensures newService == old(newService).(price := ParseInt(value).GetOr(0))
    {
      newService := newService.(price := ParseInt(value).GetOr(0));
    }

    method SetStaffDraftName(value: string)
      modifies this`newStaff
      ensures newStaff == old(newStaff).(name := value)
    {
      newStaff := newStaff.(name := value);
    }

    method SetStaffDraftColor(value: string)
      modifies this`newStaff
      ensures newStaff == old(newStaff).(color := value)
    {
      newStaff := newStaff.(color := value);
    }

    /** `addService`; the random id is the parameter `freshId`. */
    method AddService(freshId: string)
      modifies this`services, this`newService
      ensures old(newService.name) == "" ==> services == old(services) && newService == old(newService)
      ensures old(newService.name) != "" ==>
                services == old(services) + [ServiceEntry(freshId, old(newService.name), old(newService.duration),
                                                          old(newService.price), category)] &&
                newService == EmptyServiceDraft
    {
      if newService.name == "" {
        return;
      }
      services := services + [ServiceEntry(freshId, newService.name, newService.duration, newService.price, category)];
      newService := EmptyServiceDraft;
    }

    method RemoveService(id: string)
      modifies this`services
      ensures services == Filter(old(services), (s: ServiceEntry) => s.id != id)
    {
      services := Filter(services, (s: ServiceEntry) => s.id != id);
    }

    /**
     * `addStaffMember`; the random id is the parameter `freshId`. The next
     * draft colour is computed from the length before the addition.
     */
    method AddStaffMember(freshId: string)
      requires Valid() && freshId !in StaffIdsOf(staffMembers)
      modifies this`staffMembers, this`newStaff
      ensures Valid()
      ensures old(newStaff.name) == "" ==> staffMembers == old(staffMembers) && newStaff == old(newStaff)
      ensures old(newStaff.name) != "" ==>
                staffMembers == old(staffMembers) + [StaffInput(freshId, old(newStaff.name), old(newStaff.color))] &&
                newStaff == StaffDraft("", StaffColors[(|old(staffMembers)| + 1) % |StaffColors|])
    {
      if newStaff.name == "" {
        return;
      }
      var added := staffMembers + [StaffInput(freshId, newStaff.name, newStaff.color)];
      forall i | 0 <= i < |staffMembers| ensures staffMembers[i].id != freshId {
        assert staffMembers[i] in staffMembers;
      }
      newStaff := StaffDraft("", StaffColors[(|staffMembers| + 1) % |StaffColors|]);
      staffMembers := added;
    }

    /** `removeStaffMember`: ignored while only one staff member is left. */
    method RemoveStaffMember(id: string)
      requires Valid()
      modifies this`staffMembers
      ensures Valid()
      ensures staffMembers == if |old(staffMembers)| <= 1 then old(staffMembers)
                              else Filter(old(staffMembers), (m: StaffInput) => m.id != id)
    {
      if |staffMembers| <= 1 {
        return;
      }
      RemoveLeavesOne(staffMembers, id);
      RemoveKeepsIdsUnique(staffMembers, id);
      staffMembers := Filter(staffMembers, (m: StaffInput) => m.id != id);
    }

    method UpdateStaffMember(id: string, field: StaffField, value: string)
      requires Valid()
      modifies this`staffMembers
      ensures Valid()
      ensures staffMembers == UpdatedStaff(old(staffMembers), id, field, value)
    {
      staffMembers := UpdatedStaff(staffMembers, id, field, value);
    }
  }
}
