/**
 * The weekly shift editor's data hook: the shift table, the hook's copy of
 * it, the (staff member, weekday)-keyed upsert, delete by id, and the two
 * read helpers the schedule screen uses.
 */
module StaffShifts {
  import opened Wrappers
  import opened JsText
  import opened Seqs
  import opened Schema

  /** `shifts.filter(s => s.day_of_week === dayOfWeek && s.is_working)`. */
  function ShiftsByDay(shifts: seq<StaffShift>, dayOfWeek: int): seq<StaffShift> {
    Filter(shifts, (s: StaffShift) => s.dayOfWeek == dayOfWeek && s.isWorking)
  }

  predicate WorksAs(s: StaffShift, staffId: string, dayOfWeek: int) {
    s.staffMemberId == staffId && s.dayOfWeek == dayOfWeek && s.isWorking
  }

  /** `shifts.some(...)`, scanning from the front. */
  function StaffWorksOnDay(shifts: seq<StaffShift>, staffId: string, dayOfWeek: int): (r: bool)
    ensures r <==> exists i :: 0 <= i < |shifts| && WorksAs(shifts[i], staffId, dayOfWeek)
  {
    if shifts == [] then false
    else if WorksAs(shifts[0], staffId, dayOfWeek) then true
    else
      var r := StaffWorksOnDay(shifts[1..], staffId, dayOfWeek);
      assert r <==> exists i :: 0 <= i < |shifts| && WorksAs(shifts[i], staffId, dayOfWeek) by {
        if exists i :: 0 <= i < |shifts| && WorksAs(shifts[i], staffId, dayOfWeek) {
          var i :| 0 <= i < |shifts| && WorksAs(shifts[i], staffId, dayOfWeek);
          assert shifts[1..][i - 1] == shifts[i];
        }
        if r {
          var i :| 0 <= i < |shifts[1..]| && WorksAs(shifts[1..][i], staffId, dayOfWeek);
          assert shifts[i + 1] == shifts[1..][i];
        }
      }
      r
  }

  /** The day's list holds exactly the working shifts of that weekday. */
  lemma {:induction false} ShiftsByDayExact(shifts: seq<StaffShift>, dayOfWeek: int, s: StaffShift)
    ensures s in ShiftsByDay(shifts, dayOfWeek) <==> s in shifts && s.dayOfWeek == dayOfWeek && s.isWorking
  {
    FilterMember(shifts, (s: StaffShift) => s.dayOfWeek == dayOfWeek && s.isWorking, s);
  }

  /** The day's list keeps the order of the fetched shifts. */
  lemma {:induction false} ShiftsByDayKeepsOrder(shifts: seq<StaffShift>, dayOfWeek: int, i: nat, j: nat)
    requires i < j < |ShiftsByDay(shifts, dayOfWeek)|
    ensures exists a, b :: 0 <= a < b < |shifts| && shifts[a] == ShiftsByDay(shifts, dayOfWeek)[i] &&
                           shifts[b] == ShiftsByDay(shifts, dayOfWeek)[j]
  {
    var x, y := FilterIsSubsequence(shifts, (s: StaffShift) => s.dayOfWeek == dayOfWeek && s.isWorking, i, j);
  }

  /** The two helpers agree: a staff member works on a day exactly when the day's list has a shift of theirs. */
  lemma {:induction false} WorksOnDayIffListed(shifts: seq<StaffShift>, staffId: string, dayOfWeek: int)
    ensures StaffWorksOnDay(shifts, staffId, dayOfWeek) <==>
            exists s :: s in ShiftsByDay(shifts, dayOfWeek) && s.staffMemberId == staffId
  {
    if StaffWorksOnDay(shifts, staffId, dayOfWeek) {
      var i :| 0 <= i < |shifts| && WorksAs(shifts[i], staffId, dayOfWeek);
      ShiftsByDayExact(shifts, dayOfWeek, shifts[i]);
    }
    if exists s :: s in ShiftsByDay(shifts, dayOfWeek) && s.staffMemberId == staffId {
      var s :| s in ShiftsByDay(shifts, dayOfWeek) && s.staffMemberId == staffId;
      ShiftsByDayExact(shifts, dayOfWeek, s);
      var i :| 0 <= i < |shifts| && shifts[i] == s;
      assert WorksAs(shifts[i], staffId, dayOfWeek);
    }
  }

  // ------------------------------------------------------------------
  // The keyed upsert.

  datatype ShiftKey = ShiftKey(staffMemberId: string, dayOfWeek: int)

  function KeyOf(s: StaffShift): ShiftKey {
    ShiftKey(s.staffMemberId, s.dayOfWeek)
  }

  /**
   * `upsert(..., { onConflict: 'staff_member_id,day_of_week' })`: the row
   * with the key gets the new times and working flag and keeps its id; with
   * no such row a new one is inserted under `freshId`.
   */
  function UpsertedShifts(table: seq<StaffShift>, staffId: string, dayOfWeek: int,
                          startTime: int, endTime: int, isWorking: bool, freshId: string): (r: seq<StaffShift>)
    ensures |r| == |table| || r == table + [StaffShift(freshId, staffId, dayOfWeek, startTime, endTime, isWorking)]
  {
    match FirstIndexOf(table, ShiftKey(staffId, dayOfWeek), KeyOf)
    case Some(i) => table[i := table[i].(startTime := startTime, endTime := endTime, isWorking := isWorking)]
    case None => table + [StaffShift(freshId, staffId, dayOfWeek, startTime, endTime, isWorking)]
  }

  /** The row the upsert returns. */
  function UpsertedRow(table: seq<StaffShift>, staffId: string, dayOfWeek: int,
                       startTime: int, endTime: int, isWorking: bool, freshId: string): StaffShift
  {
    match FirstIndexOf(table, ShiftKey(staffId, dayOfWeek), KeyOf)
    case Some(i) => table[i].(startTime := startTime, endTime := endTime, isWorking := isWorking)
    case None => StaffShift(freshId, staffId, dayOfWeek, startTime, endTime, isWorking)
  }

  /**
   * With one row per key before, afterwards exactly one row has the key and
   * it carries the new values; the rows of every other key are unchanged and
   * keys stay unique.
   */
  lemma {:induction false} UpsertShiftKeyed(table: seq<StaffShift>, staffId: string, dayOfWeek: int,
                         startTime: int, endTime: int, isWorking: bool, freshId: string)
    requires ShiftKeysUnique(table)
    ensures var r := UpsertedShifts(table, staffId, dayOfWeek, startTime, endTime, isWorking, freshId);
            var row := UpsertedRow(table, staffId, dayOfWeek, startTime, endTime, isWorking, freshId);
            ShiftKeysUnique(r) &&
            row in r && KeyOf(row) == ShiftKey(staffId, dayOfWeek) &&
            row.startTime == startTime && row.endTime == endTime && row.isWorking == isWorking &&
            (forall i :: 0 <= i < |r| && KeyOf(r[i]) == ShiftKey(staffId, dayOfWeek) ==> r[i] == row) &&
            (forall i :: 0 <= i < |table| && KeyOf(table[i]) != ShiftKey(staffId, dayOfWeek) ==> r[i] == table[i]) &&
            |table| <= |r| <= |table| + 1
  {
    var key := ShiftKey(staffId, dayOfWeek);
    var r := UpsertedShifts(table, staffId, dayOfWeek, startTime, endTime, isWorking, freshId);
    match FirstIndexOf(table, key, KeyOf)
    case Some(k) =>
      assert forall i :: 0 <= i < |r| ==> KeyOf(r[i]) == KeyOf(table[i]);
      assert r[k] in r;
    case None =>
      assert r[|table|] in r;
  }

  /** An existing row keeps its id: the upsert updates, it does not replace. */
  lemma {:induction false} UpsertKeepsId(table: seq<StaffShift>, i: nat, startTime: int, endTime: int, isWorking: bool, freshId: string)
    requires ShiftKeysUnique(table) && i < |table|
    ensures UpsertedRow(table, table[i].staffMemberId, table[i].dayOfWeek, startTime, endTime, isWorking, freshId).id ==
            table[i].id
  {
    var key := KeyOf(table[i]);
    var r := FirstIndexOf(table, key, KeyOf);
    assert r.Some?;
  }

  /** The shift table and the hook's copy, as the screen sees them. */
  class ShiftsHook {
    /** The `staff_shifts` table. */
    var table: seq<StaffShift>
    /** The hook's `shifts` state. */
    var shifts: seq<StaffShift>
    /** The hook's `staffMemberId` argument. */
    const staffFilter: Option<string>

    ghost predicate Valid()
      reads this
    {
      ShiftKeysUnique(table) && shifts == Fetched(table, staffFilter)
    }

    /** `fetchShifts`: the table, narrowed to one staff member when the hook was given one. */
    static function Fetched(table: seq<StaffShift>, staffFilter: Option<string>): seq<StaffShift> {
      if Truthy(staffFilter) then Filter(table, (s: StaffShift) => s.staffMemberId == staffFilter.value) else table
    }

    constructor (table: seq<StaffShift>, staffFilter: Option<string>)
      requires ShiftKeysUnique(table)
      ensures Valid() && this.table == table && this.staffFilter == staffFilter
    {
      this.table := table;
      this.staffFilter := staffFilter;
      shifts := Fetched(table, staffFilter);
    }

    method Refetch()
      modifies this`shifts
      ensures shifts == Fetched(table, staffFilter)
    {
      shifts := Fetched(table, staffFilter);
    }

    method UpsertShift(staffId: string, dayOfWeek: int, startTime: int, endTime: int, isWorking: bool, freshId: string)
      returns (upserted: StaffShift)
      requires Valid()
      modifies this
      ensures Valid()
      ensures table == UpsertedShifts(old(table), staffId, dayOfWeek, startTime, endTime, isWorking, freshId)
      ensures upserted == UpsertedRow(old(table), staffId, dayOfWeek, startTime, endTime, isWorking, freshId)
    {
      UpsertShiftKeyed(table, staffId, dayOfWeek, startTime, endTime, isWorking, freshId);
      upserted := UpsertedRow(table, staffId, dayOfWeek, startTime, endTime, isWorking, freshId);
      table := UpsertedShifts(table, staffId, dayOfWeek, startTime, endTime, isWorking, freshId);
      Refetch();
    }

    method DeleteShift(id: string)
      requires Valid()
      modifies this
      ensures Valid()
      ensures table == Filter(old(table), (s: StaffShift) => s.id != id)
    {
      DeleteKeepsKeysUnique(table, id);
      table := Filter(table, (s: StaffShift) => s.id != id);
      Refetch();
    }
  }

  /** Deleting rows keeps one row per key. */
  lemma {:induction false} DeleteKeepsKeysUnique(table: seq<StaffShift>, id: string)
    requires ShiftKeysUnique(table)
    ensures ShiftKeysUnique(Filter(table, (s: StaffShift) => s.id != id))
  {
    var r := Filter(table, (s: StaffShift) => s.id != id);
    forall i, j | 0 <= i < |r| && 0 <= j < |r| && KeyOf(r[i]) == KeyOf(r[j]) ensures i == j {
      if i != j {
        var a, b := i, j;
        if a > b { a, b := j, i; }
        var x, y := FilterIsSubsequence(table, (s: StaffShift) => s.id != id, a, b);
      }
    }
  }
}
