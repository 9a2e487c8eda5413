/**
 * The cancellation handler: finds the account's open reservations, by id or
 * else by customer phone and date, and marks every one found as cancelled.
 */
module CancelReservation {
  import opened Wrappers
  import opened JsText
  import opened Seqs
  import opened Schema

  datatype CancelRequest = CancelRequest(reservationId: Option<string>, customerPhone: Option<string>, date: Option<string>)

  /** How the request selects reservations; an id wins over phone and date. */
  datatype Criteria = ById(id: string) | ByPhoneAndDate(phone: string, date: string) | NoCriteria

  /** 200 with the number cancelled and the first of them (its date and time go into the message), 400, 404. */
  datatype CancelOutcome = CancelledRows(count: nat, first: Reservation) | MissingCriteria | NotFound

  function CriteriaOf(b: CancelRequest): (c: Criteria)
    ensures c.ById? <==> Truthy(b.reservationId)
    ensures c.NoCriteria? <==> !Truthy(b.reservationId) && !(Truthy(b.customerPhone) && Truthy(b.date))
  {
    if Truthy(b.reservationId) then ById(b.reservationId.value)
    else if Truthy(b.customerPhone) && Truthy(b.date) then ByPhoneAndDate(b.customerPhone.value, b.date.value)
    else NoCriteria
  }

  /** The lookup: the account's reservations that are not cancelled and meet the criteria. */
  predicate Selected(r: Reservation, userId: string, c: Criteria) {
    r.userId == userId && NotCancelled(r.status) &&
    match c
    case ById(id) => r.id == id
    case ByPhoneAndDate(phone, date) => r.customerPhone == Some(phone) && r.date == date
    case NoCriteria => false
  }

  function Matching(rs: seq<Reservation>, userId: string, c: Criteria): seq<Reservation> {
    Filter(rs, (r: Reservation) => Selected(r, userId, c))
  }

  /** The lookup keeps exactly the selected rows, each of them a row of the table. */
  lemma {:induction false} MatchingRows(rs: seq<Reservation>, userId: string, c: Criteria)
    ensures forall i :: 0 <= i < |Matching(rs, userId, c)| ==>
              Matching(rs, userId, c)[i] in rs && Selected(Matching(rs, userId, c)[i], userId, c)
    ensures forall x :: x in Matching(rs, userId, c) <==> x in rs && Selected(x, userId, c)
  {
    FilterProperties(rs, (r: Reservation) => Selected(r, userId, c));
    forall x ensures x in Matching(rs, userId, c) <==> x in rs && Selected(x, userId, c) {
      FilterMember(rs, (r: Reservation) => Selected(r, userId, c), x);
    }
  }

  function IdsOf(rs: seq<Reservation>): (ids: seq<string>)
    ensures |ids| == |rs| && forall i :: 0 <= i < |rs| ==> ids[i] == rs[i].id
  {
    seq(|rs|, i requires 0 <= i < |rs| => rs[i].id)
  }

  /** The update `status = 'cancelled' WHERE id IN ids`. */
  function CancelIds(rs: seq<Reservation>, ids: seq<string>): (after: seq<Reservation>)
    ensures |after| == |rs|
  {
    seq(|rs|, i requires 0 <= i < |rs| => if rs[i].id in ids then rs[i].(status := Some(Cancelled)) else rs[i])
  }

  /** What the handler answers, from the reservations table before the call. */
  function CancelOutcomeFor(rs: seq<Reservation>, userId: string, b: CancelRequest): (r: CancelOutcome)
    ensures r == MissingCriteria <==> CriteriaOf(b).NoCriteria?
    ensures r == NotFound <==> !CriteriaOf(b).NoCriteria? && forall x :: x in rs ==> !Selected(x, userId, CriteriaOf(b))
    ensures r.CancelledRows? ==> r.count >= 1 && r.first in rs && Selected(r.first, userId, CriteriaOf(b))
  {
    var c := CriteriaOf(b);
    if c.NoCriteria? then MissingCriteria
    else
      var found := Matching(rs, userId, c);
      MatchingRows(rs, userId, c);
      if |found| == 0 then NotFound else CancelledRows(|found|, found[0])
  }

  /** The handler after authentication. */
  method CancelReservation(db: Database, userId: string, b: CancelRequest) returns (outcome: CancelOutcome)
    requires db.Valid()
    modifies db
    ensures db.Valid()
    ensures outcome == CancelOutcomeFor(old(db.reservations), userId, b)
    ensures db.reservations ==
            (if outcome.CancelledRows?
             then CancelIds(old(db.reservations), IdsOf(Matching(old(db.reservations), userId, CriteriaOf(b))))
             else old(db.reservations))
    ensures db.staffMembers == old(db.staffMembers) && db.staffShifts == old(db.staffShifts)
    ensures db.shiftExceptions == old(db.shiftExceptions) && db.products == old(db.products)
    ensures db.contacts == old(db.contacts)
  {
    var criteria := CriteriaOf(b);
    if criteria.NoCriteria? {
      return MissingCriteria;
    }
    var reservations := Matching(db.reservations, userId, criteria);
    if |reservations| == 0 {
      return NotFound;
    }
    var ids := IdsOf(reservations);
    CancelKeepsIds(db.reservations, ids);
    db.reservations := CancelIds(db.reservations, ids);
    return CancelledRows(|reservations|, reservations[0]);
  }

  // ------------------------------------------------------------------
  // Properties.

  /** The update changes statuses only: ids and every other column stay. */
  lemma {:induction false} CancelKeepsIds(rs: seq<Reservation>, ids: seq<string>)
    requires ReservationIdsUnique(rs)
    ensures ReservationIdsUnique(CancelIds(rs, ids))
    ensures forall i :: 0 <= i < |rs| ==> CancelIds(rs, ids)[i] == rs[i].(status := CancelIds(rs, ids)[i].status)
  {
    var after := CancelIds(rs, ids);
    assert forall i :: 0 <= i < |rs| ==> after[i].id == rs[i].id;
  }

  /**
   * With unique ids, exactly the selected rows become cancelled; all other
   * rows, the other accounts' included, are left as they were.
   */
  lemma {:induction false} ExactlySelectedRowsCancelled(rs: seq<Reservation>, userId: string, b: CancelRequest)
    requires ReservationIdsUnique(rs)
    ensures var c := CriteriaOf(b);
            var after := CancelIds(rs, IdsOf(Matching(rs, userId, c)));
            forall i :: 0 <= i < |rs| ==>
              after[i] == (if Selected(rs[i], userId, c) then rs[i].(status := Some(Cancelled)) else rs[i])
  {
    var c := CriteriaOf(b);
    var found := Matching(rs, userId, c);
    var ids := IdsOf(found);
    MatchingRows(rs, userId, c);
    forall i | 0 <= i < |rs|
      ensures CancelIds(rs, ids)[i] == (if Selected(rs[i], userId, c) then rs[i].(status := Some(Cancelled)) else rs[i])
    {
      FilterMember(rs, (r: Reservation) => Selected(r, userId, c), rs[i]);
      if rs[i].id in ids {
        var k :| 0 <= k < |ids| && ids[k] == rs[i].id;
        assert found[k] in rs;
        var j :| 0 <= j < |rs| && rs[j] == found[k];
        assert rs[j] in found;
        assert i == j;
      }
    }
  }

  /** The rows of `before` that `after` changed, in table order. */
  function ChangedRows(before: seq<Reservation>, after: seq<Reservation>): seq<Reservation>
    requires |before| == |after|
  {
    if before == [] then []
    else (if after[0] != before[0] then [before[0]] else []) + ChangedRows(before[1..], after[1..])
  }

  /** When exactly the selected rows are turned to cancelled, the changed rows are the selected ones. */
  lemma {:induction false} ChangedRowsAreSelected(before: seq<Reservation>, after: seq<Reservation>, userId: string, c: Criteria)
    requires |before| == |after|
    requires forall i :: 0 <= i < |before| ==>
               after[i] == (if Selected(before[i], userId, c) then before[i].(status := Some(Cancelled)) else before[i])
    ensures ChangedRows(before, after) == Matching(before, userId, c)
  {
    if before != [] {
      assert Selected(before[0], userId, c) ==> after[0].status != before[0].status;
      assert forall i :: 0 <= i < |before[1..]| ==> before[1..][i] == before[i + 1] && after[1..][i] == after[i + 1];
      ChangedRowsAreSelected(before[1..], after[1..], userId, c);
    }
  }

  /**
   * The count is the number of open reservations selected, and a 200 never
   * reports zero. With unique ids it is the number of rows the update turns
   * to cancelled, and the reported reservation is the first of them.
   */
  lemma {:induction false} CountIsSelectedRows(rs: seq<Reservation>, userId: string, b: CancelRequest)
    requires CancelOutcomeFor(rs, userId, b).CancelledRows?
    ensures var out := CancelOutcomeFor(rs, userId, b);
            out.count >= 1 && out.count == |Matching(rs, userId, CriteriaOf(b))| &&
            out.first in rs && Selected(out.first, userId, CriteriaOf(b))
    ensures var out := CancelOutcomeFor(rs, userId, b);
            var after := CancelIds(rs, IdsOf(Matching(rs, userId, CriteriaOf(b))));
            ReservationIdsUnique(rs) ==>
              out.count == |ChangedRows(rs, after)| && out.first == ChangedRows(rs, after)[0]
  {
    MatchingRows(rs, userId, CriteriaOf(b));
    if ReservationIdsUnique(rs) {
      ExactlySelectedRowsCancelled(rs, userId, b);
      ChangedRowsAreSelected(rs, CancelIds(rs, IdsOf(Matching(rs, userId, CriteriaOf(b)))), userId, CriteriaOf(b));
    }
  }

  /** A reservation id in the body makes phone and date irrelevant. */
  lemma {:induction false} IdTakesPrecedence(rs: seq<Reservation>, userId: string, b: CancelRequest, phone: Option<string>, date: Option<string>)
    requires Truthy(b.reservationId)
    ensures CancelOutcomeFor(rs, userId, b) == CancelOutcomeFor(rs, userId, b.(customerPhone := phone, date := date))
  {
  }

  /** Cancelling the same reservation id twice: the second call finds nothing. */
  lemma {:induction false} SecondCancelNotFound(rs: seq<Reservation>, userId: string, b: CancelRequest)
    requires ReservationIdsUnique(rs) && Truthy(b.reservationId)
    requires CancelOutcomeFor(rs, userId, b).CancelledRows?
    ensures CancelOutcomeFor(CancelIds(rs, IdsOf(Matching(rs, userId, CriteriaOf(b)))), userId, b) == NotFound
  {
    var c := CriteriaOf(b);
    var after := CancelIds(rs, IdsOf(Matching(rs, userId, c)));
    ExactlySelectedRowsCancelled(rs, userId, b);
    forall x | x in after ensures !Selected(x, userId, c) {
      var i :| 0 <= i < |after| && after[i] == x;
    }
    FilterDropsAll(after, (r: Reservation) => Selected(r, userId, c));
  }
}
