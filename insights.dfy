/**
 * The insights screen's figures: the appointments that count, the revenue
 * they bring, the most booked service and the busiest staff member.
 */
module Insights {
  import opened Wrappers
  import opened Seqs
  import opened AppTypes

  /** Confirmed and completed appointments count; pending and cancelled ones do not. */
  predicate Counts(a: Appointment) {
    a.status == Confirmed || a.status == Completed
  }

  function ConfirmedAppointments(appointments: seq<Appointment>): seq<Appointment> {
    Filter(appointments, Counts)
  }

  /** The appointments card lists exactly the confirmed and completed appointments, in order. */
  lemma {:induction false} ConfirmedAreExactlyCounting(appointments: seq<Appointment>, a: Appointment, i: nat, j: nat)
    ensures a in ConfirmedAppointments(appointments) <==> a in appointments && Counts(a)
    ensures i < j < |ConfirmedAppointments(appointments)| ==>
              exists x, y :: 0 <= x < y < |appointments| && appointments[x] == ConfirmedAppointments(appointments)[i] &&
                             appointments[y] == ConfirmedAppointments(appointments)[j]
  {
    FilterMember(appointments, Counts, a);
    if i < j < |ConfirmedAppointments(appointments)| {
      var x, y := FilterIsSubsequence(appointments, Counts, i, j);
    }
  }

  /** `services.find(s => s.id === id)`. */
  function FindService(services: seq<Service>, id: string): (r: Option<Service>)
    ensures r.Some? ==> r.value in services && r.value.id == id
    ensures r.None? ==> forall i :: 0 <= i < |services| ==> services[i].id != id
    ensures r.Some? ==> exists i :: 0 <= i < |services| && services[i] == r.value &&
                          forall j :: 0 <= j < i ==> services[j].id != id
  {
    if services == [] then None
    else if services[0].id == id then Some(services[0])
    else
      var r := FindService(services[1..], id);
      assert r.Some? ==> exists i :: 0 <= i < |services| && services[i] == r.value &&
                          forall j :: 0 <= j < i ==> services[j].id != id by {
        if r.Some? {
          var i :| 0 <= i < |services[1..]| && services[1..][i] == r.value &&
                   forall j :: 0 <= j < i ==> services[1..][j].id != id;
          assert services[i + 1] == r.value;
          forall j | 0 <= j < i + 1 ensures services[j].id != id {
            if j > 0 { assert services[j] == services[1..][j - 1]; }
          }
        }
      }
      r
  }

  /** `service?.price || 0`: an unknown service is worth nothing. */
  function PriceOf(services: seq<Service>, id: string): int {
    match FindService(services, id)
    case Some(s) => s.price
    case None => 0
  }

  /** The `reduce` of the revenue, from the front with a running sum. */
  function RevenueFold(sum: int, appointments: seq<Appointment>, services: seq<Service>): int
    decreases |appointments|
  {
    if appointments == [] then sum
    else RevenueFold(sum + PriceOf(services, appointments[0].serviceId), appointments[1..], services)
  }

  function TotalRevenue(appointments: seq<Appointment>, services: seq<Service>): int {
    RevenueFold(0, ConfirmedAppointments(appointments), services)
  }

  /** Reference definition: the sum of the prices, taken from the back. */
  function PriceSum(appointments: seq<Appointment>, services: seq<Service>): int {
    if appointments == [] then 0
    else PriceSum(appointments[..|appointments| - 1], services) + PriceOf(services, appointments[|appointments| - 1].serviceId)
  }

  lemma {:induction false} PriceSumFront(appointments: seq<Appointment>, services: seq<Service>)
    requires appointments != []
    ensures PriceSum(appointments, services) ==
            PriceOf(services, appointments[0].serviceId) + PriceSum(appointments[1..], services)
  {
    if |appointments| > 1 {
      var init := appointments[..|appointments| - 1];
      PriceSumFront(init, services);
      assert init[1..] == appointments[1..][..|appointments[1..]| - 1];
      assert init[0] == appointments[0];
    } else {
      assert appointments[..0] == [];
    }
  }

  /** The fold adds the prices to its starting value. */
  lemma {:induction false} FoldIsSum(sum: int, appointments: seq<Appointment>, services: seq<Service>)
    ensures RevenueFold(sum, appointments, services) == sum + PriceSum(appointments, services)
    decreases |appointments|
  {
    if appointments != [] {
      FoldIsSum(sum + PriceOf(services, appointments[0].serviceId), appointments[1..], services);
      PriceSumFront(appointments, services);
    }
  }

  lemma {:induction false} PriceSumAppend(a: seq<Appointment>, b: seq<Appointment>, services: seq<Service>)
    ensures PriceSum(a + b, services) == PriceSum(a, services) + PriceSum(b, services)
  {
    if b == [] {
      assert a + b == a;
    } else {
      assert (a + b)[..|a + b| - 1] == a + b[..|b| - 1];
      PriceSumAppend(a, b[..|b| - 1], services);
    }
  }

  /** Revenue adds up over a split of the appointment list. */
  lemma {:induction false} RevenueIsAdditive(a: seq<Appointment>, b: seq<Appointment>, services: seq<Service>)
    ensures TotalRevenue(a + b, services) == TotalRevenue(a, services) + TotalRevenue(b, services)
  {
    FilterAppend(a, b, Counts);
    FoldIsSum(0, ConfirmedAppointments(a + b), services);
    FoldIsSum(0, ConfirmedAppointments(a), services);
    FoldIsSum(0, ConfirmedAppointments(b), services);
    PriceSumAppend(ConfirmedAppointments(a), ConfirmedAppointments(b), services);
  }

  /** One appointment adds its service's price when it counts, and nothing otherwise. */
  lemma {:induction false} RevenueOfOne(a: Appointment, services: seq<Service>)
    ensures TotalRevenue([a], services) == if Counts(a) then PriceOf(services, a.serviceId) else 0
  {
    assert [a][1..] == [];
    if Counts(a) {
      assert ConfirmedAppointments([a]) == [a];
      assert RevenueFold(0, [a], services) == RevenueFold(PriceOf(services, a.serviceId), [], services);
    } else {
      assert ConfirmedAppointments([a]) == [];
    }
  }

  /** An appointment whose service is unknown leaves the revenue as it was. */
  lemma {:induction false} UnknownServiceAddsNothing(appointments: seq<Appointment>, a: Appointment, services: seq<Service>)
    requires forall i :: 0 <= i < |services| ==> services[i].id != a.serviceId
    ensures TotalRevenue(appointments + [a], services) == TotalRevenue(appointments, services)
  {
    RevenueIsAdditive(appointments, [a], services);
    RevenueOfOne(a, services);
  }

  /** With prices that are not negative, the revenue is not negative. */
  lemma {:induction false} PriceSumNonNegative(appointments: seq<Appointment>, services: seq<Service>)
    requires forall i :: 0 <= i < |services| ==> services[i].price >= 0
    ensures PriceSum(appointments, services) >= 0
  {
    if appointments != [] {
      PriceSumNonNegative(appointments[..|appointments| - 1], services);
    }
  }

  // ------------------------------------------------------------------
  // The arg-max reductions.

  /** The reducer's accumulator `{ item, count }`; `None` stands for `services[0]` of an empty list. */
  datatype Best<T> = Best(item: Option<T>, count: int)

  /** `count > best.count ? { item, count } : best`, folded from the front. */
  function ArgMaxFold<T>(best: Best<T>, xs: seq<T>, count: T -> int): Best<T>
    decreases |xs|
  {
    if xs == [] then best
    else
      var c := count(xs[0]);
      ArgMaxFold(if c > best.count then Best(Some(xs[0]), c) else best, xs[1..], count)
  }

  /**
   * The fold's result: no element counts more; and either no element beat
   * the start and the start stands, or the result is the first element with
   * the largest count, beating the start.
   */
  lemma {:induction false} ArgMaxFoldIsFirstMax<T>(best: Best<T>, xs: seq<T>, count: T -> int)
    ensures var r := ArgMaxFold(best, xs, count);
            (forall i :: 0 <= i < |xs| ==> count(xs[i]) <= r.count) &&
            ((r == best && forall i :: 0 <= i < |xs| ==> count(xs[i]) <= best.count) ||
             (exists i :: 0 <= i < |xs| && r == Best(Some(xs[i]), count(xs[i])) && count(xs[i]) > best.count &&
                          forall j :: 0 <= j < i ==> count(xs[j]) < count(xs[i])))
    decreases |xs|
  {
    if xs != [] {
      var c := count(xs[0]);
      var next := if c > best.count then Best(Some(xs[0]), c) else best;
      var r := ArgMaxFold(next, xs[1..], count);
      ArgMaxFoldIsFirstMax(next, xs[1..], count);
      assert forall i :: 0 < i < |xs| ==> xs[i] == xs[1..][i - 1];
      if r == next && forall i :: 0 <= i < |xs[1..]| ==> count(xs[1..][i]) <= next.count {
        if c > best.count {
          assert r == Best(Some(xs[0]), count(xs[0]));
        }
      } else {
        var k :| 0 <= k < |xs[1..]| && r == Best(Some(xs[1..][k]), count(xs[1..][k])) && count(xs[1..][k]) > next.count &&
                 forall j :: 0 <= j < k ==> count(xs[1..][j]) < count(xs[1..][k]);
        assert xs[k + 1] == xs[1..][k];
        forall j | 0 <= j < k + 1 ensures count(xs[j]) < count(xs[k + 1]) {
          if j > 0 { assert xs[j] == xs[1..][j - 1]; }
        }
      }
    }
  }

  /** The number of appointments, of any status, booked for a service. */
  function ServiceBookings(appointments: seq<Appointment>, serviceId: string): nat {
    |Filter(appointments, (a: Appointment) => a.serviceId == serviceId)|
  }

  /** The number of appointments, of any status, with a staff member. */
  function StaffBookings(appointments: seq<Appointment>, staffId: string): nat {
    |Filter(appointments, (a: Appointment) => a.staffId == staffId)|
  }

  function First<T>(xs: seq<T>): Option<T> {
    if xs == [] then None else Some(xs[0])
  }

  function MostBookedService(appointments: seq<Appointment>, services: seq<Service>): Best<Service> {
    ArgMaxFold(Best(First(services), 0), services, (s: Service) => ServiceBookings(appointments, s.id))
  }

  function TopPerformer(appointments: seq<Appointment>, staff: seq<Staff>): Best<Staff> {
    ArgMaxFold(Best(First(staff), 0), staff, (m: Staff) => StaffBookings(appointments, m.id))
  }

  /**
   * The most booked service has the largest booking count, and is the first
   * service with it; when nothing is booked it is the first service, with 0.
   */
  lemma {:induction false} MostBookedServiceIsFirstMax(appointments: seq<Appointment>, services: seq<Service>)
    ensures var r := MostBookedService(appointments, services);
            (forall i :: 0 <= i < |services| ==> ServiceBookings(appointments, services[i].id) <= r.count) &&
            (r.count == 0 ==> r.item == First(services)) &&
            (r.count > 0 ==> exists i :: 0 <= i < |services| && r.item == Some(services[i]) &&
                                         r.count == ServiceBookings(appointments, services[i].id) &&
                                         forall j :: 0 <= j < i ==> ServiceBookings(appointments, services[j].id) < r.count)
  {
    ArgMaxFoldIsFirstMax(Best(First(services), 0), services, (s: Service) => ServiceBookings(appointments, s.id));
  }

  /** The same for staff, counting appointments by `staffId`. */
  lemma {:induction false} TopPerformerIsFirstMax(appointments: seq<Appointment>, staff: seq<Staff>)
    ensures var r := TopPerformer(appointments, staff);
            (forall i :: 0 <= i < |staff| ==> StaffBookings(appointments, staff[i].id) <= r.count) &&
            (r.count == 0 ==> r.item == First(staff)) &&
            (r.count > 0 ==> exists i :: 0 <= i < |staff| && r.item == Some(staff[i]) &&
                                         r.count == StaffBookings(appointments, staff[i].id) &&
                                         forall j :: 0 <= j < i ==> StaffBookings(appointments, staff[j].id) < r.count)
  {
    ArgMaxFoldIsFirstMax(Best(First(staff), 0), staff, (m: Staff) => StaffBookings(appointments, m.id));
  }
}
