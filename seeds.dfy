/** The demo data the local store starts from. */
module Seeds {
  import opened Wrappers
  import opened AppTypes

  const MillisPerHour: int := 1000 * 60 * 60

  const SeedServices: seq<Service> := [
    Service("1", "Haarschnitt & Styling", 60, 45, "Haare"),
    Service("2", "Maniküre Classic", 30, 25, "Nägel"),
    Service("3", "Gesichtsbehandlung Relax", 45, 55, "Kosmetik"),
    Service("4", "Ganzkörpermassage", 90, 85, "Wellness")
  ]

  const SeedStaff: seq<Staff> := [
    Staff("s1", "Sarah M.", "Senior Stylist", "https://picsum.photos/seed/sarah/200",
          "bg-rose-100 border-rose-200 text-rose-700"),
    Staff("s2", "Marco K.", "Massage Therapeut", "https://picsum.photos/seed/marco/200",
          "bg-emerald-100 border-emerald-200 text-emerald-700"),
    Staff("s3", "Elena R.", "Kosmetikerin", "https://picsum.photos/seed/elena/200",
          "bg-indigo-100 border-indigo-200 text-indigo-700")
  ]

  const SeedCustomers: seq<Customer> := [
    Customer("c1", "Anna Schmidt", "anna.schmidt@email.de", "+49 171 1234567", Some("https://picsum.photos/seed/anna/200"),
             12, None, None),
    Customer("c2", "Thomas Weber", "thomas.weber@email.de", "+49 172 2345678", Some("https://picsum.photos/seed/thomas/200"),
             5, None, None),
    Customer("c3", "Julia Müller", "julia.mueller@email.de", "+49 173 3456789", Some("https://picsum.photos/seed/julia/200"),
             8, None, None)
  ]

  /**
   * The two demo appointments, one and three hours after `todayAtNine`
   * (09:00 local time on the day the module loads, which the runtime clock
   * decides).
   */
  function SeedAppointments(todayAtNine: int): (r: seq<Appointment>)
    ensures |r| == 2 && r[0].id != r[1].id
    ensures r[0].startTime == todayAtNine + MillisPerHour && r[1].startTime == todayAtNine + 3 * MillisPerHour
    ensures r[0].status == Confirmed && r[1].status == Pending
    ensures forall a :: a in r ==>
              (exists s :: s in SeedServices && s.id == a.serviceId) && (exists m :: m in SeedStaff && m.id == a.staffId)
  {
    var r := [Appointment("a1", todayAtNine + MillisPerHour * 1, "1", "s1", "Anna Schmidt", Confirmed, None, None, None),
     Appointment("a2", todayAtNine + MillisPerHour * 3, "2", "s3", "Thomas Weber", Pending, None, None, None)];
    assert r[0].serviceId == SeedServices[0].id && r[1].serviceId == SeedServices[1].id;
    assert r[0].staffId == SeedStaff[0].id && r[1].staffId == SeedStaff[2].id;
    r
  }
}
