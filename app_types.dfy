/**
 * The front end's own records: appointments, services, staff and customers
 * as the local store, the calendar and the insights screen use them.
 * `startTime` and `lastVisit` are instants in milliseconds since the epoch.
 */
module AppTypes {
  import opened Wrappers

  datatype AppointmentStatus = Pending | Confirmed | Cancelled | Completed

  datatype Service = Service(id: string, name: string, duration: int, price: int, category: string)

  datatype Staff = Staff(id: string, name: string, role: string, avatar: string, color: string)

  datatype Appointment = Appointment(
    id: string, startTime: int, serviceId: string, staffId: string, customerName: string,
    status: AppointmentStatus, isBlock: Option<bool>, blockReason: Option<string>, durationOverride: Option<int>)

  datatype Customer = Customer(
    id: string, name: string, email: string, phone: string, avatar: Option<string>,
    totalVisits: int, lastVisit: Option<int>, notes: Option<string>)

  function AppointmentId(a: Appointment): string { a.id }
  function StaffId(s: Staff): string { s.id }
  function ServiceId(s: Service): string { s.id }
  function CustomerId(c: Customer): string { c.id }
}
