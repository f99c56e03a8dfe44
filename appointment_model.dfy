/**
 * The appointment record (models/Appointment.js): the booking fields the
 * patient supplies, and the four status fields the schema gives defaults
 * to.  `isApproved` has no default, so it is absent (None) on a new
 * record; `doctorId` carries no unique index.
 */
module AppointmentModel {
  import opened Wrappers
  import opened Collection

  /** What the booking form supplies; "" stands for a field the request left out. */
  datatype Booking = Booking(
    name: string, email: string, gender: string, doctorId: string, date: string,
    time: string, phoneNo: string, message: string, department: string)

  datatype Appointment = Appointment(
    name: string, email: string, gender: string, doctorId: string, date: string,
    time: string, phoneNo: string, message: string, department: string,
    isActive: bool, isApproved: Option<bool>, isRescheduled: bool, statusMessage: string)

  const DefaultStatusMessage: string := "Pending"

  /** The booking fields of a stored appointment. */
  function BookingOf(a: Appointment): Booking {
    Booking(a.name, a.email, a.gender, a.doctorId, a.date, a.time, a.phoneNo, a.message, a.department)
  }

  /** The record Mongoose stores for a booking: the booking fields plus the schema defaults. */
  function NewAppointment(b: Booking): (a: Appointment)
    ensures BookingOf(a) == b
    ensures a.isActive && a.isApproved == None && !a.isRescheduled
    ensures a.statusMessage == DefaultStatusMessage
  {
    Appointment(b.name, b.email, b.gender, b.doctorId, b.date, b.time, b.phoneNo, b.message,
                b.department, true, None, false, DefaultStatusMessage)
  }

  /** The schema's `required: true` paths are present (`message` is optional). */
  predicate HasRequiredFields(a: Appointment) {
    a.name != "" && a.email != "" && a.gender != "" && a.doctorId != "" && a.date != ""
    && a.time != "" && a.phoneNo != "" && a.department != ""
  }

  /** A rescheduled appointment is never approved: the two flags are only ever set together. */
  predicate FlagsConsistent(a: Appointment) {
    a.isRescheduled ==> a.isApproved == Some(false)
  }

  /** The invariant of the appointments collection. */
  ghost predicate WellFormed(docs: seq<Doc<Appointment>>) {
    && UniqueKeys(docs)
    && forall i :: 0 <= i < |docs| ==> HasRequiredFields(docs[i].rec) && FlagsConsistent(docs[i].rec)
  }

  /** A new appointment satisfies the collection's invariant whenever its required fields are present. */
  lemma NewAppointmentConsistent(b: Booking)
    ensures FlagsConsistent(NewAppointment(b))
    ensures HasRequiredFields(NewAppointment(b)) <==>
      b.name != "" && b.email != "" && b.gender != "" && b.doctorId != "" && b.date != ""
      && b.time != "" && b.phoneNo != "" && b.department != ""
  {
  }

  /** Nothing makes doctorId, date and time unique: two identical bookings can be stored side by side. */
  lemma DoubleBookingAllowed(k1: Id, k2: Id, a: Appointment)
    requires k1 != k2 && HasRequiredFields(a) && FlagsConsistent(a)
    ensures WellFormed([Doc(k1, a), Doc(k2, a)])
  {
  }

  /** The appointments collection. */
  class AppointmentStore {
    var docs: seq<Doc<Appointment>>

    ghost predicate Valid()
      reads this
    {
      WellFormed(docs)
    }

    constructor ()
      ensures Valid() && docs == []
    {
      docs := [];
    }
  }
}
