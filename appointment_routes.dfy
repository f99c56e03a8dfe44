/**
 * The appointment routes (routes/appointmentRoutes.js): booking with
 * field validation, the four-action status machine, the patient's
 * reschedule edit, and the read-only queries by doctor, by doctor and
 * date, by approval, and the gender aggregation.
 */
module AppointmentRoutes {
  import opened Wrappers
  import opened Text
  import opened Collection
  import opened Http
  import opened AppointmentModel
  import DoctorModel

  /** The JSON body a route answers with. */
  datatype Reply =
    | Record(doc: Doc<Appointment>)
    | NoRecord                          // `res.json(null)`
    | Invalid(errors: seq<FieldError>)
    | Failure(error: string)

  // ---------------------------------------------------------------- POST /

  /** Every rule of the booking form holds. */
  predicate BookingAcceptable(b: Booking, isEmail: string -> bool) {
    && LettersAndSpaces(b.name)
    && b.email != "" && isEmail(b.email)
    && b.gender != "" && b.doctorId != "" && b.date != "" && b.time != ""
    && b.phoneNo != "" && b.department != ""
  }

  /** The validator chain of the booking route: one error per failed rule, in chain order. */
  function BookingErrors(b: Booking, isEmail: string -> bool): (errs: seq<FieldError>)
    ensures errs == [] <==> BookingAcceptable(b, isEmail)
    ensures b.name == "" ==> FieldError("name", "Name is required") in errs
    ensures !LettersAndSpaces(b.name) ==>
      FieldError("name", "Name can only contain letters and spaces") in errs
    ensures b.email == "" ==> FieldError("email", "Email is required") in errs
    ensures !isEmail(b.email) ==> FieldError("email", "Invalid email format") in errs
    ensures b.gender == "" ==> FieldError("gender", "Gender is required") in errs
    ensures b.doctorId == "" ==> FieldError("doctorId", "Doctor ID is required") in errs
    ensures b.date == "" ==> FieldError("date", "Date is required") in errs
    ensures b.time == "" ==> FieldError("time", "Time is required") in errs
    ensures b.phoneNo == "" ==> FieldError("phoneNo", "Phone number is required") in errs
    ensures b.department == "" ==> FieldError("department", "Department name is required") in errs
  {
    Check(b.name != "", "name", "Name is required")
    + Check(LettersAndSpaces(b.name), "name", "Name can only contain letters and spaces")
    + Check(b.email != "", "email", "Email is required")
    + Check(isEmail(b.email), "email", "Invalid email format")
    + Check(b.gender != "", "gender", "Gender is required")
    + Check(b.doctorId != "", "doctorId", "Doctor ID is required")
    + Check(b.date != "", "date", "Date is required")
    + Check(b.time != "", "time", "Time is required")
    + Check(b.phoneNo != "", "phoneNo", "Phone number is required")
    + Check(b.department != "", "department", "Department name is required")
  }

  /** An accepted booking yields a record with every required path present. */
  lemma AcceptedBookingStorable(b: Booking, isEmail: string -> bool)
    requires BookingAcceptable(b, isEmail)
    ensures HasRequiredFields(NewAppointment(b)) && FlagsConsistent(NewAppointment(b))
  {
  }

  /**
   * The status fields a client may add to the booking body.  The route
   * hands the whole body to `Appointment.create`, so any that are present
   * replace the schema defaults.
   */
  datatype StatusOverrides = StatusOverrides(
    isActive: Option<bool>, isApproved: Option<bool>, isRescheduled: Option<bool>,
    statusMessage: Option<string>)

  const NoOverrides := StatusOverrides(None, None, None, None)

  /** The record `Appointment.create(req.body)` stores, as the route is written. */
  function CreatedAsWritten(b: Booking, extra: StatusOverrides): (a: Appointment)
    ensures BookingOf(a) == b
    ensures extra == NoOverrides ==> a == NewAppointment(b)
  {
    var d := NewAppointment(b);
    d.(isActive := extra.isActive.GetOr(d.isActive),
       isApproved := if extra.isApproved.Some? then extra.isApproved else d.isApproved,
       isRescheduled := extra.isRescheduled.GetOr(d.isRescheduled),
       statusMessage := extra.statusMessage.GetOr(d.statusMessage))
  }

  /**
   * As written, a booking request that carries `isApproved: true` and
   * `isRescheduled: true` is stored already approved, past the status
   * route, and with flags no status action could produce.
   */
  lemma SelfApprovedBooking(b: Booking)
    ensures var a := CreatedAsWritten(b, StatusOverrides(None, Some(true), Some(true), None));
      a.isApproved == Some(true) && a.isRescheduled && !FlagsConsistent(a)
      && a != NewAppointment(b)
  {
  }

  /**
   * POST / : validate every field, then store the booking with the schema
   * defaults (the client cannot preset the status fields; see
   * CreatedAsWritten for the route as written).
   */
  method Create(store: AppointmentStore, b: Booking, isEmail: string -> bool, newKey: Id)
    returns (status: int, reply: Reply)
    requires store.Valid() && newKey !in Keys(store.docs)
    modifies store
    ensures store.Valid()
    ensures BookingAcceptable(b, isEmail) ==>
      && status == CREATED
      && reply == Record(Doc(newKey, NewAppointment(b)))
      && store.docs == old(store.docs) + [Doc(newKey, NewAppointment(b))]
    ensures !BookingAcceptable(b, isEmail) ==>
      status == BAD_REQUEST && reply == Invalid(BookingErrors(b, isEmail)) && store.docs == old(store.docs)
  {
    var errors := BookingErrors(b, isEmail);
    if errors != [] {
      return BAD_REQUEST, Invalid(errors);
    }
    var doc := Doc(newKey, NewAppointment(b));
    AppendFreshKey(store.docs, doc);
    store.docs := store.docs + [doc];
    status, reply := CREATED, Record(doc);
  }

  // ---------------------------------------------------- PATCH /:id/status

  datatype Action = Approve | Reject | Reschedule | MarkPending

  function ParseAction(action: string): (r: Option<Action>)
    ensures r.Some? <==>
      action == "approve" || action == "reject" || action == "reschedule" || action == "pending"
    ensures r == Some(Approve) <==> action == "approve"
    ensures r == Some(MarkPending) <==> action == "pending"
  {
    if action == "approve" then Some(Approve)
    else if action == "reject" then Some(Reject)
    else if action == "reschedule" then Some(Reschedule)
    else if action == "pending" then Some(MarkPending)
    else None
  }

  /** The approval flag an action leaves: approved, rejected, or unset again. */
  function ApprovalAfter(act: Action): Option<bool> {
    match act
    case Approve => Some(true)
    case Reject => Some(false)
    case Reschedule => Some(false)
    case MarkPending => None
  }

  function RescheduledAfter(act: Action): bool {
    act == Reschedule
  }

  /** The appointment after a status action: the two flags by the table, the message only when one is given. */
  function WithStatus(a: Appointment, act: Action, statusMessage: string): (r: Appointment)
    ensures r.isApproved == ApprovalAfter(act) && r.isRescheduled == RescheduledAfter(act)
    ensures statusMessage != "" ==> r.statusMessage == statusMessage
    ensures statusMessage == "" ==> r.statusMessage == a.statusMessage
    ensures BookingOf(r) == BookingOf(a) && r.isActive == a.isActive
  {
    a.(isApproved := ApprovalAfter(act), isRescheduled := RescheduledAfter(act),
       statusMessage := if statusMessage != "" then statusMessage else a.statusMessage)
  }

  /** The transition table of the status route. */
  lemma StatusTable(a: Appointment, m: string)
    ensures WithStatus(a, Approve, m).isApproved == Some(true) && !WithStatus(a, Approve, m).isRescheduled
    ensures WithStatus(a, Reject, m).isApproved == Some(false) && !WithStatus(a, Reject, m).isRescheduled
    ensures WithStatus(a, Reschedule, m).isApproved == Some(false) && WithStatus(a, Reschedule, m).isRescheduled
    ensures WithStatus(a, MarkPending, m).isApproved == None && !WithStatus(a, MarkPending, m).isRescheduled
  {
  }

  /** Every status action leaves the two flags consistent, whatever they were before. */
  lemma StatusKeepsFlagsConsistent(a: Appointment, act: Action, m: string)
    ensures FlagsConsistent(WithStatus(a, act, m))
    ensures HasRequiredFields(a) ==> HasRequiredFields(WithStatus(a, act, m))
  {
  }

  /** The update document the status route builds before `findByIdAndUpdate`. */
  datatype StatusUpdate = StatusUpdate(isApproved: Option<bool>, isRescheduled: bool, statusMessage: Option<string>)

  function ApplyUpdate(a: Appointment, u: StatusUpdate): Appointment {
    a.(isApproved := u.isApproved, isRescheduled := u.isRescheduled,
       statusMessage := u.statusMessage.GetOr(a.statusMessage))
  }

  /** Saving a record that keeps the invariant, under an existing key, keeps the collection well formed. */
  lemma PutKeepsWellFormed(docs: seq<Doc<Appointment>>, id: Id, a: Appointment)
    requires WellFormed(docs) && HasRequiredFields(a) && FlagsConsistent(a)
    ensures WellFormed(Put(docs, id, a))
  {
  }

  /**
   * PATCH /:id/status : an unknown action answers 400 and changes nothing;
   * otherwise the update is applied to the appointment with that key, and
   * an unknown key answers 200 with a null body.
   */
  method UpdateStatus(store: AppointmentStore, id: Id, action: string, statusMessage: string)
    returns (status: int, reply: Reply)
    requires store.Valid()
    modifies store
    ensures store.Valid()
    ensures ParseAction(action).None? ==>
      status == BAD_REQUEST && reply == Failure("Invalid action") && store.docs == old(store.docs)
    ensures ParseAction(action).Some? && id !in Keys(old(store.docs)) ==>
      status == OK && reply == NoRecord && store.docs == old(store.docs)
    ensures ParseAction(action).Some? && id in Keys(old(store.docs)) ==>
      var a := WithStatus(old(store.docs)[Find(old(store.docs), id).value].rec, ParseAction(action).value, statusMessage);
      status == OK && reply == Record(Doc(id, a)) && store.docs == Put(old(store.docs), id, a)
  {
    var update: StatusUpdate;
    if action == "approve" {
      update := StatusUpdate(Some(true), false, None);
    } else if action == "reject" {
      update := StatusUpdate(Some(false), false, None);
    } else if action == "reschedule" {
      update := StatusUpdate(Some(false), true, None);
    } else if action == "pending" {
      update := StatusUpdate(None, false, None);
    } else {
      return BAD_REQUEST, Failure("Invalid action");
    }
    if statusMessage != "" {
      update := update.(statusMessage := Some(statusMessage));
    }

    var found := Find(store.docs, id);
    if found.None? {
      return OK, NoRecord;
    }
    var updated := ApplyUpdate(store.docs[found.value].rec, update);
    assert updated == WithStatus(store.docs[found.value].rec, ParseAction(action).value, statusMessage);
    StatusKeepsFlagsConsistent(store.docs[found.value].rec, ParseAction(action).value, statusMessage);
    PutKeepsWellFormed(store.docs, id, updated);
    store.docs := Put(store.docs, id, updated);
    status, reply := OK, Record(Doc(id, updated));
  }

  // ------------------------------------------------------------ PATCH /:id

  /** The detail fields the patient may amend; "" leaves a field as it was. */
  datatype DetailsEdit = DetailsEdit(date: string, time: string, doctorId: string, department: string)

  /** The appointment after the reschedule edit. */
  function Rescheduled(a: Appointment, e: DetailsEdit): (r: Appointment)
    ensures r.isRescheduled && r.isApproved == Some(false)
    ensures r.date == (if e.date != "" then e.date else a.date)
    ensures r.time == (if e.time != "" then e.time else a.time)
    ensures r.doctorId == (if e.doctorId != "" then e.doctorId else a.doctorId)
    ensures r.department == (if e.department != "" then e.department else a.department)
    ensures r.name == a.name && r.email == a.email && r.gender == a.gender && r.phoneNo == a.phoneNo
    ensures r.message == a.message && r.statusMessage == a.statusMessage && r.isActive == a.isActive
  {
    a.(date := if e.date != "" then e.date else a.date,
       time := if e.time != "" then e.time else a.time,
       doctorId := if e.doctorId != "" then e.doctorId else a.doctorId,
       department := if e.department != "" then e.department else a.department,
       isRescheduled := true, isApproved := Some(false))
  }

  /** An edit that supplies nothing still reopens the approval. */
  lemma EmptyEditReopens(a: Appointment)
    ensures Rescheduled(a, DetailsEdit("", "", "", "")) == a.(isRescheduled := true, isApproved := Some(false))
  {
  }

  /** Editing twice with the same fields is the same as editing once. */
  lemma RescheduleIdempotent(a: Appointment, e: DetailsEdit)
    ensures Rescheduled(Rescheduled(a, e), e) == Rescheduled(a, e)
  {
  }

  /**
   * PATCH /:id : 404 for an unknown key; otherwise the fetched appointment
   * takes each supplied detail, is marked rescheduled and unapproved, and
   * is saved.
   */
  method EditDetails(store: AppointmentStore, id: Id, e: DetailsEdit) returns (status: int, reply: Reply)
    requires store.Valid()
    modifies store
    ensures store.Valid()
    ensures id !in Keys(old(store.docs)) ==>
      status == NOT_FOUND && reply == Failure("Appointment not found") && store.docs == old(store.docs)
    ensures id in Keys(old(store.docs)) ==>
      var a := Rescheduled(old(store.docs)[Find(old(store.docs), id).value].rec, e);
      status == OK && reply == Record(Doc(id, a)) && store.docs == Put(old(store.docs), id, a)
  {
    var found := Find(store.docs, id);
    if found.None? {
      return NOT_FOUND, Failure("Appointment not found");
    }
    var appointment := store.docs[found.value].rec;
    if e.date != "" {
      appointment := appointment.(date := e.date);
    }
    if e.time != "" {
      appointment := appointment.(time := e.time);
    }
    if e.doctorId != "" {
      appointment := appointment.(doctorId := e.doctorId);
    }
    if e.department != "" {
      appointment := appointment.(department := e.department);
    }
    appointment := appointment.(isRescheduled := true);
    appointment := appointment.(isApproved := Some(false));

    PutKeepsWellFormed(store.docs, id, appointment);
    store.docs := Put(store.docs, id, appointment);
    status, reply := OK, Record(Doc(id, appointment));
  }

  // ------------------------------------------------------------- queries

  function ForDoctor(doctorId: string): Doc<Appointment> -> bool {
    (d: Doc<Appointment>) => d.rec.doctorId == doctorId
  }

  function OnDate(doctorId: string, date: string): Doc<Appointment> -> bool {
    (d: Doc<Appointment>) => d.rec.doctorId == doctorId && d.rec.date == date
  }

  predicate ApprovedAndActive(d: Doc<Appointment>) {
    d.rec.isApproved == Some(true) && d.rec.isActive
  }

  function ApprovedActiveFor(profileId: string): Doc<Appointment> -> bool {
    (d: Doc<Appointment>) => d.rec.doctorId == profileId && ApprovedAndActive(d)
  }

  /** GET /:doctorId : every appointment booked with that doctor, in collection order. */
  function ByDoctor(docs: seq<Doc<Appointment>>, doctorId: string): (r: seq<Doc<Appointment>>)
    ensures forall i :: 0 <= i < |r| ==> r[i] in docs && r[i].rec.doctorId == doctorId
    ensures forall i :: 0 <= i < |docs| && docs[i].rec.doctorId == doctorId ==> docs[i] in r
  {
    Select(docs, ForDoctor(doctorId))
  }

  /** The `time` of each appointment, in order (the `.select("time")` projection). */
  function TimesOf(s: seq<Doc<Appointment>>): (r: seq<string>)
    ensures |r| == |s| && forall k :: 0 <= k < |s| ==> r[k] == s[k].rec.time
  {
    seq(|s|, k requires 0 <= k < |s| => s[k].rec.time)
  }

  /**
   * GET /:doctorId/:date : exactly the times of the appointments that match
   * both the doctor and the date, one per appointment.
   */
  function TimesOn(docs: seq<Doc<Appointment>>, doctorId: string, date: string): (r: seq<string>)
    ensures |r| == Count(docs, OnDate(doctorId, date))
    ensures forall t :: t in r <==>
      exists i :: 0 <= i < |docs| && docs[i].rec.doctorId == doctorId && docs[i].rec.date == date
                  && docs[i].rec.time == t
  {
    CountIsSelectLength(docs, OnDate(doctorId, date));
    TimesOfSelect(docs, OnDate(doctorId, date));
    TimesOf(Select(docs, OnDate(doctorId, date)))
  }

  /** The projected times of a filter are exactly the times of the matching records. */
  lemma TimesOfSelect(docs: seq<Doc<Appointment>>, p: Doc<Appointment> -> bool)
    ensures forall i :: 0 <= i < |docs| && p(docs[i]) ==> docs[i].rec.time in TimesOf(Select(docs, p))
    ensures forall t :: t in TimesOf(Select(docs, p)) ==>
      exists i :: 0 <= i < |docs| && p(docs[i]) && docs[i].rec.time == t
  {
    forall i | 0 <= i < |docs| && p(docs[i]) ensures docs[i].rec.time in TimesOf(Select(docs, p)) {
      SelectedTimeListed(docs, p, i);
    }
    forall t | t in TimesOf(Select(docs, p))
      ensures exists i :: 0 <= i < |docs| && p(docs[i]) && docs[i].rec.time == t
    {
      var i := ListedTimeSelected(docs, p, t);
    }
  }

  lemma SelectedTimeListed(docs: seq<Doc<Appointment>>, p: Doc<Appointment> -> bool, i: nat)
    requires i < |docs| && p(docs[i])
    ensures docs[i].rec.time in TimesOf(Select(docs, p))
  {
    var sel := Select(docs, p);
    assert docs[i] in sel;
    var k :| 0 <= k < |sel| && sel[k] == docs[i];
    assert TimesOf(sel)[k] == docs[i].rec.time;
  }

  lemma ListedTimeSelected(docs: seq<Doc<Appointment>>, p: Doc<Appointment> -> bool, t: string)
    returns (i: nat)
    requires t in TimesOf(Select(docs, p))
    ensures i < |docs| && p(docs[i]) && docs[i].rec.time == t
  {
    var sel := Select(docs, p);
    var times := TimesOf(sel);
    var k :| 0 <= k < |times| && times[k] == t;
    assert sel[k] in docs && p(sel[k]);
    i :| 0 <= i < |docs| && docs[i] == sel[k];
  }

  /** GET /approved-active : every appointment that is approved and active. */
  function ApprovedActive(docs: seq<Doc<Appointment>>): (r: seq<Doc<Appointment>>)
    ensures forall i :: 0 <= i < |r| ==> r[i] in docs && r[i].rec.isApproved == Some(true) && r[i].rec.isActive
    ensures forall i :: 0 <= i < |docs| && docs[i].rec.isApproved == Some(true) && docs[i].rec.isActive ==>
      docs[i] in r
  {
    Select(docs, ApprovedAndActive)
  }

  /** GET /approved-active/:profileId : the approved, active appointments of one doctor. */
  function ApprovedActiveOf(docs: seq<Doc<Appointment>>, profileId: string): (r: seq<Doc<Appointment>>)
    ensures forall i :: 0 <= i < |r| ==>
      r[i] in docs && r[i].rec.doctorId == profileId && r[i].rec.isApproved == Some(true) && r[i].rec.isActive
    ensures forall i :: 0 <= i < |docs| && docs[i].rec.doctorId == profileId && ApprovedAndActive(docs[i]) ==>
      docs[i] in r
  {
    Select(docs, ApprovedActiveFor(profileId))
  }

  datatype Distribution = Distribution(totalMale: nat, totalFemale: nat)

  /** Matched by the aggregation's `$match` stage and counted under `gender`. */
  function CountedAs(profileId: string, gender: string): Doc<Appointment> -> bool {
    (d: Doc<Appointment>) => ApprovedActiveFor(profileId)(d) && d.rec.gender == gender
  }

  /**
   * GET /gender-distribution/:profileId : among the doctor's approved,
   * active appointments, how many have gender exactly "male" and exactly
   * "female"; any other gender is in neither count, and no match gives 0, 0.
   */
  function GenderDistribution(docs: seq<Doc<Appointment>>, profileId: string): (r: Distribution)
    ensures r.totalMale + r.totalFemale <= |ApprovedActiveOf(docs, profileId)|
    ensures ApprovedActiveOf(docs, profileId) == [] ==> r == Distribution(0, 0)
  {
    CountDisjointBound(docs, CountedAs(profileId, "male"), CountedAs(profileId, "female"),
                       ApprovedActiveFor(profileId));
    CountIsSelectLength(docs, ApprovedActiveFor(profileId));
    Distribution(Count(docs, CountedAs(profileId, "male")), Count(docs, CountedAs(profileId, "female")))
  }

  /** GET /appointments/:doctorId : 404 unless a doctor has that storage key, else the matching times. */
  function TimesForDoctorKey(doctors: seq<Doc<DoctorModel.Doctor>>, docs: seq<Doc<Appointment>>, doctorKey: Id)
    : (r: (int, seq<string>))
    ensures r.0 == NOT_FOUND <==> doctorKey !in Keys(doctors)
    ensures r.0 != NOT_FOUND ==> r.0 == OK && r.1 == TimesOf(ByDoctor(docs, doctorKey))
    ensures r.0 == NOT_FOUND ==> r.1 == []
  {
    if Find(doctors, doctorKey).None? then (NOT_FOUND, []) else (OK, TimesOf(ByDoctor(docs, doctorKey)))
  }

  // -------------------------------------------- how operations move queries

  /** A new booking is pending, so it leaves every gender distribution as it was. */
  lemma {:induction false} CreateKeepsDistribution(docs: seq<Doc<Appointment>>, key: Id, b: Booking, profileId: string)
    ensures GenderDistribution(docs + [Doc(key, NewAppointment(b))], profileId) == GenderDistribution(docs, profileId)
  {
    var d := Doc(key, NewAppointment(b));
    CountAppend(docs, [d], CountedAs(profileId, "male"));
    CountAppend(docs, [d], CountedAs(profileId, "female"));
  }

  /** A new booking is pending, so it does not appear among the approved, active appointments. */
  lemma {:induction false} CreateKeepsApprovedActive(docs: seq<Doc<Appointment>>, key: Id, b: Booking)
    ensures ApprovedActive(docs + [Doc(key, NewAppointment(b))]) == ApprovedActive(docs)
  {
    SelectAppend(docs, [Doc(key, NewAppointment(b))], ApprovedAndActive);
  }

  /** Nor among one doctor's approved, active appointments. */
  lemma {:induction false} CreateKeepsApprovedActiveOf(docs: seq<Doc<Appointment>>, key: Id, b: Booking, profileId: string)
    ensures ApprovedActiveOf(docs + [Doc(key, NewAppointment(b))], profileId) == ApprovedActiveOf(docs, profileId)
  {
    SelectAppend(docs, [Doc(key, NewAppointment(b))], ApprovedActiveFor(profileId));
  }

  /**
   * A new booking is added to the end of its doctor's list, and its time to
   * that doctor's times for its date, even when an identical booking exists.
   */
  lemma {:induction false} CreateAppendsToQueries(docs: seq<Doc<Appointment>>, key: Id, b: Booking)
    ensures ByDoctor(docs + [Doc(key, NewAppointment(b))], b.doctorId) == ByDoctor(docs, b.doctorId) + [Doc(key, NewAppointment(b))]
    ensures TimesOn(docs + [Doc(key, NewAppointment(b))], b.doctorId, b.date) == TimesOn(docs, b.doctorId, b.date) + [b.time]
  {
    var d := Doc(key, NewAppointment(b));
    SelectAppend(docs, [d], ForDoctor(b.doctorId));
    SelectAppend(docs, [d], OnDate(b.doctorId, b.date));
    assert Select([d], OnDate(b.doctorId, b.date)) == [d];
  }

  /**
   * Approving an active appointment counts it once in its doctor's
   * distribution under its gender, if that gender is "male".
   */
  lemma {:induction false} ApproveCountsMale(docs: seq<Doc<Appointment>>, id: Id, m: string)
    requires WellFormed(docs) && id in Keys(docs)
    requires var a := docs[Find(docs, id).value].rec; a.isActive && a.gender == "male" && a.isApproved != Some(true)
    ensures var a := docs[Find(docs, id).value].rec;
      GenderDistribution(Put(docs, id, WithStatus(a, Approve, m)), a.doctorId).totalMale
        == GenderDistribution(docs, a.doctorId).totalMale + 1
  {
    var i := Find(docs, id).value;
    var a := docs[i].rec;
    CountUpdate(docs, i, Doc(id, WithStatus(a, Approve, m)), CountedAs(a.doctorId, "male"));
  }

  /**
   * The reschedule edit takes an appointment out of every gender
   * distribution and out of the approved, active list: the count it was
   * in drops by one.
   */
  lemma {:induction false} EditUncountsMale(docs: seq<Doc<Appointment>>, id: Id, e: DetailsEdit)
    requires WellFormed(docs) && id in Keys(docs)
    requires var a := docs[Find(docs, id).value].rec; a.isActive && a.gender == "male" && a.isApproved == Some(true)
    ensures var a := docs[Find(docs, id).value].rec;
      GenderDistribution(Put(docs, id, Rescheduled(a, e)), a.doctorId).totalMale
        == GenderDistribution(docs, a.doctorId).totalMale - 1
  {
    var i := Find(docs, id).value;
    var a := docs[i].rec;
    CountUpdate(docs, i, Doc(id, Rescheduled(a, e)), CountedAs(a.doctorId, "male"));
  }

  function HasGender(gender: string): Doc<Appointment> -> bool {
    (d: Doc<Appointment>) => d.rec.gender == gender
  }

  /** How many of the doctor's approved, active appointments have exactly this gender. */
  lemma {:induction false} CountedIsFilteredCount(docs: seq<Doc<Appointment>>, profileId: string, gender: string)
    ensures Count(docs, CountedAs(profileId, gender)) == |Select(ApprovedActiveOf(docs, profileId), HasGender(gender))|
  {
    SelectSelect(docs, ApprovedActiveFor(profileId), HasGender(gender), CountedAs(profileId, gender));
    CountIsSelectLength(docs, CountedAs(profileId, gender));
  }

  /**
   * The aggregation's two totals are the numbers of exactly "male" and
   * exactly "female" records among the doctor's approved, active ones.
   */
  lemma GenderCountsAreFilteredCounts(docs: seq<Doc<Appointment>>, profileId: string)
    ensures GenderDistribution(docs, profileId).totalMale
      == |Select(ApprovedActiveOf(docs, profileId), HasGender("male"))|
    ensures GenderDistribution(docs, profileId).totalFemale
      == |Select(ApprovedActiveOf(docs, profileId), HasGender("female"))|
  {
    CountedIsFilteredCount(docs, profileId, "male");
    CountedIsFilteredCount(docs, profileId, "female");
  }

  lemma {:induction false} SelectSelect<T>(s: seq<T>, p: T -> bool, q: T -> bool, pq: T -> bool)
    requires forall x :: pq(x) == (p(x) && q(x))
    ensures Select(Select(s, p), q) == Select(s, pq)
  {
    if |s| > 0 {
      SelectAppend(if p(s[0]) then [s[0]] else [], Select(s[1..], p), q);
      SelectSelect(s[1..], p, q, pq);
    }
  }
}
