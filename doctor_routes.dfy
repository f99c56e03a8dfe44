/**
 * The doctor routes (routes/doctorRoutes.js): the validated profile form
 * behind the upload gate, lookup, visibility toggle and deletion by the
 * public doctorId, and the doctor login.
 */
module DoctorRoutes {
  import opened Wrappers
  import opened Text
  import opened Collection
  import opened Http
  import opened Upload
  import opened Auth
  import opened DoctorModel

  /** The JSON body a route answers with. */
  datatype Reply =
    | Record(doc: Doc<Doctor>)
    | Message(message: string)
    | Invalid(errors: seq<FieldError>)
    | UploadRejected(msg: string)                  // `{ errors: [{ msg }] }` from the upload gate
    | Toggled(message: string, doctorId: string, isActive: bool)
    | Deleted(message: string, doctorId: string)
    | LoggedIn(token: Token, name: string)

  // ------------------------------------------------------------- POST /

  /** The outcome of `JSON.parse` on a form field that should hold an array. */
  datatype Parsed<T> = Unparsable | NotAnArray | ArrayOf(items: seq<T>)

  predicate NonEmptyArray<T>(p: Parsed<T>) {
    p.ArrayOf? && |p.items| > 0
  }

  /** The fields of the doctor form; "" stands for an absent field. */
  datatype DoctorForm = DoctorForm(
    name: string, education: string, department: string, about: string,
    experience: string, fees: string, speciality: string,
    youtubeLink: string, instagramLink: string, facebookLink: string,
    timeSlots: Parsed<TimeSlot>, workingDays: Parsed<string>)

  predicate FormAcceptable(f: DoctorForm) {
    && LettersAndSpaces(f.name)
    && f.education != "" && f.department != "" && f.about != ""
    && f.experience != "" && f.fees != "" && f.speciality != ""
    && NonEmptyArray(f.timeSlots) && NonEmptyArray(f.workingDays)
  }

  /** The validator chain of the doctor form, in chain order. */
  function DoctorErrors(f: DoctorForm): (errs: seq<FieldError>)
    ensures errs == [] <==> FormAcceptable(f)
    ensures !NonEmptyArray(f.timeSlots) ==>
      FieldError("timeSlots", "Time slots must be a non-empty array") in errs
    ensures !NonEmptyArray(f.workingDays) ==>
      FieldError("workingDays", "Working days must be a non-empty array") in errs
    ensures f.name == "" ==> FieldError("name", "Name is required") in errs
    ensures !LettersAndSpaces(f.name) ==>
      FieldError("name", "Name can only contain letters and spaces") in errs
    ensures f.education == "" ==> FieldError("education", "Education is required") in errs
    ensures f.department == "" ==> FieldError("department", "Department is required") in errs
    ensures f.about == "" ==> FieldError("about", "About is required") in errs
    ensures f.experience == "" ==> FieldError("experience", "Experience is required") in errs
    ensures f.fees == "" ==> FieldError("fees", "Fees is required") in errs
    ensures f.speciality == "" ==> FieldError("speciality", "Speciality is required") in errs
  {
    Check(f.name != "", "name", "Name is required")
    + Check(LettersAndSpaces(f.name), "name", "Name can only contain letters and spaces")
    + Check(f.education != "", "education", "Education is required")
    + Check(f.department != "", "department", "Department is required")
    + Check(f.about != "", "about", "About is required")
    + Check(f.experience != "", "experience", "Experience is required")
    + Check(f.fees != "", "fees", "Fees is required")
    + Check(f.speciality != "", "speciality", "Speciality is required")
    + Check(NonEmptyArray(f.timeSlots), "timeSlots", "Time slots must be a non-empty array")
    + Check(NonEmptyArray(f.workingDays), "workingDays", "Working days must be a non-empty array")
  }

  /** The record built from an accepted form, the drawn doctorId and the stored image path. */
  function NewDoctor(doctorId: string, f: DoctorForm, image: string): (d: Doctor)
    requires f.timeSlots.ArrayOf? && f.workingDays.ArrayOf?
    ensures d.doctorId == doctorId && d.name == f.name && d.image == image && d.isActive
    ensures d.timeSlots == f.timeSlots.items && d.workingDays == f.workingDays.items
  {
    Doctor(doctorId, f.name, f.education, f.department, f.about, f.experience, f.fees, image,
      f.youtubeLink, f.instagramLink, f.facebookLink, true, f.speciality,
      f.timeSlots.items, f.workingDays.items)
  }

  /**
   * POST / : the upload gate and the validator chain answer 400; a fees
   * value the Number cast refuses, or a doctorId or name already stored,
   * makes `save` fail with 500; otherwise the doctor is stored with 201.
   * `isNumeric` says whether Mongoose's Number cast accepts a text.
   */
  method Create(store: DoctorStore, file: Option<UploadedFile>, form: DoctorForm,
                isNumeric: string -> bool, newDoctorId: string, newKey: Id)
    returns (status: int, reply: Reply)
    requires store.Valid() && newKey !in Keys(store.docs) && newDoctorId != ""
    modifies store
    ensures store.Valid()
    ensures UploadError(file).Some? ==>
      status == BAD_REQUEST && reply == UploadRejected(UploadError(file).value) && store.docs == old(store.docs)
    ensures UploadError(file).None? && !FormAcceptable(form) ==>
      status == BAD_REQUEST && reply == Invalid(DoctorErrors(form)) && store.docs == old(store.docs)
    ensures UploadError(file).None? && FormAcceptable(form) ==>
      var d := NewDoctor(newDoctorId, form, file.value.path);
      if isNumeric(form.fees) && !Clashes(old(store.docs), d) then
        status == CREATED && reply == Record(Doc(newKey, d)) && store.docs == old(store.docs) + [Doc(newKey, d)]
      else
        status == SERVER_ERROR && reply == Message("Server Error") && store.docs == old(store.docs)
  {
    var uploadError := UploadError(file);
    if uploadError.Some? {
      return BAD_REQUEST, UploadRejected(uploadError.value);
    }
    var errors := DoctorErrors(form);
    if errors != [] {
      return BAD_REQUEST, Invalid(errors);
    }
    var d := NewDoctor(newDoctorId, form, file.value.path);
    if !isNumeric(form.fees) {
      return SERVER_ERROR, Message("Server Error");
    }
    var saved := store.Insert(newKey, d);
    if !saved {
      return SERVER_ERROR, Message("Server Error");
    }
    status, reply := CREATED, Record(Doc(newKey, d));
  }

  /** A doctor stored by the create route is the one the lookup by its doctorId finds. */
  lemma CreatedDoctorFound(docs: seq<Doc<Doctor>>, key: Id, d: Doctor)
    requires WellFormed(docs) && key !in Keys(docs)
    requires d.doctorId != "" && d.name != "" && !Clashes(docs, d)
    ensures Lookup(docs + [Doc(key, d)], d.doctorId) == (OK, Record(Doc(key, d)))
  {
    InsertKeepsWellFormed(docs, key, d);
    FindByDoctorIdUnique(docs + [Doc(key, d)], |docs|);
  }

  /** Once a name is stored, a second doctor with that name cannot be saved. */
  lemma NameTakenClashes(docs: seq<Doc<Doctor>>, key: Id, d: Doctor, d2: Doctor)
    requires d2.name == d.name
    ensures Clashes(docs + [Doc(key, d)], d2)
  {
    assert (docs + [Doc(key, d)])[|docs|].rec.name == d2.name;
  }

  // ------------------------------- GET /:doctorId and GET /profile/:profileId

  /** The doctor with that public id, or 404; both lookup routes answer with the same record. */
  function Lookup(docs: seq<Doc<Doctor>>, doctorId: string): (r: (int, Reply))
    ensures r.0 == OK <==> exists i :: 0 <= i < |docs| && docs[i].rec.doctorId == doctorId
    ensures r.0 == OK ==> r.1.Record? && r.1.doc in docs && r.1.doc.rec.doctorId == doctorId
    ensures r.0 != OK ==> r == (NOT_FOUND, Message("Doctor not found"))
  {
    match FindByDoctorId(docs, doctorId)
    case None => (NOT_FOUND, Message("Doctor not found"))
    case Some(i) => (OK, Record(docs[i]))
  }

  // ----------------------------------------- PATCH /:doctorId/toggle-active

  function ToggledDoctor(d: Doctor): Doctor { d.(isActive := !d.isActive) }

  /** PATCH /:doctorId/toggle-active : 404 for an unknown id, otherwise the doctor's flag is flipped and saved. */
  method ToggleActive(store: DoctorStore, doctorId: string) returns (status: int, reply: Reply)
    requires store.Valid()
    modifies store
    ensures store.Valid()
    ensures FindByDoctorId(old(store.docs), doctorId).None? ==>
      status == NOT_FOUND && reply == Message("Doctor not found") && store.docs == old(store.docs)
    ensures FindByDoctorId(old(store.docs), doctorId).Some? ==>
      var doc := old(store.docs)[FindByDoctorId(old(store.docs), doctorId).value];
      && status == OK && store.docs == Put(old(store.docs), doc.id, ToggledDoctor(doc.rec))
      && reply == Toggled("Doctor's active status toggled successfully", doctorId, !doc.rec.isActive)
  {
    var found := FindByDoctorId(store.docs, doctorId);
    if found.None? {
      return NOT_FOUND, Message("Doctor not found");
    }
    var doc := store.docs[found.value];
    var doctor := doc.rec.(isActive := !doc.rec.isActive);
    PutKeepsWellFormed(store.docs, found.value, doctor);
    store.docs := Put(store.docs, doc.id, doctor);
    status, reply := OK, Toggled("Doctor's active status toggled successfully", doctor.doctorId, doctor.isActive);
  }

  /** Toggling the same doctor twice leaves the collection as it was. */
  lemma ToggleTwiceRestores(docs: seq<Doc<Doctor>>, doctorId: string)
    requires WellFormed(docs) && FindByDoctorId(docs, doctorId).Some?
    ensures
      var doc := docs[FindByDoctorId(docs, doctorId).value];
      var d1 := Put(docs, doc.id, ToggledDoctor(doc.rec));
      FindByDoctorId(d1, doctorId).Some? &&
      var doc1 := d1[FindByDoctorId(d1, doctorId).value];
      Put(d1, doc1.id, ToggledDoctor(doc1.rec)) == docs
  {
    var i := FindByDoctorId(docs, doctorId).value;
    var doc := docs[i];
    var d1 := Put(docs, doc.id, ToggledDoctor(doc.rec));
    PutKeepsWellFormed(docs, i, ToggledDoctor(doc.rec));
    assert d1[i] == Doc(doc.id, ToggledDoctor(doc.rec));
    FindByDoctorIdUnique(d1, i);
    assert Find(docs, doc.id) == Some(i);
    PutTwiceInvolution(docs, doc.id, ToggledDoctor);
  }

  // ------------------------------------------------------ DELETE /:doctorId

  /**
   * DELETE /:doctorId : 404 for an unknown id; when removing the image file
   * fails, 500 and the doctor stays; otherwise the doctor is removed.
   */
  method Delete(store: DoctorStore, doctorId: string, unlinkSucceeds: bool) returns (status: int, reply: Reply)
    requires store.Valid()
    modifies store
    ensures store.Valid()
    ensures FindByDoctorId(old(store.docs), doctorId).None? ==>
      status == NOT_FOUND && reply == Message("Doctor not found") && store.docs == old(store.docs)
    ensures FindByDoctorId(old(store.docs), doctorId).Some? && !unlinkSucceeds ==>
      status == SERVER_ERROR && reply == Message("Error deleting image file") && store.docs == old(store.docs)
    ensures FindByDoctorId(old(store.docs), doctorId).Some? && unlinkSucceeds ==>
      var k := FindByDoctorId(old(store.docs), doctorId).value;
      && status == OK && reply == Deleted("Doctor and image deleted successfully", doctorId)
      && store.docs == old(store.docs)[..k] + old(store.docs)[k + 1..]
      && |store.docs| == |old(store.docs)| - 1
      && forall i :: 0 <= i < |store.docs| ==> store.docs[i].rec.doctorId != doctorId
  {
    var found := FindByDoctorId(store.docs, doctorId);
    if found.None? {
      return NOT_FOUND, Message("Doctor not found");
    }
    if !unlinkSucceeds {
      return SERVER_ERROR, Message("Error deleting image file");
    }
    RemoveKeepsWellFormed(store.docs, found.value);
    store.docs := RemoveFirst(store.docs, HasDoctorId(doctorId));
    status, reply := OK, Deleted("Doctor and image deleted successfully", doctorId);
  }

  // --------------------------------------------------------- POST /login

  /** The stored bcrypt digest of a doctor: the schema declares no password path, so there is none. */
  function StoredPassword(d: Doctor): Option<Hash> {
    None
  }

  /**
   * POST /login : empty fields answer 400, an unknown doctorId 404; then
   * bcrypt compares against the stored digest, and its rejection is
   * caught as 500, a mismatch is 400 and a match signs a token.
   */
  function Login(docs: seq<Doc<Doctor>>, doctorId: string, password: string): (r: (int, Reply))
    ensures r.0 == BAD_REQUEST && r.1.Invalid? <==> doctorId == "" || password == ""
    ensures doctorId != "" && password != "" && FindByDoctorId(docs, doctorId).None? ==>
      r == (NOT_FOUND, Message("Doctor not found"))
    ensures r.0 == OK ==> exists i :: 0 <= i < |docs| && r.1 == LoggedIn(Token(docs[i].id, None), docs[i].rec.name)
  {
    var errors := Check(doctorId != "", "doctorId", "Doctor ID is required")
      + Check(password != "", "password", "Password is required");
    if errors != [] then (BAD_REQUEST, Invalid(errors))
    else match FindByDoctorId(docs, doctorId)
      case None => (NOT_FOUND, Message("Doctor not found"))
      case Some(i) =>
        var doc := docs[i];
        match Compare(password, StoredPassword(doc.rec))
        case Rejected => (SERVER_ERROR, Message("Server Error"))
        case Mismatch => (BAD_REQUEST, Message("Invalid password"))
        case Match => (OK, LoggedIn(Token(doc.id, None), doc.rec.name))
  }

  /** No doctor can log in: every known doctorId with a password answers 500. */
  lemma KnownDoctorLoginFails(docs: seq<Doc<Doctor>>, doctorId: string, password: string)
    requires doctorId != "" && password != "" && FindByDoctorId(docs, doctorId).Some?
    ensures Login(docs, doctorId, password) == (SERVER_ERROR, Message("Server Error"))
  {
  }
}
