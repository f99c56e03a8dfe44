# Clinic backend: verified model of the route logic

This project models the request-handling core of an Express/Mongoose
clinic backend in Dafny. The backend serves appointments, blog posts,
contact messages, doctors, admins and login credentials. Each Mongoose
collection is a store object that holds its documents as a sequence of
`Doc(id, rec)` values in collection order.
`findOne` picks the first match, `findById` looks a document up by its key,
`save` and `findByIdAndUpdate` overwrite the record under a key, `deleteOne`
removes the first match, and `find` selects every match in order
(module `Collection`).

Each route is a method or a function. It takes its store and the request
fields and returns the HTTP status together with the JSON body. Every
request field is a string, and the empty string stands for a field the
request left out. Validator chains are modelled as the ordered list of
express-validator field errors they produce. The chains run without
`bail`, so one field can report several messages.

The following outside values are parameters of the model:

- validator.js `isEmail`;
- Mongoose's `Number` cast (doctor fees);
- the outcome of `fs.unlink`;
- the uuid generator, the salt bcrypt draws, and the storage key a new
  document receives.

bcrypt and jwt are modelled symbolically (module `Auth`). A digest is
represented by the secret and salt it was computed from, and a token by
the payload it signs. `bcrypt.compare` reads only the first 72 bytes of a
password's UTF-8 encoding, so the model compares those bytes (module
`Text` holds the encoding).

Each store class carries an invariant (`Valid`): keys are unique,
required paths are present, and the schema's unique indexes hold. Every
route method that changes a store preserves that invariant. Every such
method also states the store's whole new state as a function of the old
one, for every outcome, including each error path and its status code.
Lemmas beside the routes relate operations to each other. For example:

- toggling twice restores the collection;
- a like followed by an unlike restores the post;
- a new booking leaves every approved-appointment query unchanged;
- registering and then logging in opens a session.

Three modelling choices need stating:

- The `pending` status action writes `isApproved: undefined` in the update
  (appointmentRoutes.js:203). The model clears the flag, which is what
  Mongoose releases before 7 do. Mongoose 7 and later strip undefined
  update keys and would leave the flag as it was.
- The doctor schema declares no `password` path (DoctorModel.js:10-26). So
  `doctor.password` is undefined, `bcrypt.compare` rejects, and doctor
  login answers 500 for every known doctorId. The model keeps the
  mismatch (400) and token branches of the route, but proves them
  unreachable (`DoctorRoutes.KnownDoctorLoginFails`).
- `AdminModel` is not part of this model. The admin record holds the paths
  the admin routes write and read, with `isActive` defaulting to true and
  no unique index.

## Model

| member | source | states |
|---|---|---|
| AppointmentModel.NewAppointment | backend/models/Appointment.js:3-17 | a new appointment keeps the booking fields, is active, has no approval flag, is not rescheduled and has status message "Pending" |
| AppointmentModel.NewAppointmentConsistent | backend/models/Appointment.js:4-16 | a new appointment satisfies the flag invariant, and has every required path exactly when the booking supplies all eight required fields (message is optional) |
| AppointmentModel.DoubleBookingAllowed | backend/models/Appointment.js:7 | doctorId carries no unique index: two identical bookings under different keys form a well-formed collection |
| AppointmentModel.AppointmentStore.constructor | backend/models/Appointment.js:19 | an empty collection satisfies the invariant |
| AppointmentRoutes.BookingErrors | backend/routes/appointmentRoutes.js:78-94 | the chain reports no error exactly when every booking rule holds, and each of the ten rules that fails reports its own message |
| AppointmentRoutes.AcceptedBookingStorable | backend/routes/appointmentRoutes.js:78-94 | a booking the chain accepts gives a record with every required path and consistent flags |
| AppointmentRoutes.Create | backend/routes/appointmentRoutes.js:96-106 | a failed rule answers 400 with every error and stores nothing; otherwise exactly one appointment with the defaults is appended and echoed with 201 |
| AppointmentRoutes.CreatedAsWritten | backend/routes/appointmentRoutes.js:104 | the record `Appointment.create(req.body)` stores keeps the booking fields, and with no status fields in the body equals the defaults |
| AppointmentRoutes.SelfApprovedBooking | backend/routes/appointmentRoutes.js:104 | a body carrying isApproved and isRescheduled is stored approved, with flags no status action can produce |
| AppointmentRoutes.ParseAction | backend/routes/appointmentRoutes.js:196-205 | exactly the four action words are recognised; anything else is rejected |
| AppointmentRoutes.WithStatus | backend/routes/appointmentRoutes.js:194-218 | the action sets both flags by the table, the message changes only when a non-empty one is given, and the booking fields and isActive are untouched |
| AppointmentRoutes.StatusTable | backend/routes/appointmentRoutes.js:196-203 | approve gives (true, false), reject (false, false), reschedule (false, true), pending (unset, false) |
| AppointmentRoutes.StatusKeepsFlagsConsistent | backend/routes/appointmentRoutes.js:196-211 | every action leaves a rescheduled appointment unapproved and keeps the required paths |
| AppointmentRoutes.PutKeepsWellFormed | backend/routes/appointmentRoutes.js:214-218 | overwriting a record with one that keeps the invariant keeps the collection well formed |
| AppointmentRoutes.UpdateStatus | backend/routes/appointmentRoutes.js:191-219 | an unknown action answers 400 "Invalid action" and changes nothing; an unknown key answers 200 with a null body and changes nothing; otherwise only that appointment is replaced by its status update |
| AppointmentRoutes.Rescheduled | backend/routes/appointmentRoutes.js:279-294 | each supplied detail replaces the old value, an empty one keeps it, the result is rescheduled and unapproved, and name, email, gender, phone, message, statusMessage and isActive are kept |
| AppointmentRoutes.EmptyEditReopens | backend/routes/appointmentRoutes.js:292-294 | an edit that supplies nothing still reopens approval |
| AppointmentRoutes.RescheduleIdempotent | backend/routes/appointmentRoutes.js:279-294 | repeating the same edit changes nothing further |
| AppointmentRoutes.EditDetails | backend/routes/appointmentRoutes.js:261-300 | an unknown key answers 404 "Appointment not found" and changes nothing; otherwise only that appointment is replaced by the edited record, and the result is echoed |
| AppointmentRoutes.ByDoctor | backend/routes/appointmentRoutes.js:227-232 | the result holds exactly the appointments booked with that doctorId |
| AppointmentRoutes.TimesOf | backend/routes/appointmentRoutes.js:247-251 | the projection lists each record's time, position by position |
| AppointmentRoutes.TimesOn | backend/routes/appointmentRoutes.js:239-253 | one time per appointment matching both doctorId and date, and a time is listed exactly when such an appointment has it |
| AppointmentRoutes.TimesOfSelect | backend/routes/appointmentRoutes.js:244-251 | the times of a filtered list are exactly the times of the records the filter accepts |
| AppointmentRoutes.SelectedTimeListed | backend/routes/appointmentRoutes.js:244-251 | the time of every matching record is listed |
| AppointmentRoutes.ListedTimeSelected | backend/routes/appointmentRoutes.js:244-251 | every listed time belongs to some matching record |
| AppointmentRoutes.ApprovedActive | backend/routes/appointmentRoutes.js:144-150 | the result holds exactly the approved and active appointments |
| AppointmentRoutes.ApprovedActiveOf | backend/routes/appointmentRoutes.js:161-169 | the result holds exactly the approved and active appointments of that doctorId |
| AppointmentRoutes.GenderDistribution | backend/routes/appointmentRoutes.js:115-136 | the two totals together never exceed the doctor's approved and active appointments, and no match gives {0, 0} |
| AppointmentRoutes.CountedIsFilteredCount | backend/routes/appointmentRoutes.js:120-131 | the aggregation's count for a gender is the number of records of exactly that gender among the doctor's approved and active ones |
| AppointmentRoutes.GenderCountsAreFilteredCounts | backend/routes/appointmentRoutes.js:121-131 | totalMale and totalFemale count exactly "male" and exactly "female" records among the doctor's approved and active ones |
| AppointmentRoutes.TimesForDoctorKey | backend/routes/appointmentRoutes.js:9-30 | 404 unless a doctor has that storage key; otherwise the times of the appointments whose doctorId equals the key |
| AppointmentRoutes.CreateKeepsDistribution | backend/routes/appointmentRoutes.js:120-131 | a new, pending booking changes no gender distribution |
| AppointmentRoutes.CreateKeepsApprovedActive | backend/routes/appointmentRoutes.js:144-150 | a new booking does not appear among the approved and active appointments |
| AppointmentRoutes.CreateKeepsApprovedActiveOf | backend/routes/appointmentRoutes.js:161-169 | a new booking does not appear among a doctor's approved and active appointments |
| AppointmentRoutes.CreateAppendsToQueries | backend/routes/appointmentRoutes.js:229-251 | a new booking is added to the end of its doctor's list, and its time to that doctor's times for its date |
| AppointmentRoutes.ApproveCountsMale | backend/routes/appointmentRoutes.js:196-197 | approving an active "male" appointment that was not approved raises its doctor's totalMale by one |
| AppointmentRoutes.EditUncountsMale | backend/routes/appointmentRoutes.js:293-294 | the reschedule edit of an approved, active "male" appointment lowers its doctor's totalMale by one |
| AppointmentRoutes.SelectSelect | backend/routes/appointmentRoutes.js:121 | filtering twice is filtering once by both conditions |
| BlogModel.NewBlog | backend/models/BlogModel.js:22-32 | a new post is active and has zero likes and zero views |
| BlogModel.LikeUnlikeInverse | backend/models/BlogModel.js:44-52 | an unlike after a like restores the record, and the other way round |
| BlogModel.UnlikeBelowZero | backend/models/BlogModel.js:49-52 | the like count has no lower bound: unliking a post with zero likes gives -1 |
| BlogModel.CountersIndependent | backend/models/BlogModel.js:38-47 | a view leaves the likes unchanged and a like leaves the views unchanged; a like changes no other field |
| BlogModel.PutKeepsWellFormed | backend/models/BlogModel.js:6-30 | saving a post that has every required path keeps the collection well formed |
| BlogModel.BlogStore.constructor | backend/models/BlogModel.js:53 | an empty collection satisfies the invariant |
| BlogModel.BlogDocument.Hydrate | backend/routes/blogRoutes.js:111 | the fetched document holds the stored record under its key |
| BlogModel.BlogDocument.Save | backend/routes/blogRoutes.js:124 | the stored record under the document's key becomes the document's fields; nothing else changes |
| BlogModel.BlogDocument.IncrementViewCount | backend/models/BlogModel.js:38-41 | the view count rises by exactly one, the likes stay, and the document is saved |
| BlogModel.BlogDocument.IncrementLikeCount | backend/models/BlogModel.js:44-47 | the like count rises by exactly one, the views stay, and the document is saved |
| BlogModel.BlogDocument.DecrementLikeCount | backend/models/BlogModel.js:49-52 | the like count drops by exactly one, with no lower bound, and the document is saved |
| BlogRoutes.Filter | backend/routes/blogRoutes.js:10-24 | the flag is true exactly for the query "true"; the result holds exactly the posts whose isActive equals the flag; 404 exactly when the flag is true and no post is active |
| BlogRoutes.ValidateImage | backend/routes/blogRoutes.js:31-47 | rejects a missing file, a non-"image/" mimetype and a size over 10 MiB, each with its own message |
| BlogRoutes.ValidateImageAgreesWithUpload | backend/utils/multerConfig.js:28-57 | the blog image check and the upload gate accept exactly the same files, and agree on every message except the one for size |
| BlogRoutes.EditErrors | backend/routes/blogRoutes.js:94-98 | the edit chain accepts exactly when title, detail and authorName are all non-empty |
| BlogRoutes.NewBlogErrors | backend/routes/blogRoutes.js:50-62 | the create chain accepts exactly when the edit chain does and no stored post has the title, and reports "Title must be unique" when one does |
| BlogRoutes.EditMayDuplicateTitle | backend/routes/blogRoutes.js:94-98 | a form carrying a stored post's title fails the create chain but passes the edit chain |
| BlogRoutes.Create | backend/routes/blogRoutes.js:64-86 | the upload gate answers 400 first and then the chain answers 400, both storing nothing; otherwise exactly one post with the image path and the defaults is appended and echoed with 201 |
| BlogRoutes.CreatedTitleFresh | backend/routes/blogRoutes.js:50-56 | a post the create chain accepts shares its title with no stored post |
| BlogRoutes.Edited | backend/routes/blogRoutes.js:116-122 | the edit overwrites title, detail, authorName and image, and keeps visibility and both counters |
| BlogRoutes.Edit | backend/routes/blogRoutes.js:100-125 | the upload gate and the chain answer 400, and an unknown key answers 404, all changing nothing; otherwise only that post is replaced by the edited record |
| BlogRoutes.Get | backend/routes/blogRoutes.js:143-149 | 200 with the post under that key exactly when it exists, otherwise 404 "Blog not found" |
| BlogRoutes.ToggleActive | backend/routes/blogRoutes.js:156-166 | an unknown key answers 404 and changes nothing; otherwise only that post's isActive is negated and saved |
| BlogRoutes.ToggleTwiceRestores | backend/routes/blogRoutes.js:158-164 | toggling the same post twice leaves the collection as it was |
| BlogRoutes.Count | backend/routes/blogRoutes.js:173-201 | an unknown key answers 404 and changes nothing; otherwise the matching counter method moves that post's counter by one and saves it |
| BlogRoutes.LikeThenUnlikeRestores | backend/routes/blogRoutes.js:173-201 | a like route followed by an unlike route on the same post leaves the collection as it was |
| ContactModel.ContactStore.constructor | backend/models/ContactModel.js:32 | an empty collection satisfies the invariant |
| ContactRoutes.ContactErrors | backend/routes/contactRoutes.js:13-49 | the chain accepts exactly when every rule holds, and each of the twelve rules that fails reports its own message, including a stored email and a stored number |
| ContactRoutes.AcceptedKeepsWellFormed | backend/models/ContactModel.js:8-17 | appending an accepted contact keeps emails and numbers unique |
| ContactRoutes.Create | backend/routes/contactRoutes.js:51-59 | a failed rule answers 400 with every error and stores nothing; otherwise exactly that contact is appended and echoed with 201 |
| ContactRoutes.ResubmissionRefused | backend/routes/contactRoutes.js:23-28 | once a contact is stored, any submission with the same email is refused with "Email address is already registered" |
| DoctorModel.FindByDoctorId | backend/routes/doctorRoutes.js:155 | finds a doctor holding the doctorId, and finds none exactly when no doctor holds it |
| DoctorModel.FindByDoctorIdUnique | backend/models/DoctorModel.js:11 | with unique doctorIds, the lookup finds the one doctor holding the id |
| DoctorModel.InsertKeepsWellFormed | backend/models/DoctorModel.js:11-12 | appending a doctor whose doctorId and name are new keeps both unique indexes |
| DoctorModel.PutKeepsWellFormed | backend/models/DoctorModel.js:11-12 | overwriting a doctor with a record that keeps its doctorId and name keeps the collection well formed |
| DoctorModel.RemoveKeepsWellFormed | backend/models/DoctorModel.js:11-12 | removing a doctor keeps the collection well formed and leaves no doctor with that doctorId |
| DoctorModel.DoctorStore.constructor | backend/models/DoctorModel.js:28 | an empty collection satisfies the invariant |
| DoctorModel.DoctorStore.Insert | backend/models/DoctorModel.js:11-12 | the save succeeds exactly when doctorId and name are non-empty and neither is stored already; it appends on success and changes nothing otherwise |
| DoctorRoutes.DoctorErrors | backend/routes/doctorRoutes.js:71-109 | the chain accepts exactly when every rule holds, and each of the ten rules that fails reports its own message |
| DoctorRoutes.NewDoctor | backend/routes/doctorRoutes.js:119-142 | the new doctor has the drawn doctorId, the form's name, the image path, the parsed time slots and working days, and is active |
| DoctorRoutes.Create | backend/routes/doctorRoutes.js:67-150 | the upload gate and the chain answer 400; a fees value the Number cast refuses, or a doctorId or name already stored, answers 500; otherwise the doctor is appended and echoed with 201; nothing is stored on failure |
| DoctorRoutes.CreatedDoctorFound | backend/routes/doctorRoutes.js:153-160 | a doctor the create route stores is the one the lookup by its doctorId returns |
| DoctorRoutes.NameTakenClashes | backend/models/DoctorModel.js:12 | once a name is stored, a second doctor with that name cannot be saved |
| DoctorRoutes.Lookup | backend/routes/doctorRoutes.js:153-160 | both lookup routes answer 200 with a doctor holding that doctorId exactly when one exists, otherwise 404 "Doctor not found" |
| DoctorRoutes.ToggleActive | backend/routes/doctorRoutes.js:204-218 | an unknown doctorId answers 404 and changes nothing; otherwise only that doctor's isActive is negated and saved, and the answer carries the new flag |
| DoctorRoutes.ToggleTwiceRestores | backend/routes/doctorRoutes.js:206-212 | toggling the same doctor twice leaves the collection as it was |
| DoctorRoutes.Delete | backend/routes/doctorRoutes.js:167-196 | an unknown doctorId answers 404; a failed image removal answers 500 and keeps the doctor; otherwise exactly that doctor is removed and no doctor with the id remains |
| DoctorRoutes.Login | backend/routes/doctorRoutes.js:16-49 | 400 exactly when a field is empty; 404 for an unknown doctorId; a 200 carries a token for a stored doctor |
| DoctorRoutes.KnownDoctorLoginFails | backend/routes/doctorRoutes.js:37-41 | with no password path in the schema, every known doctorId with a password answers 500 |
| AdminRoutes.AdminErrors | backend/routes/adminRoutes.js:76-82 | the chain accepts exactly when the username is non-empty, the password has at least six characters, and the type is an integer above zero; each failing rule reports its own message |
| AdminRoutes.NewAdmin | backend/routes/adminRoutes.js:87-93 | the new admin has the drawn adminId, the username, a digest of the password, a positive type, and is active |
| AdminRoutes.Create | backend/routes/adminRoutes.js:73-101 | a failed rule answers 400 and stores nothing; otherwise exactly the new admin is appended and echoed with 201 |
| AdminRoutes.Login | backend/routes/adminRoutes.js:23-57 | 400 exactly when a field is empty; 404 exactly when no admin has the username; a stored username with any non-empty password answers 200 with a token for the first admin holding it |
| AdminRoutes.AnyPasswordAccepted | backend/routes/adminRoutes.js:44-48 | the stored digest plays no part: any two non-empty passwords get the same answer |
| AdminRoutes.CreatedAdminAcceptsWrongPassword | backend/routes/adminRoutes.js:39-56 | a newly created admin logs in with a password other than its own |
| AdminRoutes.Delete | backend/routes/adminRoutes.js:103-107 | always 200; the admin with that key, if any, is removed and every other key stays |
| AdminRoutes.ToggleActive | backend/routes/adminRoutes.js:114-122 | an unknown key answers 404 and changes nothing; otherwise only that admin's isActive is negated and saved |
| AdminRoutes.ToggleTwiceRestores | backend/routes/adminRoutes.js:116-121 | toggling the same admin twice leaves the collection as it was |
| CredentialsModel.InsertKeepsWellFormed | backend/models/CredentialsModel.js:3-22 | appending credentials whose username and digest are new keeps both unique indexes |
| CredentialsModel.CredentialsStore.constructor | backend/models/CredentialsModel.js:24 | an empty collection satisfies the invariant |
| CredentialsRoutes.CredentialsErrors | backend/routes/credentialsRoutes.js:9-14 | the chain accepts exactly when username, password and profileId are non-empty and the type is an integer above zero; each failing rule reports its own message |
| CredentialsRoutes.NewCredentials | backend/routes/credentialsRoutes.js:28-37 | the stored record has the username, a digest of the password, the positive numeric type and the profileId |
| CredentialsRoutes.Create | backend/routes/credentialsRoutes.js:21-44 | a failed rule answers 400; a username or digest already stored answers 500; otherwise exactly the new record is appended and echoed with 201 |
| CredentialsRoutes.Outcome | backend/routes/credentialsRoutes.js:66-98 | a digest mismatch answers 400; a match answers 200 with the type and profileId, a token exactly for type 1 and a docToken exactly for type 2 |
| CredentialsRoutes.LoginErrors | backend/routes/credentialsRoutes.js:16-19 | the login chain accepts exactly when username and password are non-empty; each failing rule reports its own message |
| CredentialsRoutes.LoginAsWritten | backend/routes/credentialsRoutes.js:50-101 | empty fields answer 400; an unknown username answers 500; a stored username answers what the password check on the first matching account gives |
| CredentialsRoutes.Login | backend/routes/credentialsRoutes.js:50-101 | empty fields answer 400; 404 "Credentials not found" exactly when no stored username matches; a stored username answers what the password check on the first matching account gives |
| CredentialsRoutes.StoredAccountLogin | backend/routes/credentialsRoutes.js:60-98 | with usernames unique, logging in with a stored username reaches exactly that account's password check |
| CredentialsRoutes.UnknownUsernameAnswers500 | backend/routes/credentialsRoutes.js:60-64 | for an unknown username the route as written answers 500 where 404 is intended |
| CredentialsRoutes.EmptyCollectionLogin | backend/routes/credentialsRoutes.js:60-64 | logging in against an empty collection answers 500 as written and 404 once corrected |
| CredentialsRoutes.KnownUsernameAgrees | backend/routes/credentialsRoutes.js:60-98 | for a stored username the corrected and as-written logins agree |
| CredentialsRoutes.RegisterThenLogin | backend/routes/credentialsRoutes.js:30-98 | after registering, the same password opens a session with the registered type and profileId; another password opens it exactly when its first 72 bytes equal the registered password's, and otherwise answers 400 |
| Auth.BcryptKey | backend/routes/credentialsRoutes.js:67 | bcrypt digests at most 72 bytes, and a password of up to 72 bytes is digested whole |
| Auth.Compare | backend/routes/credentialsRoutes.js:67 | bcrypt rejects when no digest is stored, and matches exactly when the first 72 UTF-8 bytes of the password equal those of the hashed secret |
| Auth.CompareOwnHash | backend/routes/credentialsRoutes.js:67-70 | a password matches its own digest whatever salt was drawn |
| Auth.ShortPasswordsCompareExactly | backend/routes/credentialsRoutes.js:67-70 | when both fit in 72 bytes, a password matches a digest exactly when it is the hashed secret |
| Auth.LongPasswordsShareKey | backend/routes/credentialsRoutes.js:67-70 | two passwords that share their first 72 bytes match each other's digest, whatever follows |
| Text.Utf8Append | backend/routes/credentialsRoutes.js:67 | the UTF-8 encoding of a concatenation is the concatenation of the encodings |
| Text.Utf8Injective | backend/routes/credentialsRoutes.js:67 | different strings have different UTF-8 encodings |
| Upload.UploadError | backend/utils/multerConfig.js:28-57 | the gate passes exactly a present file with an image mimetype of at most 10 MiB, with "Image is required", "File is not an image" and "File too large" for the three failures |
| Http.Check | backend/routes/contactRoutes.js:13-17 | a validator adds its message exactly when its rule fails |
| Text.Decimal | backend/routes/adminRoutes.js:80-82 | the decimal rendering of a number is non-empty and all digits |
| Text.DigitsValueOfDecimal | backend/routes/adminRoutes.js:80-82 | reading back a number's decimal rendering gives the number |
| Text.PositiveDecimalAccepted | backend/routes/credentialsRoutes.js:12 | a positive number up to 2^53 sent as its decimal text passes the positive-integer rule and is stored as itself |
| Text.PlusSignAccepted | backend/routes/credentialsRoutes.js:12 | a leading '+' passes the positive-integer rule and, for numbers up to 2^53, does not change the stored value |
| Collection.Put | backend/routes/appointmentRoutes.js:214-218 | overwriting under a key keeps the length, the keys and every other document, and leaves that key holding the new record |
| Collection.PutTwiceInvolution | backend/routes/blogRoutes.js:158-164 | fetching and saving a record twice with an involution applied leaves the collection as it was |
| Collection.RemoveByKey | backend/routes/adminRoutes.js:105 | deleting by key removes that key, keeps every other key and keeps keys unique |

## Left out

- Email (nodemailer), SMS and WhatsApp (Twilio), payments (Razorpay) and the webhook logger are left out. They are calls to outside services.
- The routes that list a whole collection are left out: `GET /` for appointments, blogs, doctors, admins and contacts, and the doctors' name projection. Each returns `find()` unchanged.
- The 500 answers for database or runtime failures inside `try`/`catch` are left out. The model keeps the 500 answers the route's own data can cause: a unique-index clash, a refused Number cast, a failed image removal and the null dereference in credentials login.
- A key that is not a well-formed ObjectId is treated like an unknown key. Mongoose throws a CastError, which a lookup inside the route's `try` turns into a 500.
- AppointmentRoutes.TimesForDoctorKey: answers 404 for a malformed doctor key. The route looks the doctor up before its `try` (appointmentRoutes.js:14), so the CastError is an unhandled rejection: Express 4 sends no answer, and Node 15 or later may stop the process. The same holds for the like, view and unlike routes (BlogRoutes.Count).
- Time fields are left out: `Date.now`, `new Date().toISOString()`, the blog and contact dates, the timestamps, and upload file names.
- multer parsing, sharp compression and file writes are left out. The image path is a parameter of the route. The gate's "Invalid upload path" branch never fires, because the routers are mounted under `/api/doctors` and `/api/blogs` (index.js:45-46). A failed compression (500) is left out too.
- `validateImage` is modelled, but no route mounts it; the upload gate does the same checks.
- `JSON.parse` of timeSlots and workingDays is modelled only by its outcome: unparsable, not an array, or an array of items. Casting the items into time-slot subdocuments and strings is left out.
- DoctorRoutes.Create stores fees as the submitted text. The model tells only whether the Number cast accepts it, and not the number it yields.
- Field lengths use Dafny's character count. validator.js `isLength` also subtracts the variation selectors U+FE0E and U+FE0F.
- `isEmail` is a parameter: its grammar is not modelled.
- Request values that are not strings are left out, such as arrays or objects in a JSON body.
- The blog counters are unbounded integers. JavaScript numbers lose precision above 2^53.
- CredentialsRoutes.NewCredentials: stores the `type` numeral's exact value. `isInt({ gt: 0 })` accepts numerals above 2^53, and the `Number` cast rounds them to the nearest double. The dispatch on type 1 and 2 is not affected.
- AdminRoutes.NewAdmin: stores the `type` numeral's exact value, with the same rounding above 2^53 left out.
- Concurrency between requests is left out. This includes the races between a uniqueness check and the insert after it.
- BlogRoutes.Create: the title lookup for a request without a title is modelled as a lookup of the empty title.
- The like, view and unlike routes have no error handler; a failure there goes unanswered, which is left out.
- A second `GET /` handler at doctorRoutes.js:240 is shadowed by the first one and is left out.
- BlogRoutes.Filter, AppointmentRoutes.ByDoctor, AppointmentRoutes.ApprovedActive and AppointmentRoutes.ApprovedActiveOf: the contracts state membership in both directions, but not collection order or duplicates. Those follow from `Select`.
- AppointmentRoutes.GenderDistribution: its own contract bounds the totals. The exact totals are stated by AppointmentRoutes.GenderCountsAreFilteredCounts.

## Findings

| source | as written | input that shows it | evidently intended | confidence | as-written member | corrected member |
|---|---|---|---|---|---|---|
| backend/routes/credentialsRoutes.js:60-64 | `credentials.profileId` is read before the `if (!credentials)` check. For an unknown username the read throws, and the catch answers 500 "Internal server error". | login `{ username: "alice", password: "secret" }` against a collection without "alice" (`CredentialsRoutes.EmptyCollectionLogin`) | 404 "Credentials not found" | not executed; high | CredentialsRoutes.LoginAsWritten | CredentialsRoutes.Login |
| backend/routes/appointmentRoutes.js:104 | `Appointment.create(req.body)` stores every schema path the body carries. So a booking request can preset isApproved, isRescheduled, isActive and statusMessage. | a valid booking body that also carries `isApproved: true, isRescheduled: true` (`AppointmentRoutes.SelfApprovedBooking`) | a new booking is pending with the schema defaults; only the status route approves | not executed; medium | AppointmentRoutes.CreatedAsWritten | AppointmentRoutes.Create |
