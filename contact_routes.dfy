/**
 * The Contact collection (models/ContactModel.js): a message from the
 * site's contact form, unique by email address and by phone number.
 */
module ContactModel {
  import opened Collection

  /** A stored contact message; `dateTime` is not modelled. */
  datatype Contact = Contact(name: string, email: string, number: string, subject: string, message: string)

  predicate HasRequiredFields(c: Contact) {
    c.name != "" && c.email != "" && c.number != "" && c.subject != "" && c.message != ""
  }

  /** No two stored contacts share an email address or a phone number (the two unique indexes). */
  ghost predicate WellFormed(docs: seq<Doc<Contact>>) {
    && UniqueKeys(docs)
    && (forall i :: 0 <= i < |docs| ==> HasRequiredFields(docs[i].rec))
    && (forall i, j :: 0 <= i < j < |docs| ==> docs[i].rec.email != docs[j].rec.email)
    && (forall i, j :: 0 <= i < j < |docs| ==> docs[i].rec.number != docs[j].rec.number)
  }

  class ContactStore {
    var docs: seq<Doc<Contact>>

    ghost predicate Valid()
      reads this
    {
      WellFormed(docs)
    }

    constructor ()
      ensures Valid() && docs == []
    {
      docs := [];
    }
  }
}

/** The contact route (routes/contactRoutes.js): the validated contact form. */
module ContactRoutes {
  import opened Text
  import opened Collection
  import opened Http
  import opened ContactModel

  datatype Reply = Record(doc: Doc<Contact>) | Invalid(errors: seq<FieldError>)

  const MaxSubjectLength: nat := 50
  const MaxMessageLength: nat := 100

  predicate EmailTaken(docs: seq<Doc<Contact>>, email: string) {
    exists i :: 0 <= i < |docs| && docs[i].rec.email == email
  }

  predicate NumberTaken(docs: seq<Doc<Contact>>, number: string) {
    exists i :: 0 <= i < |docs| && docs[i].rec.number == number
  }

  /** Every rule of the contact form holds against the stored contacts. */
  predicate ContactAcceptable(docs: seq<Doc<Contact>>, c: Contact, isEmail: string -> bool) {
    && LettersAndSpaces(c.name)
    && c.email != "" && isEmail(c.email) && !EmailTaken(docs, c.email)
    && TenDigits(c.number) && !NumberTaken(docs, c.number)
    && c.subject != "" && |c.subject| <= MaxSubjectLength
    && c.message != "" && |c.message| <= MaxMessageLength
  }

  /** The validator chain of the contact form, in chain order. */
  function ContactErrors(docs: seq<Doc<Contact>>, c: Contact, isEmail: string -> bool): (errs: seq<FieldError>)
    ensures errs == [] <==> ContactAcceptable(docs, c, isEmail)
    ensures c.name == "" ==> FieldError("name", "Name is required") in errs
    ensures !LettersAndSpaces(c.name) ==> FieldError("name", "Name can only contain letters and spaces") in errs
    ensures c.email == "" ==> FieldError("email", "Email is required") in errs
    ensures !isEmail(c.email) ==> FieldError("email", "Invalid email format") in errs
    ensures EmailTaken(docs, c.email) ==> FieldError("email", "Email address is already registered") in errs
    ensures NumberTaken(docs, c.number) ==> FieldError("number", "Phone number is already registered") in errs
    ensures c.number == "" ==> FieldError("number", "Number is required") in errs
    ensures !TenDigits(c.number) ==> FieldError("number", "Invalid phone number format") in errs
    ensures c.subject == "" ==> FieldError("subject", "Subject is required") in errs
    ensures |c.subject| > MaxSubjectLength ==> FieldError("subject", "Subject must be 50 characters or less") in errs
    ensures c.message == "" ==> FieldError("message", "Message is required") in errs
    ensures |c.message| > MaxMessageLength ==> FieldError("message", "Message must be 100 characters or less") in errs
  {
    Check(c.name != "", "name", "Name is required")
    + Check(LettersAndSpaces(c.name), "name", "Name can only contain letters and spaces")
    + Check(c.email != "", "email", "Email is required")
    + Check(isEmail(c.email), "email", "Invalid email format")
    + Check(!EmailTaken(docs, c.email), "email", "Email address is already registered")
    + Check(c.number != "", "number", "Number is required")
    + Check(TenDigits(c.number), "number", "Invalid phone number format")
    + Check(!NumberTaken(docs, c.number), "number", "Phone number is already registered")
    + Check(c.subject != "", "subject", "Subject is required")
    + Check(|c.subject| <= MaxSubjectLength, "subject", "Subject must be 50 characters or less")
    + Check(c.message != "", "message", "Message is required")
    + Check(|c.message| <= MaxMessageLength, "message", "Message must be 100 characters or less")
  }

  /** Appending an accepted contact keeps both unique indexes satisfied. */
  lemma AcceptedKeepsWellFormed(docs: seq<Doc<Contact>>, k: Id, c: Contact, isEmail: string -> bool)
    requires WellFormed(docs) && k !in Keys(docs) && ContactAcceptable(docs, c, isEmail)
    ensures WellFormed(docs + [Doc(k, c)])
  {
    var r := docs + [Doc(k, c)];
    AppendFreshKey(docs, Doc(k, c));
    forall i, j | 0 <= i < j < |r| ensures r[i].rec.email != r[j].rec.email && r[i].rec.number != r[j].rec.number {
      if j == |docs| {
        assert r[i] == docs[i];
        assert docs[i].rec.email != c.email;
        assert docs[i].rec.number != c.number;
      }
    }
    assert TenDigits(c.number);
  }

  /**
   * POST / : the validator chain answers 400 with its errors; otherwise the
   * contact is stored and echoed with 201.
   */
  method Create(store: ContactStore, c: Contact, isEmail: string -> bool, newKey: Id)
    returns (status: int, reply: Reply)
    requires store.Valid() && newKey !in Keys(store.docs)
    modifies store
    ensures store.Valid()
    ensures ContactAcceptable(old(store.docs), c, isEmail) ==>
      status == CREATED && reply == Record(Doc(newKey, c)) && store.docs == old(store.docs) + [Doc(newKey, c)]
    ensures !ContactAcceptable(old(store.docs), c, isEmail) ==>
      status == BAD_REQUEST && reply == Invalid(ContactErrors(old(store.docs), c, isEmail))
      && store.docs == old(store.docs)
  {
    var errors := ContactErrors(store.docs, c, isEmail);
    if errors != [] {
      return BAD_REQUEST, Invalid(errors);
    }
    AcceptedKeepsWellFormed(store.docs, newKey, c, isEmail);
    store.docs := store.docs + [Doc(newKey, c)];
    status, reply := CREATED, Record(Doc(newKey, c));
  }

  /** A second submission with the same email address is refused, whatever its other fields. */
  lemma ResubmissionRefused(docs: seq<Doc<Contact>>, k: Id, c: Contact, c2: Contact, isEmail: string -> bool)
    requires c2.email == c.email
    ensures !ContactAcceptable(docs + [Doc(k, c)], c2, isEmail)
    ensures FieldError("email", "Email address is already registered") in ContactErrors(docs + [Doc(k, c)], c2, isEmail)
  {
    assert (docs + [Doc(k, c)])[|docs|].rec.email == c2.email;
  }
}
