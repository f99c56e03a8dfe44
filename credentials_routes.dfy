/**
 * The Credentials collection (models/CredentialsModel.js): a login for a
 * patient-side or doctor-side profile, unique by username and by stored
 * digest, with a numeric account type.
 */
module CredentialsModel {
  import opened Collection
  import opened Auth

  datatype Credentials = Credentials(username: string, password: Hash, kind: int, profileId: string)

  /** The invariant of the collection: both unique indexes hold and the required strings are present. */
  ghost predicate WellFormed(docs: seq<Doc<Credentials>>) {
    && UniqueKeys(docs)
    && (forall i :: 0 <= i < |docs| ==> docs[i].rec.username != "" && docs[i].rec.profileId != "")
    && (forall i, j :: 0 <= i < j < |docs| ==> docs[i].rec.username != docs[j].rec.username)
    && (forall i, j :: 0 <= i < j < |docs| ==> docs[i].rec.password != docs[j].rec.password)
  }

  /** Whether storing `c` would violate the username or the password unique index. */
  predicate Clashes(docs: seq<Doc<Credentials>>, c: Credentials) {
    exists i :: 0 <= i < |docs| && (docs[i].rec.username == c.username || docs[i].rec.password == c.password)
  }

  lemma InsertKeepsWellFormed(docs: seq<Doc<Credentials>>, key: Id, c: Credentials)
    requires WellFormed(docs) && key !in Keys(docs)
    requires c.username != "" && c.profileId != "" && !Clashes(docs, c)
    ensures WellFormed(docs + [Doc(key, c)])
  {
    AppendFreshKey(docs, Doc(key, c));
    var r := docs + [Doc(key, c)];
    forall i, j | 0 <= i < j < |r|
      ensures r[i].rec.username != r[j].rec.username && r[i].rec.password != r[j].rec.password
    {
      if j == |docs| {
        assert r[i] == docs[i];
      }
    }
  }

  class CredentialsStore {
    var docs: seq<Doc<Credentials>>

    ghost predicate Valid()
      reads this
    {
      WellFormed(docs)
    }

    constructor ()
      ensures Valid() && docs == []
    {
      docs := [];
    }
  }
}

/**
 * The credentials routes (routes/credentialsRoutes.js): registration with
 * a hashed password, and the login that dispatches on the account type.
 */
module CredentialsRoutes {
  import opened Wrappers
  import opened Text
  import opened Collection
  import opened Http
  import opened Auth
  import opened CredentialsModel

  /** The JSON body a route answers with. */
  datatype Reply =
    | Record(doc: Doc<Credentials>)
    | Message(message: string)
    | Failure(error: string)                     // `{ error }`
    | Invalid(errors: seq<FieldError>)
    | Session(token: Option<Token>, docToken: Option<Token>, kind: int, profileId: string)

  const InternalError := "Internal server error"

  // ------------------------------------------------------------- POST /

  /** The fields of the registration form; "" stands for an absent field. */
  datatype CredentialsForm = CredentialsForm(username: string, password: string, kind: string, profileId: string)

  predicate FormAcceptable(f: CredentialsForm) {
    f.username != "" && f.password != "" && IsPositiveIntText(f.kind) && f.profileId != ""
  }

  /** The validator chain of the registration form, in chain order. */
  function CredentialsErrors(f: CredentialsForm): (errs: seq<FieldError>)
    ensures errs == [] <==> FormAcceptable(f)
    ensures f.username == "" ==> FieldError("username", "Username is required") in errs
    ensures f.password == "" ==> FieldError("password", "Password is required") in errs
    ensures !IsPositiveIntText(f.kind) ==> FieldError("type", "Type must be a positive integer") in errs
    ensures f.profileId == "" ==> FieldError("profileId", "Doctor ID is required") in errs
  {
    Check(f.username != "", "username", "Username is required")
    + Check(f.password != "", "password", "Password is required")
    + Check(IsPositiveIntText(f.kind), "type", "Type must be a positive integer")
    + Check(f.profileId != "", "profileId", "Doctor ID is required")
  }

  /** The record built from an accepted form: the digest drawn with `salt`, and `type` cast to a number. */
  function NewCredentials(f: CredentialsForm, salt: nat): (c: Credentials)
    requires FormAcceptable(f)
    ensures c.username == f.username && c.profileId == f.profileId
    ensures c.password == HashOf(f.password, salt) && c.kind > 0
  {
    Credentials(f.username, HashOf(f.password, salt), IntValue(f.kind), f.profileId)
  }

  /**
   * POST / : a failed rule answers 400; a username or digest already
   * stored makes `save` fail with 500; otherwise the account is stored and
   * echoed with 201.
   */
  method Create(store: CredentialsStore, f: CredentialsForm, salt: nat, newKey: Id)
    returns (status: int, reply: Reply)
    requires store.Valid() && newKey !in Keys(store.docs)
    modifies store
    ensures store.Valid()
    ensures !FormAcceptable(f) ==>
      status == BAD_REQUEST && reply == Invalid(CredentialsErrors(f)) && store.docs == old(store.docs)
    ensures FormAcceptable(f) && Clashes(old(store.docs), NewCredentials(f, salt)) ==>
      status == SERVER_ERROR && reply == Failure(InternalError) && store.docs == old(store.docs)
    ensures FormAcceptable(f) && !Clashes(old(store.docs), NewCredentials(f, salt)) ==>
      var d := Doc(newKey, NewCredentials(f, salt));
      status == CREATED && reply == Record(d) && store.docs == old(store.docs) + [d]
  {
    var errors := CredentialsErrors(f);
    if errors != [] {
      return BAD_REQUEST, Invalid(errors);
    }
    var c := NewCredentials(f, salt);
    if Clashes(store.docs, c) {
      return SERVER_ERROR, Failure(InternalError);
    }
    InsertKeepsWellFormed(store.docs, newKey, c);
    store.docs := store.docs + [Doc(newKey, c)];
    status, reply := CREATED, Record(Doc(newKey, c));
  }

  // -------------------------------------------------------- POST /login

  function UsernameIs(username: string): Doc<Credentials> -> bool {
    (d: Doc<Credentials>) => d.rec.username == username
  }

  function LoginErrors(username: string, password: string): (errs: seq<FieldError>)
    ensures errs == [] <==> username != "" && password != ""
    ensures username == "" ==> FieldError("username", "Username is required") in errs
    ensures password == "" ==> FieldError("password", "Password is required") in errs
  {
    Check(username != "", "username", "Username is required")
    + Check(password != "", "password", "Password is required")
  }

  /**
   * The login once the account is found: a digest mismatch answers 400;
   * type 1 gets a `token`, type 2 a `docToken`, any other type neither.
   */
  function Outcome(d: Doc<Credentials>, password: string): (r: (int, Reply))
    ensures r.0 == OK <==> Compare(password, Some(d.rec.password)) == Match
    ensures r.0 != OK ==> r == (BAD_REQUEST, Message("Invalid password"))
    ensures r.0 == OK ==> r.1.Session? && r.1.kind == d.rec.kind && r.1.profileId == d.rec.profileId
    ensures r.0 == OK ==>
      && (r.1.token.Some? <==> d.rec.kind == 1)
      && (r.1.docToken.Some? <==> d.rec.kind == 2)
      && (r.1.token.Some? ==> r.1.token.value == Token(d.id, Some(d.rec.kind)))
      && (r.1.docToken.Some? ==> r.1.docToken.value == Token(d.id, Some(d.rec.kind)))
  {
    match Compare(password, Some(d.rec.password))
    case Rejected => (SERVER_ERROR, Failure(InternalError))
    case Mismatch => (BAD_REQUEST, Message("Invalid password"))
    case Match =>
      var token := Token(d.id, Some(d.rec.kind));
      if d.rec.kind == 1 then (OK, Session(Some(token), None, d.rec.kind, d.rec.profileId))
      else if d.rec.kind == 2 then (OK, Session(None, Some(token), d.rec.kind, d.rec.profileId))
      else (OK, Session(None, None, d.rec.kind, d.rec.profileId))
  }

  /**
   * POST /login as written: the lookup result is dereferenced before the
   * null check, so an unknown username throws and is caught as 500.
   */
  function LoginAsWritten(docs: seq<Doc<Credentials>>, username: string, password: string): (r: (int, Reply))
    ensures LoginErrors(username, password) != [] ==> r == (BAD_REQUEST, Invalid(LoginErrors(username, password)))
    ensures LoginErrors(username, password) == [] && FirstIndex(docs, UsernameIs(username)).None? ==>
      r == (SERVER_ERROR, Failure(InternalError))
    ensures LoginErrors(username, password) == [] && FirstIndex(docs, UsernameIs(username)).Some? ==>
      r == Outcome(docs[FirstIndex(docs, UsernameIs(username)).value], password)
  {
    var errors := LoginErrors(username, password);
    if errors != [] then (BAD_REQUEST, Invalid(errors))
    else match FirstIndex(docs, UsernameIs(username))
      case None => (SERVER_ERROR, Failure(InternalError))
      case Some(i) => Outcome(docs[i], password)
  }

  /** POST /login with the null check first, as the route evidently intends: an unknown username answers 404. */
  function Login(docs: seq<Doc<Credentials>>, username: string, password: string): (r: (int, Reply))
    ensures LoginErrors(username, password) != [] ==> r == (BAD_REQUEST, Invalid(LoginErrors(username, password)))
    ensures r.0 == NOT_FOUND <==>
      LoginErrors(username, password) == [] && forall i :: 0 <= i < |docs| ==> docs[i].rec.username != username
    ensures r.0 == NOT_FOUND ==> r.1 == Message("Credentials not found")
    ensures LoginErrors(username, password) == [] && FirstIndex(docs, UsernameIs(username)).Some? ==>
      r == Outcome(docs[FirstIndex(docs, UsernameIs(username)).value], password)
  {
    var errors := LoginErrors(username, password);
    if errors != [] then (BAD_REQUEST, Invalid(errors))
    else match FirstIndex(docs, UsernameIs(username))
      case None => (NOT_FOUND, Message("Credentials not found"))
      case Some(i) => Outcome(docs[i], password)
  }

  /** The discrepancy: for an unknown username the route as written answers 500 where 404 is intended. */
  lemma UnknownUsernameAnswers500(docs: seq<Doc<Credentials>>, username: string, password: string)
    requires username != "" && password != ""
    requires forall i :: 0 <= i < |docs| ==> docs[i].rec.username != username
    ensures LoginAsWritten(docs, username, password) == (SERVER_ERROR, Failure(InternalError))
    ensures Login(docs, username, password) == (NOT_FOUND, Message("Credentials not found"))
  {
  }

  /** A concrete instance: logging in to an empty collection. */
  lemma EmptyCollectionLogin()
    ensures LoginAsWritten([], "alice", "secret").0 == SERVER_ERROR
    ensures Login([], "alice", "secret").0 == NOT_FOUND
  {
  }

  /** For a username that exists the two versions agree. */
  lemma KnownUsernameAgrees(docs: seq<Doc<Credentials>>, username: string, password: string, i: nat)
    requires i < |docs| && docs[i].rec.username == username
    ensures LoginAsWritten(docs, username, password) == Login(docs, username, password)
  {
    assert UsernameIs(username)(docs[i]);
  }

  /** In a well-formed collection each stored account is the one its username logs in to. */
  lemma StoredAccountLogin(docs: seq<Doc<Credentials>>, i: nat, password: string)
    requires WellFormed(docs) && i < |docs| && password != ""
    ensures Login(docs, docs[i].rec.username, password) == Outcome(docs[i], password)
  {
    var username := docs[i].rec.username;
    assert UsernameIs(username)(docs[i]);
    var j := FirstIndex(docs, UsernameIs(username)).value;
    assert UsernameIs(username)(docs[j]);
  }

  /**
   * Registering and then logging in with the same password opens a session
   * for the new account's type and profile.  Another password opens it
   * exactly when bcrypt reads the same first 72 bytes from it; otherwise it
   * gets 400.
   */
  lemma RegisterThenLogin(docs: seq<Doc<Credentials>>, key: Id, f: CredentialsForm, salt: nat, other: string)
    requires WellFormed(docs) && key !in Keys(docs) && FormAcceptable(f)
    requires !Clashes(docs, NewCredentials(f, salt))
    requires other != ""
    ensures var c := NewCredentials(f, salt);
      var after := docs + [Doc(key, c)];
      && Login(after, f.username, f.password).0 == OK
      && Login(after, f.username, f.password).1.kind == IntValue(f.kind)
      && Login(after, f.username, f.password).1.profileId == f.profileId
      && (Login(after, f.username, other).0 == OK <==> BcryptKey(other) == BcryptKey(f.password))
      && (BcryptKey(other) != BcryptKey(f.password) ==>
            Login(after, f.username, other) == (BAD_REQUEST, Message("Invalid password")))
  {
    var c := NewCredentials(f, salt);
    var after := docs + [Doc(key, c)];
    assert UsernameIs(f.username)(after[|docs|]);
    forall j | 0 <= j < |docs| ensures !UsernameIs(f.username)(after[j]) {
      assert after[j] == docs[j];
    }
    assert FirstIndex(after, UsernameIs(f.username)) == Some(|docs|);
    CompareOwnHash(f.password, salt);
  }
}
