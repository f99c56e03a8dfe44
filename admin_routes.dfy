/**
 * The admin routes (routes/adminRoutes.js): account creation with its
 * validator chain, a login that checks only that the admin exists,
 * deletion by storage key and the active-status toggle.  The admin schema
 * is not part of this model: the record holds the paths the routes write
 * and read, with `isActive` defaulting to true and no unique index.
 */
module AdminRoutes {
  import opened Wrappers
  import opened Text
  import opened Collection
  import opened Http
  import opened Auth

  datatype Admin = Admin(adminId: string, username: string, password: Hash, kind: int, isActive: bool)

  class AdminStore {
    var docs: seq<Doc<Admin>>

    ghost predicate Valid()
      reads this
    {
      UniqueKeys(docs)
    }

    constructor ()
      ensures Valid() && docs == []
    {
      docs := [];
    }
  }

  /** The JSON body a route answers with. */
  datatype Reply =
    | Record(doc: Doc<Admin>)
    | Message(message: string)
    | Invalid(errors: seq<FieldError>)
    | LoggedIn(token: Token, username: string)

  // ------------------------------------------------------------- POST /

  /** The fields of the admin form; "" stands for an absent field. */
  datatype AdminForm = AdminForm(username: string, password: string, kind: string)

  predicate FormAcceptable(f: AdminForm) {
    f.username != "" && |f.password| >= 6 && IsPositiveIntText(f.kind)
  }

  /** The validator chain of the admin form, in chain order. */
  function AdminErrors(f: AdminForm): (errs: seq<FieldError>)
    ensures errs == [] <==> FormAcceptable(f)
    ensures f.username == "" ==> FieldError("username", "Username is required") in errs
    ensures |f.password| < 6 ==> FieldError("password", "Password must be at least 6 characters long") in errs
    ensures !IsPositiveIntText(f.kind) ==> FieldError("type", "Type must be a positive integer") in errs
  {
    Check(f.username != "", "username", "Username is required")
    + Check(|f.password| >= 6, "password", "Password must be at least 6 characters long")
    + Check(IsPositiveIntText(f.kind), "type", "Type must be a positive integer")
  }

  /** The record built from an accepted form: the drawn adminId, the digest, and `type` cast to a number. */
  function NewAdmin(adminId: string, f: AdminForm, salt: nat): (a: Admin)
    requires FormAcceptable(f)
    ensures a.adminId == adminId && a.username == f.username && a.isActive
    ensures a.password == HashOf(f.password, salt) && a.kind > 0
  {
    Admin(adminId, f.username, HashOf(f.password, salt), IntValue(f.kind), true)
  }

  /**
   * POST / : a failed rule answers 400 and stores nothing; otherwise the
   * admin is stored with a digest of the password (drawn with `salt`) and
   * echoed with 201.
   */
  method Create(store: AdminStore, f: AdminForm, salt: nat, newAdminId: string, newKey: Id)
    returns (status: int, reply: Reply)
    requires store.Valid() && newKey !in Keys(store.docs)
    modifies store
    ensures store.Valid()
    ensures !FormAcceptable(f) ==>
      status == BAD_REQUEST && reply == Invalid(AdminErrors(f)) && store.docs == old(store.docs)
    ensures FormAcceptable(f) ==>
      var d := Doc(newKey, NewAdmin(newAdminId, f, salt));
      status == CREATED && reply == Record(d) && store.docs == old(store.docs) + [d]
  {
    var errors := AdminErrors(f);
    if errors != [] {
      return BAD_REQUEST, Invalid(errors);
    }
    var d := Doc(newKey, NewAdmin(newAdminId, f, salt));
    AppendFreshKey(store.docs, d);
    store.docs := store.docs + [d];
    status, reply := CREATED, Record(d);
  }

  // -------------------------------------------------------- POST /login

  function UsernameIs(username: string): Doc<Admin> -> bool {
    (d: Doc<Admin>) => d.rec.username == username
  }

  /**
   * POST /login : empty fields answer 400, an unknown username 404;
   * the digest comparison is switched off, so any non-empty password signs
   * a token for the first admin with that username.
   */
  function Login(docs: seq<Doc<Admin>>, username: string, password: string): (r: (int, Reply))
    ensures r.0 == BAD_REQUEST <==> username == "" || password == ""
    ensures r.0 == NOT_FOUND <==>
      username != "" && password != "" && forall i :: 0 <= i < |docs| ==> docs[i].rec.username != username
    ensures r.0 == OK ==>
      exists i :: 0 <= i < |docs| && docs[i].rec.username == username
        && r.1 == LoggedIn(Token(docs[i].id, None), username)
    ensures username != "" && password != "" && FirstIndex(docs, UsernameIs(username)).Some? ==>
      r == (OK, LoggedIn(Token(docs[FirstIndex(docs, UsernameIs(username)).value].id, None), username))
    ensures username != "" && password != "" && (exists i :: 0 <= i < |docs| && docs[i].rec.username == username) ==>
      r.0 == OK
  {
    var errors := Check(username != "", "username", "Username is required")
      + Check(password != "", "password", "Password is required");
    if errors != [] then (BAD_REQUEST, Invalid(errors))
    else match FirstIndex(docs, UsernameIs(username))
      case None => (NOT_FOUND, Message("Admin not found"))
      case Some(i) =>
        if password == "" then (BAD_REQUEST, Message("Invalid password"))
        else (OK, LoggedIn(Token(docs[i].id, None), username))
  }

  /** The stored digest plays no part: two non-empty passwords give the same answer. */
  lemma AnyPasswordAccepted(docs: seq<Doc<Admin>>, username: string, p1: string, p2: string)
    requires p1 != "" && p2 != ""
    ensures Login(docs, username, p1) == Login(docs, username, p2)
  {
  }

  /** A newly created admin can log in with any non-empty password, not only its own. */
  lemma CreatedAdminAcceptsWrongPassword(docs: seq<Doc<Admin>>, key: Id, a: Admin, password: string)
    requires a.username != "" && password != "" && a.password.secret != password
    requires forall i :: 0 <= i < |docs| ==> docs[i].rec.username != a.username
    ensures Login(docs + [Doc(key, a)], a.username, password) == (OK, LoggedIn(Token(key, None), a.username))
  {
    var r := docs + [Doc(key, a)];
    assert UsernameIs(a.username)(r[|docs|]);
    assert forall j :: 0 <= j < |docs| ==> !UsernameIs(a.username)(r[j]);
  }

  // -------------------------------------------------- DELETE /:adminId

  /** DELETE /:adminId : the admin with that storage key, if any, is removed; the answer is 200 either way. */
  method Delete(store: AdminStore, id: Id) returns (status: int, reply: Reply)
    requires store.Valid()
    modifies store
    ensures store.Valid()
    ensures status == OK && reply == Message("Admin deleted successfully")
    ensures store.docs == RemoveFirst(old(store.docs), KeyIs(id))
    ensures Keys(store.docs) == Keys(old(store.docs)) - {id}
  {
    RemoveByKey(store.docs, id);
    store.docs := RemoveFirst(store.docs, KeyIs(id));
    status, reply := OK, Message("Admin deleted successfully");
  }

  // ------------------------------------------ PATCH /:adminId/toggle-active

  function Toggled(a: Admin): Admin { a.(isActive := !a.isActive) }

  /** PATCH /:adminId/toggle-active : 404 for an unknown key, otherwise the admin's flag is flipped and saved. */
  method ToggleActive(store: AdminStore, id: Id) returns (status: int, reply: Reply)
    requires store.Valid()
    modifies store
    ensures store.Valid()
    ensures id !in Keys(old(store.docs)) ==>
      status == NOT_FOUND && reply == Message("Admin not found") && store.docs == old(store.docs)
    ensures id in Keys(old(store.docs)) ==>
      && status == OK && reply == Message("Admin's active status toggled successfully")
      && store.docs == Put(old(store.docs), id, Toggled(old(store.docs)[Find(old(store.docs), id).value].rec))
  {
    var found := Find(store.docs, id);
    if found.None? {
      return NOT_FOUND, Message("Admin not found");
    }
    var admin := store.docs[found.value].rec;
    admin := admin.(isActive := !admin.isActive);
    store.docs := Put(store.docs, id, admin);
    status, reply := OK, Message("Admin's active status toggled successfully");
  }

  /** Toggling the same admin twice leaves the collection as it was. */
  lemma ToggleTwiceRestores(docs: seq<Doc<Admin>>, id: Id)
    requires UniqueKeys(docs) && id in Keys(docs)
    ensures var d1 := Put(docs, id, Toggled(docs[Find(docs, id).value].rec));
      Put(d1, id, Toggled(d1[Find(d1, id).value].rec)) == docs
  {
    PutTwiceInvolution(docs, id, Toggled);
  }
}
