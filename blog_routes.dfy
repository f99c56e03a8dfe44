/**
 * The blog routes (routes/blogRoutes.js): the visibility filter, creation
 * with a unique title, the edit, the visibility toggle and the three
 * counter routes.  Every route that takes a form runs the upload gate
 * first, then its validator chain.
 */
module BlogRoutes {
  import opened Wrappers
  import opened Text
  import opened Collection
  import opened Http
  import opened Upload
  import opened BlogModel

  /** The JSON body a route answers with. */
  datatype Reply =
    | Record(doc: Doc<Blog>)
    | Records(docs: seq<Doc<Blog>>)
    | Message(message: string)
    | MessageWith(message: string, doc: Doc<Blog>)   // `{ message, blog }`
    | Invalid(errors: seq<FieldError>)
    | UploadRejected(msg: string)                    // `{ errors: [{ msg }] }` from the upload gate

  // ---------------------------------------------------------- GET /filter

  /** The posts the filter route lists: those whose flag equals `isActive === "true"`. */
  function FlagIs(flag: bool): Doc<Blog> -> bool {
    (d: Doc<Blog>) => d.rec.isActive == flag
  }

  /** GET /filter?isActive=… : any value but "true" selects the hidden posts; no visible post answers 404. */
  function Filter(docs: seq<Doc<Blog>>, isActive: string): (r: (int, Reply))
    ensures r.0 == NOT_FOUND <==>
      isActive == "true" && forall i :: 0 <= i < |docs| ==> !docs[i].rec.isActive
    ensures r.0 == NOT_FOUND ==> r.1 == Message("No active blogs found")
    ensures r.0 != NOT_FOUND ==> r.0 == OK && r.1.Records?
    ensures r.1.Records? ==>
      && (forall i :: 0 <= i < |r.1.docs| ==> r.1.docs[i] in docs && r.1.docs[i].rec.isActive == (isActive == "true"))
      && (forall i :: 0 <= i < |docs| && docs[i].rec.isActive == (isActive == "true") ==> docs[i] in r.1.docs)
  {
    var flag := isActive == "true";
    var blogs := Select(docs, FlagIs(flag));
    if |blogs| == 0 && flag then
      assert forall i :: 0 <= i < |docs| ==> !FlagIs(flag)(docs[i]);
      (NOT_FOUND, Message("No active blogs found"))
    else
      assert flag ==> !FlagIs(flag)(blogs[0]) ==> false;
      (OK, Records(blogs))
  }

  // ------------------------------------------------------ validateImage

  /** The image check the blog routes define next to the upload gate: the same three conditions, its own size message. */
  function ValidateImage(file: Option<UploadedFile>): (r: Option<string>)
    ensures file.None? ==> r == Some("Image is required")
    ensures file.Some? && !StartsWith(file.value.mimetype, "image/") ==> r == Some("File is not an image")
    ensures file.Some? && StartsWith(file.value.mimetype, "image/") && file.value.size > MaxImageBytes ==>
      r == Some("Image file is too large")
  {
    match file
    case None => Some("Image is required")
    case Some(f) =>
      if !StartsWith(f.mimetype, "image/") then Some("File is not an image")
      else if f.size > MaxImageBytes then Some("Image file is too large")
      else None
  }

  /** The check and the upload gate let through exactly the same files, and agree on the message except for size. */
  lemma ValidateImageAgreesWithUpload(file: Option<UploadedFile>)
    ensures ValidateImage(file).None? <==> UploadError(file).None?
    ensures file.Some? && file.value.size <= MaxImageBytes ==> ValidateImage(file) == UploadError(file)
  {
  }

  // ------------------------------------------------------------- POST /

  /** The text fields of the blog form; "" stands for an absent field. */
  datatype BlogForm = BlogForm(title: string, detail: string, authorName: string)

  /** Some stored post already has this title (`Blog.findOne({ title })`). */
  predicate TitleTaken(docs: seq<Doc<Blog>>, title: string) {
    exists i :: 0 <= i < |docs| && docs[i].rec.title == title
  }

  /** The edit form's validator chain. */
  function EditErrors(form: BlogForm): (errs: seq<FieldError>)
    ensures errs == [] <==> form.title != "" && form.detail != "" && form.authorName != ""
    ensures form.detail == "" ==> FieldError("detail", "Detail is required") in errs
  {
    Check(form.title != "", "title", "Title is required")
    + Check(form.detail != "", "detail", "Detail is required")
    + Check(form.authorName != "", "authorName", "Author Name is required")
  }

  /** The create form's chain: the edit rules plus a title no stored post has. */
  function NewBlogErrors(docs: seq<Doc<Blog>>, form: BlogForm): (errs: seq<FieldError>)
    ensures errs == [] <==> EditErrors(form) == [] && !TitleTaken(docs, form.title)
    ensures TitleTaken(docs, form.title) ==> FieldError("title", "Title must be unique") in errs
  {
    Check(form.title != "", "title", "Title is required")
    + Check(!TitleTaken(docs, form.title), "title", "Title must be unique")
    + Check(form.detail != "", "detail", "Detail is required")
    + Check(form.authorName != "", "authorName", "Author Name is required")
  }

  /** Only creation checks uniqueness: an edit may give a post another post's title. */
  lemma EditMayDuplicateTitle(docs: seq<Doc<Blog>>, i: nat, form: BlogForm)
    requires i < |docs| && form.title == docs[i].rec.title
    requires form.title != "" && form.detail != "" && form.authorName != ""
    ensures NewBlogErrors(docs, form) != [] && EditErrors(form) == []
  {
    assert TitleTaken(docs, form.title);
  }

  /**
   * POST / : the upload gate answers 400 first, then the validator chain;
   * otherwise the new post, with the uploaded image's path, is appended.
   */
  method Create(store: BlogStore, file: Option<UploadedFile>, form: BlogForm, newKey: Id)
    returns (status: int, reply: Reply)
    requires store.Valid() && newKey !in Keys(store.docs)
    requires file.Some? ==> file.value.path != ""
    modifies store
    ensures store.Valid()
    ensures UploadError(file).Some? ==>
      status == BAD_REQUEST && reply == UploadRejected(UploadError(file).value) && store.docs == old(store.docs)
    ensures UploadError(file).None? && NewBlogErrors(old(store.docs), form) != [] ==>
      status == BAD_REQUEST && reply == Invalid(NewBlogErrors(old(store.docs), form)) && store.docs == old(store.docs)
    ensures UploadError(file).None? && NewBlogErrors(old(store.docs), form) == [] ==>
      var d := Doc(newKey, NewBlog(form.title, form.detail, file.value.path, form.authorName));
      status == CREATED && reply == Record(d) && store.docs == old(store.docs) + [d]
  {
    var uploadError := UploadError(file);
    if uploadError.Some? {
      return BAD_REQUEST, UploadRejected(uploadError.value);
    }
    var errors := NewBlogErrors(store.docs, form);
    if errors != [] {
      return BAD_REQUEST, Invalid(errors);
    }
    var d := Doc(newKey, NewBlog(form.title, form.detail, file.value.path, form.authorName));
    AppendFreshKey(store.docs, d);
    store.docs := store.docs + [d];
    status, reply := CREATED, Record(d);
  }

  /** A post created through the route never shares its title with an earlier post. */
  lemma CreatedTitleFresh(docs: seq<Doc<Blog>>, form: BlogForm, i: nat)
    requires NewBlogErrors(docs, form) == [] && i < |docs|
    ensures docs[i].rec.title != form.title
  {
  }

  // ------------------------------------------------------------ PUT /:id

  /** The post after the edit: new text, new image, counters and visibility kept. */
  function Edited(b: Blog, form: BlogForm, image: string): (r: Blog)
    ensures r.title == form.title && r.detail == form.detail && r.authorName == form.authorName
    ensures r.image == image
    ensures r.isActive == b.isActive && r.likeCount == b.likeCount && r.viewCount == b.viewCount
  {
    b.(title := form.title, detail := form.detail, authorName := form.authorName, image := image)
  }

  /**
   * PUT /:id : the upload gate and the edit chain answer 400 first; an
   * unknown key answers 404; otherwise the fetched post takes the form's
   * text and the uploaded image and is saved.
   */
  method Edit(store: BlogStore, id: Id, file: Option<UploadedFile>, form: BlogForm)
    returns (status: int, reply: Reply)
    requires store.Valid()
    requires file.Some? ==> file.value.path != ""
    modifies store
    ensures store.Valid()
    ensures UploadError(file).Some? ==>
      status == BAD_REQUEST && reply == UploadRejected(UploadError(file).value) && store.docs == old(store.docs)
    ensures UploadError(file).None? && EditErrors(form) != [] ==>
      status == BAD_REQUEST && reply == Invalid(EditErrors(form)) && store.docs == old(store.docs)
    ensures UploadError(file).None? && EditErrors(form) == [] && id !in Keys(old(store.docs)) ==>
      status == NOT_FOUND && reply == Message("Blog not found") && store.docs == old(store.docs)
    ensures UploadError(file).None? && EditErrors(form) == [] && id in Keys(old(store.docs)) ==>
      var b := Edited(old(store.docs)[Find(old(store.docs), id).value].rec, form, file.value.path);
      status == OK && reply == Record(Doc(id, b)) && store.docs == Put(old(store.docs), id, b)
  {
    var uploadError := UploadError(file);
    if uploadError.Some? {
      return BAD_REQUEST, UploadRejected(uploadError.value);
    }
    var errors := EditErrors(form);
    if errors != [] {
      return BAD_REQUEST, Invalid(errors);
    }
    var found := Find(store.docs, id);
    if found.None? {
      return NOT_FOUND, Message("Blog not found");
    }
    var blog := new BlogDocument.Hydrate(store, id, store.docs[found.value].rec);
    blog.title := form.title;
    blog.detail := form.detail;
    blog.authorName := form.authorName;
    if file.Some? {
      blog.image := file.value.path;
    }
    blog.Save();
    status, reply := OK, Record(Doc(id, blog.Value()));
  }

  // ------------------------------------------------------------ GET /:id

  /** GET /:id : the post with that key, or 404. */
  function Get(docs: seq<Doc<Blog>>, id: Id): (r: (int, Reply))
    ensures r.0 == OK <==> id in Keys(docs)
    ensures r.0 == OK ==> r.1.Record? && r.1.doc in docs && r.1.doc.id == id
    ensures r.0 != OK ==> r == (NOT_FOUND, Message("Blog not found"))
  {
    match Find(docs, id)
    case None => (NOT_FOUND, Message("Blog not found"))
    case Some(i) => (OK, Record(docs[i]))
  }

  // ---------------------------------------------- PATCH /:id/toggle-active

  function Toggled(b: Blog): Blog { b.(isActive := !b.isActive) }

  /** PATCH /:id/toggle-active : 404 for an unknown key, otherwise the post's visibility is flipped and saved. */
  method ToggleActive(store: BlogStore, id: Id) returns (status: int, reply: Reply)
    requires store.Valid()
    modifies store
    ensures store.Valid()
    ensures id !in Keys(old(store.docs)) ==>
      status == NOT_FOUND && reply == Message("Blog not found") && store.docs == old(store.docs)
    ensures id in Keys(old(store.docs)) ==>
      var b := Toggled(old(store.docs)[Find(old(store.docs), id).value].rec);
      && status == OK && store.docs == Put(old(store.docs), id, b)
      && reply == MessageWith("Blog's active status toggled successfully", Doc(id, b))
  {
    var found := Find(store.docs, id);
    if found.None? {
      return NOT_FOUND, Message("Blog not found");
    }
    var blog := new BlogDocument.Hydrate(store, id, store.docs[found.value].rec);
    blog.isActive := !blog.isActive;
    blog.Save();
    status, reply := OK, MessageWith("Blog's active status toggled successfully", Doc(id, blog.Value()));
  }

  /** Toggling the same post twice leaves the collection as it was. */
  lemma ToggleTwiceRestores(docs: seq<Doc<Blog>>, id: Id)
    requires WellFormed(docs) && id in Keys(docs)
    ensures var d1 := Put(docs, id, Toggled(docs[Find(docs, id).value].rec));
      Put(d1, id, Toggled(d1[Find(d1, id).value].rec)) == docs
  {
    PutTwiceInvolution(docs, id, Toggled);
  }

  // ------------------------------------------- POST /:id/like, /view, /unlike

  /** The three counter routes: the selected document method bumps its counter and saves. */
  datatype Counter = Like | View | Unlike

  function Counted(b: Blog, c: Counter): Blog {
    match c
    case Like => Liked(b)
    case View => Viewed(b)
    case Unlike => Unliked(b)
  }

  function CountedMessage(c: Counter): string {
    match c
    case Like => "Like count incremented successfully"
    case View => "View count incremented successfully"
    case Unlike => "Like count decremented successfully"
  }

  /** POST /:id/like, /:id/view and /:id/unlike : 404 for an unknown key, otherwise the counter moves by one and is saved. */
  method Count(store: BlogStore, id: Id, c: Counter) returns (status: int, reply: Reply)
    requires store.Valid()
    modifies store
    ensures store.Valid()
    ensures id !in Keys(old(store.docs)) ==>
      status == NOT_FOUND && reply == Message("Blog not found") && store.docs == old(store.docs)
    ensures id in Keys(old(store.docs)) ==>
      var b := Counted(old(store.docs)[Find(old(store.docs), id).value].rec, c);
      status == OK && reply == MessageWith(CountedMessage(c), Doc(id, b)) && store.docs == Put(old(store.docs), id, b)
  {
    var found := Find(store.docs, id);
    if found.None? {
      return NOT_FOUND, Message("Blog not found");
    }
    var blog := new BlogDocument.Hydrate(store, id, store.docs[found.value].rec);
    match c {
      case Like => blog.IncrementLikeCount();
      case View => blog.IncrementViewCount();
      case Unlike => blog.DecrementLikeCount();
    }
    status, reply := OK, MessageWith(CountedMessage(c), Doc(id, blog.Value()));
  }

  /** A like followed by an unlike of the same post leaves the collection as it was. */
  lemma LikeThenUnlikeRestores(docs: seq<Doc<Blog>>, id: Id)
    requires WellFormed(docs) && id in Keys(docs)
    ensures var d1 := Put(docs, id, Counted(docs[Find(docs, id).value].rec, Like));
      Put(d1, id, Counted(d1[Find(d1, id).value].rec, Unlike)) == docs
  {
    var i := Find(docs, id).value;
    var b := docs[i].rec;
    var d1 := Put(docs, id, Liked(b));
    assert Find(d1, id) == Some(i);
    LikeUnlikeInverse(b);
    PutPut(docs, id, Liked(b), b);
    PutSame(docs, i);
  }
}
