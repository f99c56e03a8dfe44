/**
 * The Blog collection (models/BlogModel.js): a post with its author,
 * image path, visibility flag and two counters, and the three document
 * methods that bump a counter and save the document.
 */
module BlogModel {
  import opened Collection

  /** A stored post; `date`, `time` and the timestamps are not modelled. */
  datatype Blog = Blog(
    title: string,
    detail: string,
    image: string,
    isActive: bool,
    authorName: string,
    likeCount: int,
    viewCount: int)

  /** A new post with the schema defaults: visible, no likes, no views. */
  function NewBlog(title: string, detail: string, image: string, authorName: string): (b: Blog)
    ensures b.title == title && b.detail == detail && b.image == image && b.authorName == authorName
    ensures b.isActive && b.likeCount == 0 && b.viewCount == 0
  {
    Blog(title, detail, image, true, authorName, 0, 0)
  }

  /** The record after one like, unlike or view. */
  function Liked(b: Blog): Blog { b.(likeCount := b.likeCount + 1) }
  function Unliked(b: Blog): Blog { b.(likeCount := b.likeCount - 1) }
  function Viewed(b: Blog): Blog { b.(viewCount := b.viewCount + 1) }

  /** An unlike after a like restores the record, and the other way round. */
  lemma LikeUnlikeInverse(b: Blog)
    ensures Unliked(Liked(b)) == b && Liked(Unliked(b)) == b
  {
  }

  /** Nothing bounds the like counter from below: unliking a post nobody liked makes it negative. */
  lemma UnlikeBelowZero(b: Blog)
    requires b.likeCount == 0
    ensures Unliked(b).likeCount == -1
  {
  }

  /** Views and likes are counted independently of each other and of the post's text. */
  lemma CountersIndependent(b: Blog)
    ensures Viewed(Liked(b)) == Liked(Viewed(b))
    ensures Viewed(b).likeCount == b.likeCount && Liked(b).viewCount == b.viewCount
    ensures Liked(b).(likeCount := 0) == b.(likeCount := 0)
  {
  }

  /** The schema's required paths: a post without one of them is refused by `save`. */
  predicate HasRequiredFields(b: Blog) {
    b.title != "" && b.detail != "" && b.image != "" && b.authorName != ""
  }

  ghost predicate WellFormed(docs: seq<Doc<Blog>>) {
    UniqueKeys(docs) && forall i :: 0 <= i < |docs| ==> HasRequiredFields(docs[i].rec)
  }

  /** Saving a complete post under any key keeps the collection well formed. */
  lemma PutKeepsWellFormed(docs: seq<Doc<Blog>>, id: Id, b: Blog)
    requires WellFormed(docs) && HasRequiredFields(b)
    ensures WellFormed(Put(docs, id, b))
  {
  }

  class BlogStore {
    var docs: seq<Doc<Blog>>

    ghost predicate Valid()
      reads this
    {
      WellFormed(docs)
    }

    constructor ()
      ensures Valid() && docs == []
    {
      docs := [];
    }
  }

  /**
   * A post fetched with `findById`: its fields are changed in place and
   * `Save` writes them back under the same key.
   */
  class BlogDocument {
    const store: BlogStore
    const id: Id
    var title: string
    var detail: string
    var image: string
    var isActive: bool
    var authorName: string
    var likeCount: int
    var viewCount: int

    function Value(): Blog
      reads this
    {
      Blog(title, detail, image, isActive, authorName, likeCount, viewCount)
    }

    constructor Hydrate(store: BlogStore, id: Id, b: Blog)
      ensures this.store == store && this.id == id && Value() == b
    {
      this.store := store;
      this.id := id;
      title, detail, image, isActive := b.title, b.detail, b.image, b.isActive;
      authorName, likeCount, viewCount := b.authorName, b.likeCount, b.viewCount;
    }

    /** `save()`: the stored record under this key becomes the document's fields. */
    method Save()
      requires store.Valid() && HasRequiredFields(Value())
      modifies store
      ensures store.Valid() && store.docs == Put(old(store.docs), id, Value())
    {
      PutKeepsWellFormed(store.docs, id, Value());
      store.docs := Put(store.docs, id, Value());
    }

    method IncrementViewCount()
      requires store.Valid() && HasRequiredFields(Value())
      modifies this, store
      ensures Value() == Viewed(old(Value()))
      ensures store.Valid() && store.docs == Put(old(store.docs), id, Value())
    {
      viewCount := viewCount + 1;
      Save();
    }

    method IncrementLikeCount()
      requires store.Valid() && HasRequiredFields(Value())
      modifies this, store
      ensures Value() == Liked(old(Value()))
      ensures store.Valid() && store.docs == Put(old(store.docs), id, Value())
    {
      likeCount := likeCount + 1;
      Save();
    }

    method DecrementLikeCount()
      requires store.Valid() && HasRequiredFields(Value())
      modifies this, store
      ensures Value() == Unliked(old(Value()))
      ensures store.Valid() && store.docs == Put(old(store.docs), id, Value())
    {
      likeCount := likeCount - 1;
      Save();
    }
  }
}
