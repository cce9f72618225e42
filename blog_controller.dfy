/**
 * The request handlers of the blog controller. A request body is an ordered list of
 * key/value pairs; the `blogs` collection is a map from document id to post, held by a
 * BlogStore object whose methods are the collection handlers.
 */
module BlogController {
  import opened Wrappers
  import opened RequestBody

  type Id = string

  /** JavaScript's `Date()` (called without `new`) returns a string; it is supplied by the caller. */
  type Timestamp = string

  /** A document of the `blogs` collection. */
  datatype Post = Post(title: string, content: string, createdAt: Timestamp, modifiedAt: Option<Timestamp>)

  /** The `blogPost` object a handler sends back: the document's id with its fields. */
  datatype PostView = PostView(id: Id, title: string, content: string, createdAt: Timestamp, modifiedAt: Option<Timestamp>)

  /** The document fields a view carries, without its id. */
  function Fields(v: PostView): Post {
    Post(v.title, v.content, v.createdAt, v.modifiedAt)
  }

  /** The `blogPost` object built for a document: its id and exactly its fields. */
  function View(id: Id, p: Post): (v: PostView)
    ensures v.id == id && Fields(v) == p
    ensures forall w: PostView :: w.id == id && Fields(w) == p ==> w == v
  {
    PostView(id, p.title, p.content, p.createdAt, p.modifiedAt)
  }

  /** The `result` (or, for login, the `token`) of a 200 answer. */
  datatype Payload = AuthSuccess(token: string) | Single(post: PostView) | List(posts: seq<PostView>)

  /**
   * The answers a handler sends: 200 with a result, a 200 message, a 400, a 404 from the
   * identity provider, or nothing at all (a rejection nobody catches leaves the request
   * unanswered).
   */
  datatype Response =
    | Ok(result: Payload)
    | Message(status: int, text: string)
    | BadRequest(text: string)
    | ProviderError(error: string)
    | NoResponse

  /**
   * What the identity provider answers for an email and a password: a signed-in user whose
   * `getIdToken()` gives a token, a signed-in user whose `getIdToken()` rejects, or a
   * sign-in error.
   */
  datatype SignInResult = SignedIn(token: string) | TokenRejected | SignInFailed(error: string)

  datatype Validation = Valid | Invalid(message: string)

  const LoginKeysMissing := "'email' and 'password' keys should be set."
  const LoginValuesEmpty := "'email' and 'password' values cannot be empty."
  const PostKeysMissing := "'title' and 'content' keys should be set."
  const PostValuesEmpty := "'title' and 'content' values cannot be empty."
  const TitleEmpty := "'title' value cannot be empty."
  const NoMatchingDocument := "No matching document."

  function UpdatedMessage(id: Id): string { "Blog post with ID of " + id + " is updated." }
  function DeletedMessage(id: Id): string { "Blog post with ID of " + id + " is deleted." }

  // ---------------------------------------------------------------------------
  // Validation of request bodies
  // ---------------------------------------------------------------------------

  /**
   * `userLogin`'s checks: key 0 must be `email` and key 1 `password` (a missing key or
   * the two in the other order fail this first check), then neither value may be empty.
   */
  function ValidateLogin(body: Body): (r: Validation)
    ensures r == Valid <==>
              FirstKeysAre(body, "email", "password") && body[0].1 != "" && body[1].1 != ""
    ensures r == Invalid(LoginKeysMissing) <==> !FirstKeysAre(body, "email", "password")
    ensures r == Invalid(LoginValuesEmpty) <==>
              FirstKeysAre(body, "email", "password") && (body[0].1 == "" || body[1].1 == "")
  {
    if KeyAt(body, 0) != Some("email") || KeyAt(body, 1) != Some("password") then
      Invalid(LoginKeysMissing)
    else
      FirstKeysLookup(body, "email", "password");
      if Lookup(body, "email") == Some("") || Lookup(body, "password") == Some("") then
        Invalid(LoginValuesEmpty)
      else
        Valid
  }

  /** `createBlog`'s checks: key 0 `title`, key 1 `content`, then neither value empty. */
  function ValidateCreate(body: Body): (r: Validation)
    ensures r == Valid <==>
              FirstKeysAre(body, "title", "content") && body[0].1 != "" && body[1].1 != ""
    ensures r == Invalid(PostKeysMissing) <==> !FirstKeysAre(body, "title", "content")
    ensures r == Invalid(PostValuesEmpty) <==>
              FirstKeysAre(body, "title", "content") && (body[0].1 == "" || body[1].1 == "")
  {
    if KeyAt(body, 0) != Some("title") || KeyAt(body, 1) != Some("content") then
      Invalid(PostKeysMissing)
    else
      FirstKeysLookup(body, "title", "content");
      if Lookup(body, "title") == Some("") || Lookup(body, "content") == Some("") then
        Invalid(PostValuesEmpty)
      else
        Valid
  }

  /**
   * `updateBlog`'s body checks, made after the existence check: key 0 `title`, key 1
   * `content`, then a non-empty title. The content may be empty.
   */
  function ValidateUpdate(body: Body): (r: Validation)
    ensures r == Valid <==> FirstKeysAre(body, "title", "content") && body[0].1 != ""
    ensures r == Invalid(PostKeysMissing) <==> !FirstKeysAre(body, "title", "content")
    ensures r == Invalid(TitleEmpty) <==> FirstKeysAre(body, "title", "content") && body[0].1 == ""
  {
    if KeyAt(body, 0) != Some("title") || KeyAt(body, 1) != Some("content") then
      Invalid(PostKeysMissing)
    else
      FirstKeysLookup(body, "title", "content");
      if Lookup(body, "title") == Some("") then Invalid(TitleEmpty) else Valid
  }

  /** A body missing either login key, wherever the other one is, fails the key check. */
  lemma MissingLoginKey(body: Body)
    requires !HasKey(body, "email") || !HasKey(body, "password")
    ensures ValidateLogin(body) == Invalid(LoginKeysMissing)
  {
  }

  /** Both login keys present in the other order still fail the key check. */
  lemma SwappedLoginKeys(email: string, password: string)
    ensures var body := [("password", password), ("email", email)];
      HasKey(body, "email") && HasKey(body, "password") &&
      ValidateLogin(body) == Invalid(LoginKeysMissing)
  {
    PresenceIsNotPosition("email", "password", email, password);
  }

  /** A body missing `title` or `content` fails the key check of create and of update alike. */
  lemma MissingPostKey(body: Body)
    requires !HasKey(body, "title") || !HasKey(body, "content")
    ensures ValidateCreate(body) == Invalid(PostKeysMissing)
    ensures ValidateUpdate(body) == Invalid(PostKeysMissing)
  {
  }

  /**
   * Update accepts every body create accepts, and beyond those exactly the bodies with
   * a non-empty title and an empty content.
   */
  lemma UpdateAcceptsEmptyContent(body: Body)
    ensures ValidateCreate(body) == Valid ==> ValidateUpdate(body) == Valid
    ensures ValidateUpdate(body) == Valid && ValidateCreate(body) != Valid <==>
              FirstKeysAre(body, "title", "content") && body[0].1 != "" && body[1].1 == ""
  {
  }

  // ---------------------------------------------------------------------------
  // Login
  // ---------------------------------------------------------------------------

  /**
   * `userLogin`: a body that fails validation gets a 400 with the validation message and
   * the identity provider is not asked; otherwise the provider is asked with the body's
   * email and password, and its token or its error is passed back (200 or 404). The
   * promise of `getIdToken()` is not returned to the chain, so its rejection escapes the
   * `.catch` and no answer is sent.
   */
  function UserLogin(body: Body, signIn: (string, string) -> SignInResult): (r: Response)
    ensures r.BadRequest? <==> ValidateLogin(body).Invalid?
    ensures ValidateLogin(body).Invalid? ==> r.text == ValidateLogin(body).message
    ensures ValidateLogin(body) == Valid ==>
              match signIn(body[0].1, body[1].1)
              case SignedIn(token) => r == Ok(AuthSuccess(token))
              case TokenRejected => r == NoResponse
              case SignInFailed(error) => r == ProviderError(error)
  {
    match ValidateLogin(body)
    case Invalid(message) => BadRequest(message)
    case Valid =>
      FirstKeysLookup(body, "email", "password");
      match signIn(Lookup(body, "email").value, Lookup(body, "password").value)
      case SignedIn(token) => Ok(AuthSuccess(token))
      case TokenRejected => NoResponse
      case SignInFailed(error) => ProviderError(error)
  }

  // ---------------------------------------------------------------------------
  // The blogs collection
  // ---------------------------------------------------------------------------

  /** Every stored post has a non-empty title: created and updated posts keep it so. */
  ghost predicate TitlesNonEmpty(docs: map<Id, Post>) {
    forall id :: id in docs ==> docs[id].title != ""
  }

  /** posts lists the documents of docs under the ids in keys, each exactly once, with its fields. */
  ghost predicate ListsOnce(posts: seq<PostView>, keys: set<Id>, docs: map<Id, Post>) {
    && keys <= docs.Keys
    && |posts| == |keys|
    && (forall i :: 0 <= i < |posts| ==> posts[i].id in keys && posts[i] == View(posts[i].id, docs[posts[i].id]))
    && (forall id :: id in keys ==> exists i :: 0 <= i < |posts| && posts[i].id == id)
    && (forall i, j :: 0 <= i < j < |posts| ==> posts[i].id != posts[j].id)
  }

  /** posts lists every document of docs exactly once. */
  ghost predicate ListsExactly(posts: seq<PostView>, docs: map<Id, Post>) {
    |posts| == |docs| && ListsOnce(posts, docs.Keys, docs)
  }

  /** Appending the view of one more document keeps the listing exact. */
  lemma ListOneMore(posts: seq<PostView>, keys: set<Id>, docs: map<Id, Post>, id: Id)
    requires ListsOnce(posts, keys, docs)
    requires id in docs && id !in keys
    ensures ListsOnce(posts + [View(id, docs[id])], keys + {id}, docs)
  {
    var posts' := posts + [View(id, docs[id])];
    assert posts'[|posts|].id == id;
    assert forall i :: 0 <= i < |posts| ==> posts'[i] == posts[i];
  }

  /** A string longer than every string of the set, hence not in it. */
  ghost function LongerThanAll(keys: set<string>): (s: string)
    ensures forall k :: k in keys ==> |k| < |s|
    decreases keys
  {
    if keys == {} then ""
    else
      var k :| k in keys;
      var s := LongerThanAll(keys - {k});
      if |k| < |s| then s else k + "x"
  }

  /** The store can always hand out an id it has not used. */
  lemma FreshIdExists(keys: set<Id>)
    ensures exists id :: id !in keys
  {
    var s := LongerThanAll(keys);
    assert s !in keys;
  }

  class BlogStore {
    /** The documents of the `blogs` collection, by id. */
    var docs: map<Id, Post>

    constructor (initial: map<Id, Post>)
      ensures docs == initial
    {
      docs := initial;
    }

    /** `getBlogById`: the document under the id, or 200 `No matching document.` */
    method GetBlogById(id: Id) returns (r: Response)
      ensures id !in docs ==> r == Message(200, NoMatchingDocument)
      ensures id in docs ==> r.Ok? && r.result.Single? && r.result.post.id == id
      ensures id in docs ==> r.result.post == View(id, docs[id])
    {
      if id !in docs {
        return Message(200, NoMatchingDocument);
      }
      var p := docs[id];
      r := Ok(Single(View(id, p)));
    }

    /**
     * `listAllBlogs`: an empty collection answers 200 `No matching document.`; otherwise
     * the result has one entry per document, with the document's id and fields.
     */
    method ListAllBlogs() returns (r: Response)
      ensures docs == map[] ==> r == Message(200, NoMatchingDocument)
      ensures docs != map[] ==> r.Ok? && r.result.List? && ListsExactly(r.result.posts, docs)
    {
      if docs == map[] {
        return Message(200, NoMatchingDocument);
      }
      var allBlogPosts: seq<PostView> := [];
      var remaining := docs.Keys;
      ghost var done: set<Id> := {};
      while remaining != {}
        invariant remaining !! done && remaining + done == docs.Keys
        invariant ListsOnce(allBlogPosts, done, docs)
        decreases remaining
      {
        var id :| id in remaining;
        var p := docs[id];
        ListOneMore(allBlogPosts, done, docs, id);
        allBlogPosts := allBlogPosts + [View(id, p)];
        remaining, done := remaining - {id}, done + {id};
      }
      assert done == docs.Keys;
      r := Ok(List(allBlogPosts));
    }

    /**
     * `createBlog`: a body failing validation gets its 400 and nothing is stored;
     * otherwise exactly one post is added, under an id the collection did not have, with
     * the submitted title and content, created at `now`; the answer carries that id.
     */
    method CreateBlog(body: Body, now: Timestamp) returns (r: Response)
      modifies this
      ensures ValidateCreate(body).Invalid? ==>
                r == BadRequest(ValidateCreate(body).message) && docs == old(docs)
      ensures ValidateCreate(body) == Valid ==>
                && r.Ok? && r.result.Single?
                && r.result.post.id !in old(docs)
                && r.result.post == PostView(r.result.post.id, body[0].1, body[1].1, now, None)
                && docs == old(docs)[r.result.post.id := Post(body[0].1, body[1].1, now, None)]
      ensures TitlesNonEmpty(old(docs)) ==> TitlesNonEmpty(docs)
    {
      var validation := ValidateCreate(body);
      if validation.Invalid? {
        return BadRequest(validation.message);
      }
      FirstKeysLookup(body, "title", "content");
      var title, content := Lookup(body, "title").value, Lookup(body, "content").value;
      var newBlogPost := Post(title, content, now, None);
      FreshIdExists(docs.Keys);
      var id: Id :| id !in docs;
      docs := docs[id := newBlogPost];
      r := Ok(Single(View(id, newBlogPost)));
    }

    /**
     * `updateBlog`: the existence check comes first, so an absent id answers 200
     * `No matching document.` whatever the body; then the body checks. On success only
     * title, content and modification time of that post change; its creation time and
     * every other post stay as they were.
     */
    method UpdateBlog(id: Id, body: Body, now: Timestamp) returns (r: Response)
      modifies this
      ensures id !in old(docs) ==> r == Message(200, NoMatchingDocument) && docs == old(docs)
      ensures id in old(docs) && ValidateUpdate(body).Invalid? ==>
                r == BadRequest(ValidateUpdate(body).message) && docs == old(docs)
      ensures id in old(docs) && ValidateUpdate(body) == Valid ==>
                && r == Message(200, UpdatedMessage(id))
                && docs == old(docs)[id := Post(body[0].1, body[1].1, old(docs)[id].createdAt, Some(now))]
      ensures docs.Keys == old(docs).Keys
      ensures forall k :: k in old(docs) && k != id ==> docs[k] == old(docs)[k]
      ensures TitlesNonEmpty(old(docs)) ==> TitlesNonEmpty(docs)
    {
      if id !in docs {
        return Message(200, NoMatchingDocument);
      }
      var validation := ValidateUpdate(body);
      if validation.Invalid? {
        return BadRequest(validation.message);
      }
      FirstKeysLookup(body, "title", "content");
      var title, content := Lookup(body, "title").value, Lookup(body, "content").value;
      docs := docs[id := docs[id].(title := title, content := content, modifiedAt := Some(now))];
      r := Message(200, UpdatedMessage(id));
    }

    /**
     * `deleteBlog`: an absent id answers 200 `No matching document.` and changes nothing;
     * otherwise exactly that post is removed.
     */
    method DeleteBlog(id: Id) returns (r: Response)
      modifies this
      ensures id !in old(docs) ==> r == Message(200, NoMatchingDocument) && docs == old(docs)
      ensures id in old(docs) ==> r == Message(200, DeletedMessage(id)) && docs == old(docs) - {id}
      ensures forall k :: k in old(docs) && k != id ==> k in docs && docs[k] == old(docs)[k]
      ensures TitlesNonEmpty(old(docs)) ==> TitlesNonEmpty(docs)
    {
      if id !in docs {
        return Message(200, NoMatchingDocument);
      }
      docs := docs - {id};
      r := Message(200, DeletedMessage(id));
    }
  }

  // ---------------------------------------------------------------------------
  // Scenarios over several requests
  // ---------------------------------------------------------------------------

  /** Creating a post and then fetching it by the returned id gives back the same post. */
  method CreateThenGet(store: BlogStore, title: string, content: string, now: Timestamp)
    returns (created: Response, fetched: Response)
    requires title != "" && content != ""
    modifies store
    ensures created.Ok? && created.result.Single?
    ensures created.result.post.title == title && created.result.post.content == content
    ensures fetched == created
  {
    created := store.CreateBlog([("title", title), ("content", content)], now);
    fetched := store.GetBlogById(created.result.post.id);
  }

  /** Two identical creates store two posts under two distinct ids. */
  method CreateTwice(store: BlogStore, body: Body, t1: Timestamp, t2: Timestamp)
    returns (first: Response, second: Response)
    requires ValidateCreate(body) == Valid
    modifies store
    ensures first.Ok? && first.result.Single? && second.Ok? && second.result.Single?
    ensures first.result.post.id != second.result.post.id
    ensures |store.docs| == |old(store.docs)| + 2
  {
    first := store.CreateBlog(body, t1);
    second := store.CreateBlog(body, t2);
  }

  /** After a delete the id is gone: fetching, deleting or updating it again finds nothing. */
  method DeleteThenAbsent(store: BlogStore, id: Id, body: Body, now: Timestamp)
    returns (fetched: Response, deletedAgain: Response, updated: Response)
    modifies store
    ensures id !in store.docs
    ensures fetched == deletedAgain == updated == Message(200, NoMatchingDocument)
    ensures store.docs == old(store.docs) - {id}
  {
    var _ := store.DeleteBlog(id);
    fetched := store.GetBlogById(id);
    deletedAgain := store.DeleteBlog(id);
    updated := store.UpdateBlog(id, body, now);
  }
}
