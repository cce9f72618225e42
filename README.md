# Rest_API_Blogs: request validation, collection handlers and bearer-header parsing

This project models the decision-making of a small Express + Firebase blog backend in
Dafny and proves properties of the model:

- **Request validation** in `controllers/blogController.js`. The handlers check the body's
  key *positions*, not just whether a key is present: `Object.keys(req.body)[0]` must be
  `email` (or `title`) and key 1 must be `password` (or `content`). Then they check for
  empty values. A request body is modelled as a sequence of `(key, value)` pairs in `Object.keys` order
  (`RequestBody.Body`). Reading `req.body.title` is first-match lookup by name
  (`RequestBody.Lookup`).
- **Collection handlers** in the same file. The Firestore `blogs` collection is a
  `map<Id, Post>` field of the class `BlogController.BlogStore`. `getBlogById`,
  `listAllBlogs`, `createBlog`, `updateBlog` and `deleteBlog` are methods of that class.
  Each returns a `Response`: `Ok(result)`, `Message(status, text)`, `BadRequest(text)`, or
  `ProviderError(error)` or `NoResponse` for login. The methods that change the map state their new map
  in terms of the old one. `listAllBlogs` keeps the source's loop that pushes one entry
  per document. `userLogin` is a function. The identity provider's sign-in is a function
  parameter, so the contract shows that the answer does not depend on the provider when
  validation fails, and otherwise depends only on its answer for the submitted email and
  password.
- **Bearer-token extraction** (`getAuthToken` in `middleware/verifyToken.js`).
  `JsString.Split` models JavaScript's `split(' ')`. `VerifyToken.GetAuthToken` maps an
  absent-or-present header to `null`, `undefined` or a token string. It always hands the
  request on (`Next`).

New document ids come from the store. `CreateBlog` chooses an id that is not yet in the
map, but does not fix which one it is. `FreshIdExists` proves that such an id always
exists.

The handlers test key *positions* 0 and 1, not key presence. A body with both keys in the
other order fails the key check (`RequestBody.PresenceIsNotPosition`,
`BlogController.SwappedLoginKeys`). Keys after the first two in `Object.keys` order are accepted and ignored.

## Model

| member | source | states |
|---|---|---|
| JsString.Split | middleware/verifyToken.js:7-8 | `split(' ')` always yields at least one segment, so `[0]` is always defined. What the segments are is stated by SplitFirst, JoinSplit and SplitJoin. |
| JsString.SplitFirst | middleware/verifyToken.js:7-8 | `split(' ')`'s first element is the text before the first space (the whole string if it has no space). There is exactly one element iff the string has no space. The remaining elements are the split of the text after that space. |
| JsString.JoinSplit | middleware/verifyToken.js:7 | Joining the segments of `s.split(' ')` with single spaces gives `s` back. No segment contains a space. |
| JsString.SplitJoin | middleware/verifyToken.js:7 | Splitting a space-joined list of space-free segments gives the list back (the other direction of the round trip). |
| JsString.SplitPrefix | middleware/verifyToken.js:7 | A space-free prefix is glued onto the first segment of what follows it. |
| JsString.FirstSegmentUnique | middleware/verifyToken.js:7-8 | "The text up to the first space" has only one answer, so the segment `split` takes is determined. |
| VerifyToken.GetAuthToken | middleware/verifyToken.js:5-13 | The token is `null` iff the header is absent, or is neither exactly `Bearer` nor starts with `Bearer ` (an empty header included). It is `undefined` iff the header is exactly `Bearer`. Otherwise it is the text after `Bearer ` up to the next space. The middleware always calls `next` and never answers the request itself. |
| VerifyToken.BearerSchemeIsFirstSegment | middleware/verifyToken.js:7 | The first `split(' ')` segment equals `Bearer` iff the header is `Bearer` or starts with `Bearer `. |
| VerifyToken.BearerSegments | middleware/verifyToken.js:8 | When the first segment is `Bearer`, a second segment exists iff a space follows it, and that second segment is the text after `Bearer ` up to the next space. |
| VerifyToken.RejectedSchemes | middleware/verifyToken.js:6-10 | An absent header, an empty header, `bearer x` and `Basic x` all give `null`. |
| VerifyToken.BareSchemeIsUndefined | middleware/verifyToken.js:8 | `Bearer` with no space gives `undefined`, which is not `null`. |
| VerifyToken.TrailingSpaceGivesEmptyToken | middleware/verifyToken.js:8 | `Bearer ` gives the empty token. |
| VerifyToken.OnlySecondSegment | middleware/verifyToken.js:8 | `Bearer a b` gives `a`: only the second segment is taken. |
| RequestBody.KeysAtPositions | controllers/blogController.js:11-12 | The test `Object.keys(body)[0] === k0 && Object.keys(body)[1] === k1` holds iff key 0 is k0 and key 1 is k1. With fewer than two keys, key 1 is `undefined` and the test fails. |
| RequestBody.Lookup | controllers/blogController.js:10 | Destructuring finds a value iff the key is present somewhere in the body. The value found is the one under the first occurrence of the key. That is exact for a parsed body, which never repeats a key. |
| RequestBody.FirstKeysLookup | controllers/blogController.js:10-14 | Once key 0 and key 1 pass the positional check, reading the two names gives values 0 and 1. |
| RequestBody.FirstKeysArePresent | controllers/blogController.js:12 | Passing the positional check implies both keys are present. |
| RequestBody.PresenceIsNotPosition | controllers/blogController.js:12 | The converse fails: both keys present in the other order do not pass. |
| BlogController.View | controllers/blogController.js:44-50 | The `blogPost` object for a document carries its id and exactly its stored fields, and it is the only view with that id and those fields. The same object is built at lines 69-75. |
| BlogController.ValidateLogin | controllers/blogController.js:11-16 | Valid iff key 0 is `email`, key 1 is `password` and both values are non-empty. The keys message is given iff the positional check fails. The empty message is given iff the keys pass but a value is empty (the key check comes first). |
| BlogController.ValidateCreate | controllers/blogController.js:85-91 | Valid iff key 0 is `title`, key 1 is `content` and both values are non-empty. Otherwise the keys message (keys wrong) or the values message (keys right, a value empty). |
| BlogController.ValidateUpdate | controllers/blogController.js:149-154 | Valid iff key 0 is `title`, key 1 is `content` and the title is non-empty, whatever the content. Otherwise the keys message, or `'title' value cannot be empty.` |
| BlogController.MissingLoginKey | controllers/blogController.js:12-13 | A login body without `email` or without `password` gets the keys message. |
| BlogController.SwappedLoginKeys | controllers/blogController.js:12-13 | `password` before `email` gets the keys message although both keys are present. |
| BlogController.MissingPostKey | controllers/blogController.js:87-88 | A body without `title` or without `content` gets the keys message from create, and also from update (line 149). |
| BlogController.UpdateAcceptsEmptyContent | controllers/blogController.js:151-153 | Update accepts every body that create accepts. It also accepts exactly those with a non-empty title and empty content. |
| BlogController.UserLogin | controllers/blogController.js:9-31 | A 400 iff validation fails, carrying its message. Otherwise the provider is asked with the body's email and password. Its token gives 200 `Auth Success.` and its sign-in error gives a 404 with that error. If `getIdToken()` rejects after a successful sign-in, no answer is sent (`NoResponse`): that promise is not returned to the chain, so the `.catch` at line 27 never sees it. |
| BlogController.LongerThanAll | controllers/blogController.js:100 | For any finite set of ids, some string is longer than all of them. |
| BlogController.FreshIdExists | controllers/blogController.js:100 | An id not yet in the collection always exists for the store to assign. |
| BlogController.ListOneMore | controllers/blogController.js:43-52 | Pushing the view of one more unlisted document keeps the list exact: one entry per listed id, no repeats, fields as stored. |
| BlogController.BlogStore.GetBlogById | controllers/blogController.js:62-77 | An absent id gives 200 `No matching document.`. A present id gives that document with its id and all its fields. |
| BlogController.BlogStore.ListAllBlogs | controllers/blogController.js:34-54 | An empty collection gives 200 `No matching document.` rather than a list. Otherwise the list has exactly one entry per stored document, each with that document's id and fields. |
| BlogController.BlogStore.CreateBlog | controllers/blogController.js:83-106 | On a 400 the map is unchanged. On success exactly one entry is added, under an id not previously present, holding the submitted title and content, created at `now` and never modified. The result carries that id. Every title stays non-empty. |
| BlogController.BlogStore.UpdateBlog | controllers/blogController.js:137-161 | Checks run in this order: existence (absent gives 200 `No matching document.` whatever the body, map unchanged), then key positions, then an empty title (400, map unchanged). On success only title, content and `modified_at` of that id change, and the message is `Blog post with ID of <id> is updated.`. `created_at`, the key set and every other entry are unchanged. |
| BlogController.BlogStore.DeleteBlog | controllers/blogController.js:112-125 | An absent id gives 200 `No matching document.` and no change. Otherwise exactly that id is removed, with the message `Blog post with ID of <id> is deleted.`, and every other entry is unchanged. |
| BlogController.CreateThenGet | controllers/blogController.js:64-105 | Create followed by get on the returned id gives back the same post: same title, content and id. |
| BlogController.CreateTwice | controllers/blogController.js:93-105 | Two identical creates give two distinct ids and two more documents (create is not idempotent). |
| BlogController.DeleteThenAbsent | controllers/blogController.js:115-124 | After a delete, get, delete and update on that id all answer `No matching document.`. |

## Left out

- `verifyAuth` (middleware/verifyToken.js:15-30): its behaviour depends on when the asynchronous `verifyIdToken` promise settles relative to `next()`. This is a race over a foreign call, so the model has no such step. The 401 `Auth failed.` answer exists only there.
- Firebase calls (`signInWithEmailAndPassword`, `getIdToken`, `verifyIdToken`, and Firestore `get`/`add`/`delete`/`runTransaction`): the collection is an in-memory map, and sign-in is a function given to `UserLogin`.
- Store-failure answers with status 404 (controllers/blogController.js:57, :79, :108, :128, :133, :163): these are opaque provider errors, and the model's store operations always succeed. The login provider's 404 (:29) is modelled, as `ProviderError`.
- Transaction atomicity of `updateBlog`: each method runs as one sequential step, so there are no concurrent updates to race.
- `Date()` timestamps: they are string parameters supplied by the caller.
- BlogController.BlogStore.ListAllBlogs: does not model the order Firestore returns documents in. The loop takes the remaining ids in an unspecified order, and the contract says nothing about order.
- The mapping from the order the client sends keys to `Object.keys` order is not modelled. `Object.keys` lists integer-like keys (`"0"`, `"1"`, …) first, in ascending order, and the other keys after them in insertion order. So a trailing key such as `0=z` in `title=x&content=y&0=z` (or `email=a&password=b&1=c`) comes first in `Object.keys`, and the positional checks at controllers/blogController.js:12, :87 and :149 fail. The model's `Body` is already in `Object.keys` order.
- Body values are modelled as strings. The JSON parser (app.js:9) and the extended URL-encoded parser can also give numbers, booleans, `null`, arrays or nested objects. `.length` on these is an element count or `undefined`, and it throws only on `null`. So a non-string value can pass the empty-value checks (controllers/blogController.js:14, :89, :151) and be stored: `title=&title=&content=x` gives a title `['', '']` of length 2, and `title[a]=x` gives a title whose length is `undefined`. The model does not capture this.
- `helloWorld`, routes/index.js, app.js (routing, body parsers, `app.listen`, the delayed 500 fallback) and firebaseAdminConfig.js (SDK set-up): framework and configuration code with no decisions to model.
- The HTTP `status` field that each JSON body repeats: `Message` carries its status, `BadRequest` is always 400, `Ok` is always 200 and `ProviderError` is always 404.
