# EchoThread storage and auth, modelled in Dafny

EchoThread is a client-only blog demo. Its data layer (`app.js`) keeps two
arrays in the browser's persistent key-value store: users under
`blog_users_v1` and posts under `blog_posts_v1`. Each post carries its likes
and comments. A per-tab session key holds the current user's id. Every
operation that changes data loads a whole array, appends, edits or removes
one record, and saves the whole array back; the lookups only load. `auth.register` and `auth.login` add salted password hashing on
top.

This project models that layer:

- `Wrappers`: `Option`, which stands for JavaScript's `null`.
- `Text`: the string primitives. `Lower` is an ASCII stand-in for
  `toLowerCase`. `Trim` is `String.prototype.trim` over the ECMAScript
  white-space and line-terminator characters.
- `Helpers`: `makeId`, a counting loop over the 58-character alphabet.
- `Records`: the User, Post and Comment records, and the first-match
  `find`/`findIndex` lookups. It also holds the edits made on likes and
  comments (`AddLike`, `Without` = `filter`, `RemoveAt` = `splice`).
- `Storage`: class `Store`. Its fields `userSlot` and `postSlot` are the two
  storage keys, and `session` is the tab's session entry. A "load" reads a
  field and a "save" assigns it. A key holds nothing (`Missing`, which also stands for
  the empty string: the code treats both alike), text that does not parse
  (`Malformed`), or an array (`Stored`). Both `Missing` and
  `Malformed` load as the empty array, as `loadUsers`/`loadPosts` do.
  `Users()` and `Posts()` are `getAllUsers` and `getAllPosts`.
- `Auth`: `Register` (a method that takes a `Store`) and `Login` (a function
  that reads a `Store`). The digest is passed in as a parameter
  `hash: string -> string`.
- `Scenarios`: client methods that chain the operations and show what a
  caller can prove from the contracts.

Clock readings, fresh ids and salts are parameters of the operations that use
them. `createPost` reads the clock twice, so it takes two timestamps and
nothing relates them.

Behaviours of the code that are easy to misread (the model follows the code):

- `deleteComment` without a session fails with no message. `createPost`,
  `likePost`, `unlikePost` and `addComment` report "Login required".
  `updatePost` and `deletePost` look the post up first: they fail with no
  message when it is missing and report "Not allowed" once it is found.
- `login` is one disjunctive `find`. The first user in storage order that
  matches on id, email or display name wins. There is no precedence of id
  over email over name (`Auth.LoginTakesFirstUserOnAnyField`).
- The id alphabet leaves out `I`, `O`, `l` and `o`, but keeps the digits `0`
  and `1`.
- `register` and `login` parse the users key without a `try`, so unparsable
  data makes them reject (`Unparsable`) instead of reading it as empty.
- `getPostById` has no guard for an empty id, unlike the user lookups.

## Model

| member | source | states |
|---|---|---|
| Text.LowerChar | app.js:18 | the result is never an upper-case ASCII letter; other characters are unchanged, and an upper-case letter becomes the matching lower-case letter (its code plus 32) |
| Text.Lower | app.js:18 | same length as the input, and each character is lower-cased in place |
| Text.LowerIdempotent | app.js:18 | lower-casing twice gives the same string as lower-casing once |
| Text.TrimStart | app.js:126 | the result is a suffix, only white space was dropped before it, and it starts with a non-space |
| Text.TrimEnd | app.js:126 | the result is a prefix, only white space was dropped after it, and it ends with a non-space |
| Text.Trim | app.js:126 | the result is no longer than the input, and it neither starts nor ends with white space |
| Text.TrimIsSlice | app.js:126 | the trimmed string is a slice s[i..j] of the input with only white space before i and after j |
| Text.TrimEmptyIffBlank | app.js:126 | trimming gives the empty string iff the input is all white space |
| Text.TrimOfTrimmed | app.js:146 | trimming an already trimmed identifier changes nothing |
| Helpers.AlphabetShape | app.js:111 | the id alphabet has 58 characters and includes the digits 0 and 1 |
| Helpers.MakeId | app.js:110-113 | the id has length len (0 when len is not positive), its k-th character is the alphabet entry at the k-th draw, and every character is in the alphabet |
| Records.FirstMatch | app.js:17-19 | the index of the first user matching the key in storage order, or None exactly when no user matches |
| Records.FirstMatchUnique | app.js:17-19 | the first-match meaning determines the result: two results that both satisfy it are equal |
| Records.FirstUser | app.js:17-19 | `find` returns the record at the first matching index, or null when none matches |
| Records.UserById | app.js:17 | null for an empty id; otherwise the first user whose id equals the query |
| Records.UserByEmail | app.js:18 | null for an empty query; otherwise the first user with a non-empty email equal to the query ignoring case; users without an email are skipped |
| Records.UserByName | app.js:19 | null for an empty query; otherwise the first user with a non-empty display name equal to the query ignoring case; users without a name are skipped |
| Records.FirstMatchAppend | app.js:21 | after an append, an existing first match stays; otherwise the appended user is found iff it matches |
| Records.AddedUserIsFound | app.js:21 | round trip of addUser: a lookup by a key the added user matches returns that user when no earlier user matches |
| Records.EmailTaken | app.js:129 | register's `some` check: for a non-empty email it holds iff getUserByEmail finds a user; an empty email is never taken |
| Records.AppendKeepsEmailsUnique | app.js:129-139 | pushing a user whose email is absent or not yet taken, ignoring case, keeps no two users sharing an email |
| Records.NormalizeEmail | app.js:126 | null iff the email is absent or all white space; otherwise a non-empty slice of it with no white space at either end and only white space cut away around it |
| Records.IndexByKey | app.js:54 | the index of the first element whose key equals the id, or None exactly when no element has that key |
| Records.PostIndex | app.js:54 | the index of the first post with that id, or None exactly when no post has it |
| Records.PostIndexAfterEdit | app.js:67-68 | editing a post in place without changing its id leaves every id lookup unchanged |
| Records.PostById | app.js:35 | the first post with that id, or null exactly when none has it; an empty id is not special |
| Records.CommentIndex | app.js:89 | the index of the first comment with that id, or None exactly when none has it |
| Records.AppendedPostIsFound | app.js:50 | round trip of createPost: a post appended under an unused id is what getPostById returns |
| Records.AddLike | app.js:68 | the user id ends up among the likes; the likes are otherwise unchanged; the id is appended only when absent; no duplicate is introduced |
| Records.LikeIdempotent | app.js:68 | liking twice gives the same likes as liking once |
| Records.Without | app.js:74 | an element is in the result iff it was in the likes and is not the id; an absent id changes nothing |
| Records.WithoutCounts | app.js:74 | the id occurs zero times in the result, and every other liker occurs as often as before |
| Records.WithoutIsSubsequence | app.js:74 | the result keeps the remaining likers in their original order |
| Records.WithoutKeepsDistinct | app.js:74 | filtering duplicate-free likes leaves them duplicate-free |
| Records.WithoutAppend | app.js:74 | filtering distributes over concatenation |
| Records.UnlikeUndoesLike | app.js:65-76 | for a user who had not liked the post, unliking after liking restores the original likes |
| Records.RemoveAt | app.js:63 | `splice(i, 1)` removes exactly the element at i; elements before it keep their index, elements after it move down one, and the multiset loses exactly that element |
| Records.DeletedPostIsGone | app.js:59-63 | when ids are unique, getPostById finds nothing under the deleted post's id |
| Storage.Load | app.js:11-13 | an absent or unparsable key loads as the empty array; a stored array loads as itself |
| Storage.Message | app.js:39-150 | a failure carries no message exactly for the code's bare `{success:false}` returns (a post or comment not found, or `deleteComment` without a session user) and for unparsable user data; every other reason has a message |
| Storage.LikedBy | app.js:68 | the session user's id is among the post's likes afterwards, the likes are AddLike of the old ones, and no other field changes |
| Storage.UnlikedBy | app.js:74 | the user's id is no longer among the post's likes, the likes are Without of the old ones, and no other field changes |
| Storage.Store.constructor | app.js:8-14 | the store starts from the given contents of the two keys and the session |
| Storage.Store.Users | app.js:16 | getAllUsers is what the users key loads: its stored array, or empty when the key is absent or unparsable |
| Storage.Store.Posts | app.js:34 | getAllPosts is what the posts key loads: its stored array, or empty when the key is absent or unparsable |
| Storage.Store.CurrentUser | app.js:23-27 | a user is returned iff the session holds a non-empty id that some user has; the user returned has exactly that id and is the first user in storage order with it |
| Storage.Store.IsCurrentUserOwner | app.js:94 | true iff a post is given and its author is the session's user |
| Storage.Store.IsCurrentUserLiked | app.js:77 | true iff getCurrentUser finds a user (so a stale session id gives false) and that user's id is among the post's likes |
| Storage.Store.EnsureInit | app.js:29-32 | an absent key becomes the empty array and any other content stays, so what the loads return is unchanged; the session is unchanged |
| Storage.Store.AddUser | app.js:21 | the users become the old users plus this record at the end; posts and session are unchanged |
| Storage.Store.CreatePost | app.js:37-51 | without a session user it fails with "Login required" and nothing changes; otherwise exactly one post is appended after the old posts, with the session user as author, the given title and content, and empty likes and comments; likes stay duplicate-free |
| Storage.Store.UpdatePost | app.js:52-58 | an id no post has fails with no message; otherwise it fails with "Not allowed" unless the session user is the author; every failure leaves posts unchanged; it succeeds iff the post exists and isCurrentUserOwner holds of it; a success changes only title, content and updatedAt of that one post |
| Storage.Store.DeletePost | app.js:59-64 | the same checks in the same order as update; a success removes exactly the first post with that id and keeps the rest in order |
| Storage.Store.LikePost | app.js:65-70 | "Login required" is checked before the post lookup; a missing post fails with no message; a success replaces only that post's likes with AddLike of the session user; failures change nothing; likes stay duplicate-free |
| Storage.Store.UnlikePost | app.js:71-76 | the same checks as like; a success removes the session user's id from that post's likes with Without, and no other post changes |
| Storage.Store.AddComment | app.js:79-85 | the same checks as like; a success appends one comment (the fresh id, the session user as author, the text, the timestamp) to the end of that post's comments, and nothing else changes |
| Storage.Store.DeleteComment | app.js:86-92 | it fails with no message when there is no session user, no such post or no such comment, and with "Not allowed" when the session user did not write the comment; every failure changes nothing; a success removes exactly that comment |
| Storage.OwnerIsSessionUser | app.js:94 | with the session set to an existing user's id, getCurrentUser returns that user, and a post is the current user's iff that user wrote it |
| Auth.NewUser | app.js:134-137 | the record register builds: the given id, display name, salt and timestamp, passwordHash = hash(salt + password), and the normalised email, which when present is non-empty and starts with a non-space |
| Auth.Register | app.js:125-141 | unparsable user data rejects the call; it fails with "Email already used", leaving users unchanged, iff the trimmed email is present and some user already holds it ignoring case; otherwise exactly one user is appended, with passwordHash = hash(salt + password) and the trimmed email; email uniqueness is preserved; posts and session are untouched |
| Auth.Authenticate | app.js:145-151 | an empty identifier fails first; "User not found" iff no user matches the trimmed identifier on id, email or name; when the first such user is u, it succeeds with u iff hash(u.salt + password) equals u's stored hash, and fails with "Wrong password" otherwise |
| Auth.Login | app.js:143-152 | unparsable user data rejects the call; otherwise Authenticate decides on the loaded users; the store is only read |
| Auth.AuthenticateFound | app.js:147-151 | once the lookup has found u, only the password check decides the result |
| Auth.LoginWithRegisteredEmail | app.js:125-152 | after registering with an email that no existing user answers to, logging in with that email succeeds with the new record iff the attempted password hashes like the registered one, and fails with "Wrong password" otherwise |
| Auth.LoginTakesFirstUserOnAnyField | app.js:147 | a first user whose display name is the query wins over a later user whose id is the query |
| Scenarios.PostNeedsLogin | app.js:37-51 | an anonymous createPost fails with "Login required"; once the session names an existing user, createPost succeeds and the post is listed last |
| Scenarios.DeleteAs | app.js:59-64 | signing in as an existing user and deleting the first post with an id fails with "Not allowed" and changes no post unless that user wrote it, and otherwise removes exactly that post |
| Scenarios.OnlyAuthorDeletes | app.js:59-64 | among posts with unique ids, for a post written by a: another user b's deletePost fails with "Not allowed"; a's then succeeds; the list is one shorter and getPostById finds nothing under the id |
| Scenarios.LikeTwice | app.js:65-70 | a second likePost returns the same result as the first; the store ends as one like left it: after a success only that post's likes become AddLike of the session user, after a failure the posts are unchanged; after a success isCurrentUserLiked holds of the post |
| Scenarios.RegisterThenLogin | app.js:125-152 | register into an empty store, then log in by the email: the same password returns the new user, a different one gives "Wrong password" |

## Left out

- Browser storage I/O and JSON (de)serialisation (app.js:11-14, 24, 127, 139, 144). The keys are fields, a load reads one and a save assigns one. Stored data that parses to something other than an array (for example `null`) is not modelled; such data would make the source throw later.
- `sha256Hex` (app.js:115-121): SHA-256, `TextEncoder` and hex rendering are foreign calls. The model takes an arbitrary function `hash` from the salted password to the digest.
- `Math.random` in makeId (app.js:112). `Helpers.MakeId` takes the drawn alphabet indices as input. Register, createPost and addComment take their fresh id (and salt) as parameters instead of calling makeId.
- `Date.now()` (app.js:45-46, 56, 82, 137): timestamps are parameters.
- `async`/`await`, cross-tab races between load and save, and the `window.*` exports and start-up call (app.js:157-182): scheduling and plumbing with no logic.
- Text.Lower: models `toLowerCase` only on ASCII letters, because full Unicode case mapping is library data that is not reproduced here.
- JavaScript `null`/`undefined` arguments: a missing query or identifier is modelled as the empty string, which the source treats alike. The session entry is `None` when unset; `Some("")` is a second state that getCurrentUser treats the same way. Of a stored record's fields only `displayName` and `email` may be absent (`None`). Stored users without `id`, `salt` or `passwordHash`, and posts without `likes` or `comments`, are not modelled; on such records the source would throw, for example at `p.likes.includes`. A missing title or content is not distinguished from a string.
- Helpers.AlphabetShape: does not state that `I`, `O`, `l` and `o` are absent from the alphabet, because a per-character proof over the 58-character constant is not given. The constant itself is written exactly as in the source.
- Scenarios.RegisterThenLogin: stated for any already-trimmed email rather than the literal "a@x.com", because the verifier fully unfolds the recursive string functions on literal arguments and runs out of resource.
- Object identity: records are values, so aliasing between the object `createPost` returns and the stored one is not modelled. Nothing in the source relies on it.
