/**
 * The persisted records (users, posts with their likes and comments) and the
 * pure lookups the storage layer runs over them: every lookup is a
 * first-match `find` over the sequence, in storage order.
 */
module Records {
  import opened Wrappers
  import opened Text

  datatype User = User(
    id: string,
    displayName: Option<string>,
    email: Option<string>,
    salt: string,
    passwordHash: string,
    createdAt: int)

  datatype Comment = Comment(id: string, authorId: string, text: string, createdAt: int)

  datatype Post = Post(
    id: string,
    authorId: string,
    title: string,
    content: string,
    createdAt: int,
    updatedAt: int,
    likes: seq<string>,
    comments: seq<Comment>)

  /** JavaScript truthiness of an optional string field: present and not empty. */
  predicate Truthy(s: Option<string>)
  {
    s.Some? && s.value != ""
  }

  /** Comparison after lower-casing both sides. */
  predicate SameIgnoringCase(a: string, b: string)
  {
    Lower(a) == Lower(b)
  }

  /** The fields a user lookup can be keyed on. */
  datatype Key = ById(id: string) | ByEmail(email: string) | ByName(name: string) | ByLogin(query: string)

  predicate EmailIs(u: User, e: string)
  {
    Truthy(u.email) && SameIgnoringCase(u.email.value, e)
  }

  predicate NameIs(u: User, n: string)
  {
    Truthy(u.displayName) && SameIgnoringCase(u.displayName.value, n)
  }

  /** The predicate each lookup passes to `find`; a user lacking the field is skipped. */
  predicate Matches(u: User, k: Key)
  {
    match k
    case ById(id) => u.id == id
    case ByEmail(e) => EmailIs(u, e)
    case ByName(n) => NameIs(u, n)
    case ByLogin(q) => (u.id != "" && u.id == q) || EmailIs(u, q) || NameIs(u, q)
  }

  /** Reference meaning of `find`: r is the index of the first user that matches, or None when none does. */
  ghost predicate IsFirstMatch(users: seq<User>, k: Key, r: Option<nat>)
  {
    match r
    case None => forall j :: 0 <= j < |users| ==> !Matches(users[j], k)
    case Some(i) => i < |users| && Matches(users[i], k) && forall j :: 0 <= j < i ==> !Matches(users[j], k)
  }

  /** The same meaning, on the record that `find` returns. */
  ghost predicate IsFirstUser(users: seq<User>, k: Key, r: Option<User>)
  {
    match r
    case None => IsFirstMatch(users, k, None)
    case Some(u) => exists i: nat :: IsFirstMatch(users, k, Some(i)) && users[i] == u
  }

  /** Array.prototype.findIndex over the users. */
  function FirstMatch(users: seq<User>, k: Key): (r: Option<nat>)
    ensures IsFirstMatch(users, k, r)
  {
    if users == [] then None
    else if Matches(users[0], k) then Some(0)
    else match FirstMatch(users[1..], k)
      case None => None
      case Some(i) => Some(i + 1)
  }

  /** There is only one first match: the reference meaning determines the result. */
  lemma FirstMatchUnique(users: seq<User>, k: Key, a: Option<nat>, b: Option<nat>)
    requires IsFirstMatch(users, k, a) && IsFirstMatch(users, k, b)
    ensures a == b
  {
  }

  function FirstUser(users: seq<User>, k: Key): (r: Option<User>)
    ensures IsFirstUser(users, k, r)
  {
    match FirstMatch(users, k)
    case None => None
    case Some(i) => Some(users[i])
  }

  /** storage.getUserById: null for an empty id, otherwise the first user with exactly that id. */
  function UserById(users: seq<User>, id: string): (r: Option<User>)
    ensures id == "" ==> r.None?
    ensures id != "" ==> IsFirstUser(users, ById(id), r)
  {
    if id == "" then None else FirstUser(users, ById(id))
  }

  /** storage.getUserByEmail: null for an empty query, otherwise the first user whose email matches ignoring case. */
  function UserByEmail(users: seq<User>, email: string): (r: Option<User>)
    ensures email == "" ==> r.None?
    ensures email != "" ==> IsFirstUser(users, ByEmail(email), r)
  {
    if email == "" then None else FirstUser(users, ByEmail(email))
  }

  /** storage.getUserByName: null for an empty query, otherwise the first user whose display name matches ignoring case. */
  function UserByName(users: seq<User>, name: string): (r: Option<User>)
    ensures name == "" ==> r.None?
    ensures name != "" ==> IsFirstUser(users, ByName(name), r)
  {
    if name == "" then None else FirstUser(users, ByName(name))
  }

  /** Appending a user never changes an existing first match; otherwise the new user is found iff it matches. */
  lemma {:induction false} FirstMatchAppend(users: seq<User>, u: User, k: Key)
    ensures FirstMatch(users + [u], k) ==
      if FirstMatch(users, k).Some? then FirstMatch(users, k)
      else if Matches(u, k) then Some(|users|)
      else None
  {
    if users != [] {
      assert (users + [u])[1..] == users[1..] + [u];
      FirstMatchAppend(users[1..], u, k);
    }
  }

  /** Round trip of addUser: a user found by a key it matches is the one just added, unless an earlier user matches first. */
  lemma AddedUserIsFound(users: seq<User>, u: User, k: Key)
    requires Matches(u, k)
    requires forall j :: 0 <= j < |users| ==> !Matches(users[j], k)
    ensures FirstUser(users + [u], k) == Some(u)
  {
    FirstMatchUnique(users, k, FirstMatch(users, k), None);
    FirstMatchAppend(users, u, k);
  }

  /**
   * `users.some(...)` in registration: some user already holds this email,
   * ignoring case. It agrees with getUserByEmail, and an empty email is
   * never taken because users without an email are skipped.
   */
  function EmailTaken(users: seq<User>, email: string): (r: bool)
    ensures email != "" ==> (r <==> UserByEmail(users, email).Some?)
    ensures email == "" ==> !r
  {
    exists j :: 0 <= j < |users| && EmailIs(users[j], email)
  }

  /** The store's one uniqueness invariant: no two users share a present email, ignoring case. */
  ghost predicate EmailsUnique(users: seq<User>)
  {
    forall i, j :: 0 <= i < j < |users| && Truthy(users[i].email) ==> !EmailIs(users[j], users[i].email.value)
  }

  /** Appending a user whose email is absent or not yet taken keeps emails unique. */
  lemma AppendKeepsEmailsUnique(users: seq<User>, u: User)
    requires EmailsUnique(users)
    requires Truthy(u.email) ==> !EmailTaken(users, u.email.value)
    ensures EmailsUnique(users + [u])
  {
  }


  /** Registration's normalisation: `email && email.trim() || null`. */
  function NormalizeEmail(email: Option<string>): (r: Option<string>)
    ensures r.None? <==> email.None? || AllSpace(email.value)
    ensures r.Some? ==> r.value != "" && !IsSpace(r.value[0]) && !IsSpace(r.value[|r.value| - 1])
    ensures r.Some? ==>
      exists i, j :: 0 <= i <= j <= |email.value| && r.value == email.value[i..j] && SpaceOutside(email.value, i, j)
  {
    match email
    case None => None
    case Some(e) =>
      TrimEmptyIffBlank(e);
      TrimIsSlice(e);
      if e == "" || Trim(e) == "" then None else Some(Trim(e))
  }

  // ---- posts ----

  /** `findIndex(x => key(x) === id)`: the first element whose key is id. */
  function IndexByKey<T>(s: seq<T>, key: T -> string, id: string): (r: Option<nat>)
    ensures r.Some? ==> r.value < |s| && key(s[r.value]) == id
    ensures r.Some? ==> forall j :: 0 <= j < r.value ==> key(s[j]) != id
    ensures r.None? <==> forall j :: 0 <= j < |s| ==> key(s[j]) != id
  {
    if s == [] then None
    else if key(s[0]) == id then Some(0)
    else match IndexByKey(s[1..], key, id)
      case None => None
      case Some(i) => Some(i + 1)
  }

  /** posts.findIndex(p => p.id === id): the first post with that id. */
  function PostIndex(posts: seq<Post>, id: string): (r: Option<nat>)
    ensures r.Some? ==> r.value < |posts| && posts[r.value].id == id
    ensures r.Some? ==> forall j :: 0 <= j < r.value ==> posts[j].id != id
    ensures r.None? <==> forall j :: 0 <= j < |posts| ==> posts[j].id != id
  {
    IndexByKey(posts, (p: Post) => p.id, id)
  }

  /** Editing a post in place without touching its id leaves every id lookup where it was. */
  lemma PostIndexAfterEdit(posts: seq<Post>, i: nat, p: Post, id: string)
    requires i < |posts| && p.id == posts[i].id
    ensures PostIndex(posts[i := p], id) == PostIndex(posts, id)
  {
    var edited := posts[i := p];
    assert forall j :: 0 <= j < |posts| ==> edited[j].id == posts[j].id;
    var x, y := PostIndex(edited, id), PostIndex(posts, id);
    if x.Some? && y.Some? {
      assert !(x.value < y.value) && !(y.value < x.value);
    }
  }

  /** storage.getPostById: the first post with that id (there is no guard for an empty id). */
  function PostById(posts: seq<Post>, id: string): (r: Option<Post>)
    ensures r.None? <==> forall j :: 0 <= j < |posts| ==> posts[j].id != id
    ensures r.Some? ==> exists i :: (0 <= i < |posts| && posts[i] == r.value && r.value.id == id
                                    && forall j :: 0 <= j < i ==> posts[j].id != id)
  {
    match PostIndex(posts, id)
    case None => None
    case Some(i) => Some(posts[i])
  }

  /** p.comments.findIndex(c => c.id === id): the first comment with that id. */
  function CommentIndex(comments: seq<Comment>, id: string): (r: Option<nat>)
    ensures r.Some? ==> r.value < |comments| && comments[r.value].id == id
    ensures r.Some? ==> forall j :: 0 <= j < r.value ==> comments[j].id != id
    ensures r.None? <==> forall j :: 0 <= j < |comments| ==> comments[j].id != id
  {
    IndexByKey(comments, (c: Comment) => c.id, id)
  }

  ghost predicate IdsUnique(posts: seq<Post>)
  {
    forall i, j :: 0 <= i < j < |posts| ==> posts[i].id != posts[j].id
  }

  /** Round trip of createPost: a post appended under an unused id is the one getPostById returns. */
  lemma {:induction false} AppendedPostIsFound(posts: seq<Post>, p: Post)
    requires forall j :: 0 <= j < |posts| ==> posts[j].id != p.id
    ensures PostById(posts + [p], p.id) == Some(p)
  {
    var all := posts + [p];
    assert all[|posts|] == p;
    assert forall j :: 0 <= j < |posts| ==> all[j] == posts[j];
  }

  // ---- sequences edited in place ----

  predicate Distinct<T(==)>(s: seq<T>)
  {
    forall i, j :: 0 <= i < j < |s| ==> s[i] != s[j]
  }

  /** `if(!likes.includes(uid)) likes.push(uid)`. */
  function AddLike(likes: seq<string>, uid: string): (r: seq<string>)
    ensures uid in r
    ensures forall y :: y in r <==> y in likes || y == uid
    ensures uid in likes ==> r == likes
    ensures uid !in likes ==> r == likes + [uid]
    ensures Distinct(likes) ==> Distinct(r)
  {
    if uid in likes then likes else likes + [uid]
  }

  /** Liking twice has the same effect as liking once. */
  lemma LikeIdempotent(likes: seq<string>, uid: string)
    ensures AddLike(AddLike(likes, uid), uid) == AddLike(likes, uid)
  {
  }

  /** a is obtained from b by deleting some elements, keeping the order of the rest. */
  predicate Subsequence<T(==)>(a: seq<T>, b: seq<T>)
    decreases |b|
  {
    if a == [] then true
    else if b == [] then false
    else if a[0] == b[0] then Subsequence(a[1..], b[1..])
    else Subsequence(a, b[1..])
  }

  /**
   * `likes.filter(id => id !== uid)`: every occurrence of uid goes, and
   * exactly the other likers remain; an absent uid changes nothing.
   */
  function Without(likes: seq<string>, uid: string): (r: seq<string>)
    ensures forall y :: y in r <==> y in likes && y != uid
    ensures uid !in likes ==> r == likes
  {
    if likes == [] then []
    else
      var rest := Without(likes[1..], uid);
      assert likes == [likes[0]] + likes[1..];
      if likes[0] == uid then rest else [likes[0]] + rest
  }

  /** Every other liker stays as often as before; uid is gone entirely. */
  lemma {:induction false} WithoutCounts(likes: seq<string>, uid: string)
    ensures multiset(Without(likes, uid))[uid] == 0
    ensures forall y :: y != uid ==> multiset(Without(likes, uid))[y] == multiset(likes)[y]
  {
    if likes != [] {
      WithoutCounts(likes[1..], uid);
      assert likes == [likes[0]] + likes[1..];
      assert multiset(likes) == multiset{likes[0]} + multiset(likes[1..]);
      if likes[0] != uid {
        assert multiset(Without(likes, uid)) == multiset{likes[0]} + multiset(Without(likes[1..], uid));
      }
    }
  }

  /** The remaining likers keep their relative order. */
  lemma {:induction false} WithoutIsSubsequence(likes: seq<string>, uid: string)
    ensures Subsequence(Without(likes, uid), likes)
    decreases |likes|
  {
    if likes != [] {
      WithoutIsSubsequence(likes[1..], uid);
      var rest := Without(likes[1..], uid);
      if likes[0] == uid {
        assert rest == [] || rest[0] != likes[0];
      } else {
        assert ([likes[0]] + rest)[1..] == rest;
      }
    }
  }

  /** Unliking never introduces a duplicate liker. */
  lemma {:induction false} WithoutKeepsDistinct(likes: seq<string>, uid: string)
    requires Distinct(likes)
    ensures Distinct(Without(likes, uid))
  {
    if likes != [] {
      assert Distinct(likes[1..]) by {
        forall i, j | 0 <= i < j < |likes| - 1 ensures likes[1..][i] != likes[1..][j] {
          assert likes[1..][i] == likes[i + 1] && likes[1..][j] == likes[j + 1];
        }
      }
      WithoutKeepsDistinct(likes[1..], uid);
      var rest := Without(likes[1..], uid);
      if likes[0] != uid {
        assert likes[0] !in likes[1..];
        var r := [likes[0]] + rest;
        assert Without(likes, uid) == r;
        forall i, j | 0 <= i < j < |r| ensures r[i] != r[j] {
          if i > 0 { assert r[i] == rest[i - 1] && r[j] == rest[j - 1]; }
          else { assert r[j] == rest[j - 1] && r[j] in likes[1..]; }
        }
      }
    }
  }

  /** Filtering distributes over concatenation. */
  lemma {:induction false} WithoutAppend(a: seq<string>, b: seq<string>, uid: string)
    ensures Without(a + b, uid) == Without(a, uid) + Without(b, uid)
  {
    if a == [] {
      assert a + b == b;
    } else {
      assert (a + b)[1..] == a[1..] + b;
      WithoutAppend(a[1..], b, uid);
    }
  }

  /** unlikePost undoes likePost: liking and then unliking leaves a non-liker's likes as they were. */
  lemma UnlikeUndoesLike(likes: seq<string>, uid: string)
    requires uid !in likes
    ensures Without(AddLike(likes, uid), uid) == likes
  {
    WithoutAppend(likes, [uid], uid);
  }

  /** `splice(i, 1)`: exactly the element at i goes; the rest keep their order. */
  function RemoveAt<T>(s: seq<T>, i: nat): (r: seq<T>)
    requires i < |s|
    ensures |r| == |s| - 1
    ensures forall j :: 0 <= j < i ==> r[j] == s[j]
    ensures forall j :: i <= j < |r| ==> r[j] == s[j + 1]
    ensures multiset(r) + multiset{s[i]} == multiset(s)
  {
    assert s == s[..i] + [s[i]] + s[i + 1..];
    s[..i] + s[i + 1..]
  }

  /** Deleting a post by its index under unique ids: getPostById then finds nothing. */
  lemma DeletedPostIsGone(posts: seq<Post>, i: nat)
    requires i < |posts| && IdsUnique(posts)
    ensures PostById(RemoveAt(posts, i), posts[i].id).None?
  {
  }

  /** Every post's likes are free of duplicates. */
  ghost predicate LikesDistinct(posts: seq<Post>)
  {
    forall i :: 0 <= i < |posts| ==> Distinct(posts[i].likes)
  }
}
