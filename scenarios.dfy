/**
 * Client code in the role of the pages: sequences of storage and auth calls,
 * and what their contracts let a caller conclude. The pages set the session
 * entry themselves after a successful login, as here.
 */
module Scenarios {
  import opened Wrappers
  import opened Text
  import opened Records
  import opened Storage
  import opened Auth

  /** An anonymous tab cannot post; once the session names user a, the post is created and listed last. */
  method PostNeedsLogin(s: Store, a: string, title: string, content: string, freshId: string, t1: int, t2: int)
    returns (anonymous: Result<Post>, signedIn: Result<Post>)
    requires s.session.None?
    requires a != "" && exists j :: 0 <= j < |s.Users()| && s.Users()[j].id == a
    modifies s
    ensures anonymous == Failure(LoginRequired)
    ensures signedIn == Success(Post(freshId, a, title, content, t1, t2, [], []))
    ensures s.Posts() == old(s.Posts()) + [signedIn.value]
  {
    anonymous := s.CreatePost(title, content, freshId, t1, t2);
    s.session := Some(a);
    signedIn := s.CreatePost(title, content, freshId, t1, t2);
  }

  /** Sign in as uid, an existing user, and delete the post at index k, the first post with that id. */
  method DeleteAs(s: Store, uid: string, id: string, ghost k: nat) returns (r: Outcome)
    requires uid != "" && exists j :: 0 <= j < |s.Users()| && s.Users()[j].id == uid
    requires PostIndex(s.Posts(), id) == Some(k)
    modifies s
    ensures s.session == Some(uid) && s.userSlot == old(s.userSlot)
    ensures old(s.Posts())[k].authorId != uid ==> r == Refused(NotAllowed) && s.postSlot == old(s.postSlot)
    ensures old(s.Posts())[k].authorId == uid ==> r == Done && s.Posts() == RemoveAt(old(s.Posts()), k)
  {
    ghost var posts := s.Posts();
    ghost var j :| 0 <= j < |s.Users()| && s.Users()[j].id == uid;
    assert PostById(posts, id) == Some(posts[k]);
    s.session := Some(uid);
    assert s.Users()[j].id == uid;
    OwnerIsSessionUser(s, uid, posts[k]);
    r := s.DeletePost(id);
  }

  /**
   * Among posts with unique ids, a post written by a can be deleted by a but
   * not by another user b; afterwards getPostById finds nothing under its id.
   */
  method OnlyAuthorDeletes(s: Store, a: string, b: string, id: string)
    returns (byOther: Outcome, byAuthor: Outcome)
    requires a != "" && exists j :: 0 <= j < |s.Users()| && s.Users()[j].id == a
    requires b != "" && exists j :: 0 <= j < |s.Users()| && s.Users()[j].id == b
    requires a != b
    requires IdsUnique(s.Posts())
    requires exists k :: 0 <= k < |s.Posts()| && s.Posts()[k].id == id && s.Posts()[k].authorId == a
    modifies s
    ensures byOther == Refused(NotAllowed)
    ensures byAuthor == Done
    ensures |s.Posts()| == |old(s.Posts())| - 1
    ensures PostById(s.Posts(), id).None?
  {
    ghost var users, posts := s.Users(), s.Posts();
    ghost var ja :| 0 <= ja < |users| && users[ja].id == a;
    ghost var k :| 0 <= k < |posts| && posts[k].id == id && posts[k].authorId == a;
    assert PostIndex(posts, id) == Some(k);
    byOther := DeleteAs(s, b, id, k);
    assert s.Users() == users && s.Posts() == posts;
    assert s.Users()[ja].id == a;
    byAuthor := DeleteAs(s, a, id, k);
    DeletedPostIsGone(posts, k);
  }

  /** Liking twice leaves the store as liking once did. */
  method LikeTwice(s: Store, postId: string) returns (first: Outcome, second: Outcome)
    modifies s
    ensures second == first
    ensures s.userSlot == old(s.userSlot) && s.session == old(s.session)
    ensures first == Done ==>
      old(s.CurrentUser()).Some? && PostIndex(old(s.Posts()), postId).Some? &&
      var i := PostIndex(old(s.Posts()), postId).value;
      s.postSlot == Stored(old(s.Posts())[i := LikedBy(old(s.Posts())[i], old(s.CurrentUser()).value.id)])
    ensures first != Done ==> s.postSlot == old(s.postSlot)
    ensures first == Done ==> PostById(s.Posts(), postId).Some? && s.IsCurrentUserLiked(PostById(s.Posts(), postId).value)
  {
    ghost var before := s.Posts();
    first := s.LikePost(postId);
    ghost var once := s.Posts();
    if first == Done {
      var uid := s.CurrentUser().value.id;
      var i := PostIndex(before, postId).value;
      assert once == before[i := LikedBy(before[i], uid)];
      PostIndexAfterEdit(before, i, LikedBy(before[i], uid), postId);
      LikeIdempotent(before[i].likes, uid);
      assert LikedBy(once[i], uid) == once[i];
      second := s.LikePost(postId);
      assert s.Posts() == once[i := once[i]] == once;
    } else {
      second := s.LikePost(postId);
    }
  }

  /**
   * Register a user with an email that is already trimmed and a password
   * into an empty store, then log in by that email: the same password
   * succeeds with the new record and a different one fails with
   * "Wrong password", for any hash that tells the two apart.
   */
  method RegisterThenLogin(s: Store, hash: string -> string, email: string, password: string, other: string,
                           id: string, salt: string, now: int)
    returns (registered: Result<User>, good: Result<User>, bad: Result<User>)
    requires !s.userSlot.Malformed? && s.Users() == []
    requires NormalizeEmail(Some(email)) == Some(email)
    requires hash(salt + password) != hash(salt + other)
    modifies s
    ensures registered.Success? && registered.value.email == Some(email)
    ensures good == Success(registered.value)
    ensures bad == Failure(WrongPassword)
  {
    ghost var u := NewUser(hash, None, Some(email), password, id, salt, now);
    registered := Register(s, hash, None, Some(email), password, id, salt, now);
    assert registered == Success(u);
    assert s.Users() == [] + [u];
    LoginWithRegisteredEmail([], hash, None, Some(email), password, id, salt, now, password);
    LoginWithRegisteredEmail([], hash, None, Some(email), password, id, salt, now, other);
    good := Login(s, hash, email, password);
    bad := Login(s, hash, email, other);
  }
}
