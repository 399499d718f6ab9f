/**
 * The storage layer: the users and posts keys of the browser's persistent
 * key-value store and the tab's session entry, held as fields of one
 * object. A load reads a field, a save assigns it. Every operation that
 * changes data loads a whole sequence, appends, edits or removes one record,
 * and saves the whole sequence back; the lookups only load.
 */
module Storage {
  import opened Wrappers
  import opened Records

  /**
   * What a storage key holds: nothing (null, or the empty string, which the
   * code treats alike), text that does not parse as an array, or an array.
   */
  datatype Slot<T> = Missing | Malformed | Stored(items: seq<T>)

  /** loadUsers / loadPosts: an absent or unparsable value reads as the empty array. */
  function Load<T>(slot: Slot<T>): (r: seq<T>)
    ensures slot.Stored? ==> r == slot.items
    ensures !slot.Stored? ==> r == []
  {
    if slot.Stored? then slot.items else []
  }

  /** Why an operation reported failure; Message gives the text app.js returns. */
  datatype Reason =
    | LoginRequired
    | NotAllowed
    | Unexplained        // bare {success:false}: a post or comment not found, or deleteComment without a session user
    | EmailUsed
    | MissingIdentifier
    | UserNotFound
    | WrongPassword
    | Unparsable         // JSON.parse threw outside a try: the call rejects instead of returning

  function Message(r: Reason): (m: Option<string>)
    ensures m.None? <==> r == Unexplained || r == Unparsable
  {
    match r
    case LoginRequired => Some("Login required")
    case NotAllowed => Some("Not allowed")
    case Unexplained => None
    case EmailUsed => Some("Email already used")
    case MissingIdentifier => Some("Enter your user ID, email or name.")
    case UserNotFound => Some("User not found")
    case WrongPassword => Some("Wrong password")
    case Unparsable => None
  }

  /** {success:true} or {success:false, message?}. */
  datatype Outcome = Done | Refused(reason: Reason)

  /** A success that carries a record, or a failure. */
  datatype Result<T> = Success(value: T) | Failure(reason: Reason)

  /** posts[i] after likePost by uid. */
  function LikedBy(p: Post, uid: string): (r: Post)
    ensures uid in r.likes && r.likes == AddLike(p.likes, uid)
    ensures r.(likes := p.likes) == p
  {
    p.(likes := AddLike(p.likes, uid))
  }

  /** posts[i] after unlikePost by uid. */
  function UnlikedBy(p: Post, uid: string): (r: Post)
    ensures uid !in r.likes && r.likes == Without(p.likes, uid)
    ensures r.(likes := p.likes) == p
  {
    p.(likes := Without(p.likes, uid))
  }

  class Store {
    var userSlot: Slot<User>      // localStorage "blog_users_v1"
    var postSlot: Slot<Post>      // localStorage "blog_posts_v1"
    var session: Option<string>   // sessionStorage "currentUser"

    constructor (users: Slot<User>, posts: Slot<Post>, current: Option<string>)
      ensures userSlot == users && postSlot == posts && session == current
    {
      userSlot, postSlot, session := users, posts, current;
    }

    /** getAllUsers. */
    function Users(): (r: seq<User>)
      reads this`userSlot
      ensures userSlot.Stored? ==> r == userSlot.items
      ensures !userSlot.Stored? ==> r == []
    {
      Load(userSlot)
    }

    /** getAllPosts. */
    function Posts(): (r: seq<Post>)
      reads this`postSlot
      ensures postSlot.Stored? ==> r == postSlot.items
      ensures !postSlot.Stored? ==> r == []
    {
      Load(postSlot)
    }

    /** getCurrentUser: the user whose id the session holds, if the session is set and such a user exists. */
    function CurrentUser(): (r: Option<User>)
      reads this`userSlot, this`session
      ensures r.Some? ==> session == Some(r.value.id) && r.value in Users()
      ensures r.Some? <==> session.Some? && session.value != ""
                           && exists j :: 0 <= j < |Users()| && Users()[j].id == session.value
      ensures session.Some? && session.value != "" ==> IsFirstUser(Users(), ById(session.value), r)
    {
      match session
      case None => None
      case Some(id) =>
        if id == "" then None
        else
          var r := UserById(Users(), id);
          assert r.Some? ==> exists i: nat :: IsFirstMatch(Users(), ById(id), Some(i)) && Users()[i] == r.value;
          r
    }

    /** isCurrentUserOwner: a post is given and its author is the session's user. */
    function IsCurrentUserOwner(post: Option<Post>): (r: bool)
      reads this`userSlot, this`session
      ensures r ==> post.Some? && session == Some(post.value.authorId)
      ensures r <==> post.Some? && CurrentUser().Some? && post.value.authorId == CurrentUser().value.id
    {
      var u := CurrentUser();
      u.Some? && post.Some? && post.value.authorId == u.value.id
    }

    /** isCurrentUserLiked: false without a session user, else whether that user's id is among the likes. */
    function IsCurrentUserLiked(post: Post): (r: bool)
      reads this`userSlot, this`session
      ensures r ==> session.Some? && session.value in post.likes
      ensures r <==> CurrentUser().Some? && session.value in post.likes
    {
      var u := CurrentUser();
      u.Some? && u.value.id in post.likes
    }

    /** ensureInit: an absent key is set to the empty array; stored data, even unparsable, is never overwritten. */
    method EnsureInit()
      modifies this
      ensures userSlot == (if old(userSlot).Missing? then Stored([]) else old(userSlot))
      ensures postSlot == (if old(postSlot).Missing? then Stored([]) else old(postSlot))
      ensures session == old(session)
      ensures Users() == old(Users()) && Posts() == old(Posts())
    {
      if userSlot.Missing? { userSlot := Stored([]); }
      if postSlot.Missing? { postSlot := Stored([]); }
    }

    /** addUser: appends the record as given; uniqueness is left to the caller. */
    method AddUser(user: User)
      modifies this
      ensures userSlot == Stored(old(Users()) + [user])
      ensures postSlot == old(postSlot) && session == old(session)
    {
      var users := Load(userSlot);
      users := users + [user];
      userSlot := Stored(users);
    }

    /**
     * createPost: without a session user it fails and nothing changes;
     * otherwise exactly one post, authored by that user with empty likes and
     * comments, is appended after all existing posts.
     */
    method CreatePost(title: string, content: string, freshId: string, createdAt: int, updatedAt: int)
      returns (r: Result<Post>)
      modifies this
      ensures userSlot == old(userSlot) && session == old(session)
      ensures old(CurrentUser()).None? ==> r == Failure(LoginRequired) && postSlot == old(postSlot)
      ensures old(CurrentUser()).Some? ==>
        && r == Success(Post(freshId, old(CurrentUser()).value.id, title, content, createdAt, updatedAt, [], []))
        && postSlot == Stored(old(Posts()) + [r.value])
      ensures LikesDistinct(old(Posts())) ==> LikesDistinct(Posts())
    {
      var user := CurrentUser();
      if user.None? {
        return Failure(LoginRequired);
      }
      var posts := Load(postSlot);
      var p := Post(freshId, user.value.id, title, content, createdAt, updatedAt, [], []);
      posts := posts + [p];
      postSlot := Stored(posts);
      return Success(p);
    }

    /**
     * updatePost: a missing id fails without a message before the session is
     * consulted; a missing session or a non-author fails with "Not allowed";
     * otherwise only title, content and updatedAt of the first post with
     * that id change.
     */
    method UpdatePost(id: string, title: string, content: string, now: int) returns (r: Outcome)
      modifies this
      ensures userSlot == old(userSlot) && session == old(session)
      ensures PostIndex(old(Posts()), id).None? ==> r == Refused(Unexplained) && postSlot == old(postSlot)
      ensures PostIndex(old(Posts()), id).Some? && !old(IsCurrentUserOwner(PostById(Posts(), id))) ==>
        r == Refused(NotAllowed) && postSlot == old(postSlot)
      ensures r == Done <==> PostIndex(old(Posts()), id).Some? && old(IsCurrentUserOwner(PostById(Posts(), id)))
      ensures r == Done ==>
        var i := PostIndex(old(Posts()), id).value;
        postSlot == Stored(old(Posts())[i := old(Posts())[i].(title := title, content := content, updatedAt := now)])
      ensures LikesDistinct(old(Posts())) ==> LikesDistinct(Posts())
    {
      var posts := Load(postSlot);
      var i := PostIndex(posts, id);
      if i.None? {
        return Refused(Unexplained);
      }
      var user := CurrentUser();
      if user.None? || posts[i.value].authorId != user.value.id {
        return Refused(NotAllowed);
      }
      posts := posts[i.value := posts[i.value].(title := title, content := content, updatedAt := now)];
      postSlot := Stored(posts);
      return Done;
    }

    /**
     * deletePost: the same checks in the same order as updatePost; on
     * success exactly the first post with that id is removed and the others
     * keep their order.
     */
    method DeletePost(id: string) returns (r: Outcome)
      modifies this
      ensures userSlot == old(userSlot) && session == old(session)
      ensures PostIndex(old(Posts()), id).None? ==> r == Refused(Unexplained) && postSlot == old(postSlot)
      ensures PostIndex(old(Posts()), id).Some? && !old(IsCurrentUserOwner(PostById(Posts(), id))) ==>
        r == Refused(NotAllowed) && postSlot == old(postSlot)
      ensures r == Done <==> PostIndex(old(Posts()), id).Some? && old(IsCurrentUserOwner(PostById(Posts(), id)))
      ensures r == Done ==> postSlot == Stored(RemoveAt(old(Posts()), PostIndex(old(Posts()), id).value))
      ensures LikesDistinct(old(Posts())) ==> LikesDistinct(Posts())
    {
      var posts := Load(postSlot);
      var i := PostIndex(posts, id);
      if i.None? {
        return Refused(Unexplained);
      }
      var user := CurrentUser();
      if user.None? || posts[i.value].authorId != user.value.id {
        return Refused(NotAllowed);
      }
      posts := RemoveAt(posts, i.value);
      postSlot := Stored(posts);
      return Done;
    }

    /**
     * likePost: "Login required" is checked before the post is looked up; on
     * success the session user's id is added to the first matching post's
     * likes only if absent, and no other post changes.
     */
    method LikePost(postId: string) returns (r: Outcome)
      modifies this
      ensures userSlot == old(userSlot) && session == old(session)
      ensures old(CurrentUser()).None? ==> r == Refused(LoginRequired) && postSlot == old(postSlot)
      ensures old(CurrentUser()).Some? && PostIndex(old(Posts()), postId).None? ==>
        r == Refused(Unexplained) && postSlot == old(postSlot)
      ensures old(CurrentUser()).Some? && PostIndex(old(Posts()), postId).Some? ==>
        var i := PostIndex(old(Posts()), postId).value;
        && r == Done
        && postSlot == Stored(old(Posts())[i := LikedBy(old(Posts())[i], old(CurrentUser()).value.id)])
      ensures LikesDistinct(old(Posts())) ==> LikesDistinct(Posts())
    {
      var user := CurrentUser();
      if user.None? {
        return Refused(LoginRequired);
      }
      var posts := Load(postSlot);
      var i := PostIndex(posts, postId);
      if i.None? {
        return Refused(Unexplained);
      }
      var p := posts[i.value];
      if user.value.id !in p.likes {
        p := p.(likes := p.likes + [user.value.id]);
      }
      posts := posts[i.value := p];
      postSlot := Stored(posts);
      return Done;
    }

    /**
     * unlikePost: "Login required" first, then the lookup; on success every
     * occurrence of the session user's id leaves the first matching post's
     * likes, and nothing else changes.
     */
    method UnlikePost(postId: string) returns (r: Outcome)
      modifies this
      ensures userSlot == old(userSlot) && session == old(session)
      ensures old(CurrentUser()).None? ==> r == Refused(LoginRequired) && postSlot == old(postSlot)
      ensures old(CurrentUser()).Some? && PostIndex(old(Posts()), postId).None? ==>
        r == Refused(Unexplained) && postSlot == old(postSlot)
      ensures old(CurrentUser()).Some? && PostIndex(old(Posts()), postId).Some? ==>
        var i := PostIndex(old(Posts()), postId).value;
        && r == Done
        && postSlot == Stored(old(Posts())[i := UnlikedBy(old(Posts())[i], old(CurrentUser()).value.id)])
      ensures LikesDistinct(old(Posts())) ==> LikesDistinct(Posts())
    {
      var user := CurrentUser();
      if user.None? {
        return Refused(LoginRequired);
      }
      var posts := Load(postSlot);
      var i := PostIndex(posts, postId);
      if i.None? {
        return Refused(Unexplained);
      }
      var p := posts[i.value];
      if Distinct(p.likes) {
        WithoutKeepsDistinct(p.likes, user.value.id);
      }
      p := p.(likes := Without(p.likes, user.value.id));
      posts := posts[i.value := p];
      postSlot := Stored(posts);
      return Done;
    }

    /**
     * addComment: "Login required" first, then the lookup; on success one
     * comment by the session user is appended to the end of the first
     * matching post's comments.
     */
    method AddComment(postId: string, text: string, freshId: string, now: int) returns (r: Outcome)
      modifies this
      ensures userSlot == old(userSlot) && session == old(session)
      ensures old(CurrentUser()).None? ==> r == Refused(LoginRequired) && postSlot == old(postSlot)
      ensures old(CurrentUser()).Some? && PostIndex(old(Posts()), postId).None? ==>
        r == Refused(Unexplained) && postSlot == old(postSlot)
      ensures old(CurrentUser()).Some? && PostIndex(old(Posts()), postId).Some? ==>
        var i := PostIndex(old(Posts()), postId).value;
        var c := Comment(freshId, old(CurrentUser()).value.id, text, now);
        && r == Done
        && postSlot == Stored(old(Posts())[i := old(Posts())[i].(comments := old(Posts())[i].comments + [c])])
      ensures LikesDistinct(old(Posts())) ==> LikesDistinct(Posts())
    {
      var user := CurrentUser();
      if user.None? {
        return Refused(LoginRequired);
      }
      var posts := Load(postSlot);
      var i := PostIndex(posts, postId);
      if i.None? {
        return Refused(Unexplained);
      }
      var comment := Comment(freshId, user.value.id, text, now);
      var p := posts[i.value];
      p := p.(comments := p.comments + [comment]);
      posts := posts[i.value := p];
      postSlot := Stored(posts);
      return Done;
    }

    /**
     * deleteComment: fails without a message when there is no session user,
     * no such post or no such comment, and with "Not allowed" when the
     * session user did not write the comment; on success exactly that
     * comment is removed.
     */
    method DeleteComment(postId: string, commentId: string) returns (r: Outcome)
      modifies this
      ensures userSlot == old(userSlot) && session == old(session)
      ensures r != Done ==> postSlot == old(postSlot)
      ensures old(CurrentUser()).None? ==> r == Refused(Unexplained)
      ensures old(CurrentUser()).Some? && PostIndex(old(Posts()), postId).None? ==> r == Refused(Unexplained)
      ensures old(CurrentUser()).Some? && PostIndex(old(Posts()), postId).Some? ==>
        var i := PostIndex(old(Posts()), postId).value;
        var cs := old(Posts())[i].comments;
        match CommentIndex(cs, commentId)
        case None => r == Refused(Unexplained)
        case Some(ci) =>
          if cs[ci].authorId != old(CurrentUser()).value.id then r == Refused(NotAllowed)
          else r == Done && postSlot == Stored(old(Posts())[i := old(Posts())[i].(comments := RemoveAt(cs, ci))])
      ensures LikesDistinct(old(Posts())) ==> LikesDistinct(Posts())
    {
      var user := CurrentUser();
      if user.None? {
        return Refused(Unexplained);
      }
      var posts := Load(postSlot);
      var i := PostIndex(posts, postId);
      if i.None? {
        return Refused(Unexplained);
      }
      var p := posts[i.value];
      var ci := CommentIndex(p.comments, commentId);
      if ci.None? {
        return Refused(Unexplained);
      }
      if p.comments[ci.value].authorId != user.value.id {
        return Refused(NotAllowed);
      }
      p := p.(comments := RemoveAt(p.comments, ci.value));
      posts := posts[i.value := p];
      postSlot := Stored(posts);
      return Done;
    }
  }

  /** With the session set to an existing user's id, a post is the current user's exactly when that user wrote it. */
  lemma OwnerIsSessionUser(s: Store, uid: string, post: Post)
    requires s.session == Some(uid) && uid != ""
    requires exists j :: 0 <= j < |s.Users()| && s.Users()[j].id == uid
    ensures s.CurrentUser().Some? && s.CurrentUser().value.id == uid
    ensures s.IsCurrentUserOwner(Some(post)) <==> post.authorId == uid
  {
  }
}
