/** The post handlers: creation, owner-checked deletion, comments, the
    like/unlike toggle, and the newest-first listing. */
module PostController {
  import opened Common
  import opened Sequences
  import opened ObjectIds
  import opened Models
  import opened ImageIds

  /** The post `createPost` stores: a supplied image is replaced by the url the
      host returned; likes and comments start empty. */
  function NewPost(id: Oid, me: Oid, text: Option<string>, img: Option<string>, uploadedUrl: string, now: int): (p: Post)
    ensures p.id == id && p.user == me && p.text == text && p.createdAt == now
    ensures p.likes == [] && p.comments == []
    ensures Truthy(img) ==> p.img == Some(uploadedUrl)
    ensures !Truthy(img) ==> p.img == img
  {
    Post(id, me, text, if Truthy(img) then Some(uploadedUrl) else img, [], [], now)
  }

  /** `POST /posts/create`: refused when neither text nor image is given,
      otherwise exactly one post owned by the requester is added. */
  method CreatePost(db: Store, me: Oid, text: Option<string>, img: Option<string>, uploadedUrl: string, newId: Oid, now: int)
    returns (r: Result<Post, Failure>)
    requires db.Valid()
    requires Find(db.posts, PostId, newId).None?
    modifies db
    ensures db.Valid()
    ensures db.users == old(db.users) && db.comments == old(db.comments)
    ensures db.notifications == old(db.notifications)
    ensures !Truthy(text) && !Truthy(img) ==>
      r == Err(BadRequest(MissingContent)) && db.posts == old(db.posts)
    ensures Truthy(text) || Truthy(img) ==>
      && db.posts == old(db.posts) + [NewPost(newId, me, text, img, uploadedUrl, now)]
      && r == Ok(NewPost(newId, me, text, img, uploadedUrl, now))
      && r.value.user == me && r.value.likes == [] && r.value.comments == []
  {
    if !Truthy(text) && !Truthy(img) {
      return Err(BadRequest(MissingContent));
    }
    var image := img;
    if Truthy(img) {
      image := Some(uploadedUrl);
    }
    var post := Post(newId, me, text, image, [], [], now);
    AppendKeepsUniqueKeys(db.posts, PostId, post);
    db.posts := db.posts + [post];
    r := Ok(post);
  }

  /** `DELETE /posts/:id`: 404 for a malformed or unknown id, 400 for a post
      the requester does not own; otherwise the post's image (if any) is
      destroyed on the host and exactly that post is removed. */
  method DeletePost(db: Store, host: ImageHost, me: Oid, raw: string) returns (r: Outcome)
    requires db.Valid()
    modifies db, host
    ensures db.Valid()
    ensures db.users == old(db.users) && db.comments == old(db.comments)
    ensures db.notifications == old(db.notifications)
    ensures Locate(old(db.posts), PostId, raw).None? ==>
      r == Failed(NotFound) && db.posts == old(db.posts) && host.destroyed == old(host.destroyed)
    ensures Locate(old(db.posts), PostId, raw).Some? ==>
      var k := Locate(old(db.posts), PostId, raw).value;
      var post := old(db.posts)[k];
      && (post.user != me ==>
            r == Failed(BadRequest(NotOwner)) && db.posts == old(db.posts) && host.destroyed == old(host.destroyed))
      && (post.user == me ==>
            && r == Done
            && db.posts == RemoveAt(old(db.posts), k)
            && (forall p :: p in db.posts ==> p.id != post.id)
            && host.destroyed == old(host.destroyed) + (if Truthy(post.img) then [PublicId(post.img.value)] else []))
  {
    var k := Locate(db.posts, PostId, raw);
    if k.None? {
      return Failed(NotFound);
    }
    var post := db.posts[k.value];
    if post.user != me {
      return Failed(BadRequest(NotOwner));
    }
    if Truthy(post.img) {
      host.Destroy(PublicId(post.img.value));
    }
    RemoveAtKeys(db.posts, PostId, k.value);
    db.posts := RemoveAt(db.posts, k.value);
    r := Done;
  }

  /** `POST /posts/comment/:id`: the post must exist before the text is
      looked at; a comment appends its id to the post and notifies the post's
      owner, the commenter included. */
  method CommentPost(db: Store, me: Oid, raw: string, text: Option<string>,
                     newCommentId: Oid, newNotificationId: Oid, now: int) returns (r: Outcome)
    requires db.Valid()
    requires Find(db.comments, CommentId, newCommentId).None?
    requires Find(db.notifications, NotificationId, newNotificationId).None?
    modifies db
    ensures db.Valid()
    ensures db.users == old(db.users)
    ensures Locate(old(db.posts), PostId, raw).None? ==>
      && r == Failed(NotFound) && db.posts == old(db.posts)
      && db.comments == old(db.comments) && db.notifications == old(db.notifications)
    ensures Locate(old(db.posts), PostId, raw).Some? && !Truthy(text) ==>
      && r == Failed(BadRequest(EmptyComment)) && db.posts == old(db.posts)
      && db.comments == old(db.comments) && db.notifications == old(db.notifications)
    ensures Locate(old(db.posts), PostId, raw).Some? && Truthy(text) ==>
      var k := Locate(old(db.posts), PostId, raw).value;
      var post := old(db.posts)[k];
      && r == Done
      && db.comments == old(db.comments) + [Comment(newCommentId, text.value, me)]
      && db.posts == old(db.posts)[k := post.(comments := post.comments + [newCommentId])]
      && db.notifications == old(db.notifications) + [Notification(newNotificationId, me, post.user, CommentOn, false, now)]
  {
    var k := Locate(db.posts, PostId, raw);
    if k.None? {
      return Failed(NotFound);
    }
    if !Truthy(text) {
      return Failed(BadRequest(EmptyComment));
    }
    var comment := Comment(newCommentId, text.value, me);
    AppendKeepsUniqueKeys(db.comments, CommentId, comment);
    db.comments := db.comments + [comment];
    var post := db.posts[k.value];
    post := post.(comments := post.comments + [comment.id]);
    UpdateKeepsUniqueKeys(db.posts, PostId, k.value, post);
    db.posts := db.posts[k.value := post];
    var notification := Notification(newNotificationId, me, post.user, CommentOn, false, now);
    AppendKeepsUniqueKeys(db.notifications, NotificationId, notification);
    db.notifications := db.notifications + [notification];
    r := Done;
  }

  /** The liker list after one like/unlike by `u`: only whether `u` likes the post flips. */
  function LikeToggled(likes: seq<Oid>, u: Oid): (r: seq<Oid>)
    ensures u in r <==> u !in likes
    ensures forall v :: v != u ==> (v in r <==> v in likes)
  {
    if u in likes then RemoveAll(likes, u) else likes + [u]
  }

  /** A like followed by an unlike restores the liker list exactly. */
  lemma LikeThenUnlikeRestores(likes: seq<Oid>, u: Oid)
    requires u !in likes
    ensures LikeToggled(LikeToggled(likes, u), u) == likes
  {
    RemoveAllAppended(likes, u);
  }

  /** A liker list without duplicates stays without duplicates. */
  lemma LikeToggledKeepsNoDup(likes: seq<Oid>, u: Oid)
    requires NoDup(likes)
    ensures NoDup(LikeToggled(likes, u))
  {
    if u in likes {
      RemoveAllKeepsNoDup(likes, u);
    } else {
      SnocNoDup(likes, u);
    }
  }

  /** `POST /posts/like/:id`: an unlike removes every occurrence of the
      requester and notifies nobody; a like appends it and notifies the post's
      owner, self-likes included. */
  method LikeUnlikePost(db: Store, me: Oid, raw: string, newNotificationId: Oid, now: int) returns (r: Outcome)
    requires db.Valid()
    requires Find(db.notifications, NotificationId, newNotificationId).None?
    modifies db
    ensures db.Valid()
    ensures db.users == old(db.users) && db.comments == old(db.comments)
    ensures Locate(old(db.posts), PostId, raw).None? ==>
      r == Failed(NotFound) && db.posts == old(db.posts) && db.notifications == old(db.notifications)
    ensures Locate(old(db.posts), PostId, raw).Some? ==>
      var k := Locate(old(db.posts), PostId, raw).value;
      var post := old(db.posts)[k];
      && r == Done
      && db.posts == old(db.posts)[k := post.(likes := LikeToggled(post.likes, me))]
      && (me in post.likes ==> db.notifications == old(db.notifications))
      && (me !in post.likes ==>
            db.notifications == old(db.notifications) + [Notification(newNotificationId, me, post.user, Like, false, now)])
  {
    var k := Locate(db.posts, PostId, raw);
    if k.None? {
      return Failed(NotFound);
    }
    var post := db.posts[k.value];
    if me in post.likes {
      // unlike
      post := post.(likes := RemoveAll(post.likes, me));
      UpdateKeepsUniqueKeys(db.posts, PostId, k.value, post);
      db.posts := db.posts[k.value := post];
    } else {
      // like
      post := post.(likes := post.likes + [me]);
      UpdateKeepsUniqueKeys(db.posts, PostId, k.value, post);
      db.posts := db.posts[k.value := post];
      var notification := Notification(newNotificationId, me, post.user, Like, false, now);
      AppendKeepsUniqueKeys(db.notifications, NotificationId, notification);
      db.notifications := db.notifications + [notification];
    }
    r := Done;
  }

  /** `GET /posts/all`: every post, newest first; an empty store gives an empty list. */
  function GetAllPosts(posts: seq<Post>): (r: seq<Post>)
    ensures multiset(r) == multiset(posts)
    ensures NewestFirstOrder(r, PostStamp)
    ensures posts == [] ==> r == []
  {
    NewestFirst(posts, PostStamp)
  }
}
