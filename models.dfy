/** The documents the controllers read and write, the password digest, the
    password-free views sent back to clients, and the two stateful
    collaborators: the document store and the image host. */
module Models {
  import opened Common
  import opened Sequences
  import opened ObjectIds

  /** A bcrypt digest. The store keeps a digest, never a password string. The
      digest is modelled as ideal: it is made from the password and a salt, and
      `Compare` accepts exactly the password it was made from. */
  datatype Digest = Bcrypt(salt: nat, secret: string)

  /** `bcrypt.hash(password, salt)`. */
  function Hash(password: string, salt: nat): Digest
  {
    Bcrypt(salt, password)
  }

  /** `bcrypt.compare(password, digest)`. */
  predicate Compare(password: string, digest: Digest)
  {
    digest.secret == password
  }

  /** A digest accepts the password it was made from and no other, whatever the salt. */
  lemma CompareHash(password: string, candidate: string, salt: nat)
    ensures Compare(candidate, Hash(password, salt)) <==> candidate == password
  {
  }

  datatype User = User(
    id: Oid,
    username: string,
    fullname: string,
    email: string,
    password: Digest,
    followers: seq<Oid>,
    following: seq<Oid>,
    profileImg: string,
    coverImg: string,
    bio: string,
    link: string)

  /** A user as `select("-password")` returns it: every field but the digest. */
  datatype PublicUser = PublicUser(
    id: Oid,
    username: string,
    fullname: string,
    email: string,
    followers: seq<Oid>,
    following: seq<Oid>,
    profileImg: string,
    coverImg: string,
    bio: string,
    link: string)

  /** The user fields that signup and login send back. */
  datatype SessionUser = SessionUser(
    id: Oid,
    fullname: string,
    username: string,
    email: string,
    followers: seq<Oid>,
    following: seq<Oid>,
    profileImg: string,
    coverImg: string)

  function Public(u: User): (v: PublicUser)
    ensures v.id == u.id && v.username == u.username && v.fullname == u.fullname && v.email == u.email
    ensures v.followers == u.followers && v.following == u.following
    ensures v.profileImg == u.profileImg && v.coverImg == u.coverImg && v.bio == u.bio && v.link == u.link
  {
    PublicUser(u.id, u.username, u.fullname, u.email, u.followers, u.following,
               u.profileImg, u.coverImg, u.bio, u.link)
  }

  function Session(u: User): (v: SessionUser)
    ensures v.id == u.id && v.username == u.username && v.fullname == u.fullname && v.email == u.email
    ensures v.followers == u.followers && v.following == u.following
    ensures v.profileImg == u.profileImg && v.coverImg == u.coverImg
  {
    SessionUser(u.id, u.fullname, u.username, u.email, u.followers, u.following,
                u.profileImg, u.coverImg)
  }

  /** Neither view depends on the digest: two users that differ only in their
      password give the same response, so no response carries the digest. */
  lemma ViewsHideDigest(u: User, other: Digest)
    ensures Public(u.(password := other)) == Public(u)
    ensures Session(u.(password := other)) == Session(u)
  {
  }

  /** A post; `text` and `img` are optional in the schema. */
  datatype Post = Post(
    id: Oid,
    user: Oid,
    text: Option<string>,
    img: Option<string>,
    likes: seq<Oid>,
    comments: seq<Oid>,
    createdAt: int)

  datatype Comment = Comment(id: Oid, text: string, user: Oid)

  datatype NotificationType = Follow | Like | CommentOn

  datatype Notification = Notification(
    id: Oid,
    from: Oid,
    to: Oid,
    kind: NotificationType,
    read: bool,
    createdAt: int)

  function UserId(u: User): Oid { u.id }
  function UserName(u: User): string { u.username }
  function UserEmail(u: User): string { u.email }
  function PostId(p: Post): Oid { p.id }
  function PostStamp(p: Post): int { p.createdAt }
  function CommentId(c: Comment): Oid { c.id }
  function NotificationId(n: Notification): Oid { n.id }
  function NotificationStamp(n: Notification): int { n.createdAt }

  /** `Model.findById(raw)`: `None` when the parameter does not cast (a
      CastError) or when no document has that id. */
  function Locate<T>(docs: seq<T>, key: T -> Oid, raw: string): (r: Option<nat>)
    ensures r.Some? ==> Cast(raw).Some? && r.value < |docs| && key(docs[r.value]) == Cast(raw).value
    ensures r.None? <==> Cast(raw).None? || forall d :: d in docs ==> key(d) != Cast(raw).value
  {
    match Cast(raw)
    case None => None
    case Some(id) =>
      var k := Find(docs, key, id);
      if k.Some? then
        assert docs[k.value] in docs;
        k
      else
        assert forall d :: d in docs ==> key(d) != id by {
          forall d | d in docs ensures key(d) != id {
            var j :| 0 <= j < |docs| && docs[j] == d;
          }
        }
        k
  }

  /** The four collections of the document store, in insertion order. */
  class Store {
    var users: seq<User>
    var posts: seq<Post>
    var comments: seq<Comment>
    var notifications: seq<Notification>

    /** `_id` is unique within each collection. */
    ghost predicate Valid()
      reads this
    {
      && UniqueKeys(users, UserId)
      && UniqueKeys(posts, PostId)
      && UniqueKeys(comments, CommentId)
      && UniqueKeys(notifications, NotificationId)
    }

    constructor ()
      ensures Valid()
      ensures users == [] && posts == [] && comments == [] && notifications == []
    {
      users, posts, comments, notifications := [], [], [], [];
    }
  }

  /** The external image host; the model records which public ids it was asked to destroy. */
  class ImageHost {
    var destroyed: seq<string>

    constructor ()
      ensures destroyed == []
    {
      destroyed := [];
    }

    /** `cloudinary.uploader.destroy(publicId)`. */
    method Destroy(publicId: string)
      modifies this
      ensures destroyed == old(destroyed) + [publicId]
    {
      destroyed := destroyed + [publicId];
    }
  }
}
