/** The user handlers: profile lookup, the follow/unfollow toggle on the two
    adjacency lists, suggested users, and the profile update with its
    password rule, image replacement and field merge. */
module UserController {
  import opened Common
  import opened Sequences
  import opened ObjectIds
  import opened Models
  import opened ImageIds

  /** `GET /users/:username`: the first user with that username, without its digest. */
  function GetUserProfile(users: seq<User>, username: string): (r: Result<PublicUser, Failure>)
    ensures r.Err? <==> forall u :: u in users ==> u.username != username
    ensures r.Err? ==> r.error == NotFound
    ensures r.Ok? ==> exists u :: u in users && u.username == username && r.value == Public(u)
  {
    match Find(users, UserName, username)
    case None =>
      assert forall u :: u in users ==> u.username != username by {
        forall u | u in users ensures u.username != username {
          var k :| 0 <= k < |users| && users[k] == u;
        }
      }
      Err(NotFound)
    case Some(i) =>
      assert users[i] in users;
      Ok(Public(users[i]))
  }

  // ---------------------------------------------------------------------
  // The follow graph

  /** User `a` lists user `b` in its `following`. */
  predicate Follows(users: seq<User>, a: nat, b: nat)
    requires a < |users| && b < |users|
  {
    users[b].id in users[a].following
  }

  /** User `b` lists user `a` in its `followers`. */
  predicate FollowedBy(users: seq<User>, a: nat, b: nat)
    requires a < |users| && b < |users|
  {
    users[a].id in users[b].followers
  }

  /** The two adjacency lists agree: `b` is in `a.following` exactly when `a` is in `b.followers`. */
  predicate Mutual(users: seq<User>)
  {
    forall a, b :: 0 <= a < |users| && 0 <= b < |users| ==> (Follows(users, a, b) <==> FollowedBy(users, a, b))
  }

  /** No user follows itself. */
  predicate NoSelfFollow(users: seq<User>)
  {
    forall a :: 0 <= a < |users| ==> !Follows(users, a, a)
  }

  /** No adjacency list holds an id twice. */
  predicate ListsNoDup(users: seq<User>)
  {
    forall a :: 0 <= a < |users| ==> NoDup(users[a].following) && NoDup(users[a].followers)
  }

  /** The unfollow branch: every occurrence of `i` leaves `j.followers` and of
      `j` leaves `i.following`. The two documents are saved one after the other,
      so when `i == j` both changes land. */
  function Unfollowed(users: seq<User>, i: nat, j: nat): (r: seq<User>)
    requires i < |users| && j < |users|
    ensures |r| == |users|
    ensures forall k :: 0 <= k < |r| ==> r[k].id == users[k].id
  {
    var me, target := users[i].id, users[j].id;
    var step := users[j := users[j].(followers := RemoveAll(users[j].followers, me))];
    step[i := step[i].(following := RemoveAll(users[i].following, target))]
  }

  /** The follow branch: `i` is pushed to `j.followers` and `j` to `i.following`. */
  function Followed(users: seq<User>, i: nat, j: nat): (r: seq<User>)
    requires i < |users| && j < |users|
    ensures |r| == |users|
    ensures forall k :: 0 <= k < |r| ==> r[k].id == users[k].id
  {
    var me, target := users[i].id, users[j].id;
    var step := users[j := users[j].(followers := users[j].followers + [me])];
    step[i := step[i].(following := users[i].following + [target])]
  }

  /** The lists after one follow/unfollow of user `j` by user `i`, the branch
      chosen by whether `i` already follows `j`. */
  function Toggled(users: seq<User>, i: nat, j: nat): (r: seq<User>)
    requires i < |users| && j < |users|
    ensures |r| == |users|
    ensures forall k :: 0 <= k < |r| ==> r[k].id == users[k].id
  {
    if Follows(users, i, j) then Unfollowed(users, i, j) else Followed(users, i, j)
  }

  /** The branch test as written: `user.following.includes(id)` compares the raw
      route parameter with the printed ids in the list. */
  predicate UnfollowBranchAsWritten(users: seq<User>, i: nat, raw: string)
    requires i < |users|
  {
    raw in users[i].following
  }

  /** The lists after one follow/unfollow with the branch chosen as written. */
  function ToggledAsWritten(users: seq<User>, i: nat, j: nat, raw: string): (r: seq<User>)
    requires i < |users| && j < |users|
    ensures |r| == |users|
    ensures forall k :: 0 <= k < |r| ==> r[k].id == users[k].id
  {
    if UnfollowBranchAsWritten(users, i, raw) then Unfollowed(users, i, j) else Followed(users, i, j)
  }

  /** The notifications after one follow/unfollow with the branch chosen as
      written: the follow branch stores a follow notification from the
      requester to the target, the unfollow branch stores nothing. */
  function NotifiedAsWritten(users: seq<User>, i: nat, j: nat, raw: string,
                             ns: seq<Notification>, newNotificationId: Oid, now: int): seq<Notification>
    requires i < |users| && j < |users|
  {
    if UnfollowBranchAsWritten(users, i, raw) then ns
    else ns + [Notification(newNotificationId, users[i].id, users[j].id, Follow, false, now)]
  }

  /** What a toggle between two different users changes, field by field. */
  lemma ToggledFields(users: seq<User>, i: nat, j: nat)
    requires i < |users| && j < |users| && i != j
    ensures var r := Toggled(users, i, j);
      && (forall k :: 0 <= k < |users| && k != i && k != j ==> r[k] == users[k])
      && r[i] == users[i].(following := r[i].following)
      && r[j] == users[j].(followers := r[j].followers)
      && (Follows(users, i, j) ==> r[i].following == RemoveAll(users[i].following, users[j].id)
                                   && r[j].followers == RemoveAll(users[j].followers, users[i].id))
      && (!Follows(users, i, j) ==> r[i].following == users[i].following + [users[j].id]
                                    && r[j].followers == users[j].followers + [users[i].id])
  {
  }

  /** A toggle between two different users flips the one edge from `i` to `j`
      and no other, in both adjacency relations. */
  lemma {:induction false} ToggledFlipsOneEdge(users: seq<User>, i: nat, j: nat)
    requires UniqueKeys(users, UserId)
    requires i < |users| && j < |users| && i != j
    ensures var r := Toggled(users, i, j);
      forall a, b :: 0 <= a < |users| && 0 <= b < |users| ==>
        && (Follows(r, a, b) <==> if a == i && b == j then !Follows(users, a, b) else Follows(users, a, b))
        && (FollowedBy(r, a, b) <==> if a == i && b == j then !Follows(users, a, b) else FollowedBy(users, a, b))
  {
    var r := Toggled(users, i, j);
    ToggledFields(users, i, j);
    forall a, b | 0 <= a < |users| && 0 <= b < |users|
      ensures (Follows(r, a, b) <==> if a == i && b == j then !Follows(users, a, b) else Follows(users, a, b))
      ensures (FollowedBy(r, a, b) <==> if a == i && b == j then !Follows(users, a, b) else FollowedBy(users, a, b))
    {
      assert r[a].id == users[a].id && r[b].id == users[b].id;
      if b != j { assert users[b].id != users[j].id by { assert UserId(users[b]) != UserId(users[j]); } }
      if a != i { assert users[a].id != users[i].id by { assert UserId(users[a]) != UserId(users[i]); } }
    }
  }

  /** A toggle between two different users keeps the adjacency lists in agreement. */
  lemma ToggledKeepsMutual(users: seq<User>, i: nat, j: nat)
    requires UniqueKeys(users, UserId) && Mutual(users)
    requires i < |users| && j < |users| && i != j
    ensures Mutual(Toggled(users, i, j))
  {
    ToggledFlipsOneEdge(users, i, j);
  }

  /** A toggle between two different users never makes anyone follow itself. */
  lemma ToggledKeepsNoSelfFollow(users: seq<User>, i: nat, j: nat)
    requires UniqueKeys(users, UserId) && NoSelfFollow(users)
    requires i < |users| && j < |users| && i != j
    ensures NoSelfFollow(Toggled(users, i, j))
  {
    ToggledFlipsOneEdge(users, i, j);
  }

  /** With the lists in agreement, a toggle keeps them free of duplicates. */
  lemma ToggledKeepsNoDup(users: seq<User>, i: nat, j: nat)
    requires UniqueKeys(users, UserId) && Mutual(users) && ListsNoDup(users)
    requires i < |users| && j < |users| && i != j
    ensures ListsNoDup(Toggled(users, i, j))
  {
    var r := Toggled(users, i, j);
    ToggledFields(users, i, j);
    if Follows(users, i, j) {
      RemoveAllKeepsNoDup(users[i].following, users[j].id);
      RemoveAllKeepsNoDup(users[j].followers, users[i].id);
    } else {
      assert !FollowedBy(users, i, j);
      SnocNoDup(users[i].following, users[j].id);
      SnocNoDup(users[j].followers, users[i].id);
    }
  }

  /** With the lists in agreement, a follow followed by an unfollow restores both lists exactly. */
  lemma FollowThenUnfollowRestores(users: seq<User>, i: nat, j: nat)
    requires Mutual(users)
    requires i < |users| && j < |users| && i != j
    requires !Follows(users, i, j)
    ensures Toggled(Toggled(users, i, j), i, j) == users
  {
    var once := Toggled(users, i, j);
    ToggledFields(users, i, j);
    ToggledFields(once, i, j);
    assert !FollowedBy(users, i, j);
    assert Follows(once, i, j);
    RemoveAllAppended(users[i].following, users[j].id);
    RemoveAllAppended(users[j].followers, users[i].id);
    var twice := Toggled(once, i, j);
    assert twice[i] == users[i] && twice[j] == users[j];
    assert forall k :: 0 <= k < |users| ==> twice[k] == users[k];
  }

  /** What `followUnfollowUser` decides before touching any list. */
  datatype FollowPlan = Reject(failure: Failure) | Toggle(actor: nat, target: nat)

  /** The decision as the handler makes it, with the self check done on the
      cast identifier: self is refused (400), a parameter that does not cast
      raises an uncaught CastError (500), an unknown target is 404. */
  function FollowDecision(users: seq<User>, me: Oid, raw: string): (plan: FollowPlan)
    requires IsOid(me) && Find(users, UserId, me).Some?
    ensures Cast(raw) == Some(me) ==> plan == Reject(BadRequest(SelfFollow))
    ensures Cast(raw).None? ==> plan == Reject(ServerError)
    ensures Cast(raw).Some? && Cast(raw).value != me && Find(users, UserId, Cast(raw).value).None? ==>
      plan == Reject(NotFound)
    ensures Cast(raw).Some? && Cast(raw).value != me && Find(users, UserId, Cast(raw).value).Some? ==>
      plan == Toggle(Find(users, UserId, me).value, Find(users, UserId, Cast(raw).value).value)
    ensures plan.Toggle? ==>
      && plan.actor == Find(users, UserId, me).value
      && plan.target < |users| && users[plan.target].id == Cast(raw).value
      && plan.actor != plan.target
  {
    match Cast(raw)
    case None => Reject(ServerError)
    case Some(target) =>
      if target == me then Reject(BadRequest(SelfFollow))
      else match Find(users, UserId, target)
        case None => Reject(NotFound)
        case Some(j) => Toggle(Find(users, UserId, me).value, j)
  }

  /** The decision as written: the raw parameter is compared with the printed
      id of the requester before it is cast. */
  function FollowDecisionAsWritten(users: seq<User>, me: Oid, raw: string): (plan: FollowPlan)
    requires Find(users, UserId, me).Some?
    ensures raw == me ==> plan == Reject(BadRequest(SelfFollow))
    ensures raw != me && Cast(raw).None? ==> plan == Reject(ServerError)
    ensures raw != me && Cast(raw).Some? && Find(users, UserId, Cast(raw).value).None? ==> plan == Reject(NotFound)
    ensures raw != me && Cast(raw).Some? && Find(users, UserId, Cast(raw).value).Some? ==>
      plan == Toggle(Find(users, UserId, me).value, Find(users, UserId, Cast(raw).value).value)
    ensures plan.Toggle? ==>
      && raw != me
      && plan.actor == Find(users, UserId, me).value
      && plan.target < |users| && users[plan.target].id == Cast(raw).value
  {
    if raw == me then Reject(BadRequest(SelfFollow))
    else match Cast(raw)
      case None => Reject(ServerError)
      case Some(target) =>
        match Find(users, UserId, target)
        case None => Reject(NotFound)
        case Some(j) => Toggle(Find(users, UserId, me).value, j)
  }

  /** The two decisions differ only on a parameter that spells the requester's
      id differently from its printed form. */
  lemma AsWrittenDiffersOnlyBySpelling(users: seq<User>, me: Oid, raw: string)
    requires Find(users, UserId, me).Some? && IsOid(me)
    requires !(raw != me && Cast(raw) == Some(me))
    ensures FollowDecisionAsWritten(users, me, raw) == FollowDecision(users, me, raw)
  {
  }

  /** A spelling with an upper-case digit is not a printed id, so it is in no list of printed ids. */
  lemma UpperSpellingNotPrinted(id: Oid, k: nat, ids: seq<Oid>)
    requires IsOid(id) && k < |id| && 'a' <= id[k] <= 'f'
    requires forall x :: x in ids ==> IsOid(x)
    ensures Upper(id) !in ids
  {
    assert !IsLowerHex(Upper(id)[k]);
  }

  /** As written, the upper-case spelling of one's own id passes the self
      check, and the toggle then makes the user follow itself. */
  lemma AsWrittenSelfFollow(users: seq<User>, i: nat, k: nat)
    requires UniqueKeys(users, UserId)
    requires i < |users| && IsOid(users[i].id)
    requires k < |users[i].id| && 'a' <= users[i].id[k] <= 'f'
    requires forall id :: id in users[i].following ==> IsOid(id)
    ensures var raw := Upper(users[i].id);
      && FollowDecisionAsWritten(users, users[i].id, raw) == Toggle(i, i)
      && Follows(ToggledAsWritten(users, i, i, raw), i, i)
      && FollowDecision(users, users[i].id, raw) == Reject(BadRequest(SelfFollow))
  {
    var me := users[i].id;
    var raw := Upper(me);
    UpperSpellingCastsBack(me, k);
    UpperSpellingNotPrinted(me, k, users[i].following);
    FindUnique(users, UserId, me, i);
    var r := ToggledAsWritten(users, i, i, raw);
    assert r[i].following == users[i].following + [me];
  }

  /** As written, the upper-case spelling of the id of a user one already
      follows misses the `includes` test: the follow branch runs again, each
      list gets the other's id a second time, and a second follow notification
      is stored. The cast-id test unfollows instead, and stores nothing. */
  lemma AsWrittenDoubleFollow(users: seq<User>, i: nat, j: nat, k: nat,
                              ns: seq<Notification>, newNotificationId: Oid, now: int)
    requires UniqueKeys(users, UserId)
    requires i < |users| && j < |users| && i != j
    requires IsOid(users[i].id) && IsOid(users[j].id)
    requires k < |users[j].id| && 'a' <= users[j].id[k] <= 'f'
    requires forall id :: id in users[i].following ==> IsOid(id)
    requires Follows(users, i, j)
    ensures var raw := Upper(users[j].id);
      var after := ToggledAsWritten(users, i, j, raw);
      && FollowDecisionAsWritten(users, users[i].id, raw) == Toggle(i, j)
      && !UnfollowBranchAsWritten(users, i, raw)
      && multiset(after[i].following)[users[j].id] == multiset(users[i].following)[users[j].id] + 1
      && multiset(after[j].followers)[users[i].id] == multiset(users[j].followers)[users[i].id] + 1
      && !NoDup(after[i].following)
      && NotifiedAsWritten(users, i, j, raw, ns, newNotificationId, now)
         == ns + [Notification(newNotificationId, users[i].id, users[j].id, Follow, false, now)]
      && FollowDecision(users, users[i].id, raw) == Toggle(i, j)
      && !Follows(Toggled(users, i, j), i, j)
  {
    var me, target := users[i].id, users[j].id;
    var raw := Upper(target);
    UpperSpellingCastsBack(target, k);
    UpperSpellingNotPrinted(target, k, users[i].following);
    FindUnique(users, UserId, me, i);
    FindUnique(users, UserId, target, j);
    assert raw != me by {
      UpperSpellingNotPrinted(target, k, [me]);
    }
    var after := ToggledAsWritten(users, i, j, raw);
    var f := users[i].following;
    assert after[i].following == f + [target];
    var p :| 0 <= p < |f| && f[p] == target;
    assert (f + [target])[p] == (f + [target])[|f|];
    var t := Toggled(users, i, j);
    assert t[i].following == RemoveAll(f, target);
  }

  /** `POST /users/follow/:id`. */
  method FollowUnfollowUser(db: Store, me: Oid, raw: string, newNotificationId: Oid, now: int)
    returns (r: Outcome)
    requires db.Valid()
    requires IsOid(me) && Find(db.users, UserId, me).Some?
    requires Find(db.notifications, NotificationId, newNotificationId).None?
    modifies db
    ensures db.Valid()
    ensures db.posts == old(db.posts) && db.comments == old(db.comments)
    ensures FollowDecision(old(db.users), me, raw).Reject? ==>
      && r == Failed(FollowDecision(old(db.users), me, raw).failure)
      && db.users == old(db.users) && db.notifications == old(db.notifications)
    ensures FollowDecision(old(db.users), me, raw).Toggle? ==>
      var i, j := FollowDecision(old(db.users), me, raw).actor, FollowDecision(old(db.users), me, raw).target;
      && r == Done
      && db.users == Toggled(old(db.users), i, j)
      && (Follows(old(db.users), i, j) ==> db.notifications == old(db.notifications))
      && (!Follows(old(db.users), i, j) ==>
            db.notifications == old(db.notifications) + [Notification(newNotificationId, me, old(db.users)[j].id, Follow, false, now)])
    ensures Mutual(old(db.users)) ==> Mutual(db.users)
    ensures NoSelfFollow(old(db.users)) ==> NoSelfFollow(db.users)
  {
    var plan := FollowDecision(db.users, me, raw);
    if plan.Reject? {
      return Failed(plan.failure);
    }
    var i, j := plan.actor, plan.target;
    ghost var before := db.users;
    var user, profile := db.users[i], db.users[j];
    if profile.id in user.following {
      // unfollow
      profile := profile.(followers := RemoveAll(profile.followers, user.id));
      user := user.(following := RemoveAll(user.following, profile.id));
      db.users := db.users[j := profile];
      db.users := db.users[i := user];
    } else {
      // follow
      profile := profile.(followers := profile.followers + [user.id]);
      user := user.(following := user.following + [profile.id]);
      db.users := db.users[j := profile];
      db.users := db.users[i := user];
      db.notifications := db.notifications + [Notification(newNotificationId, me, profile.id, Follow, false, now)];
      AppendKeepsUniqueKeys(old(db.notifications), NotificationId,
        Notification(newNotificationId, me, profile.id, Follow, false, now));
    }
    assert db.users == Toggled(before, i, j);
    assert UniqueKeys(db.users, UserId) by {
      forall a, b | 0 <= a < b < |db.users| ensures UserId(db.users[a]) != UserId(db.users[b]) {
        assert UserId(before[a]) != UserId(before[b]);
      }
    }
    if Mutual(before) { ToggledKeepsMutual(before, i, j); }
    if NoSelfFollow(before) { ToggledKeepsNoSelfFollow(before, i, j); }
    r := Done;
  }

  // ---------------------------------------------------------------------
  // Suggested users

  /** The filter `{_id: {$ne: me, $nin: following}}`. */
  function Suggestible(me: Oid, following: seq<Oid>): User -> bool
  {
    (u: User) => u.id != me && u.id !in following
  }

  /** The users other than `me` and not in `following` (`$ne`, `$nin`), in store order. */
  function Candidates(users: seq<User>, me: Oid, following: seq<Oid>): (r: seq<User>)
    ensures forall u :: u in r ==> u in users && u.id != me && u.id !in following
    ensures forall u :: u in users && u.id != me && u.id !in following ==> u in r
  {
    Filter(users, Suggestible(me, following))
  }

  function Min(a: nat, b: nat): nat { if a < b then a else b }

  /** What `$sample: {size: 4}` draws: distinct positions among `n` candidates, as many as it can up to four. */
  predicate IsSample(pick: seq<nat>, n: nat)
  {
    |pick| == Min(4, n) && NoDup(pick) && forall p :: p in pick ==> p < n
  }

  /** `GET /users/suggested`: up to four different users, never the requester
      nor anyone it follows, each without its digest; `pick` stands for the random draw. */
  function SuggestedUsers(users: seq<User>, me: Oid, pick: seq<nat>): (r: seq<PublicUser>)
    requires UniqueKeys(users, UserId)
    requires Find(users, UserId, me).Some?
    requires IsSample(pick, |Candidates(users, me, users[Find(users, UserId, me).value].following)|)
    ensures |r| <= 4
    ensures |r| == Min(4, |Candidates(users, me, users[Find(users, UserId, me).value].following)|)
    ensures forall k :: 0 <= k < |r| ==>
      && r[k].id != me
      && r[k].id !in users[Find(users, UserId, me).value].following
      && exists u :: u in users && r[k] == Public(u)
    ensures forall a, b :: 0 <= a < b < |r| ==> r[a].id != r[b].id
  {
    var following := users[Find(users, UserId, me).value].following;
    var candidates := Candidates(users, me, following);
    assert forall k :: 0 <= k < |pick| ==> pick[k] < |candidates| by {
      forall k | 0 <= k < |pick| ensures pick[k] < |candidates| { assert pick[k] in pick; }
    }
    var r := seq(|pick|, k requires 0 <= k < |pick| => Public(candidates[pick[k]]));
    assert forall k :: 0 <= k < |r| ==> candidates[pick[k]] in candidates;
    FilterKeepsUniqueKeys(users, Suggestible(me, following), UserId);
    assert forall a, b :: 0 <= a < b < |r| ==> r[a].id != r[b].id by {
      forall a, b | 0 <= a < b < |r| ensures r[a].id != r[b].id {
        assert pick[a] != pick[b];
        assert UserId(candidates[pick[a]]) != UserId(candidates[pick[b]]);
      }
    }
    r
  }

  // ---------------------------------------------------------------------
  // Profile update

  datatype UpdateRequest = UpdateRequest(
    fullname: Option<string>,
    email: Option<string>,
    username: Option<string>,
    currentPassword: Option<string>,
    newPassword: Option<string>,
    bio: Option<string>,
    link: Option<string>,
    profileImg: Option<string>,
    coverImg: Option<string>)

  /** The password rule: both passwords or neither; when both, the current one
      must match before the new one's length is looked at. `Ok(Some(d))` is the
      new digest, `Ok(None)` leaves the password as it is. */
  function PasswordRule(req: UpdateRequest, stored: Digest, salt: nat): (r: Result<Option<Digest>, Reason>)
    ensures r == Err(PasswordPairIncomplete) <==> Truthy(req.currentPassword) != Truthy(req.newPassword)
    ensures r == Err(WrongCurrentPassword) <==>
      Truthy(req.currentPassword) && Truthy(req.newPassword) && !Compare(req.currentPassword.value, stored)
    ensures r == Err(NewPasswordTooShort) <==>
      && Truthy(req.currentPassword) && Truthy(req.newPassword)
      && Compare(req.currentPassword.value, stored) && |req.newPassword.value| < 6
    ensures r == Ok(None) <==> !Truthy(req.currentPassword) && !Truthy(req.newPassword)
    ensures r.Ok? && r.value.Some? ==>
      && Compare(req.currentPassword.value, stored) && |req.newPassword.value| >= 6
      && forall p :: Compare(p, r.value.value) <==> p == req.newPassword.value
  {
    var current, next := req.currentPassword, req.newPassword;
    if (!Truthy(next) && Truthy(current)) || (!Truthy(current) && Truthy(next)) then
      Err(PasswordPairIncomplete)
    else if Truthy(next) && Truthy(current) then
      if !Compare(current.value, stored) then Err(WrongCurrentPassword)
      else if |next.value| < 6 then Err(NewPasswordTooShort)
      else Ok(Some(Hash(next.value, salt)))
    else
      Ok(None)
  }

  /** The values lines `user.x = x || user.x` read, after any image upload. */
  datatype ProfileUpdate = ProfileUpdate(
    fullname: Option<string>,
    email: Option<string>,
    username: Option<string>,
    bio: Option<string>,
    profileImg: Option<string>,
    coverImg: Option<string>,
    link: Option<string>)

  /** Each field takes the supplied value when it is truthy and otherwise keeps its own. */
  function Merge(u: User, p: ProfileUpdate): (r: User)
    ensures r.id == u.id && r.password == u.password
    ensures r.followers == u.followers && r.following == u.following
    ensures r.fullname == (if Truthy(p.fullname) then p.fullname.value else u.fullname)
    ensures r.email == (if Truthy(p.email) then p.email.value else u.email)
    ensures r.username == (if Truthy(p.username) then p.username.value else u.username)
    ensures r.bio == (if Truthy(p.bio) then p.bio.value else u.bio)
    ensures r.profileImg == (if Truthy(p.profileImg) then p.profileImg.value else u.profileImg)
    ensures r.coverImg == (if Truthy(p.coverImg) then p.coverImg.value else u.coverImg)
    ensures r.link == (if Truthy(p.link) then p.link.value else u.link)
  {
    u.(fullname := OrElse(p.fullname, u.fullname),
       email := OrElse(p.email, u.email),
       username := OrElse(p.username, u.username),
       bio := OrElse(p.bio, u.bio),
       profileImg := OrElse(p.profileImg, u.profileImg),
       coverImg := OrElse(p.coverImg, u.coverImg),
       link := OrElse(p.link, u.link))
  }

  predicate NothingSupplied(p: ProfileUpdate)
  {
    !Truthy(p.fullname) && !Truthy(p.email) && !Truthy(p.username) && !Truthy(p.bio)
    && !Truthy(p.profileImg) && !Truthy(p.coverImg) && !Truthy(p.link)
  }

  /** A request whose fields are all absent or empty changes nothing. */
  lemma MergeNothingIsIdentity(u: User, p: ProfileUpdate)
    requires NothingSupplied(p)
    ensures Merge(u, p) == u
  {
  }

  /** An empty string never clears a field, and merging twice is merging once. */
  lemma MergeNeverClearsAndIsIdempotent(u: User, p: ProfileUpdate)
    ensures u.fullname != "" ==> Merge(u, p).fullname != ""
    ensures u.email != "" ==> Merge(u, p).email != ""
    ensures u.username != "" ==> Merge(u, p).username != ""
    ensures u.bio != "" ==> Merge(u, p).bio != ""
    ensures u.profileImg != "" ==> Merge(u, p).profileImg != ""
    ensures u.coverImg != "" ==> Merge(u, p).coverImg != ""
    ensures u.link != "" ==> Merge(u, p).link != ""
    ensures Merge(Merge(u, p), p) == Merge(u, p)
  {
  }

  /** The public ids the image host is asked to destroy: the old image of each
      kind that is being replaced, profile image first. */
  function ReplacedImages(u: User, req: UpdateRequest): seq<string>
  {
    (if Truthy(req.profileImg) && u.profileImg != "" then [PublicId(u.profileImg)] else [])
    + (if Truthy(req.coverImg) && u.coverImg != "" then [PublicId(u.coverImg)] else [])
  }

  /** The field values after uploads: a supplied image is replaced by the url the host returned. */
  function UploadedFields(req: UpdateRequest, profileUrl: string, coverUrl: string): ProfileUpdate
  {
    ProfileUpdate(req.fullname, req.email, req.username, req.bio,
      if Truthy(req.profileImg) then Some(profileUrl) else req.profileImg,
      if Truthy(req.coverImg) then Some(coverUrl) else req.coverImg,
      req.link)
  }

  /** Replaces one image of a user: when a new image is supplied, the old one
      (if any) is destroyed and the uploaded url takes the supplied value's place. */
  method ReplaceImage(host: ImageHost, current: string, supplied: Option<string>, uploadedUrl: string)
    returns (value: Option<string>)
    modifies host
    ensures value == (if Truthy(supplied) then Some(uploadedUrl) else supplied)
    ensures host.destroyed == old(host.destroyed)
      + (if Truthy(supplied) && current != "" then [PublicId(current)] else [])
  {
    value := supplied;
    if Truthy(supplied) {
      if current != "" {
        host.Destroy(PublicId(current));
      }
      value := Some(uploadedUrl);
    }
  }

  /** `POST /users/update`. `profileUrl` and `coverUrl` are the urls the image
      host returns for the uploads. */
  method UpdateUser(db: Store, host: ImageHost, me: Oid, req: UpdateRequest, profileUrl: string, coverUrl: string, salt: nat)
    returns (r: Result<PublicUser, Failure>)
    requires db.Valid()
    requires Find(db.users, UserId, me).Some?
    modifies db, host
    ensures db.Valid()
    ensures db.posts == old(db.posts) && db.comments == old(db.comments)
    ensures db.notifications == old(db.notifications)
    ensures var i := Find(old(db.users), UserId, me).value;
      var u := old(db.users)[i];
      match PasswordRule(req, u.password, salt)
      case Err(reason) =>
        r == Err(BadRequest(reason)) && db.users == old(db.users) && host.destroyed == old(host.destroyed)
      case Ok(digest) =>
        var hashed := if digest.Some? then u.(password := digest.value) else u;
        var updated := Merge(hashed, UploadedFields(req, profileUrl, coverUrl));
        && db.users == old(db.users)[i := updated]
        && host.destroyed == old(host.destroyed) + ReplacedImages(u, req)
        && r == Ok(Public(updated))
  {
    var i := Find(db.users, UserId, me).value;
    var user := db.users[i];
    var rule := PasswordRule(req, user.password, salt);
    if rule.Err? {
      return Err(BadRequest(rule.error));
    }
    if rule.value.Some? {
      user := user.(password := rule.value.value);
    }
    ghost var destroyedBefore := host.destroyed;
    var profileImg := ReplaceImage(host, user.profileImg, req.profileImg, profileUrl);
    var coverImg := ReplaceImage(host, user.coverImg, req.coverImg, coverUrl);
    assert host.destroyed == destroyedBefore + ReplacedImages(old(db.users)[i], req);
    var fields := ProfileUpdate(req.fullname, req.email, req.username, req.bio, profileImg, coverImg, req.link);
    assert fields == UploadedFields(req, profileUrl, coverUrl);
    user := Merge(user, fields);
    UpdateKeepsUniqueKeys(db.users, UserId, i, user);
    db.users := db.users[i := user];
    r := Ok(Public(user));
  }
}
