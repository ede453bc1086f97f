# Twitter-clone backend controllers in Dafny

This project models the four backend controllers of a small Twitter-like
service (Express handlers over a MongoDB store through Mongoose):

- **auth**: signup, with its six validation checks run in order, and login;
- **user**: profile lookup, the follow/unfollow toggle, suggested users, and
  the profile update (the password rule, the image replacement and the field merge);
- **post**: create, delete with owner check, comment, like/unlike, and the
  newest-first listing;
- **notification**: list (which marks the listed notifications read), delete
  all of one's notifications, and delete one.

The document store is a class, `Models.Store`. It has one sequence field per
collection (users, posts, comments, notifications), kept in insertion order.
Its invariant `Valid()` says `_id` is unique in each collection. Each handler
is a method that `modifies` the store. Its postcondition gives the whole new
store and the response for every branch of the handler, including the 400,
404 and 500 branches. The image host is a class, `Models.ImageHost`, that
records the public ids it was asked to destroy. The urls an upload returns,
the new document ids, the timestamps, the bcrypt salt and the `$sample` draw
are parameters of the handlers.

Route parameters are raw strings. `ObjectIds.Cast` turns one into an
identifier the way the driver does: 24 hexadecimal digits of either case,
printed back in lower case. It returns `None` where the driver raises a
CastError. The read-only handlers are functions over the collections. They
are proved against independent descriptions of their results: membership,
order and permutation for the listings, and an if-and-only-if for login.
The follow graph is proved to keep its two adjacency lists in agreement,
and likes and follows are proved to undo exactly.

Modules, one per file: `Common`, `Sequences`, `ObjectIds`, `Models`,
`ImageIds` (the public-id extraction from an image url), `EmailPattern`
(the signup email regular expression), `AuthController`, `UserController`,
`PostController`, `NotificationController`.

## Model

| member | source | states |
|---|---|---|
| Common.OrElse | backend/controllers/user.controller.js:130-136 | `field \|\| fallback` gives the field when it is present and non-empty, otherwise the fallback; an empty result means both were empty |
| Sequences.RemoveAll | backend/controllers/user.controller.js:35-40 | filtering one value out drops every occurrence of it and keeps every other element as often as before; a list without it is unchanged |
| Sequences.RemoveAllIsFilter | backend/controllers/user.controller.js:35-40 | filtering one value out is the general filter with the test `y != x`, for every list |
| Sequences.RemoveAllAppended | backend/controllers/post.controller.js:95-103 | filtering out a value that was just pushed gives what filtering the list before the push gives |
| Sequences.RemoveAllKeepsNoDup | backend/controllers/post.controller.js:96 | filtering keeps a list free of duplicates |
| Sequences.Find | backend/controllers/user.controller.js:9 | `findOne` reports the first document with the key, or none exactly when no document has it |
| Sequences.FindUnique | backend/controllers/auth.controller.js:72 | with unique keys, the document `findOne` reports is the only one with that key |
| Sequences.FindAppended | backend/controllers/auth.controller.js:49 | a lookup after saving a new document finds the old match if there was one, else the new document if its key matches |
| Sequences.UpdateKeepsUniqueKeys | backend/controllers/post.controller.js:72 | saving a changed document under its own id keeps ids unique |
| Sequences.AppendKeepsUniqueKeys | backend/controllers/post.controller.js:20 | saving a document with a fresh id keeps ids unique |
| Sequences.FirstOf | backend/controllers/auth.controller.js:13 | the position of the first occurrence of a value, or the length when there is none |
| Sequences.Filter | backend/controllers/notification.controller.js:5 | a filter keeps exactly the elements that satisfy it, each as often as before |
| Sequences.FilterAppend | backend/controllers/notification.controller.js:20 | filtering a concatenation filters each part in turn, so the kept elements keep their order |
| Sequences.FilterKeepsUniqueKeys | backend/controllers/user.controller.js:73-78 | filtering a collection with unique ids keeps them unique |
| Sequences.RemoveAt | backend/controllers/post.controller.js:43 | deleting one document keeps the others in order |
| Sequences.RemoveAtKeys | backend/controllers/notification.controller.js:34 | after deleting one document, ids stay unique, no document has the deleted id, and every other id is still found |
| Sequences.RemoveAtFind | backend/controllers/post.controller.js:43 | after deleting one document, every other key is found exactly when it was found before |
| Sequences.InsertByStamp | backend/controllers/post.controller.js:121 | inserting into a newest-first list keeps it newest first and adds exactly that element |
| Sequences.NewestFirst | backend/controllers/post.controller.js:121 | `sort({createdAt: -1})` yields a permutation of its input in descending creation time |
| Sequences.MapAll | backend/controllers/notification.controller.js:10 | applying an update to each document keeps the length and maps each position |
| Sequences.InsertCommutesWithMap | backend/controllers/notification.controller.js:5-10 | inserting then updating equals updating then inserting, for an update that keeps the timestamp |
| Sequences.NewestFirstCommutesWithMap | backend/controllers/notification.controller.js:5-10 | sorting then updating equals updating then sorting, for an update that keeps the timestamp |
| ObjectIds.LowerHex | backend/controllers/post.controller.js:31 | casting a hexadecimal digit gives the same digit in its lower-case form: a lower-case digit is kept, an upper-case letter becomes the same letter in lower case |
| ObjectIds.UpperHex | backend/controllers/user.controller.js:24 | the upper-case spelling of a letter digit is an upper-case letter that casts back to it |
| ObjectIds.Cast | backend/controllers/post.controller.js:47-49 | a parameter casts exactly when it is 24 hexadecimal digits; the result is the parameter with each digit in lower case, so a printed id casts to itself |
| ObjectIds.Upper | backend/controllers/user.controller.js:24 | the upper-case spelling has the same length, casts digit by digit to the id, and has an upper-case letter wherever the id has a letter |
| ObjectIds.UpperSpellingCastsBack | backend/controllers/user.controller.js:24-29 | an id with a letter digit has a second spelling that differs from the printed id but casts to it |
| Models.CompareHash | backend/controllers/auth.controller.js:38-39 | a digest accepts the password it was made from and no other |
| Models.Public | backend/controllers/user.controller.js:9 | `select("-password")` and `$project: {password: 0}` keep every field of the user but the digest |
| Models.Session | backend/controllers/auth.controller.js:51-60 | the signup and login response carries the user's id, names, email, both lists and both images, and no digest |
| Models.ViewsHideDigest | backend/controllers/auth.controller.js:78-87 | neither view depends on the digest: two users that differ only in their password give the same response |
| Models.Locate | backend/controllers/post.controller.js:31-49 | `findById` finds a document whose id is the cast parameter; it finds none exactly when the parameter does not cast or no document has that id |
| Models.ImageHost.Destroy | backend/controllers/post.controller.js:40 | a destroy request is recorded after the earlier ones |
| ImageIds.Split | backend/controllers/user.controller.js:114 | `split` gives at least one piece and no piece holds the separator |
| ImageIds.SplitJoin | backend/controllers/user.controller.js:114 | joining the pieces with the separator gives back the string |
| ImageIds.SplitFirst | backend/controllers/user.controller.js:114 | the first piece is the prefix before the first separator |
| ImageIds.SplitLast | backend/controllers/user.controller.js:114 | the last piece (`pop()`) is the suffix after the last separator |
| ImageIds.SplitAround | backend/controllers/user.controller.js:114 | splitting two parts joined by the separator gives the pieces of each part |
| ImageIds.SplitWithout | backend/controllers/user.controller.js:114 | a string without the separator is a single piece |
| ImageIds.PublicId | backend/controllers/post.controller.js:39 | the public id is the last `/`-segment cut at its first `.`; it holds neither `/` nor `.` |
| ImageIds.PublicIdOfHostedUrl | backend/controllers/user.controller.js:113-114 | a url `dir/name.ext` gives `name` |
| ImageIds.DocumentedExample | backend/controllers/user.controller.js:113 | the documented example url gives `abcdefg` |
| EmailPattern.Matches | backend/controllers/auth.controller.js:13-14 | the regular expression as a recogniser: a segmented local part, the first `@`, and a segmented domain ending with `.` and two or three word characters (its language is stated by `MatchesIffShape`) |
| EmailPattern.MatchesHasShape | backend/controllers/auth.controller.js:13-16 | every address the regular expression accepts has the flat shape |
| EmailPattern.ShapeMatches | backend/controllers/auth.controller.js:13-16 | every address of the flat shape is accepted |
| EmailPattern.MatchesIffShape | backend/controllers/auth.controller.js:13-16 | the regular expression accepts exactly one `@`, a word character first and after the `@`, only word characters and `.`/`-`, each separator followed by a word character, and a final `.` with two or three word characters |
| EmailPattern.WithoutTldRefused | backend/controllers/auth.controller.js:13-16 | an address that does not end with `.` and two or three word characters is refused, whatever else it holds |
| EmailPattern.FourLetterTldRefused | backend/controllers/auth.controller.js:13 | `user@example.info` is refused |
| EmailPattern.DotlessDomainRefused | backend/controllers/auth.controller.js:13 | `first.last@localhost` is refused |
| AuthController.SignupCheck | backend/controllers/auth.controller.js:9-36 | signup passes exactly when all six checks hold; otherwise it reports the first failing check, all earlier ones holding |
| AuthController.NewUser | backend/controllers/auth.controller.js:38-46 | the stored user has the request's names and email, a digest that accepts exactly the signup password, empty follow lists and empty profile fields |
| AuthController.SignupKeepsIdentitiesUnique | backend/controllers/auth.controller.js:17-26 | a signup that passes its checks keeps usernames and emails unique |
| AuthController.Signup | backend/controllers/auth.controller.js:5-68 | on failure, 400 with the first failing check and nothing stored; on success, one user with the digest and empty lists is appended and its session view returned |
| AuthController.Login | backend/controllers/auth.controller.js:69-92 | login succeeds exactly when the first user with the username has a digest accepting the password, and returns that user's session view; otherwise the one "invalid" error |
| AuthController.LoginIffCredentials | backend/controllers/auth.controller.js:72-76 | with unique usernames, login succeeds exactly when some user has that username and that password |
| AuthController.SignupThenLogin | backend/controllers/auth.controller.js:38-76 | after a successful signup, login with its username accepts the signup password and refuses every other |
| UserController.GetUserProfile | backend/controllers/user.controller.js:6-18 | 404 exactly when no user has the username; otherwise a user with that name, without its digest |
| UserController.Unfollowed | backend/controllers/user.controller.js:35-42 | the unfollow branch keeps the number of users and every id |
| UserController.Followed | backend/controllers/user.controller.js:47-50 | the follow branch keeps the number of users and every id |
| UserController.Toggled | backend/controllers/user.controller.js:33-48 | a toggle, its branch chosen by the cast id, keeps the number of users and every id |
| UserController.UnfollowBranchAsWritten | backend/controllers/user.controller.js:34 | the branch test as written: the raw parameter is compared with the printed ids in the requester's `following` |
| UserController.NotifiedAsWritten | backend/controllers/user.controller.js:52-58 | as written, the follow branch stores one follow notification from the requester to the target and the unfollow branch stores none |
| UserController.ToggledAsWritten | backend/controllers/user.controller.js:34-48 | the toggle with its branch chosen by testing the raw parameter against the printed ids, as written; it keeps the number of users and every id |
| UserController.ToggledFields | backend/controllers/user.controller.js:33-48 | an unfollow filters each id out of the other's list, a follow pushes it, and nothing else changes |
| UserController.ToggledFlipsOneEdge | backend/controllers/user.controller.js:33-48 | a toggle flips the one edge from the requester to the target, in both lists, and no other edge |
| UserController.ToggledKeepsMutual | backend/controllers/user.controller.js:33-50 | `following` and `followers` stay in agreement |
| UserController.ToggledKeepsNoSelfFollow | backend/controllers/user.controller.js:24-50 | a toggle between two different users never makes anyone follow itself |
| UserController.ToggledKeepsNoDup | backend/controllers/user.controller.js:46-48 | with the lists in agreement, no list gains a duplicate |
| UserController.FollowThenUnfollowRestores | backend/controllers/user.controller.js:33-48 | a follow followed by an unfollow restores every user exactly |
| UserController.FollowDecision | backend/controllers/user.controller.js:20-32 | the handler's decision with the self check on the cast id: self is 400, an id that does not cast is 500, an unknown id is 404, and another existing user is a toggle between the requester and that user |
| UserController.FollowDecisionAsWritten | backend/controllers/user.controller.js:20-32 | the decision as written: a parameter equal to the printed id is 400, one that does not cast is 500, an unknown id is 404, and any other parameter that casts to an existing user toggles with that user |
| UserController.AsWrittenDiffersOnlyBySpelling | backend/controllers/user.controller.js:24-29 | the self check as written decides the same as the corrected one, except on a different spelling of the requester's own id |
| UserController.AsWrittenSelfFollow | backend/controllers/user.controller.js:24-48 | as written, the upper-case spelling of one's own id passes the self check and the user ends up following itself |
| UserController.UpperSpellingNotPrinted | backend/controllers/user.controller.js:34 | a spelling with an upper-case letter is in no list of printed ids |
| UserController.AsWrittenDoubleFollow | backend/controllers/user.controller.js:34-58 | as written, the upper-case spelling of an already-followed user's id misses the `includes` test and takes the follow branch: B's id is pushed to A's `following` a second time, A's id to B's `followers` a second time, and one more follow notification is stored; the cast-id decision toggles the same pair and unfollows |
| UserController.FollowUnfollowUser | backend/controllers/user.controller.js:20-65 | a refusal changes nothing; a toggle changes only the two lists, and a follow (not an unfollow) adds one follow notification; agreement of the lists and absence of self-follows are preserved |
| UserController.Candidates | backend/controllers/user.controller.js:73-78 | the candidates are exactly the users other than the requester and not followed by them |
| UserController.SuggestedUsers | backend/controllers/user.controller.js:67-91 | up to four users, exactly min(4, candidates), no two the same, none the requester or followed by them, each a stored user without its digest |
| UserController.PasswordRule | backend/controllers/user.controller.js:99-109 | one password without the other is refused; a wrong current password is refused before the length of the new one is checked; a new digest accepts exactly the new password |
| UserController.Merge | backend/controllers/user.controller.js:130-136 | each profile field takes the supplied value when it is non-empty and otherwise keeps its own; id, digest and lists are kept |
| UserController.MergeNothingIsIdentity | backend/controllers/user.controller.js:130-136 | a request with every field absent or empty leaves the user unchanged |
| UserController.MergeNeverClearsAndIsIdempotent | backend/controllers/user.controller.js:130-136 | no field is ever cleared, and applying the same update twice is applying it once |
| UserController.ReplaceImage | backend/controllers/user.controller.js:110-119 | a supplied image destroys the old one if there is one and takes the uploaded url; no image, no change |
| UserController.UpdateUser | backend/controllers/user.controller.js:93-145 | a refused password rule changes nothing; otherwise the user gets the new digest, the replaced images are destroyed in order, the fields are merged and the user is returned without its digest |
| PostController.NewPost | backend/controllers/post.controller.js:15-19 | the new post belongs to the requester, keeps the text, has the uploaded url when an image was supplied, and has no likes or comments |
| PostController.CreatePost | backend/controllers/post.controller.js:7-26 | neither text nor image is 400 and nothing is stored; otherwise one post owned by the requester, with the uploaded url and no likes or comments, is appended and returned |
| PostController.DeletePost | backend/controllers/post.controller.js:28-53 | an id that does not cast or is unknown is 404, another user's post is 400, and neither changes anything; otherwise the image is destroyed and exactly that post removed |
| PostController.CommentPost | backend/controllers/post.controller.js:55-84 | the post is looked up before the text is checked; a comment is stored, its id is pushed to the post, and the post's owner gets one notification |
| PostController.LikeToggled | backend/controllers/post.controller.js:94-103 | a like/unlike flips whether the requester likes the post and nobody else's like |
| PostController.LikeThenUnlikeRestores | backend/controllers/post.controller.js:94-103 | a like followed by an unlike restores the liker list exactly |
| PostController.LikeToggledKeepsNoDup | backend/controllers/post.controller.js:95-102 | the liker list stays free of duplicates |
| PostController.LikeUnlikePost | backend/controllers/post.controller.js:86-117 | 404 for an id that does not cast or is unknown; otherwise the liker list is toggled, and only a like adds a notification to the owner |
| PostController.GetAllPosts | backend/controllers/post.controller.js:119-137 | every post exactly once, newest first; an empty store gives an empty list |
| NotificationController.Inbox | backend/controllers/notification.controller.js:5 | exactly the notifications addressed to the requester and not sent by them, each as often as stored |
| NotificationController.ListNotifications | backend/controllers/notification.controller.js:5-11 | exactly the notifications addressed to the requester by someone else, each once, newest first |
| NotificationController.MarkInboxRead | backend/controllers/notification.controller.js:10 | the same filter's notifications become read and every other notification is unchanged |
| NotificationController.InboxOfMarked | backend/controllers/notification.controller.js:5-10 | after marking, the filter selects the same notifications, now read |
| NotificationController.ListTwice | backend/controllers/notification.controller.js:3-16 | a second listing returns the same notifications in the same order, all read, and marks nothing new |
| NotificationController.MarkKeepsIds | backend/controllers/notification.controller.js:10 | marking keeps notification ids unique |
| NotificationController.GetNotifications | backend/controllers/notification.controller.js:3-16 | returns the listing taken before the marking, then marks it read; nothing else changes |
| NotificationController.NotAddressedTo | backend/controllers/notification.controller.js:20 | exactly the notifications addressed to someone else remain, each as often as before; self-sent ones to the requester are deleted too |
| NotificationController.NotAddressedToKeepsOrder | backend/controllers/notification.controller.js:20 | what remains of two stretches of the collection is what remains of each, in turn, so the rest keep their order |
| NotificationController.DeleteNotifications | backend/controllers/notification.controller.js:18-26 | every notification addressed to the requester is deleted, the rest kept in order |
| NotificationController.DeleteSingleNotification | backend/controllers/notification.controller.js:28-43 | an id that does not cast or is unknown is 404, a notification addressed to someone else is 400, and neither changes anything; otherwise exactly that notification is removed |

## Left out

- Authentication: JWT issue and check, cookies, `logout` and `getMe`. The requester's id is a parameter, and the requester is required to exist, as the route guard ensures.
- `populate` joins (`from`, `user`, `comments.user`) only shape the responses; the model returns the stored ids.
- Persistence, concurrency and partial failure. Each handler is modelled as one atomic step, though the source saves two documents one after the other (follow, comment, like) and a crash between the saves could leave them out of step.
- The 500 answers for unexpected database or host errors, and the "Invalid user data" branch of signup, which `new User` never reaches.
- Image uploads that fail: the uploaded url is a parameter that always arrives.
- bcrypt's salt rounds and the 72-byte limit on passwords. `Models.Compare` accepts exactly the password a digest was made from.
- Lengths: the source counts UTF-16 code units and Dafny counts `char`s. The two agree on the characters these checks usually see.
- The driver's other cast, which accepts any 12-character string as an identifier. `ObjectIds.Cast` accepts only the 24-digit hexadecimal form.
- Login with an absent username or password: the fields are plain strings here. In the source, an absent password makes bcryptjs reject its argument, so the answer is 500. With a password but no username, the answer depends on what the lookup returns; when it finds nobody, the comparison against the empty string is false and the answer is 400.
- UserController.UpdateUser: a new username or email is not checked for uniqueness, as in the source; user.model.js (its unique indexes) is not part of this model, so the store's invariant promises unique ids only.
- `likedPosts` on the user is never maintained by these handlers; the model has no such field.
- Comment replies (`repies` in the comment schema) are never written by these handlers.
- UserController.SuggestedUsers: the random draw of `$sample` is a parameter, any list of distinct positions of the right size; the distribution is not modelled.
- Sequences.NewestFirst: documents with equal creation times keep their store order. The database gives no order for ties, so the contracts promise only descending order and a permutation.
- Timestamps: `createdAt` is a parameter; `updatedAt` is not modelled.

## Findings

| source | as written | input that shows it | evidently intended | confidence | as-written member | corrected member |
|---|---|---|---|---|---|---|
| backend/controllers/user.controller.js:24 | the self-follow check compares the raw route parameter with the requester's printed (lower-case) id, before the parameter is cast | the requester's own id with its hexadecimal letters in upper case: it differs from the printed id, passes the check, casts to the same user, and the user follows itself | compare the cast identifier, so every spelling of one's own id is refused with 400 | medium, not executed | UserController.AsWrittenSelfFollow | UserController.FollowDecision |
| backend/controllers/user.controller.js:34 | the unfollow branch is chosen by `user.following.includes(id)` with the raw route parameter, which matches only a stored id's printed (lower-case) form | A follows B; A requests the follow route with B's id, its hexadecimal letters in upper case: the lookup finds B, `includes` misses, B's id is pushed to A's `following` a second time (and A's to B's `followers`), and a second follow notification is stored | choose the branch by the cast identifier, so any spelling of a followed user's id unfollows | medium, not executed | UserController.AsWrittenDoubleFollow | UserController.ToggledKeepsNoDup |
