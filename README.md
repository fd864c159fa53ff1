# WhispR, modelled in Dafny

WhispR is a small social network: an Express/Mongoose backend, a React
client and a Flask service that classifies topics by the emotions of the
people reading them. This project models the decision logic at its core
and proves what that logic promises.

- **The interaction store.** A single class `Database.Db` holds users,
  posts, comments, reposts, likes and bookmarks as maps keyed by ids. Ids
  come from an increasing counter, so a larger id is a later document, and
  an abstract clock stands for `Date.now()`. Each controller handler is a
  method that mutates the store and returns an HTTP status. Each query
  handler is a function over the store. `Db.Valid()` is the invariant every
  handler keeps:
  - every id is below the counter;
  - usernames and emails are unique;
  - users, posts and reposts meet their schema validators;
  - no (user, post) pair appears twice among likes or bookmarks;
  - creation times grow with the id.
- **Registration, login and the gate.** Registration checks, in order,
  presence, the email pattern, the password length and uniqueness. Login
  can fail with 404, 401 or 500, or issue a token. The `protect`
  middleware reads a Bearer token from the `Authorization` header; the
  client's interceptors read the token from `document.cookie`. Hashing,
  comparison, signing and verification are opaque function parameters.
- **Client logic.**
  - PostForm: hashtag normalisation and de-duplication.
  - Recommend: the "other users' posts" and "recommended posts" filters.
  - Home: the in-memory feed, whose post and comment objects are shared
    and mutated in place.
  - RegisterPage: the registration form check.
  - ProfileSettings: the field handlers, the image size check and the
    password submit.
  - ProfilePage: tab selection from the path.
- **Topic classification.** The nested loops of
  `classify_topics_last_snapshot` are proved equal to a per-topic rule.
  The simulated detections of `detect_emotion_once` append to the
  collected snapshots.

Modules: `Common` (ids, `Option`, status codes), `Text` (JavaScript and
Python string operations), `Collection` (Mongoose queries over a map of
documents, and `Array.prototype.filter`). Then one module per source file.

## Model

| member | source | states |
|---|---|---|
| Database.Db.InsertUser | backend/models/userModel.js:5-23 | storing a user that meets the schema and clashes with no username or email keeps usernames and emails unique; the new user goes under the next id |
| Database.Db.PutPost | backend/models/postModel.js:5-8 | saving a post with content keeps the store valid and replaces exactly that post |
| Database.Db.InsertRepost | backend/models/repostModel.js:4-21 | a repost of at most 280 UTF-16 code units is stored with its author, original post and the current time as createdAt |
| Database.Db.InsertPost | backend/controllers/postController.js:12-17 | a post that meets the schema is stored under the next id and the store stays valid |
| Database.Db.InsertLike | backend/controllers/likeController.js:14-19 | a (user, post) row not yet stored is saved under the next id with the current time, keeping the unique index |
| Database.Db.InsertBookmark | backend/controllers/bookmarkController.js:23-28 | a (user, post) bookmark not yet stored is saved under the next id with the current time, keeping the unique index and creation order |
| Database.Db.InsertComment | backend/controllers/commentController.js:14-21 | a comment is stored under the next id with the current time as createdAt, keeping creation times increasing with the id |
| UserModel.EmailCheckIsPattern | backend/models/userModel.js:17 | the left-to-right email check accepts exactly the strings that split into `[^\s@]+ @ [^\s@]+ . [^\s@]+` |
| UserModel.CheckedEmailStaysValid | backend/models/userModel.js:11-18 | trimming leaves an address that matches the pattern unchanged; it is stored lower-cased and still matches the pattern |
| BookmarkModel.HasPair | backend/controllers/bookmarkController.js:94-99 | the status lookup is true iff some stored row has that user and that post |
| BookmarkModel.UniquePairsInsert | backend/models/bookmarkModel.js:19 | a row whose (user, post) pair no stored row has can be added without breaking the unique index |
| UserModel.InsertKeepsAccountsUnique | backend/models/userModel.js:5-16 | a user whose username and email no stored user has can be added without breaking either unique index |
| BookmarkModel.UniquePairAtMostOne | backend/models/bookmarkModel.js:19 | under the unique (user, post) index a pair names at most one row |
| BookmarkModel.PostCountAfterInsert | backend/controllers/bookmarkController.js:110-112 | inserting a row naming the post raises that post's count by one; any other row leaves it unchanged |
| BookmarkModel.PostCountAfterRemove | backend/controllers/bookmarkController.js:110-112 | deleting a pair's rows lowers that post's count by exactly their number |
| BookmarkController.AddBookmark | backend/controllers/bookmarkController.js:4-34 | a missing post gives 404 and an existing pair gives 400, both with the bookmarks unchanged; otherwise exactly the pair (caller, post) is inserted, 201, the status becomes true and the count rises by one |
| BookmarkController.RemoveBookmark | backend/controllers/bookmarkController.js:41-50 | 200 iff the pair was stored, else 404; exactly that pair's row is removed, the status becomes false and on 200 the count drops by one |
| BookmarkController.GetUserBookmarks | backend/controllers/bookmarkController.js:59-80 | lists the posts bookmarked by the given user, or by the caller when none is given, newest bookmark first; skips deleted posts, includes every live one, flags all isBookmarked |
| BookmarkController.LiveRows | backend/controllers/bookmarkController.js:59-80 | the owner's bookmark rows whose post still exists, every such row, ids strictly decreasing |
| BookmarkController.Entries | backend/controllers/bookmarkController.js:71-80 | one entry per row carrying the row's post, that post's document and isBookmarked = true |
| BookmarkController.ListingComplete | backend/controllers/bookmarkController.js:59-80 | every existing post the user has bookmarked appears in the listing |
| BookmarkController.SavedAtIsRowTime | backend/controllers/bookmarkController.js:61-69 | the listed order is strictly decreasing in bookmark creation time |
| LikeController.CreateLike | backend/controllers/likeController.js:9-24 | 404 for a missing post and 400 for a repeated like, both with the likes unchanged; otherwise exactly one (caller, post) row is added, 201, the status becomes true and the count rises by one |
| LikeController.IsLiked | backend/controllers/likeController.js:57-67 | `isLiked` is true iff some stored like row holds that user and that post |
| LikeController.LikeCount | backend/controllers/likeController.js:74-80 | the count is 0 iff no stored like names the post; CreateLike and DeleteLike state how it moves |
| LikeController.DeleteLike | backend/controllers/likeController.js:34-40 | 200 iff the caller liked the post, else 404; only the caller's row goes, other users' like statuses on that post are unchanged, and on 200 the count drops by one |
| LikeController.LikeTwice | backend/controllers/likeController.js:9-24 | like, like again: 201 then 400, and the count is 1 |
| LikeController.GetUserLikes | backend/controllers/likeController.js:48-51 | exactly the caller's like rows, each with its populated post, in collection order |
| LikeController.LikeEntries | backend/controllers/likeController.js:48-51 | one entry per like row, with the row and its post when it still exists |
| CommentController.CreateComment | backend/controllers/commentController.js:9-25 | 404 with nothing changed for a missing post; otherwise the comment has the content, the caller as author and the post; its id is appended to the end of the post's comments; the comment count rises by one and the comment heads the newest-first list |
| CommentController.DeleteComment | backend/controllers/commentController.js:56-67 | 404 for a missing comment, 403 for another author's, both with nothing changed; otherwise exactly that comment is removed and the post's comment list is left as it was |
| CommentController.ModifyComment | backend/controllers/commentController.js:92-104 | 404 and 403 as for delete; by the author only the content changes, author and post stay |
| CommentController.CommentsByPost | backend/controllers/commentController.js:113-115 | exactly the comments on the post, createdAt strictly decreasing |
| CommentController.CommentCount | backend/controllers/commentController.js:124-129 | the count is 0 iff no stored comment names the post |
| CommentController.CountIsListingLength | backend/controllers/commentController.js:110-129 | the count `getCommentCount` answers equals the length of the list `getCommentsByPost` answers |
| CommentController.CommentsByUser | backend/controllers/commentController.js:44-47 | exactly the comments by the user, in collection order |
| PostController.CreatePost | backend/controllers/postController.js:7-21 | the post has the caller as author, the content, and image, hashtags, likes and comments at their defaults; it ends the author's list; missing content gives 400 and stores nothing |
| PostController.DeletePost | backend/controllers/postController.js:24-40 | 404 for a missing post, 403 for another author's, both with the store unchanged; by the author the post alone is removed and viewing it then gives 404 |
| PostController.ViewPost | backend/controllers/postController.js:42-54 | the post iff it exists; its virtual `text` equals its content (backend/models/postModel.js:39-41) |
| PostController.AllPosts | backend/controllers/postController.js:60-66 | every post, each once, in collection order |
| PostController.PostsByUser | backend/controllers/postController.js:71-74 | exactly the posts whose author is the user |
| PostController.ModifyPost | backend/controllers/postController.js:82-103 | 404 and 403 as for delete, and 400 for empty content, all with the post unchanged; by the author only content and updatedAt change |
| RepostController.NotifyAuthor | backend/controllers/repostController.js:26-31 | a notification iff the original author is not the caller, addressed to that author and carrying the original post id |
| RepostController.CreateRepost | backend/controllers/repostController.js:9-31 | 404 for a missing original and 400 for content over 280 UTF-16 code units, both storing nothing and notifying nobody; otherwise the repost has the content, the caller and the original, its id is appended to the original's reposts, and at most the NotifyAuthor notification is sent |
| RepostController.DeleteRepost | backend/controllers/repostController.js:53-63 | 404 for a missing repost, 403 for another author's, both with nothing changed; otherwise exactly that repost is removed |
| RepostController.ModifyRepost | backend/controllers/repostController.js:91-101 | 404 and 403 as for delete; by the author only the content changes, and content over 280 UTF-16 code units is refused with 400 |
| UserController.RegisterGuard | backend/controllers/userController.js:15-35 | no error iff all fields are present, the email matches the pattern, the password has 6 or more UTF-16 code units, as JavaScript counts `length`, and neither the username nor the email is taken; the checks run in that order and the first that fails decides the error: a missing field, then an address off the pattern, then a short password, then a taken account |
| Text.Utf16Length | backend/controllers/userController.js:26 | the `length` the password and content bounds compare counts UTF-16 code units: at least the number of characters and at most twice it |
| Text.Utf16LengthInBasicPlane | backend/controllers/userController.js:26 | for text inside the Basic Multilingual Plane that length is the number of characters |
| Text.Utf16LengthOutsideBasicPlane | backend/controllers/userController.js:26 | for text made of characters outside the Basic Multilingual Plane, such as emoji, that length is twice the number of characters |
| UserController.Register | backend/controllers/userController.js:13-49 | a guard failure gives 400 with the users unchanged; success stores exactly one user holding the trimmed username, the normalised email and the hash of the password, and gives 201 |
| UserController.LoginAs | backend/controllers/userController.js:66-88 | for the user `findOne` returned: 400 iff the request has no password, which `bcrypt.compare` rejects, or the password matches under a configured secret but `JWT_EXPIRES_IN` is unset or empty, so `jwt.sign` throws; otherwise 401 for a wrong password, 500 without a secret, and a token over that user's id and stored email |
| UserController.Login | backend/controllers/userController.js:59-88 | 404 iff no user has the email; 400 iff some user has it and either the request has no password, which `bcrypt.compare` rejects, or the oldest such user's password matches under a configured secret with `JWT_EXPIRES_IN` unset or empty, so `jwt.sign` throws; the `catch` answers both. With a password, for the oldest user with the email, the one `findOne` returns: 401 iff the password does not match, 500 iff it matches and no secret is configured, 400 iff it matches with a secret but no expiry, and otherwise a token signed over that user's id and email |
| UserController.UniqueEmailIsFirst | backend/controllers/userController.js:59 | under the unique email index, any user with the address is the one the login lookup takes |
| UserController.RegisteredUserCanLogIn | backend/controllers/userController.js:37-85 | after a successful registration, logging in with the same email and password issues a token for the new user |
| UserController.FreshAccountLogsIn | backend/controllers/userController.js:59-85 | a user whose email is unique logs in with a password the comparison accepts |
| AuthMiddleware.BearerToken | backend/middlewares/authMiddleware.js:8-13 | a token only from a header starting with "Bearer", namely its second space-separated field |
| AuthMiddleware.BearerTokenRoundTrip | backend/middlewares/authMiddleware.js:8-13 | from "Bearer " + t, for t without spaces, the gate reads back t |
| AuthMiddleware.VerifyKey | backend/middlewares/authMiddleware.js:20-23 | the configured secret when set, otherwise the fixed default, never empty |
| AuthMiddleware.Protect | backend/middlewares/authMiddleware.js:4-35 | next iff a token is present, it verifies and its user exists; then req.user is that user without the password; every refusal is 401 |
| AuthMiddleware.LoginTokenPassesGate | backend/middlewares/authMiddleware.js:8-31 | a token issued by login, sent as a Bearer header, passes the gate as the logged-in user |
| AuthService.FindTokenPiece | frontend/src/components/services/authService.js:9-11 | some piece iff one of the `;` pieces, trimmed, starts with "token=" |
| AuthService.IsAuthenticated | frontend/src/components/services/authService.js:80-84 | `some` finds a token piece iff the request interceptor's `find` (lines 9-11) does, so the session counts as authenticated exactly when requests carry a token |
| AuthService.FindTokenPieceIsFirst | frontend/src/components/services/authService.js:9-11 | the first token piece, with none before it, is the one found |
| AuthService.TokenValue | frontend/src/components/services/authService.js:9-13 | a value iff isAuthenticated holds; it is read from the first token piece, with no token piece before it, and is the text after that piece's first '=' up to the next '=' or the end |
| AuthService.PieceValue | frontend/src/components/services/authService.js:9-13 | for any test that passes only pieces holding '=': a value iff some piece passes; it holds no '=', and it is read from the first passing piece after that piece's first '=' up to the next '=' or the end |
| AuthService.FoundPieceValue | frontend/src/components/services/authService.js:9-13 | the piece `find` returns is the first passing one, and its second '='-field is the text after its first '=' |
| Text.SplitSecondPiece | frontend/src/components/services/authService.js:13 | `split("=")[1]` of a string holding '=' is the text after the first '=' up to the next '=' or the end |
| AuthService.InterceptRequest | frontend/src/components/services/authService.js:7-18 | sets Authorization to "Bearer " + value exactly when a token piece exists, otherwise leaves the headers untouched |
| AuthService.InterceptedTokenReachesGate | frontend/src/components/services/authService.js:9-13 | the server's gate reads from the intercepted header the same value the client took from the cookie |
| AuthService.StoredTokenIsSent | frontend/src/components/services/authService.js:32-37 | a token cookie written by setCookie makes the session authenticated and is sent back whole |
| AuthService.Session.PersistAuthResponse | frontend/src/components/services/authService.js:40-68 | token cookie and user text stored only when the response carries a token, the text being "undefined" when the response has no `user`; afterwards that token is what the interceptor sends |
| AuthService.Session.Logout | frontend/src/components/services/authService.js:70-73 | the token cookie is expired and the user removed, so isAuthenticated is false and getCurrentUser gives null whatever the parser |
| AuthService.Session.OnResponseError | frontend/src/components/services/authService.js:20-30 | a 401 expires the token cookie and moves to /login; other statuses change neither |
| AuthService.Session.GetCurrentUser | frontend/src/components/services/authService.js:75-78 | null iff no (or an empty) user text is stored; otherwise the SyntaxError iff the text does not parse, and the parsed user when it does |
| AuthService.LoginAnswerNotRestored | backend/controllers/userController.js:85 | a login answer with a token and no `user` stores "undefined", so reading the current user back ends in the SyntaxError |
| AuthService.UserAnswerRestored | frontend/src/components/services/authService.js:40-47 | an answer carrying the user's JSON text stores it, and the current user reads back as the parsed user |
| PostForm.StripHashes | frontend/src/components/post/PostForm.jsx:40 | removes exactly the leading run of '#' |
| PostForm.TagShape | frontend/src/components/post/PostForm.jsx:40 | a candidate tag never starts with '#' and never ends with white space |
| PostForm.AddHashtag | frontend/src/components/post/PostForm.jsx:36-48 | other keys change nothing; Enter, space or comma clear the input and append the normalised tag when it is non-empty and new |
| PostForm.AddKeepsTagsDistinct | frontend/src/components/post/PostForm.jsx:42-44 | the tag list stays duplicate-free and existing tags keep their positions |
| PostForm.RemoveHashtag | frontend/src/components/post/PostForm.jsx:50-52 | removes exactly that tag and keeps the order of the rest |
| PostForm.RemoveUndoesAdd | frontend/src/components/post/PostForm.jsx:36-52 | removing a tag just added restores the tag list |
| PostForm.AddNewPost | frontend/src/components/post/PostForm.jsx:19-34 | submits iff text or image is present, sending text, tags and image, then resets the form; otherwise nothing changes |
| PostForm.SubmitOnce | frontend/src/components/post/PostForm.jsx:19-34 | a second submit right after one sends nothing |
| Recommend.OtherPosts | frontend/src/components/pages/Recommend/Recommend.jsx:42-44 | keeps exactly the posts whose author's username differs from the current user's (authorless posts stay), in their order |
| Recommend.LoadPosts | frontend/src/components/pages/Recommend/Recommend.jsx:36-55 | a failed fetch or a missing username gives the error message; otherwise the other users' posts |
| Recommend.Recommended | frontend/src/components/pages/Recommend/Recommend.jsx:69-79 | the recommended posts are a subsequence of the loaded posts |
| Recommend.RecommendedUnder | frontend/src/components/pages/Recommend/Recommend.jsx:69-79 | empty without a classification or the key; otherwise the posts with a hashtag found under the key, in order |
| Recommend.RecommendedIff | frontend/src/components/pages/Recommend/Recommend.jsx:72-75 | a post is recommended iff one of its hashtags, lower-cased with '#' in front, is a key of good_hashtags |
| Recommend.UntaggedNeverRecommended | frontend/src/components/pages/Recommend/Recommend.jsx:72-77 | posts with missing or empty hashtags are never recommended |
| Recommend.NoClassificationNoRecommendation | frontend/src/components/pages/Recommend/Recommend.jsx:69-70 | no classification, or none with good_hashtags, recommends nothing |
| Recommend.ToJson | ia/face_recognition.py:177 | the service's answer has exactly the keys good_topics and bad_topics |
| Recommend.ServiceAnswerRecommendsNothing | frontend/src/components/pages/Recommend/Recommend.jsx:70 | for every answer the classifier can give, the page as written recommends nothing |
| Recommend.GoodTopicIsRecommended | frontend/src/components/pages/Recommend/Recommend.jsx:69-79 | with good_topics read, a post is recommended iff one of its hashtags names a topic the classifier judged good |
| Home.HomePage.TweetPost | frontend/src/components/pages/Home/Home.jsx:29-43 | empty text and no image change nothing; otherwise a fresh post with likes 0 and no comments goes in front, the rest keep their order, and the composer is cleared |
| Home.HomePage.LikePost | frontend/src/components/pages/Home/Home.jsx:45-49 | the indexed post gains exactly one like and keeps its author, text, image, creation time and comments; every other post keeps its likes |
| Home.HomePage.AddComment | frontend/src/components/pages/Home/Home.jsx:51-63 | a non-empty comment is appended to that post's comments with likes 0 and no replies and the input cleared; an empty one changes nothing, whatever the index; every post keeps its author, text, image, likes and creation time |
| Home.HomePage.ReplyComment | frontend/src/components/pages/Home/Home.jsx:64-75 | every call ends in a ReferenceError on `postbs`, before any change |
| Home.HomePage.ReplyCommentIntended | frontend/src/components/pages/Home/Home.jsx:64-75 | with `posts` read, a non-empty reply is appended to exactly that comment's replies and the input cleared; the comment keeps its author, text and likes, and an empty reply changes nothing |
| Home.HomePage.ToggleComments | frontend/src/components/pages/Home/Home.jsx:77-81 | flips only the indexed flag, an unset flag counting as false |
| Home.ToggleTwice | frontend/src/components/pages/Home/Home.jsx:77-81 | toggling twice restores the flag |
| RegisterPage.ValidateForm | frontend/src/components/pages/Authentication/Register/RegisterPage.jsx:14-26 | valid iff the passwords are equal and at least 8 UTF-16 code units long; a mismatch is reported before the length |
| RegisterPage.RegisterForm.HandleRegister | frontend/src/components/pages/Authentication/Register/RegisterPage.jsx:28-43 | register is called iff the form is valid, with the form's fields; the error is cleared first, then set from validation or from the failed call |
| RegisterPage.ClientCheckCoversServerPassword | backend/controllers/userController.js:15-29 | a password the form accepts passes the server's presence and length checks |
| RegisterPage.ServerAcceptsWhatFormRefuses | frontend/src/components/pages/Authentication/Register/RegisterPage.jsx:20-23 | a 6-character password the server accepts is refused by the form |
| ProfileSettings.WithField | frontend/src/components/pages/Profil/ProfileSettings.jsx:45-51 | only the named field takes the new value; all other fields are unchanged |
| ProfileSettings.EditsCommute | frontend/src/components/pages/Profil/ProfileSettings.jsx:45-59 | edits of two different fields commute |
| ProfileSettings.LastEditWins | frontend/src/components/pages/Profil/ProfileSettings.jsx:45-59 | the later of two edits of one field wins |
| ProfileSettings.SettingsPage.HandleChange | frontend/src/components/pages/Profil/ProfileSettings.jsx:45-51 | the profile form changes in the named field only; every other page field, including isSaving and showPasswordModal, keeps its value |
| ProfileSettings.SettingsPage.HandlePasswordChange | frontend/src/components/pages/Profil/ProfileSettings.jsx:53-59 | the password form changes in the named field only; every other page field, including isSaving and showPasswordModal, keeps its value |
| ProfileSettings.SettingsPage.HandleImageChange | frontend/src/components/pages/Profil/ProfileSettings.jsx:61-75 | a file over 2·1024·1024 bytes sets the error and no new preview; one of at most that size becomes the preview; the forms, success, isSaving and showPasswordModal keep their values |
| ProfileSettings.ImageLimitIsInclusive | frontend/src/components/pages/Profil/ProfileSettings.jsx:64 | exactly 2 MiB is accepted, one byte more is refused |
| ProfileSettings.SettingsPage.HandlePasswordSubmit | frontend/src/components/pages/Profil/ProfileSettings.jsx:106-129 | differing new and confirmation passwords set the error and send nothing, leaving success, the fields and the modal as they were; after a successful update the three fields are empty and the modal is closed; a failed update keeps them |
| ProfilePage.ActiveTab | frontend/src/components/pages/Profil/ProfilePage.jsx:14-21 | saved iff the path contains "/profile/saved"; settings iff not that but "/profile/settings"; posts otherwise |
| ProfilePage.SavedWins | frontend/src/components/pages/Profil/ProfilePage.jsx:15-16 | any path containing the saved path selects saved, whatever else it contains |
| ProfilePage.PostCountShown | frontend/src/components/pages/Profil/ProfilePage.jsx:78 | a known count is shown as is, an unknown one as 0 |
| ProfilePage.FetchPostCount | frontend/src/components/pages/Profil/ProfilePage.jsx:23-32 | without a user or without a fetcher the count stays as it was (the thrown TypeError is only logged); otherwise it becomes the fetched count |
| ProfilePage.CountShownAsWritten | frontend/src/components/pages/Profil/ProfilePage.jsx:11-32 | with `useUsers()` providing no `getCountPostsByUser`, the page shows 0 for a user whose server count is positive |
| ProfilePage.CountShownWithFetcher | frontend/src/components/pages/Profil/ProfilePage.jsx:23-32 | with the fetcher provided, the page shows the server's count, and fetching again changes nothing |
| EmotionClassifier.SumLastSnapshot | ia/face_recognition.py:163-172 | the two loop sums equal the good and bad sums of the snapshot |
| EmotionClassifier.ClassifyTopicsLastSnapshot | ia/face_recognition.py:150-177 | the loops produce exactly the per-topic classification |
| EmotionClassifier.NoTopicIsBoth | ia/face_recognition.py:150-177 | no topic is in both good_topics and bad_topics |
| EmotionClassifier.FixedTopics | ia/face_recognition.py:154-159 | "test" is good with 1.0/0.0 and "vacances" bad with 0.0/1.0, in any letter case, whatever the snapshots |
| EmotionClassifier.EmptyTopicSkipped | ia/face_recognition.py:160-161 | any other topic without snapshots is in neither map |
| EmotionClassifier.LastSnapshotDecides | ia/face_recognition.py:162-176 | good iff the last snapshot's good sum reaches its bad sum (ties go to good); the recorded scores are the two sums |
| EmotionClassifier.OnlyLastSnapshotCounts | ia/face_recognition.py:162 | histories with the same last snapshot classify a topic alike |
| EmotionClassifier.FaceSumsAppend | ia/face_recognition.py:164-172 | the sums over a face add up over concatenation |
| EmotionClassifier.UnknownLabelIgnored | ia/face_recognition.py:167-172 | an emotion with a label outside the two lists, such as surprise, changes neither sum |
| EmotionClassifier.SimulatedSnapshot | ia/face_recognition.py:99-124 | the simulated snapshot has one face with one emotion of score 1.0 tagged with the topic |
| EmotionClassifier.SimulatedSnapshotAgrees | ia/face_recognition.py:99-124 | the simulated snapshot's sums agree with the fixed verdict for its topic |
| EmotionClassifier.EmotionCollector.DetectSimulated | ia/face_recognition.py:93-124 | appends exactly one snapshot to the topic, reports the new count and leaves every other topic unchanged |

## Left out

- Socket.io delivery is not modelled. A repost's notification is the value `CreateRepost` returns; server.js and its room naming are not part of this model.
- Bcrypt hashing and comparison, and JWT signing and verification (RFC 7519), are opaque function parameters. The model does not capture their cryptographic properties.
- UserController.Login and UserController.LoginAs: the `expiresIn` option is modelled only as set (present and non-empty) or not; an unset one makes `jwt.sign` throw and the source answer 400, which the model states. A non-empty `JWT_EXPIRES_IN` that jsonwebtoken cannot read as a time span also throws there, and the model does not capture that. The token's `exp` claim is not part of `Claims`; whether the gate refuses an expired token is left to the opaque `verify`.
- Mongoose mechanics are not modelled: `populate`, query execution, the cast of a malformed id to a `CastError`, and database failures. The `catch` branches that answer 400 or 500 on such failures are therefore left out. Ids are natural numbers, so no id is malformed.
- Missing request fields of `registerUser` are modelled as the empty string: its guard tests `!field`, which holds for both. In `loginUser` a missing password is `None`, which `bcrypt.compare` rejects. A missing email is the empty address there; no stored user has it, so such a login answers 404.
- Lower-casing (`toLowerCase()`, `lower()`) is modelled for the letters A to Z only. The source lower-cases all of Unicode.
- Classification scores are reals. Floating-point rounding is not modelled.
- Timestamps are values of an abstract clock that ticks on each insert. Cookie expiry dates are not modelled: an expired cookie is an absent one.
- The camera, the capture thread, the Keras model and the real-capture path of `detect_emotion_once` are not modelled (hardware, threads, machine learning). So are ia/face_recog.py and the Flask endpoints.
- Route tables, multer storage, startup files and the presentation-only components are not part of this model.
- The Comment schema is not part of this model. Any comment content is accepted: no required or length validator is assumed. `createdAt` is assumed to default to the current time, which `sort("-createdAt")` at backend/controllers/commentController.js:113-115 relies on; the store gives it the clock's time at insertion.
- The Like schema is not part of this model. Likes are given the bookmark's row shape and its unique (user, post) index, which the 400 answer for a repeated like relies on.
- RepostController.CreateRepost: backend/models/postModel.js:3-37 declares no `reposts` field, so in the source `originalPost.reposts` is undefined and the push at backend/controllers/repostController.js:22 throws after `repost.save()`. The source then answers 400, the repost stays stored and the post is unchanged. The model gives every post a `reposts` list, starting empty, and models the push the handler evidently intends.
- RepostController.CreateRepost: requires an authenticated caller (`caller in db.users`), the handler as it would run behind `protect`. backend/routes/repostRoute.js:5 mounts it without `protect`, so `req.user.id` at backend/controllers/repostController.js:7 throws inside the `try` and the `catch` at lines 35-36 answers 400 with nothing stored; the deployed route answers 400 to every call.
- RepostController.DeleteRepost and RepostController.ModifyRepost: modelled with a caller, as behind `protect`. Mounted without it (backend/routes/repostRoute.js:7-9), they read `req.user.id` at lines 59 and 95 once the repost is found, which throws and is answered 400 by the `catch`.
- RepostController.CreateRepost: when the original's author no longer exists, the source has already saved the repost before it answers 400. The model keeps that saved state and sends no notification.
- Home.HomePage.LikePost: requires an index inside the feed. Any other index throws a TypeError in the page.
- Home.HomePage.AddComment: requires an index inside the feed only when the comment is non-empty. A non-empty comment on any other index throws a TypeError at Home.jsx:54; an empty one never indexes, and the model accepts any index for it.
- Home.HomePage.ReplyCommentIntended: requires indices inside the feed and the comment list.
- Home.HomePage.TweetPost: the post's author is the current user's username rather than the whole user object; `new Date()` is the `now` parameter.
- PostForm.AddNewPost: an image is present exactly when one is set. Object URLs are never empty strings.
- ProfileSettings.SettingsPage.HandleImageChange: the asynchronous FileReader result is the `dataUrl` parameter and is installed within the call.
- ProfileSettings.SettingsPage.HandlePasswordSubmit: the outcome of `updatePassword` is a parameter, and the messages the hook sets itself are folded in. handleSubmit (profile update) and handleDeleteAccount are not part of this model.
- RegisterPage.RegisterForm.HandleRegister: the awaited `register` call is a parameter describing how it ends. Navigation is the `navigatedTo` field.
- Recommend.LoadPosts: `fetchPosts` is a parameter. `loadClassification` and the socket updates only replace the classification, which `Recommended` takes as input.
- AuthService.Session: only the `token` cookie is modelled, and the stored user is the text `localStorage` holds. `JSON.parse` is the partial parameter `parse`; the JSON grammar itself is not modelled. The HTTP requests of login and register are not modelled; their responses are parameters.
- AuthMiddleware.Protect: the outer `catch` that answers 500 is not modelled, since it is reached only by failures of the foreign calls.
- The client posts the topic as `?hashtag=`, while the service reads `topic`. That mismatch sits in frontend/src/components/pages/Future/Future.jsx, which is not part of this model.

## Findings

| source | as written | input that shows it | evidently intended | confidence | as-written member | corrected member |
|---|---|---|---|---|---|---|
| frontend/src/components/pages/Home/Home.jsx:65 | `handleReplyComment` copies `[...postbs]`, a name declared nowhere, so every call throws a ReferenceError and no reply is ever added | any call, e.g. post 0, comment 0 with reply text "hi" | copy `[...posts]` and append the reply to the chosen comment | high; not executed | Home.HomePage.ReplyComment | Home.HomePage.ReplyCommentIntended |
| frontend/src/components/pages/Recommend/Recommend.jsx:70 | the filter reads `classification.good_hashtags`, but the service answers `{good_topics, bad_topics}` (ia/face_recognition.py:177), so nothing is ever recommended; the lemma Recommend.ServiceAnswerRecommendsNothing shows it for every answer | the answer for the collected topics {"#travel": one snapshot with one face, happy 1.0}, and a post tagged "Travel" | read `classification.good_topics` | high; not executed | Recommend.Recommended | Recommend.GoodTopicIsRecommended |
| frontend/src/components/pages/Profil/ProfilePage.jsx:11 | the page takes `getCountPostsByUser` from `useUsers()`, whose returned object (frontend/src/components/hooks/useUsers.js:88-97) has no such member, so the call at line 26 throws a TypeError that the `catch` at lines 28-29 only logs, and `countPosts ?? 0` always shows 0 | a signed-in user with 3 posts on the server: the page shows 0 | have `useUsers()` (or another hook) provide `getCountPostsByUser` | medium; not executed | ProfilePage.CountShownAsWritten | ProfilePage.CountShownWithFetcher |
| backend/controllers/userController.js:85 | a successful login answers `{ message, token }` without `user`, so frontend/src/components/services/authService.js:45 stores `JSON.stringify(undefined)`, the text "undefined"; `getCurrentUser` then throws a SyntaxError at line 77, which frontend/src/components/contexts/AuthContext.jsx:26-27 only logs, and the session is not restored on reload | any successful login followed by a page reload | send the user with the token, as `registerUser` does at line 49 | medium; not executed | AuthService.LoginAnswerNotRestored | AuthService.UserAnswerRestored |
