# Forum core in Dafny

A model of the forum's comment tree and the rules around it, with proofs.

**Backend: comments.** The comment table offers find, create, update and delete. A post's comments are listed one page at a time, oldest first, each with its direct replies. The depth of a comment is found by walking its parent links, and that walk is capped.

**Backend: creating and replying.** Creating a comment and replying to one each check their inputs in a fixed order. Each may then notify the post author and the parent comment's author. A failure while notifying is swallowed.

**Backend: verification codes and user controls.** The registration code endpoints check the e-mail address, rate-limit resends and check submitted codes. The user controller checks profile changes (username and tag), password changes and daily-task completion.

**Frontend.**
- The level system: experience per level, the level for an experience total, colour bands and task rewards.
- Image selection and removal in the upload widget, and its message templates.
- The post editor's submit path: required fields, uploads, links appended to the content, tags and category.
- The password dialog: the 30-day countdown and the order of its checks.
- The tag cloud: tag filtering, the order-independent tag signature, the repeated tag items and the cached layout.
- The post card: audio title from the file name, publish date per language, media URLs, three-line preview, like button.
- The start-up loader's resource map.

Each source file is one module: `CommentModel`, `CommentController`, `LevelSystem`, `Verification`, `UserController`, `ImageUpload`, `CreatePost`, `ChangePasswordModal`, `RightSidebar`, `PostCard` and `LoaderContext`. `Common` holds the JavaScript string and number behaviour they share: `trim`, `split`, `join`, `indexOf`, `parseInt(…, 10)`, number-to-text and UTF-16 length.

**How state is modelled.**
- Code that changes state is a class with methods: the comment table, the forum with its notification log, the verification code store, the tag cloud's position cache and the loader.
- Code that computes a value is a function.
- Loops in the source are loops in the model: the depth walk, the level computation, the experience total, the image selection, the tag items and the loader's timeout.

**Queries and collaborators become parameters.**
- SQL queries become lookups in maps.
- Collaborators not shown in the code become parameters or lookups. Examples: the user and post models, password hashing, the daily-task service, the verification code service and the e-mail sender.
- Browser facilities also become parameters. Examples: `decodeURIComponent`, the regular expressions of the post preview, `new Date`, the upload request and the random layout.

**Where the code and the design disagree, the model follows the code.**
- In `createComment`, the post-author and username lookups (backend/controllers/commentController.js:92-95) sit outside the try block that guards the notification.
- A failure there therefore answers 500 although the comment is already stored; the design says notification failures never affect the response.
- `CommentController.Forum.CreateComment` states this outcome (`RecipientLookupFails`).
- Likewise, `getComments` with a page below 1 makes a negative offset. The database refuses it, and the handler answers 500.

## Model

| member | source | states |
|---|---|---|
| Common.Utf16Length | frontend/src/components/ChangePasswordModal.jsx:65 | `length` counts UTF-16 units: between the number of characters and twice it, and equal to it for text in the Basic Multilingual Plane |
| Common.Trim | frontend/src/pages/CreatePost.jsx:111 | `trim` removes exactly the leading and trailing JavaScript white space: the result starts and ends with a non-space, and is empty exactly for all-space text |
| Common.Split | frontend/src/pages/CreatePost.jsx:139 | `split` gives at least one piece and no piece holds the separator |
| Common.JoinSplit | frontend/src/pages/CreatePost.jsx:139 | joining the pieces of a split with the separator gives the text back |
| Common.SplitJoin | frontend/src/pages/CreatePost.jsx:139 | splitting a join of separator-free pieces gives the pieces back |
| Common.SplitAfterPiece | frontend/src/components/PostCard.jsx:267 | a separator-free first piece is split off whole, and the rest is split on its own |
| Common.SplitOfPiece | frontend/src/components/PostCard.jsx:267 | text without the separator splits into itself alone |
| Common.IndexOf | frontend/src/pages/CreatePost.jsx:115 | `indexOf` is -1 exactly when the value is absent, and otherwise the first position holding it |
| Common.IndexOfAfterPiece | frontend/src/pages/CreatePost.jsx:115 | after a prefix without the value, the first occurrence is right after that prefix |
| Common.CutAtFirst | frontend/src/components/PostCard.jsx:81 | a text cut at the first occurrence of a marker gives back the same two parts |
| Common.BeforeFirst | frontend/src/components/PostCard.jsx:229 | the part before the first occurrence of a character: free of it, the whole text when it is absent, otherwise a prefix followed by it |
| Common.BeforeFirstOf | frontend/src/components/PostCard.jsx:229 | the part before the first marker of `a + marker + b`, with `a` free of the marker, is `a` |
| Common.FirstOfSplit | frontend/src/components/PostCard.jsx:229 | `split(c)[0]` is the part before the first `c` |
| Common.AfterLast | frontend/src/components/PostCard.jsx:231 | the part after the last occurrence of a character: a suffix free of it, preceded by it when it occurs, the whole text otherwise |
| Common.AfterLastOf | frontend/src/components/PostCard.jsx:231 | the part after the last marker of `a + marker + b`, with `b` free of the marker, is `b` |
| Common.SplitLastPiece | frontend/src/components/PostCard.jsx:231 | the last piece of a split is the last piece of what follows any separator |
| Common.LastOfSplit | frontend/src/components/PostCard.jsx:231 | `split(c).pop()` is the part after the last `c` |
| Common.NatToString | frontend/src/components/RightSidebar.jsx:81 | a natural number's text is a non-empty run of digits without a leading zero |
| Common.IntToString | frontend/src/components/RightSidebar.jsx:62 | an integer's text is non-empty, starts with '-' exactly for negatives, and is otherwise digits |
| Common.DigitsOfNat | frontend/src/pages/CreatePost.jsx:136 | reading the digits of a number's text gives the number back |
| Common.NatToStringInjective | frontend/src/components/RightSidebar.jsx:81 | different numbers have different texts |
| Common.IntToStringInjective | frontend/src/components/RightSidebar.jsx:62 | different integers have different texts |
| Common.DigitPrefix | frontend/src/pages/CreatePost.jsx:136 | the longest run of leading digits |
| Common.DigitPrefixOf | frontend/src/pages/CreatePost.jsx:136 | the digit run of digits followed by a non-digit, or by nothing, is exactly those digits |
| Common.SignedBody | frontend/src/pages/CreatePost.jsx:136 | parseInt drops only leading white space and at most one sign after it, leaves no white space or sign in front unless a sign was dropped, and notes whether that sign was '-' |
| Common.ParseInt10 | frontend/src/pages/CreatePost.jsx:136 | `parseInt(s, 10)` is NaN exactly when no digit follows the white space and the sign; otherwise it is the value of the digit run, negated after '-' |
| Common.ParseIntOfNat | frontend/src/pages/CreatePost.jsx:136 | parseInt reads a number's own text back as that number, ignoring whatever follows from the first non-digit on |
| Common.ParseIntOfPlus | frontend/src/pages/CreatePost.jsx:136 | a '+' in front of a number's text reads the same number |
| Common.ParseIntOfMinus | frontend/src/pages/CreatePost.jsx:136 | a '-' in front of a number's text reads its negation |
| Common.ParseIntOfInt | frontend/src/pages/CreatePost.jsx:136 | parseInt reads the printed text of any integer back as that integer |
| Common.ParseIntAfterSign | frontend/src/pages/CreatePost.jsx:136 | digits after at most one sign and before a non-digit are read as their value, negated after '-' |
| Common.ParseIntOfBody | frontend/src/pages/CreatePost.jsx:136 | once the sign and body are known, parseInt is the value of the body's leading digits, negated after '-' |
| Common.SignedBodyOfDigits | frontend/src/pages/CreatePost.jsx:136 | a text starting with a digit, or a sign then a digit, has that sign dropped and read |
| CommentModel.JoinAuthor | backend/models/Comment.js:5-15 | the LEFT JOIN of a comment with its author: the author columns are the user's when the author exists and all null otherwise |
| CommentModel.FindById | backend/models/Comment.js:5-15 | findById is null exactly for a missing id, and otherwise the joined row |
| CommentModel.FormatComment | backend/models/Comment.js:116-131 | formatComment carries exactly id, content, author {id, username, avatar}, postId, parentId, likeCount, createdAt and updatedAt from the row |
| CommentModel.NotLaterTransitive | backend/models/Comment.js:57 | the created_at order is transitive |
| CommentModel.EarliestExists | backend/models/Comment.js:57 | every non-empty set of comments has one created no later than all others |
| CommentModel.Earliest | backend/models/Comment.js:57 | the earliest comment of a non-empty set is in it and precedes every other |
| CommentModel.InCreationOrder | backend/models/Comment.js:57 | `ORDER BY created_at ASC` lists each selected comment exactly once, in non-decreasing creation time |
| CommentModel.RootIds | backend/models/Comment.js:56 | the top-level comments of a post: exactly the rows of that post whose parent_id is null |
| CommentModel.ChildIds | backend/models/Comment.js:96 | the replies to a comment: exactly the rows whose parent_id is that comment |
| CommentModel.GetReplies | backend/models/Comment.js:85-113 | no replies once currentDepth reaches maxDepth; otherwise the children in creation order, formatted; at the last level they carry no replies of their own |
| CommentModel.RepliesOneLevel | backend/models/Comment.js:85-113 | with the default depths, the replies are exactly the comment's children, ascending by created_at, each with an empty replies list |
| CommentModel.Window | backend/models/Comment.js:58 | `LIMIT n OFFSET k`: at most n items, the k-th onwards, none past the end |
| CommentModel.FindByPostId | backend/models/Comment.js:47-82 | fails exactly for a negative offset or limit; otherwise the page window of the post's top-level comments in creation order, each formatted with its replies |
| CommentModel.ListingShape | backend/models/Comment.js:47-82 | a listing holds at most `limit` top-level comments of the post, from offset (page-1)·limit, ascending by created_at, each with its own one-level replies; the root count is not part of it |
| CommentModel.CommentTable.constructor | backend/models/Comment.js:18-26 | the table starts empty with the first id 1 |
| CommentModel.CommentTable.Create | backend/models/Comment.js:18-26 | create inserts one row under a fresh id, with like count 0 and both timestamps now (the assumed column defaults), and returns findById of it |
| CommentModel.CommentTable.Update | backend/models/Comment.js:29-38 | update changes only content and updated_at and returns the joined row; null and no change for a missing id |
| CommentModel.CommentTable.Delete | backend/models/Comment.js:41-44 | delete removes the row and returns its id, or null when there was none |
| CommentController.ParentLink | backend/controllers/commentController.js:144-148 | the walk follows a parent link exactly when the row exists and has a non-zero parent |
| CommentController.DepthWalk | backend/controllers/commentController.js:138-153 | the walk's depth never decreases and never exceeds 11 |
| CommentController.WalkCountsHops | backend/controllers/commentController.js:138-153 | from any point of an acyclic chain, the walk adds the number of hops to the top |
| CommentController.DepthCountsHops | backend/controllers/commentController.js:133-156 | on a chain of at most 10 ancestors the depth is the number of hops to the top comment |
| CommentController.WalkCapped | backend/controllers/commentController.js:152 | a chain longer than the cap stops the walk at 11 |
| CommentController.DepthCapped | backend/controllers/commentController.js:152 | with 11 or more ancestors the depth is 11 |
| CommentController.SelfParentTerminates | backend/controllers/commentController.js:138-153 | any stored comment, other than id 0, that is its own parent gets depth 11: the walk ends on the cycle |
| CommentController.SelfParentHops | backend/controllers/commentController.js:138-153 | from any self-parented comment, any number of parent links can be followed |
| CommentController.DepthZero | backend/controllers/commentController.js:133-146 | the depth is 0 exactly when the id is 0, the comment is missing, or it has no parent |
| CommentController.DepthAtMostOne | backend/controllers/commentController.js:55-87 | when every stored parent is a comment of the same post with a null or 0 parent_id, no comment is deeper than 1 |
| CommentController.Forum.ValidDepths | backend/controllers/commentController.js:133-156 | in every state the handlers keep, every comment's depth is at most 1 |
| CommentController.InsertKeepsOneLevel | backend/controllers/commentController.js:55-87 | a comment stored after the checks keeps every stored parent a comment of the same post with a null or 0 parent_id |
| CommentController.DeleteKeepsOneLevel | backend/models/Comment.js:41-44 | deleting a row keeps every stored parent a comment of the same post with a null or 0 parent_id |
| CommentController.UpdateKeepsOneLevel | backend/models/Comment.js:29-38 | editing content keeps every stored parent a comment of the same post with a null or 0 parent_id |
| CommentController.RequestedParent | backend/controllers/commentController.js:86 | a given non-zero parentId becomes the parent, anything else null |
| CommentController.CreateCheck | backend/controllers/commentController.js:46-79 | createComment refuses, in order: POST_NOT_FOUND 404, COMMENT_NOT_FOUND 404 for a missing parent, INVALID_PARENT 400 for another post's parent, MAX_DEPTH_REACHED 400 for a parent that is itself a reply; passing means a top-level parent of the same post |
| CommentController.ReplyCheck | backend/controllers/commentController.js:166-181 | replyComment refuses a missing target with COMMENT_NOT_FOUND 404 and a target that is itself a reply with MAX_DEPTH_REACHED 400 |
| CommentController.DisplayName | backend/controllers/commentController.js:98 | the commenter's name is the username when there is one, a non-empty default otherwise |
| CommentController.PostTitle | backend/controllers/commentController.js:105 | the notification content is never empty: the title or its default |
| CommentController.CommentNotices | backend/controllers/commentController.js:97-120 | at most one 'comment' notice, to the post author exactly when that author exists and is not the commenter |
| CommentController.ReplyNotices | backend/controllers/commentController.js:202-229 | at most two notices, none to the replier, never two to one user: 'comment_reply' to the parent author, 'comment' to a different post author |
| CommentController.DeliveredCount | backend/controllers/commentController.js:116-119 | a fault during notification loses notices but never adds any; a lookup fault loses all |
| CommentController.Forum.constructor | backend/controllers/commentController.js:6 | the forum starts with no comments and no notifications |
| CommentController.Forum.GetCommentDepth | backend/controllers/commentController.js:133-156 | the loop computes the depth walk and stops at 11 at the latest |
| CommentController.Forum.GetComments | backend/controllers/commentController.js:8-36 | 404 for a missing post, 500 for a page below 1, otherwise the page of 20 |
| CommentController.Forum.CreateComment | backend/controllers/commentController.js:39-130 | a refused request changes nothing; an accepted one stores one row with the request's post, author and parent, appends the delivered notices, and answers 201 with the formatted comment (500 when the recipient lookup fails) |
| CommentController.Forum.ReplyComment | backend/controllers/commentController.js:159-243 | a refused reply changes nothing; an accepted one stores a row under the target's post with the target as parent, appends the delivered notices and answers 201 |
| CommentController.Forum.CheckCreate | backend/controllers/commentController.js:46-79 | the handler's checks, run in order with the depth walk, give exactly the refusal the check order defines |
| CommentController.Forum.StoreChecked | backend/controllers/commentController.js:82-89 | a checked comment is stored under the next id and comes back joined with its author, and replies stay one level deep |
| CommentController.Forum.DeliverNotices | backend/controllers/commentController.js:207-229 | the planned notices are inserted in order, and a failing insert drops it and every later one |
| LevelSystem.ExpForNextLevel | frontend/src/utils/levelSystem.js:4-8 | the step from a level costs 30 + 5·level (level 0's special case agrees), at least 30 from level 0 on |
| LevelSystem.TotalExpForLevel | frontend/src/utils/levelSystem.js:11-17 | the accumulating loop yields the sum of the step costs below the target, which is 30(t−1) + 5(t−1)(t−2)/2 |
| LevelSystem.TotalExpClosedForm | frontend/src/utils/levelSystem.js:11-17 | level 1 costs nothing, each level adds its step cost, and the sum has the closed form above |
| LevelSystem.TotalExpStrictlyIncreasing | frontend/src/utils/levelSystem.js:11-17 | higher levels need strictly more experience |
| LevelSystem.TotalExpMonotone | frontend/src/utils/levelSystem.js:11-17 | higher levels never need less experience |
| LevelSystem.LevelFromExp | frontend/src/utils/levelSystem.js:20-34 | the level lies in 1..70, is 1 below 30, and its total is reached while the next level's is not |
| LevelSystem.LevelSearchBracket | frontend/src/utils/levelSystem.js:27-31 | the climb from a reached level stops at a level whose total is reached and whose successor's is not |
| LevelSystem.LevelBracket | frontend/src/utils/levelSystem.js:20-34 | the level of an experience amount lies between the two totals around it |
| LevelSystem.LevelUnique | frontend/src/utils/levelSystem.js:20-34 | that bracketing determines the level |
| LevelSystem.NoTwoBrackets | frontend/src/utils/levelSystem.js:20-34 | no experience amount falls between two different levels' totals |
| LevelSystem.BracketsOrdered | frontend/src/utils/levelSystem.js:20-34 | a level reached by the smaller experience is at most the level bracketing the larger |
| LevelSystem.LevelMonotone | frontend/src/utils/levelSystem.js:20-34 | more experience never gives a lower level |
| LevelSystem.ExpToNextLevel | frontend/src/utils/levelSystem.js:50-59 | 0 at level 70; otherwise the experience still missing to the next level's total, at least 1 |
| LevelSystem.ColorRangeByDecade | frontend/src/utils/levelSystem.js:73-81 | each band of ten levels has one colour, violet from 61 on |
| LevelSystem.LevelColorRange | frontend/src/utils/levelSystem.js:95-99 | no fixed colour exactly from level 70 on, the band's colour below it |
| LevelSystem.OneTaskIsFirstLevel | frontend/src/utils/levelSystem.js:166-171 | every task rewards the cost of the first step, so one task takes a new user from level 1 to 2 |
| Verification.EmailCheckMatchesPattern | backend/controllers/verificationController.js:12 | the handler's check accepts exactly the strings `^[^\s@]+@[^\s@]+\.[^\s@]+$` matches |
| Verification.ValidMatches | backend/controllers/verificationController.js:12 | every accepted address matches the pattern |
| Verification.PatternIntro | backend/controllers/verificationController.js:12 | three non-empty plain runs joined by '@' and '.' match the pattern |
| Verification.MatchesValid | backend/controllers/verificationController.js:12 | every address the pattern matches is accepted |
| Verification.ValidEmailHasOneAt | backend/controllers/verificationController.js:12 | an accepted address has exactly one '@', neither first nor last |
| Verification.RetryAfter | backend/controllers/verificationController.js:35 | `60 - (300 - remaining)` is remaining − 240, positive whenever the limit applies and at most 60 for a code of at most 300 seconds |
| Verification.SendDecision | backend/controllers/verificationController.js:7-59 | INVALID_EMAIL, EMAIL_EXISTS, TOO_MANY_REQUESTS (code younger than a minute), EMAIL_SEND_FAILED, else sent with expiresIn 300, each exactly under its conditions |
| Verification.OldCodeDoesNotBlock | backend/controllers/verificationController.js:29-38 | a code older than a minute does not block a new one |
| Verification.CodeStore.constructor | backend/controllers/verificationController.js:44 | the code store starts empty |
| Verification.CodeStore.SendVerificationCode | backend/controllers/verificationController.js:7-59 | the answer is the send decision; a code is stored exactly when the checks pass, even if the mail then fails |
| Verification.VerifyCode | backend/controllers/verificationController.js:70-94 | MISSING_PARAMS for a missing e-mail or code; otherwise valid or INVALID_CODE as the code check says, with its message; 200 exactly when valid |
| UserController.UsernameCheck | backend/controllers/userController.js:43-64 | a changed username is refused with USERNAME_UPDATE_LIMIT inside the 30 days, else with USERNAME_EXISTS when another user holds it |
| UserController.TagCheck | backend/controllers/userController.js:66-89 | a changed tag is refused with TAG_UPDATE_LIMIT inside the 30 days, else with TAG_EXISTS when it is non-blank and another user holds it |
| UserController.UpdateProfile | backend/controllers/userController.js:29-91 | USER_NOT_FOUND for a missing user, then the username errors, then the tag errors; the update proceeds exactly when none applies |
| UserController.UsernameErrorsFirst | backend/controllers/userController.js:43-89 | a username error decides the answer whatever the tag |
| UserController.UnchangedUsernameSkipsChecks | backend/controllers/userController.js:44 | an absent username behaves like the current one and is never refused |
| UserController.OwnUsernameAllowed | backend/controllers/userController.js:58 | keeping a username one holds oneself is not USERNAME_EXISTS |
| UserController.MapPasswordError | backend/controllers/userController.js:287-308 | the thrown message maps to INVALID_CURRENT_PASSWORD, PASSWORD_UPDATE_LIMIT with its days, USER_NOT_FOUND, else INTERNAL_ERROR |
| UserController.ChangePassword | backend/controllers/userController.js:234-310 | MISSING_FIELDS for an empty field, PASSWORD_TOO_SHORT under 8 units, otherwise the model's answer mapped to its response |
| UserController.InputChecksComeFirst | backend/controllers/userController.js:239-252 | a missing or short input is answered 400 without consulting the user model |
| UserController.ReportedExp | backend/controllers/userController.js:177 | `currentExp ?? user.exp ?? 0` |
| UserController.CompleteDailyTask | backend/controllers/userController.js:154-197 | an empty task type and a task the service rejects with 400 answer INVALID_TASK 400; another failure 500; success reports the experience |
| ImageUpload.WordRun | frontend/src/components/ImageUpload.jsx:8 | the longest run of `\w` characters |
| ImageUpload.Placeholder | frontend/src/components/ImageUpload.jsx:8 | a placeholder is '{', one or more word characters, '}' |
| ImageUpload.FormatWithParams | frontend/src/components/ImageUpload.jsx:6-11 | an absent or empty template gives ''; a template without '{', or one filled without parameters, comes back unchanged |
| ImageUpload.SubstituteKnownKey | frontend/src/components/ImageUpload.jsx:8-9 | a placeholder whose key is given is replaced by its value, and the scan goes on after it |
| ImageUpload.SubstituteUnknownKey | frontend/src/components/ImageUpload.jsx:8-9 | a placeholder whose key is not given stays as written, and the scan goes on after it |
| ImageUpload.SubstituteStrayBrace | frontend/src/components/ImageUpload.jsx:8 | a '{' that does not open a placeholder is copied as it is |
| ImageUpload.SubstituteAfterPlain | frontend/src/components/ImageUpload.jsx:8 | text without '{' in front of a template is copied unchanged and the rest is filled as on its own |
| ImageUpload.WordRunOfWord | frontend/src/components/ImageUpload.jsx:8 | a word followed by a non-word character is exactly the run |
| ImageUpload.SubstituteNoParams | frontend/src/components/ImageUpload.jsx:9 | without parameters every placeholder stays as written |
| ImageUpload.SubstituteNoBrace | frontend/src/components/ImageUpload.jsx:8 | a template without '{' is unchanged |
| ImageUpload.SinglePass | frontend/src/components/ImageUpload.jsx:8-9 | for any two keys, a value that is itself a placeholder of another key is left in the text by one fill and replaced only by a second |
| ImageUpload.NewEntry | frontend/src/components/ImageUpload.jsx:44-50 | a new entry keeps the file, its name and type, the preview URL, and has no uploaded URL yet |
| ImageUpload.HandleFileSelect | frontend/src/components/ImageUpload.jsx:18-59 | alerts, in order, for no files, too many images and an oversized file; otherwise the list is the old one followed by one entry per file, in order, within the maximum |
| ImageUpload.Oversized | frontend/src/components/ImageUpload.jsx:33 | the files over 30 MB, empty exactly when none is |
| ImageUpload.RemoveAt | frontend/src/components/ImageUpload.jsx:91-94 | removing drops exactly the entry at the index; an index outside the list changes nothing |
| ImageUpload.RemoveKeepsOthers | frontend/src/components/ImageUpload.jsx:91-94 | every other entry keeps its order |
| ImageUpload.UploadAreaAfterChanges | frontend/src/components/ImageUpload.jsx:105 | a full list hides the upload area and removing one entry shows it again |
| CreatePost.NonEmpty | frontend/src/pages/CreatePost.jsx:141 | no empty tag passes the filter and none is added |
| CreatePost.NonEmptyOne | frontend/src/pages/CreatePost.jsx:141 | one tag passes exactly when it is non-empty |
| CreatePost.NonEmptyConcat | frontend/src/pages/CreatePost.jsx:141 | the filter keeps the order: filtering a concatenation filters each part |
| CreatePost.NonEmptyMembers | frontend/src/pages/CreatePost.jsx:141 | a tag is kept exactly when it is in the list and non-empty |
| CreatePost.NonEmptyAllKept | frontend/src/pages/CreatePost.jsx:141 | a list without empty tags passes unchanged |
| CreatePost.TrimAll | frontend/src/pages/CreatePost.jsx:140 | each tag is trimmed |
| CreatePost.ParseTags | frontend/src/pages/CreatePost.jsx:137-142 | an empty field has no tags; every tag is clean: non-empty, without white space at either end, and free of commas |
| CreatePost.ParseTagsOfSplit | frontend/src/pages/CreatePost.jsx:137-142 | for every field, including the empty one, the tags are the comma-separated pieces, trimmed, with the empty ones dropped |
| CreatePost.ParseTagsOfPiece | frontend/src/pages/CreatePost.jsx:137-142 | a comma-free field gives its trimmed text as the one tag, or none when blank |
| CreatePost.ParseTagsAfterPiece | frontend/src/pages/CreatePost.jsx:137-142 | the tags of `piece,rest` are the piece's tag, if any, followed by the tags of the rest, in input order |
| CreatePost.TrimmedAfterPiece | frontend/src/pages/CreatePost.jsx:137-140 | the trimmed pieces of `piece,rest` are the trimmed piece followed by the trimmed pieces of the rest |
| CreatePost.TrimAllCons | frontend/src/pages/CreatePost.jsx:140 | trimming a list trims its first string and then the rest, in order |
| CreatePost.TrimmedPieceClean | frontend/src/pages/CreatePost.jsx:139-141 | a comma-free piece trims to nothing or to a clean tag |
| CreatePost.NonEmptyClean | frontend/src/pages/CreatePost.jsx:141 | when every non-empty string is a clean tag, the filter keeps only clean tags |
| CreatePost.JoinedTagsSplitBack | frontend/src/pages/CreatePost.jsx:137-139 | clean tags joined with commas split back into the same tags |
| CreatePost.CleanTagsTrimmed | frontend/src/pages/CreatePost.jsx:140 | trimming clean tags changes none of them |
| CreatePost.TrimIsInfix | frontend/src/pages/CreatePost.jsx:140 | trimming adds no character |
| CreatePost.ParseJoinedTags | frontend/src/pages/CreatePost.jsx:137-142 | clean tags joined by commas parse back to themselves |
| CreatePost.ResolveUploadUrl | frontend/src/pages/CreatePost.jsx:70-88 | an '/uploads/' URL gets the API origin in production; any other URL, and every URL in development, is kept |
| CreatePost.UploadAll | frontend/src/pages/CreatePost.jsx:104-108 | fails exactly when some upload fails; otherwise one resolved URL per file, in order |
| CreatePost.Links | frontend/src/pages/CreatePost.jsx:113-123 | one link per uploaded URL |
| CreatePost.LinksOfDistinctUrls | frontend/src/pages/CreatePost.jsx:115 | with distinct URLs each link names its own file |
| CreatePost.LinksOfRepeatedUrl | frontend/src/pages/CreatePost.jsx:115 | a repeated URL is linked under the first file with it |
| CreatePost.AssembleContent | frontend/src/pages/CreatePost.jsx:111-131 | the trimmed text, then a blank line and the links separated by blank lines; the links alone for blank text; the text alone without uploads |
| CreatePost.HandleSubmit | frontend/src/pages/CreatePost.jsx:91-150 | errorRequired before any upload, then an upload failure, then errorCategory for a category that is not a positive number; only then the post with trimmed title, assembled content and parsed tags |
| CreatePost.NoFilesNoLinks | frontend/src/pages/CreatePost.jsx:103-131 | without files nothing can fail to upload and the content is the trimmed text |
| ChangePasswordModal.CountdownAsWritten | frontend/src/components/ChangePasswordModal.jsx:20-40 | no date: may change; unparseable: locked with 0 days; a date: the countdown |
| ChangePasswordModal.CountdownAt | frontend/src/components/ChangePasswordModal.jsx:23-29 | the change is allowed exactly when 30 days have passed; otherwise the days remaining are 30 − whole days elapsed, positive and at most 30 |
| ChangePasswordModal.FloorDays | frontend/src/components/ChangePasswordModal.jsx:25 | whole days elapsed round down, as `Math.floor` does |
| ChangePasswordModal.DialogCountdown | frontend/src/components/ChangePasswordModal.jsx:20-40 | the countdown with an unreadable date allowing the change |
| ChangePasswordModal.LockedShowsHint | frontend/src/components/ChangePasswordModal.jsx:195 | with the corrected countdown, a locked dialog always shows the hint |
| ChangePasswordModal.UnparseableLocksSilently | frontend/src/components/ChangePasswordModal.jsx:20-40 | as written, an unparseable date locks the dialog and hides the hint |
| ChangePasswordModal.CountdownsAgree | frontend/src/components/ChangePasswordModal.jsx:20-40 | the two countdowns differ only on an unparseable date |
| ChangePasswordModal.ValidatePasswordByLength | frontend/src/components/ChangePasswordModal.jsx:63-66 | 8 characters always pass; in the Basic Multilingual Plane exactly 8 or more pass |
| ChangePasswordModal.HandleSubmit | frontend/src/components/ChangePasswordModal.jsx:68-126 | too short, then mismatch, then same as current, then the local update for a test token, each exactly under its condition; the API's failure shows its message or the generic text |
| ChangePasswordModal.DialogAgreesWithServer | backend/controllers/userController.js:239-252 | a password the dialog sends passes the server's missing-field and length checks |
| RightSidebar.PostCountOr | frontend/src/components/RightSidebar.jsx:62 | `postCount \|\| fallback` |
| RightSidebar.KeepCounted | frontend/src/components/RightSidebar.jsx:25 | every kept tag has a positive post count, and no tag is added |
| RightSidebar.KeepCountedMembers | frontend/src/components/RightSidebar.jsx:25 | a tag is kept exactly when it is in the list and has a positive post count |
| RightSidebar.KeepCountedAllCounted | frontend/src/components/RightSidebar.jsx:25 | a list whose tags all have posts passes unchanged |
| RightSidebar.KeepCountedKeepsOrder | frontend/src/components/RightSidebar.jsx:25 | filtering keeps the order of the tags |
| RightSidebar.FetchedTags | frontend/src/components/RightSidebar.jsx:19-41 | the fetched tags filtered; on failure the mock tags filtered, unless mock data was in use, which leaves the tags unchanged |
| RightSidebar.LessEqReflexive | frontend/src/components/RightSidebar.jsx:63 | the sort order is reflexive |
| RightSidebar.LessEqTotal | frontend/src/components/RightSidebar.jsx:63 | any two keys compare |
| RightSidebar.LessEqAntisymmetric | frontend/src/components/RightSidebar.jsx:63 | keys that compare both ways are equal |
| RightSidebar.LessEqTransitive | frontend/src/components/RightSidebar.jsx:63 | the order is transitive |
| RightSidebar.Insert | frontend/src/components/RightSidebar.jsx:63 | inserting into a sorted list keeps it sorted and adds exactly the key |
| RightSidebar.Sort | frontend/src/components/RightSidebar.jsx:63 | `sort()` gives a sorted permutation |
| RightSidebar.SortedUnique | frontend/src/components/RightSidebar.jsx:63 | two sorted permutations of the same keys are equal |
| RightSidebar.Keys | frontend/src/components/RightSidebar.jsx:62 | one key per tag |
| RightSidebar.KeysConcat | frontend/src/components/RightSidebar.jsx:62 | the keys of two lists are the keys of each |
| RightSidebar.KeysPermutation | frontend/src/components/RightSidebar.jsx:62 | reordered tags give reordered keys |
| RightSidebar.Signature | frontend/src/components/RightSidebar.jsx:59-65 | no tags give '' |
| RightSidebar.SignaturePermutation | frontend/src/components/RightSidebar.jsx:59-65 | the signature does not depend on the order of the tags |
| RightSidebar.SignatureEmptyOnlyForNoTags | frontend/src/components/RightSidebar.jsx:59-65 | the signature is '' exactly when there are no tags |
| RightSidebar.RepeatCount | frontend/src/components/RightSidebar.jsx:75-77 | a tag is repeated its post count times, at least once and at most 50 |
| RightSidebar.Copies | frontend/src/components/RightSidebar.jsx:78-83 | the copies of a tag carry it with ids `id-0` … `id-(n-1)` |
| RightSidebar.ItemsSnoc | frontend/src/components/RightSidebar.jsx:74-84 | one more tag appends its copies |
| RightSidebar.GenerateTagItems | frontend/src/components/RightSidebar.jsx:72-86 | the outer loop builds every tag's copies in tag order |
| RightSidebar.PushCopies | frontend/src/components/RightSidebar.jsx:74-82 | the inner loop appends exactly the tag's capped number of copies, numbered from 0 |
| RightSidebar.ItemsCount | frontend/src/components/RightSidebar.jsx:72-86 | between one and fifty items per tag |
| RightSidebar.UniqueIdInjective | frontend/src/components/RightSidebar.jsx:81 | an item id determines its tag id and copy number |
| RightSidebar.ItemsFromTags | frontend/src/components/RightSidebar.jsx:72-86 | every item is a numbered copy of one of the tags |
| RightSidebar.ItemsDistinct | frontend/src/components/RightSidebar.jsx:72-86 | tags with distinct ids give items with distinct ids |
| RightSidebar.TagCloud.constructor | frontend/src/components/RightSidebar.jsx:68-69 | the caches start empty |
| RightSidebar.TagCloud.TagPositions | frontend/src/components/RightSidebar.jsx:89-164 | no tags reset the caches; the same signature with cached positions returns them untouched; otherwise the layout of the items is computed and cached with the signature and the items |
| RightSidebar.TagCloud.DisplayedItems | frontend/src/components/RightSidebar.jsx:166 | the cached items when there are any, the generated ones otherwise |
| PostCard.StripExtension | frontend/src/components/PostCard.jsx:235 | the result is the name when there is no '.', and otherwise either the name or the name less a final '.ext' with no '/' in ext |
| PostCard.StripExtensionOf | frontend/src/components/PostCard.jsx:235 | a name with an extension loses exactly the extension, even when the name holds dots |
| PostCard.StripExtensionKeepsPath | frontend/src/components/PostCard.jsx:235 | a final '.' part holding '/' is not an extension |
| PostCard.CleanUrl | frontend/src/components/PostCard.jsx:229 | the URL up to the first '?' and then the first '#' |
| PostCard.LastSegment | frontend/src/components/PostCard.jsx:231 | the part after the last '/' |
| PostCard.GetFilenameFromUrl | frontend/src/components/PostCard.jsx:227-237 | the decoded last segment of the URL without query and fragment, less its extension |
| PostCard.UploadPathSegment | frontend/src/components/PostCard.jsx:229-231 | a plain path's last segment is its file |
| PostCard.FilenameOfUploadPath | frontend/src/components/PostCard.jsx:227-237 | the title of `dir/name.ext` is `name` |
| PostCard.FilenameIgnoresQuery | frontend/src/components/PostCard.jsx:229 | a query after the path does not change the title |
| PostCard.FormatPublishDate | frontend/src/components/PostCard.jsx:65-92 | '' without a valid date; `Y年M月D日` for zh and ja; `Mon D, Y` otherwise |
| PostCard.MonthNamesDistinct | frontend/src/components/PostCard.jsx:86 | the twelve month names are distinct |
| PostCard.CutNumber | frontend/src/components/PostCard.jsx:81 | a number closed by a non-digit can be read back from the front of a text |
| PostCard.CjkDatePieces | frontend/src/components/PostCard.jsx:81 | the year-month-day text is three numbers each closed by its marker |
| PostCard.CjkDateInjective | frontend/src/components/PostCard.jsx:81 | the year-month-day text determines the day |
| PostCard.MonthNameLength | frontend/src/components/PostCard.jsx:86 | every month abbreviation has three letters |
| PostCard.EnglishDatePieces | frontend/src/components/PostCard.jsx:87 | the English text is the month, a space, the day closed by a comma, a space and the year |
| Common.CutPrefix | frontend/src/components/PostCard.jsx:87 | two equal texts with prefixes of the same length have the same prefix and rest |
| PostCard.EnglishDateInjective | frontend/src/components/PostCard.jsx:86-87 | the English text determines the day |
| PostCard.FormatPublishDateInjective | frontend/src/components/PostCard.jsx:65-92 | in every language different days give different texts |
| PostCard.GetDateLocale | frontend/src/components/PostCard.jsx:24-33 | zh-CN for 'zh', ja for 'ja', en-US otherwise |
| PostCard.LocaleMatchesDateStyle | frontend/src/components/PostCard.jsx:24-33 | relative times are English exactly when the publish date is written the English way |
| PostCard.AudioUrl | frontend/src/components/PostCard.jsx:194-224 | an '/uploads/' URL is relative in development and gets the origin in production; an 'http' URL is kept |
| PostCard.RelativeAudioUrlRooted | frontend/src/components/PostCard.jsx:210-223 | any other relative path gets one leading '/' and, in production, the origin |
| PostCard.ImageUrl | frontend/src/components/PostCard.jsx:280-296 | only '/uploads/' URLs change |
| PostCard.UploadUrlsAgree | frontend/src/components/PostCard.jsx:194-209 | an uploaded file resolves to the same address in the editor, the image preview and the audio player |
| PostCard.Audio | frontend/src/components/PostCard.jsx:178-191 | no audio block exactly when neither pattern matches; otherwise the first embed, or failing that the first link |
| PostCard.AudioOf | frontend/src/components/PostCard.jsx:194-240 | the player gets the resolved URL and the title from the raw URL's file name |
| PostCard.PreviewLine | frontend/src/components/PostCard.jsx:267-317 | an audio line shows nothing; an image line shows the image with its resolved URL and alt text or '帖子图片'; a non-blank line shows as text |
| PostCard.Preview | frontend/src/components/PostCard.jsx:267 | one block for each of the first three lines at most |
| PostCard.PreviewIgnoresLaterLines | frontend/src/components/PostCard.jsx:267 | nothing after the third line break reaches the preview |
| PostCard.HandleLike | frontend/src/components/PostCard.jsx:105-133 | a guest is asked to log in; a click in flight does nothing; otherwise the toggle's answer is shown, only a like counts for the daily task, and a 401 asks to log in |
| LoaderContext.InitialResources | frontend/src/context/LoaderContext.jsx:14-19 | exactly auth, posts, categories and user, none loaded, each weighted |
| LoaderContext.UnloadedKeys | frontend/src/context/LoaderContext.jsx:27 | the names not loaded, empty exactly when everything is loaded |
| LoaderContext.Marked | frontend/src/context/LoaderContext.jsx:56-64 | the named resource is loaded and keeps its weight; an unknown name gets a loaded entry without weight; every other entry is unchanged |
| LoaderContext.MarkAll | frontend/src/context/LoaderContext.jsx:31-36 | the named entries loaded, the others unchanged, no entry added |
| LoaderContext.MarkedIdempotent | frontend/src/context/LoaderContext.jsx:56-64 | marking twice is marking once |
| LoaderContext.MarkedCommutes | frontend/src/context/LoaderContext.jsx:56-64 | the order in which resources report does not matter |
| LoaderContext.MarkedLoadedUnchanged | frontend/src/context/LoaderContext.jsx:56-64 | marking a loaded resource changes nothing |
| LoaderContext.MarkedKeepsLoaded | frontend/src/context/LoaderContext.jsx:56-64 | marking removes exactly that name from the unloaded ones, and never unloads anything |
| LoaderContext.MarkEach | frontend/src/context/LoaderContext.jsx:56-64 | a series of reports adds every reported name to the map and drops none |
| LoaderContext.MarkEachUnloaded | frontend/src/context/LoaderContext.jsx:56-64 | after a series of reports the unloaded names are those unloaded before that did not report |
| LoaderContext.LoadingEndsWhenAllReported | frontend/src/context/LoaderContext.jsx:78-81 | from the initial state loading ends exactly when each of the four has reported at least once, in any order and with any repeats or unknown names |
| LoaderContext.MarkAllStep | frontend/src/context/LoaderContext.jsx:33-35 | one more mark in the loop extends the marked set |
| LoaderContext.MarkUnloadedFinishes | frontend/src/context/LoaderContext.jsx:27-37 | marking the unloaded names leaves none unloaded and keeps the weights |
| LoaderContext.Loader.constructor | frontend/src/context/LoaderContext.jsx:14-20 | the four initial resources, loading |
| LoaderContext.Loader.MarkResourceLoaded | frontend/src/context/LoaderContext.jsx:56-64 | the map is marked and isLoading follows it |
| LoaderContext.Loader.ResetLoader | frontend/src/context/LoaderContext.jsx:67-75 | the four initial resources again, loading |
| LoaderContext.Loader.DevTimeout | frontend/src/context/LoaderContext.jsx:23-43 | every unloaded resource is marked; afterwards everything is loaded and isLoading is false |

## Findings

| source | as written | input that shows it | evidently intended | confidence | as-written member | corrected member |
|---|---|---|---|---|---|---|
| frontend/src/components/ChangePasswordModal.jsx:20-40 | an unparseable `passwordUpdatedAt` makes the elapsed time NaN; `new Date` does not throw, so the catch never runs; both comparisons are false, so the dialog is locked with 0 days remaining and the hint at line 195 stays hidden | `passwordUpdatedAt = "not a date"` | treat an unreadable date as the error branch does: allow the change | not executed | ChangePasswordModal.UnparseableLocksSilently | ChangePasswordModal.LockedShowsHint |

## Left out

- Concurrency: each request and each click is one sequential step. The check-then-insert race on comment depth and the order of the `Promise.all` queries are not modelled.
- SQL, the connection pool, and the Post, User, Notification, DailyTask and VerificationCodeService models are not part of this model. They appear as maps and given functions.
- The e-mail sender is a parameter (`emailSent`). The code generator is a parameter, and the code store's expiry clock is the `active`/`remainingTime` inputs.
- Route parameters are numbers in the model. `parseInt` of a non-numeric `postId`, `commentId` or `page` gives NaN, and that case is not modelled.
- CommentController.Forum.GetComments: a page below 1 is stated as the 500 the database's refusal leads to. The database error itself is not modelled.
- Which database call fails after the insert is an input (`Fault`): the recipient lookup, the title lookup or the n-th notification insert. Why it fails is not modelled.
- CommentModel.InCreationOrder: rows with equal `created_at` come in some order. The database's tie order is not modelled.
- Floating point: `getLevelProgress`, the RGB and hue arithmetic of `getLevelColor`, and the loader's weighted `calculateProgress` are left out. The weights are kept as exact reals.
- The tag cloud's random positions and animation parameters come from a `layout` parameter.
- RightSidebar.LessEq: JavaScript's `sort()` compares UTF-16 code units; the model compares characters. The two agree on text in the Basic Multilingual Plane, which covers the digits and '-' of the keys.
- PostCard: `decodeURIComponent` is a total `decode` parameter. A malformed escape, which throws in the browser, is not modelled.
- PostCard: the audio and image regular expressions are given as `hasAudio`, `imageOf` and the lists of audio URLs they find.
- PostCard: `new Date` is the `DateInput` value. `formatDistanceToNow` (the relative time) is library behaviour and is left out.
- The API origin computed from `VITE_API_BASE_URL` and `window.location` is the `origin` parameter. The development flag is `isDev`.
- PostCard: the `checkLikeStatus` effect and the `post.liked` initial state are left out. They only copy a server value into the state.
- UI text: alerts, translations and error-key mapping in the editor are left out. The model keeps the outcome that chooses the text.
- LoaderContext.Loader.DevTimeout: the 10-second timer and its re-arming on every change are left out. The timeout is one step over the current map.
- LoaderContext: the timeout mutates the shared entry objects of the previous map, and that aliasing is not modelled. The entries are values.
- ChangePasswordModal.HandleSubmit: the local update of a test account's stored user record is reduced to its outcome (`LocalTestUpdate`).
- ImageUpload: `URL.createObjectURL` is the `objectUrl` parameter. Its failure (the `processFail` alert) is not modelled.
- CommentModel.CommentTable.Create: the INSERT names only content, author_id, post_id and parent_id. The like count 0 and both timestamps at `now` are the table's column defaults, which are assumed here because the database schema is not part of this model.
