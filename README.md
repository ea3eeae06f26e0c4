# Plork's Comic Hub — a verified model of its request handlers

Plork's Comic Hub is a small Express and MongoDB site. Authors upload comics and chapters, and readers browse and read them. This project models in Dafny the parts of it that make decisions:

- **Uploads.** Creating a comic with its cover. Ingesting a chapter: the form guards, the page queue that optimises and uploads each page, and the commit that stores the chapter and links it into its comic.
- **Comic controller.** The latest-releases listing, the view counter with its recomputed comic total, and renaming and deleting a chapter under the author check.
- **Accounts.** The password-reset token life cycle, registration (`register` in front of `addUser`), the failed-login branch, and the avatar choice.
- **Middleware.** The image filter and upload limits, the error handlers, and the two authentication guards.
- **Carousel.** The homepage's trending carousel: an index moved by next and prev with wrap-around.

The Comic, Chapter and User collections are sequences of records in a `Db` class; the handlers are methods that change it. Each handler's postcondition gives the whole new state, the next id included, and the response for every branch. Pure functions hold the decisions (the guard chains, the sort, the aggregate sum, `$pull`, `parseInt`, `trim`, `split`), and lemmas prove the properties the site relies on. The `Db.Valid` invariant covers three things: ids are unique and below the next id to be handed out, and emails and usernames are unique. Every handler keeps it.

External services are parameters:
- image optimisation, the CDN upload, `new Date(…)` and `Number(…)` are functions in a `Services` value;
- bcrypt and SHA-256 are functions `string -> string`;
- the reCAPTCHA verdict, whether the reset e-mail went out, a save failure, the random reset token and the clock are plain inputs.

## Model

| member | source | states |
|---|---|---|
| Text.TrimIsInfix | backend/controllers/comicController.js:71 | `trim` returns the part of the string between a whitespace prefix and a whitespace suffix |
| Text.TrimIsTrimmed | backend/controllers/uploadController.js:38 | a trimmed string has no whitespace at either end |
| Text.TrimFixesTrimmed | backend/controllers/uploadController.js:43 | trimming is idempotent: a string with no blank ends is its own trim |
| Text.TrimEmptyIff | backend/controllers/comicController.js:71-72 | a string trims to "" exactly when every character is whitespace |
| Text.Split | backend/controllers/uploadController.js:43 | `split(',')` gives at least one piece, and no piece contains the separator |
| Text.JoinSplit | backend/controllers/uploadController.js:43 | joining the pieces of a split with the separator rebuilds the input |
| Text.SplitJoin | backend/controllers/uploadController.js:43 | splitting a join of separator-free pieces gives back the pieces |
| Text.LeadingDigits | backend/controllers/userController.js:8 | the digit run `parseInt` reads is the longest all-digit prefix |
| Text.ParseIntIgnoresSuffix | backend/controllers/userController.js:8 | `parseInt` reads a leading run of digits and ignores whatever non-digit text follows |
| Text.ParseIntRejectsNonNumeric | backend/controllers/userController.js:8 | input whose first non-blank character is not a sign or a digit gives NaN |
| Store.FirstWhere | backend/queries/userQueries.js:30 | `findOne` returns the first matching record, or nothing exactly when no record matches |
| Store.ViewsOfAppend | backend/controllers/comicController.js:41-45 | the `$sum` of views over a concatenation is the sum of the two totals |
| Store.ViewsOfReplace | backend/controllers/comicController.js:41-45 | replacing one chapter changes its comic's total by the difference in that chapter's views |
| Store.ViewsOfRemove | backend/controllers/comicController.js:127-131 | removing a chapter lowers its comic's total by exactly that chapter's views |
| Store.Pull | backend/controllers/comicController.js:122-125 | `$pull` leaves no occurrence of the id and adds no id |
| Store.PullKeepsOthers | backend/controllers/comicController.js:124 | `$pull` keeps every other id as many times as it occurred |
| Store.PullConcat | backend/controllers/comicController.js:124 | `$pull` works piecewise, so the kept ids stay in their order |
| Store.PullAbsent | backend/controllers/comicController.js:124 | pulling an id that is not in the list changes nothing |
| Store.ReplaceKeepsChapterIds | backend/controllers/comicController.js:29-33 | updating a chapter in place keeps chapter ids unique and below the next id |
| Store.ReplaceKeepsComicIds | backend/controllers/comicController.js:47-50 | updating a comic in place keeps comic ids unique and below the next id |
| Store.AppendFreshComic | backend/controllers/uploadController.js:48 | inserting a comic with a fresh id keeps comic ids unique |
| Store.AppendFreshChapter | backend/controllers/uploadController.js:137 | inserting a chapter with a fresh id keeps chapter ids unique |
| Store.RemoveKeepsChapterIds | backend/controllers/comicController.js:119 | deleting a chapter keeps the remaining ids unique |
| Store.ReplaceKeepsUsers | backend/controllers/passwordController.js:20-22 | saving a user with the same id, email and username keeps all three unique |
| Store.Db.NewId | backend/controllers/uploadController.js:137 | a generated id differs from every id in the store, and the store stays valid |
| ComicController.SortByReleaseDesc | backend/controllers/comicController.js:8 | `.sort({ releaseDate: -1 })` is a permutation of the chapters, newest first |
| ComicController.LatestReleases | backend/controllers/comicController.js:7-9 | the listing has min(count, 30) chapters, newest first, all taken from the collection |
| ComicController.LatestReleasesAreTheNewest | backend/controllers/comicController.js:7-9 | a chapter left out of the listing means 30 were listed, and it is no newer than the last of them |
| ComicController.SetComicViews | backend/controllers/comicController.js:47-50 | `updateOne` with `$set` gives the comic with that id the new view count and leaves every other comic unchanged and every id in place |
| ComicController.ViewRaisesTotalByOne | backend/controllers/comicController.js:29-45 | counting a view raises the recomputed total of the chapter's comic by exactly one, and no other comic's total |
| ComicController.OnlyTheAuthorMayModify | backend/controllers/comicController.js:84 | a logged-in user may edit a chapter of a comic with an author exactly when that user is the author |
| ComicController.ChapterGet | backend/controllers/comicController.js:20-65 | with no id: 400 and no change. Unknown id: 404 and no change. Otherwise the chapter's views rise by one and its comic's stored views become the sum over the comic's chapters, now one more than before |
| ComicController.RenameRefusedIffBlank | backend/controllers/comicController.js:71-75 | a rename is refused as empty exactly when the title is missing or all whitespace |
| ComicController.UpdateChapterTitle | backend/controllers/comicController.js:68-98 | the guards in order (empty title, missing chapter, not the author) each change nothing. Otherwise only the chapter's title changes, to the trimmed title, and the redirect goes to the Referer or the comic's page |
| ComicController.DeleteChapter | backend/controllers/comicController.js:101-144 | missing chapter or not the author: no change. Otherwise the chapter is removed, and its comic gets the id pulled and views recomputed over the remaining chapters |
| ComicController.DeleteRecomputesTotal | backend/controllers/comicController.js:117-135 | after a delete the id is gone from the comic's list, every other id keeps its count, and the comic's views are the old total less the deleted chapter's |
| Ingest.CleanTags | backend/controllers/uploadController.js:43 | every stored tag is non-empty with no blank ends |
| Ingest.CleanTagsArePieces | backend/controllers/uploadController.js:43 | as sets, the cleaned tags are the trims of the non-blank pieces; order and repeats are stated by `CleanTagsConcat` |
| Ingest.CleanTagsConcat | backend/controllers/uploadController.js:43 | cleaning goes piece by piece: the tags of two runs of pieces are the tags of the first followed by those of the second, so order and repeated tags are kept |
| Ingest.CleanTagsOne | backend/controllers/uploadController.js:43 | one piece gives its trim as a tag when that is non-empty, and nothing otherwise |
| Ingest.TagsOfJoinedPieces | backend/controllers/uploadController.js:43 | comma-free pieces joined by commas come back as the cleaned pieces in the order typed |
| Ingest.TagsAreTheCommaSeparatedPieces | backend/controllers/uploadController.js:43 | as sets, tags are the non-blank comma-separated pieces, trimmed, none holding a comma. Absent or empty input gives no tags |
| Ingest.CreateComic | backend/controllers/uploadController.js:8-62 | without a cover, nothing is optimised or uploaded and nothing is stored. An optimiser or CDN failure, a missing URL, an invalid release date or a refused save stores no comic. Success appends one comic with trimmed title and synopsis, cleaned tags and zero stats |
| Ingest.ChapterFormError | backend/controllers/uploadController.js:67-75 | a missing title, chapter number or release date is reported first. Then a file list that is absent or empty is reported. Passing both means there is at least one file |
| Ingest.WorkerCount | backend/controllers/uploadController.js:98 | the queue has at least one worker, and exactly the configured count when that is at least one |
| Ingest.DrainAligned | backend/controllers/uploadController.js:97-108 | the drain succeeds exactly when every file does. It then gives one URL per file, the k-th from the k-th file processed with index k |
| Ingest.DrainReportsFirstFailure | backend/controllers/uploadController.js:91-93 | with one worker, the first file in queue order that fails decides the error the chapter creation reports |
| Ingest.RunQueue | backend/controllers/uploadController.js:97-108 | the one-worker loop computes the drain: file k is processed once, with index k, and processing stops at the first failure |
| Ingest.CreateChapter | backend/controllers/uploadController.js:64-150 | a failing guard processes no page. A failed page, a missing comic id, an unknown comic or a chapter that fails validation stores nothing. Success stores one chapter with the page URLs and appends its id to the end of the comic's chapter list |
| Ingest.CommittedChapterPagesAligned | backend/controllers/uploadController.js:124-137 | a committed chapter references its comic and holds one page per file, in file order |
| Ingest.AppendInCompletionOrder | backend/controllers/uploadController.js:100-104 | pages pushed as uploads complete land in completion order |
| Ingest.CompletionOrderMisordersPages | backend/controllers/uploadController.js:100-104 | two pages whose uploads complete in reverse order are stored reversed |
| Ingest.FillSlots | backend/controllers/uploadController.js:99-107 | writing each URL into the slot of its queue position gives the pages in file order, whatever the completion order |
| Ingest.SequentialOrderKeepsPages | backend/controllers/uploadController.js:100-104 | with one worker, completion order is queue order and the pages keep it |
| PasswordReset.ForgotPasswordPost | backend/controllers/passwordController.js:10-34 | an unknown email gives an error and no change. Otherwise only that user changes: the hash of the token is stored with expiry now + 3600000 ms, even when the e-mail fails |
| PasswordReset.ResetPasswordGet | backend/controllers/passwordController.js:36-55 | the form is shown exactly when some user holds the token's hash unexpired. Otherwise the user is sent to forgot-password |
| PasswordReset.ResetPasswordPost | backend/controllers/passwordController.js:57-88 | a confirmation mismatch is refused before the lookup, and an invalid or expired token changes nothing. Success stores the new hash, clears token and expiry, and redirects to /login |
| PasswordReset.IssuedTokenAcceptedIffSameAndUnexpired | backend/controllers/passwordController.js:38-42 | with an injective hash, an issued token accepts a presented one exactly when it is the same token and the hour has not passed |
| PasswordReset.ReissueRevokesEarlierToken | backend/controllers/passwordController.js:20-22 | issuing a second token makes the first one dead |
| PasswordReset.AtMostOneLiveDigest | backend/controllers/passwordController.js:39-42 | an account has at most one live token hash at a time |
| PasswordReset.ConsumedTokenIsDead | backend/controllers/passwordController.js:76-79 | after a reset the same token opens no account at any later time |
| PasswordReset.IssueFreshKeepsDigestsDistinct | backend/controllers/passwordController.js:19-22 | issuing a hash no account holds keeps stored hashes distinct across accounts |
| PasswordReset.ConsumeKeepsDigestsDistinct | backend/controllers/passwordController.js:76-79 | a reset keeps stored hashes distinct across accounts |
| UserQueries.AddUserRefusal | backend/queries/userQueries.js:13-45 | checks in order: missing field, invalid birth date, email in use, username taken. Each message is given exactly when its condition holds and the earlier ones pass. Acceptance means the email and username are both new |
| UserQueries.SaveFaultMessage | backend/queries/userQueries.js:67-83 | a validation error reports its messages joined with ", ", and any other error the generic message |
| UserQueries.AddUser | backend/queries/userQueries.js:10-84 | a refusal or a failed save adds no user. Success appends exactly one user with the given email, username and birth date, the bcrypt hash of the password and avatar 1 |
| UserQueries.AddFreshAccount | backend/queries/userQueries.js:52-61 | appending a user with a fresh id, email and username keeps the registry unique |
| UserQueries.AcceptedAccountsStayUnique | backend/queries/userQueries.js:29-61 | whatever the guard chain accepts can be appended with emails and usernames staying unique |
| UserQueries.EmailReportedBeforeUsername | backend/queries/userQueries.js:29-45 | a taken email is reported even when the username is taken too |
| AuthController.RegisterRefusal | backend/controllers/authController.js:9-29 | checks in order: missing field, password mismatch, captcha. Each message is given exactly when its condition holds and the earlier ones pass |
| AuthController.Register | backend/controllers/authController.js:5-46 | a refusal re-renders the form with status 400, echoing only username and email, and adds no user. Otherwise `addUser`'s refusal or save error is shown with 400 and the users are unchanged, or success appends exactly the new user built by `addUser` and redirects to /login?registered=true |
| AuthController.CaptchaIrrelevantToEarlierChecks | backend/controllers/authController.js:9-29 | the captcha verdict does not affect a form that fails the field or password check |
| AuthController.LoginFailure | backend/controllers/authController.js:49-55 | a failed login flashes the strategy's message or "Login failed", and redirects to the Referer or /login |
| UserController.AvatarChoice | backend/controllers/userController.js:7-12 | an avatar is accepted exactly when `parseInt(pfp, 10)` is an integer in 1..8, and then as that number |
| UserController.SetPfp | backend/controllers/userController.js:14 | the update changes only the `pfp` field, of the first user with that id, to the chosen number |
| UserController.UpdateProfilePicture | backend/controllers/userController.js:4-21 | a rejected avatar gives 400 and no change. An accepted one sets only that user's `pfp` and redirects to /profile |
| UserController.DigitAvatarAccepted | backend/controllers/userController.js:8-10 | a digit 1..8 followed by non-digit text is accepted as that avatar |
| UserController.NonNumericAvatarRefused | backend/controllers/userController.js:8-10 | text that does not start with a sign or digit is refused |
| UserController.MissingAvatarRefused | backend/controllers/userController.js:7-10 | a missing field is refused |
| Uploads.ImageFilter | backend/middleware/uploads.js:4-9 | a file is accepted exactly when it has a mimetype starting with "image/". Otherwise the error is the invalid-type message |
| Uploads.AdmitFromOkIff | backend/middleware/uploads.js:11-24 | from any file on, the request gets through exactly when no later file breaks a limit |
| Uploads.AdmitOkIff | backend/middleware/uploads.js:11-24 | a request is admitted exactly when every file is an image within the byte cap and the count is within the cap, if there is one |
| Uploads.UploadCaps | backend/config/constants.js:1-2 | both uploads cap files at 10 × 1024 × 1024 bytes. Only the page upload caps the count, at 100 |
| Uploads.TooManyPagesRefused | backend/middleware/uploads.js:17-24 | a page upload of more than 100 files is refused |
| Errors.MulterErrorHandler | backend/middleware/errors.js:3-15 | non-upload errors pass on unchanged. LIMIT_FILE_SIZE and LIMIT_FILE_COUNT get their messages, and other upload errors get their message or "File upload error.". All of them redirect back |
| Errors.NotFound | backend/middleware/errors.js:17-19 | always a 404 |
| Errors.ErrorHandler | backend/middleware/errors.js:21-25 | passes on exactly when headers were sent, and otherwise answers 500 |
| Errors.WrongFileTypeEndsIn500 | backend/middleware/errors.js:3-25 | a file of the wrong type is not an upload error and ends in a plain 500 |
| Errors.OversizedFileRedirectsBack | backend/middleware/errors.js:5-6 | an oversized file is reported with the size message and a redirect back |
| Errors.AdmitReachesFile | backend/middleware/uploads.js:4-24 | when every earlier file is admissible, the verdict is the one on file k |
| AuthGuards.EnsureAuthenticated | backend/middleware/auth.js:3-8 | calls `next` exactly when authenticated, and otherwise redirects to /login |
| AuthGuards.ForwardAuthenticated | backend/middleware/auth.js:11-16 | calls `next` exactly when not authenticated, and otherwise redirects to / |
| AuthGuards.GuardsAreComplementary | backend/middleware/auth.js:3-16 | every request passes exactly one of the two guards |
| Carousel.JsRem | frontend/public/scripts/trendingCarousel.js:12 | JavaScript's `%` agrees with the mathematical remainder for non-negative operands and takes the dividend's sign otherwise |
| Carousel.Carousel.constructor | frontend/public/scripts/trendingCarousel.js:1-4 | the carousel starts at item 0 |
| Carousel.Carousel.Offset | frontend/public/scripts/trendingCarousel.js:7-9 | for a non-empty carousel the offset is a multiple of 100 percent below total × 100 |
| Carousel.Carousel.Next | frontend/public/scripts/trendingCarousel.js:11-14 | next moves to `(index + 1) % total` and keeps the index in range |
| Carousel.Carousel.Prev | frontend/public/scripts/trendingCarousel.js:16-19 | prev moves to `(index - 1 + total) % total` and keeps the index in range |
| Carousel.NextWrapsToFirst | frontend/public/scripts/trendingCarousel.js:12 | next from the last item goes to the first |
| Carousel.PrevWrapsToLast | frontend/public/scripts/trendingCarousel.js:17 | prev from the first item goes to the last |
| Carousel.PrevNextInverse | frontend/public/scripts/trendingCarousel.js:11-19 | prev undoes next and next undoes prev |
| Carousel.PressNextMoves | frontend/public/scripts/trendingCarousel.js:12 | k ≤ total presses of next move the index k places round the ring |
| Carousel.FullTurnReturns | frontend/public/scripts/trendingCarousel.js:12 | pressing next once per item returns to the starting item |
| Carousel.EmptyCarouselIsNaN | frontend/public/scripts/trendingCarousel.js:4-12 | with no items the index becomes NaN on the first press and stays NaN |

## Left out

- Ingest.RunQueue: models one worker, not the default three running concurrently under `Promise.all`. With several workers, `Promise.all` rejects with the failure that happens first in time, not the first in queue order, and after one worker fails the others keep taking files off the queue and uploading them; neither is modelled. The page order under interleaving is covered only by the finding below.
- Ingest.RunQueue: with several workers, `idx` is read before earlier uploads finish, so two pages can get the same index in their public id. The single-worker model does not show this.
- Image optimisation (sharp) and the CDN upload (Cloudinary) are functions passed in. Their effects are not modelled, including uploaded covers and pages that stay on the CDN after a later failure.
- E-mail sending and reCAPTCHA verification are network calls. They are inputs: whether the reset e-mail was sent, and the captcha verdict.
- bcrypt, SHA-256, `crypto.randomBytes`, `Date.now`, `Math.random` public ids, `new Date(…)` and `Number(…)` are parameters or inputs. Token matching assumes an injective hash where a lemma needs it.
- Exceptions from the database, such as an ObjectId cast failure or a failed `save`, and the `next(err)` paths of the comic controller, are not modelled. Neither are the 500 path of `updateProfilePicture` and the catch paths of the reset-token handlers, beyond the failed e-mail and, in `PasswordReset.ResetPasswordPost`, the catch taken when hashing a missing password throws, which is modelled as `ResetFailed`.
- Ingest.CreateComic: the save failure is an input. Its message follows the duplicate-key mapping of `backend/queries/comicQueries.js`, which is not part of this model otherwise.
- Ingest.CreateChapter: the `author` passed to `Chapter.create` is not a path of the chapter schema and is dropped by the database, so the chapter record has no author field. Every `Chapter.create` validation failure is reported with the single message `Chapter validation failed`, not Mongoose's detailed text. A failed `comic.save()` after the chapter was created is not modelled.
- ComicController.ChapterGet: a chapter always references a comic, and the second lookup after the update always finds it. So the branches where `updatedChapter.comic` is unset, or the chapter disappears between the two queries, are not modelled.
- ComicController.UpdateChapterTitle and ComicController.DeleteChapter: the owning comic is found by id among the stored comics (`populate`). A chapter whose comic was deleted gets no author check and the "/" fallback, as in the source.
- Uploads.Admit: multer's order of checks within one request is approximated file by file: count, then type, then size. Streaming and partial reads are not modelled.
- The `pfp` enum 1..4 in `backend/models/User.js` is not enforced by `updateOne`. The model follows the controller's range 1..8.
- Mongoose schema validation and the unique indexes are not modelled as database behaviour. Uniqueness of emails and usernames is proved to follow from `addUser`'s own checks.
- `login`'s success and error branches, `logout`, passport's local strategy, sessions, EJS rendering and flash storage are not modelled. Responses are values: status and body, view, or redirect with a flash.
- The carousel's DOM access and the CSS transform string are not modelled. The offset is a number of percent.

## Findings

| source | as written | input that shows it | evidently intended | confidence | as-written member | corrected member |
|---|---|---|---|---|---|---|
| backend/controllers/uploadController.js:100-104 | each worker pushes its page URL when its upload completes, so `pages` follows completion order | two pages A, B with concurrency 3, where B's upload finishes first: `pages == [urlB, urlA]` | page k of the chapter is the URL of the k-th uploaded file, whatever the completion order | not executed | Ingest.AppendInCompletionOrder, Ingest.CompletionOrderMisordersPages | Ingest.FillSlots |

The chapter model commits pages in file order. The single-worker drain (`Ingest.RunQueue`, `Ingest.DrainAligned`) and the slot-filling assembly (`Ingest.FillSlots`) both give that order.
