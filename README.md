# A verified model of the be-web-truong CMS backend core

be-web-truong is the Express/Mongoose backend of a university website. It
serves news articles and categories, user accounts, image uploads and a
public student-registration form. This project models its core in Dafny and
proves properties of that model:

- **Request guards.** The in-memory DDoS detector (`Ddos`, a class over the
  per-address records) and the student route's limiter chain
  (`StudentRoute`, `Pipeline`). The authentication and authorisation
  middleware (`Auth`).
- **Images.** File-name sanitising and unique names (`ImageUtils`,
  `PosixPath`), the multer upload filter (`Upload`), and the upload, delete,
  serve and promote handlers over a file system held as a set of
  (directory, name) pairs (`ImageFiles`, `ImageRoutes`).
- **Listing helpers.** Sort normalisation and page arithmetic (`SortUtils`).
- **Articles and categories.** The two models with their virtuals, instance
  methods and save/update hooks (`ArticleModel`, `ArticleHooks`,
  `CategoryModel`, `Slug`, `Text`, `Labels`). Their create, update, delete
  and publish handlers, with the article counters of the categories
  (`ContentStore`, `ArticleController`, `CategoryController`, and the class
  `Database.Store` that runs them as state changes).
- **Users.** The user model, its hooks and its collection (`UserModel`,
  `UserHooks`, `UserStore`). The register, login, refresh and logout
  handlers (`AuthController`), the profile handlers (`ProfileController`)
  and the admin handlers (`AdminController`, whose class `Directory` runs
  the update key by key).
- **Student registration.** The record and its schema
  (`RegistrationRecord`) and the handler with its reCAPTCHA gate
  (`StudentRegistration`).

Handlers are specification functions from the stored collections and the
request to a status code and the new collections. A document whose methods
assign its fields in place is a class: `ArticleModel.ArticleDoc`,
`CategoryModel.CategoryDoc`, `UserModel.UserDoc`, `Ddos.Guard` and
`ImageFiles.ImageStore`. Each of its methods is tied to the function that
specifies it.

Where the code does not do what it evidently means to do, the model has
both versions, selected by `Version = AsWritten | Intended`. A lemma shows
the discrepancy on a concrete class of inputs (see "## Findings"). A
handler whose error escapes to a catch block that itself throws answers
nothing; the model writes this as the status `NoResponse` (0).

Mongoose is modelled as version 6 and earlier behave:
- validation runs before the pre-save hooks;
- `document.remove()` runs the pre-remove hooks;
- `isModified(path)` is true for a path the handler assigned.

bcrypt is modelled by `Secret = Plain(text) | Digest(of)`. A digest matches
exactly the text it was made from, and it is 60 characters long. Under
bcrypt itself a digest is also text, so the digest of a digest matches the
inner digest's text; the model keeps a digest apart from every plain text.

## Model

| member | source | states |
|---|---|---|
| ImageUtils.Sanitize | src/utils/imageUtils.js:12-17 | the result holds only characters of `[a-zA-Z0-9._-]` and no '/' |
| ImageUtils.SanitizeFixedPoint | src/utils/imageUtils.js:12-17 | a name is left unchanged exactly when it has no '/' and only safe characters |
| ImageUtils.SanitizeIdempotent | src/utils/imageUtils.js:12-17 | sanitising twice is sanitising once |
| ImageUtils.SanitizeDropsDirectories | src/utils/imageUtils.js:12-17 | a traversal path such as '../../etc/passwd' keeps only its last name |
| ImageUtils.DotNamesAreFixedPoints | src/utils/imageUtils.js:12-17 | '.' and '..' survive sanitising unchanged |
| ImageUtils.UniqueFilenameSafe | src/utils/imageUtils.js:20-27 | for a uuid of hexadecimal digits and dashes the generated name holds only safe characters, and it is the sanitised name with '-' and the uuid inserted at one point (before its extension) |
| ImageUtils.BaseAndExtension | src/utils/imageUtils.js:21-23 | the base plus the extension gives back the sanitised name |
| ImageUtils.UniqueFilenameKeepsExtension | src/utils/imageUtils.js:20-27 | the generated name has the sanitised original's extension (the name '..' excepted) |
| ImageUtils.NoExtensionKept | src/utils/imageUtils.js:20-27 | a name without extension yields a generated name without extension |
| Upload.NewMulterError | src/middleware/upload.js:27 | the error's message comes from its code and the second argument is its field |
| Upload.FileFilter | src/middleware/upload.js:13-29 | a file is accepted exactly when its MIME type and lower-cased extension are both allowed; a refusal is a LIMIT_UNEXPECTED_FILE error whose message is "Unexpected field" |
| Upload.FileFilterIntended | src/middleware/upload.js:13-29 | accepts the same files; a refusal carries the file-type text as message |
| Upload.AllowedPairsAccepted | src/middleware/upload.js:13-18 | every allowed MIME type goes with every allowed extension in any letter case |
| Upload.MimeTypeIsExact | src/middleware/upload.js:17 | the MIME test is exact: 'IMAGE/JPEG' is refused |
| Upload.Receive | src/middleware/upload.js:32-43 | the filter runs first, then a file over 10 MB is refused with LIMIT_FILE_SIZE |
| Upload.UploadersAlike | src/middleware/upload.js:45-46 | both exported uploaders stage into temp_uploads/ with a 10 MB limit |
| PosixPath.Basename | src/utils/imageUtils.js:14 | the basename holds no '/' |
| PosixPath.BasenameOfComponent | src/utils/imageUtils.js:14 | a name without '/' is its own basename |
| PosixPath.Extname | src/utils/imageUtils.js:22 | the extension holds no '/' and is empty or one '.' followed by no other '.' |
| PosixPath.ExtnameAfterDotFreeStem | src/utils/imageUtils.js:22 | a dot-free non-empty stem followed by a one-dot extension has exactly that extension |
| ImageFiles.PublicDir | src/routes/image.js:34-39 | a directory is resolved exactly when it is 'images' or 'temp_images', never to the staging directory |
| ImageFiles.GeneratedNameKeepsExtension | src/controllers/image.js:20-22 | the stored name keeps the original name's extension, letter case included, though the content is always JPEG |
| ImageFiles.GeneratedNameComponent | src/controllers/image.js:20-22 | a stored name is one non-empty path component |
| ImageFiles.GeneratedNameIsSafe | src/controllers/image.js:20-22 | a stored name with a safe extension passes the delete and serve handlers' sanitising check and does not start with '.' |
| ImageFiles.ImageStore.constructor | src/controllers/image.js:1-11 | the store starts with the given files |
| ImageFiles.ImageStore.UploadAndOptimize | src/controllers/image.js:14-64 | the files and the reply are those of the upload effect: 400 without a file, the JPEG written under the generated name, the staged file removed, 500 at each failing step |
| ImageFiles.ImageStore.UploadImage | src/controllers/image.js:67-69 | a permanent upload: the upload effect with images/ as target |
| ImageFiles.ImageStore.DeleteFile | src/controllers/image.js:74-102 | the files and the reply are those of the delete effect: 400 without URL or for an unsafe name, 404 for a missing file, 500 when unlink fails, 200 after removing the one file |
| ImageFiles.ImageStore.DeleteImage | src/controllers/image.js:105-107 | deleteFile on images/ |
| ImageFiles.ImageStore.ServeImage | src/controllers/image.js:112-131 | the status is that of the serve route and nothing changes |
| ImageFiles.ImageStore.PromoteTempImage | src/utils/fileUtils.js:18-57 | the files and the URL are those of the promotion: other URLs ignored, temp_images/<name> moved to images/<name>, or found already there |
| ImageFiles.UploadWithoutFile | src/controllers/image.js:15-17 | without a file the upload answers 400 and changes nothing |
| ImageFiles.StoreUploadSuccess | src/controllers/image.js:27-59 | a successful upload answers 201 with the stored name, size, JPEG type and URL, removes the staged file and adds exactly the stored one |
| ImageFiles.UploadSuccess | src/controllers/image.js:14-59 | the same for the generated name |
| ImageFiles.StoredUrlRoutes | src/controllers/image.js:40 | the URL a stored upload returns is matched by the serve route with the upload's directory and name |
| ImageFiles.UploadedUrlRoutes | src/controllers/image.js:40 | the same for the generated name |
| ImageFiles.UploadFailure | src/controllers/image.js:60-63 | every failed upload answers 500; the staged file stays unless the failure came after its removal |
| ImageFiles.StoredThenServed | src/controllers/image.js:112-131 | a stored image with a serveable name is served with 200 |
| ImageFiles.StoredThenDeleted | src/controllers/image.js:74-102 | a stored image with a serveable name is deleted through its own URL, which removes exactly that file |
| ImageFiles.UploadThenServe | src/controllers/image.js:14-131 | an uploaded image with a safe extension is served with 200 and can be deleted through the URL the upload returned |
| ImageFiles.BasenameOfUrl | src/controllers/image.js:82 | the last component of dir/name is name |
| ImageFiles.DeleteNeedsUrl | src/controllers/image.js:77-79 | a delete without URL answers 400 |
| ImageFiles.DeleteRefusesUnsafeName | src/controllers/image.js:82-87 | a URL whose file name sanitising would change is refused with 400 |
| ImageFiles.DeleteRefusalChangesNothing | src/controllers/image.js:74-102 | every answer of delete but 200 leaves the files as they were |
| ImageFiles.DeleteRemovesExactlyOne | src/controllers/image.js:89-93 | a delete answered 200 removed exactly the one existing file the URL names |
| ImageFiles.DeleteMissing | src/controllers/image.js:94-98 | a delete answered 404 named a file that is not there |
| ImageFiles.DeleteByOwnUrl | src/controllers/image.js:74-102 | deleting through the URL of a stored file with a serveable name removes exactly that file and answers 200 |
| ImageFiles.ServeOnlyPublic | src/routes/image.js:34-40 | only images/ and temp_images/ are served; temp_uploads/ never is |
| ImageFiles.ServedFromImages | src/routes/image.js:34-40 | a file in images/ with a serveable name is served with 200 |
| ImageFiles.PromoteIgnoresOtherUrls | src/utils/fileUtils.js:19-21 | a URL outside temp_images/ is ignored and nothing changes |
| ImageFiles.PromoteTouchesOnlyItsFile | src/utils/fileUtils.js:23-32 | promotion moves at most the file the URL names and nothing else changes |
| ImageFiles.PromoteMoves | src/utils/fileUtils.js:27-51 | a successful move leaves the file in images/ and not in temp_images/; a file in neither yields None |
| ImageFiles.PromoteLeavesInImages | src/utils/fileUtils.js:27-51 | a promotion that answers a URL leaves the file in images/ |
| ImageFiles.PromoteIdempotent | src/utils/fileUtils.js:18-57 | promoting again gives the same URL and changes nothing more |
| ImageFiles.PromotedUrlNotServed | src/utils/fileUtils.js:34 | as written the promoted URL has no directory segment, so the serve route never matches it |
| ImageFiles.PromoteIntended | src/utils/fileUtils.js:34 | the intended promotion changes the files alike and succeeds alike |
| ImageFiles.PromotedUrlServedIntended | src/utils/fileUtils.js:34 | with the intended URL a promoted image with a serveable name is served from images/ with 200 |
| ImageRoutes.MapUploadError | src/routes/image.js:43-59 | only an error that is not multer's is passed on, and unchanged; every multer error is answered 400, and apart from a size error the answer ends with multer's own message text, so a filter refusal surfaces verbatim |
| ImageRoutes.SizeErrorHandled | src/routes/image.js:50-52 | every size error gets the fixed text "File is too large. Maximum size is 10MB." |
| ImageRoutes.RejectionMessageAsWritten | src/routes/image.js:53-55 | as written a file of the wrong type is answered with "Unexpected field": the file-type explanation is lost |
| ImageRoutes.RejectionMessageIntended | src/routes/image.js:53-55 | with the intended filter the explanation is what the client reads |
| ImageRoutes.OversizeMessage | src/routes/image.js:50-52 | an accepted file over 10 MB gets the size message; one within the limit is not refused |
| ImageRoutes.ServeParams | src/routes/image.js:34 | a matched URL is the mount point, a non-empty directory segment, '/' and a non-empty file name, neither holding '/' |
| ImageRoutes.ServeParamsOf | src/routes/image.js:34 | the mount point, a directory segment and a file name are matched with exactly those parameters |
| ImageRoutes.SingleSegmentNotServed | src/routes/image.js:34 | a URL with a single segment under the mount point never reaches the serve handler |
| Ddos.ClientKey | src/middleware/ddosProtection.js:18 | the key is never empty and is the client's address whenever one is known |
| Ddos.WindowStart | src/middleware/ddosProtection.js:47 | the start is a multiple of one second and the request falls in [start, start + 1 s) |
| Ddos.KeepNewest | src/middleware/ddosProtection.js:52 | the list keeps the last min(length, 40) buckets |
| Ddos.KeepNewestSuffix | src/middleware/ddosProtection.js:52 | the kept buckets are the newest ones of the list, in their order: the oldest are shifted out |
| Ddos.CountRequest | src/middleware/ddosProtection.js:46-54 | the newest bucket afterwards is the one of the request's second |
| Ddos.Recent | src/middleware/ddosProtection.js:90 | a bucket is kept exactly when it is at most 60 s old |
| Ddos.CountInto | src/middleware/ddosProtection.js:46-54 | the push, shift loop and count give the bucket list CountRequest describes |
| Ddos.Guard.constructor | src/middleware/ddosProtection.js:4 | the guard starts with no records |
| Ddos.Guard.Handle | src/middleware/ddosProtection.js:12-84 | the records and the reply are those of one request: bypass, rejection while blocked, counting, a new block |
| Ddos.Guard.SweepAll | src/middleware/ddosProtection.js:87-95 | the records afterwards are the sweep of the records before |
| Ddos.BypassChangesNothing | src/middleware/ddosProtection.js:14-16 | the bypass header outside production creates and changes no record |
| Ddos.BlockedRequestRejected | src/middleware/ddosProtection.js:35-44 | a blocked client is refused with the time left, rounded up to whole minutes and at least one, and its record is left as it was |
| Ddos.CountRequestBuckets | src/middleware/ddosProtection.js:46-54 | a bucket is pushed exactly when the last one is not the current second, the list grows by one unless full, and the current bucket's count goes up by one |
| Ddos.AggressionTracked | src/middleware/ddosProtection.js:56-65 | the streak start is set exactly when the current bucket holds more than ten requests, and an existing one is kept while that lasts |
| Ddos.BlockShape | src/middleware/ddosProtection.js:67-81 | a new block lasts 15 min times min(1 + strikes/2, 3), from now, adding one strike and one history entry |
| Ddos.StepMonotone | src/middleware/ddosProtection.js:72-73 | strikes and block history never shrink |
| Ddos.SweepShape | src/middleware/ddosProtection.js:87-95 | the sweep keeps exactly the buckets at most 60 s old, deletes exactly the idle records and keeps strikes and history |
| Ddos.NewBucketStartsAtOne | src/middleware/ddosProtection.js:49-54 | the first request of a new second counts 1 and so is calm |
| Ddos.StepNeverBlocks | src/middleware/ddosProtection.js:60-68 | as written a tidy record is never answered with a new block: a kept streak start lies in the current second |
| Ddos.CountRequestAscending | src/middleware/ddosProtection.js:46-54 | counting a request no earlier than the newest bucket keeps the buckets in ascending order |
| Ddos.StepKeepsTidy | src/middleware/ddosProtection.js:46-84 | a request no earlier than the newest bucket keeps a record tidy |
| Ddos.StepKeepsClock | src/middleware/ddosProtection.js:46-54 | after a request the newest bucket is no later than the request |
| Ddos.Account | src/middleware/ddosProtection.js:35-84 | the in-place update of the client record gives the record and the reply of one request step |
| Ddos.RecentAscending | src/middleware/ddosProtection.js:90 | pruning keeps the buckets ascending and, unless it empties them, keeps the newest |
| Ddos.RequestKeepsTidy | src/middleware/ddosProtection.js:12-84 | a request in time order keeps every record tidy and is never a new block |
| Ddos.SweepKeepsTidy | src/middleware/ddosProtection.js:87-95 | a sweep in time order keeps every record tidy |
| Ddos.NeverBlocks | src/middleware/ddosProtection.js:12-95 | as written no run of requests and sweeps in time order, from a tidy state, is ever answered with a new block |
| Ddos.FreshGuardNeverBlocks | src/middleware/ddosProtection.js:4 | from the empty map no run of events in time order is ever answered with a new block |
| Ddos.StepSameSecond | src/middleware/ddosProtection.js:56-68 | intended rule: a further request in the current second is passed and counted, and a streak starts when the second turns aggressive |
| Ddos.StepNewSecond | src/middleware/ddosProtection.js:46-68 | intended rule: the first request of a new second counts 1 and is blocked exactly when the carried streak is 30 s old |
| Ddos.StreakSecond | src/middleware/ddosProtection.js:56-68 | requests in a second while a young streak runs are passed and counted, and the streak is kept |
| Ddos.RisingSecond | src/middleware/ddosProtection.js:56-68 | requests in a second with no streak are passed and counted; a streak starts exactly when the count passes ten |
| Ddos.FloodFirstSecond | src/middleware/ddosProtection.js:56-65 | more than ten requests in the first second of a flood start a streak at that second |
| Ddos.FloodNextSecond | src/middleware/ddosProtection.js:56-68 | a streak younger than 30 s carries over into the next second of a flood |
| Ddos.BurstLength | src/middleware/ddosProtection.js:12-84 | a burst of n requests gets n replies |
| Ddos.FloodLength | src/middleware/ddosProtection.js:12-84 | a flood of k seconds gets one reply per request |
| Ddos.FloodSoFar | src/middleware/ddosProtection.js:56-83 | up to 30 seconds of flood every request passes and a streak runs since the flood's start |
| Ddos.FloodPrefix | src/middleware/ddosProtection.js:12-84 | the replies to a shorter flood are a prefix of those to a longer one |
| Ddos.StreakBlocks | src/middleware/ddosProtection.js:67-81 | a streak that has lasted 30 s blocks the first request of the next second |
| Ddos.FloodBlockedAfter | src/middleware/ddosProtection.js:67-81 | after 30 seconds of flood the first request of the next second is blocked |
| Ddos.FloodBlocksIntended | src/middleware/ddosProtection.js:5-8 | as intended more than ten requests a second for more than 30 s are blocked: all of the first 30 seconds pass and the 31st second's first request gets a block of the strike-scaled length |
| StudentRoute.RemainingSec | src/routes/student/index.js:19 | the seconds are at least one and cover the wait, rounded up |
| StudentRoute.LimitHandler | src/routes/student/index.js:17-26 | the limiter answers 429 with the wait in whole seconds |
| StudentRoute.ThreePerWindow | src/routes/student/index.js:10-16 | in production the first three requests of a window pass and every later one is refused with 429; outside production the header 'true' lets every request through, and any other value leaves the limit in force |
| StudentRoute.DetectorDecides | src/routes/student/index.js:30 | the detector hands a request to the limiter exactly when it passed or bypassed it; a refusal and a new block both answer 429 |
| StudentRoute.NoResetTimeMeansSixty | src/routes/student/index.js:18-19 | without a reset time the client is told to wait 60 s |
| StudentRoute.PastResetIsOneSecond | src/routes/student/index.js:19 | a reset time already past still yields a wait of one second |
| StudentRoute.RegisterOrder | src/routes/student/index.js:30 | the detector's refusal comes first, then the limiter's, and the controller decides only when both pass |
| StudentRoute.ControllerNeedsBothGuards | src/routes/student/index.js:30 | the controller is reached only by requests both guards pass on |
| Pipeline.FirstAnswerWins | src/routes/student/index.js:30 | a middleware that answers decides the response when every middleware before it passed the request on |
| Pipeline.Run | src/routes/student/index.js:30 | no status exactly when every middleware of the chain called next() |
| SortUtils.NormalizeSortOrder | src/utils/sortUtils.js:11-35 | the order is always 1 or -1 |
| SortUtils.KeywordOrders | src/utils/sortUtils.js:13-20 | 'asc' and '1' in any letter case sort ascending, 'desc' and '-1' descending |
| SortUtils.OtherStringsBySign | src/utils/sortUtils.js:27-34 | any other string sorts by the sign of its parseInt reading, text that is no number descending |
| SortUtils.NumbersBySign | src/utils/sortUtils.js:22-25 | a number sorts by its sign, NaN descending |
| SortUtils.NormalizeOfInt | src/utils/sortUtils.js:11-35 | a written-out integer sorts ascending exactly when it is not negative |
| SortUtils.ValidateSortField | src/utils/sortUtils.js:44-50 | the field is on the allow-list or is the default; a string on the allow-list is kept; anything else yields the default |
| SortUtils.CreateSortObject | src/utils/sortUtils.js:59-64 | one key, from the allow-list or 'createdAt', with the normalised direction |
| SortUtils.ParsePaginationParams | src/utils/sortUtils.js:99-113 | the page is at least 1 and the limit between 1 and 100 |
| SortUtils.ZeroOrNaNFallBack | src/utils/sortUtils.js:108-109 | a page or limit that parses to 0 or NaN falls back to 1 or 10 before the clamp |
| SortUtils.PaginationDefaults | src/utils/sortUtils.js:100-105 | absent parameters give page 1, limit 10, 'createdAt', 'desc' |
| SortUtils.PaginationInRange | src/utils/sortUtils.js:108-109 | a page number or limit written as text in range is taken as is |
| SortUtils.CreatePaginationResponse | src/utils/sortUtils.js:122-133 | totalPages pages of limit items hold every item and one page fewer does not; there is a next page exactly when page < totalPages and a previous one exactly when page > 1 |
| SortUtils.TotalPagesLeast | src/utils/sortUtils.js:123 | totalPages is the least number of pages that holds every item |
| SortUtils.ItemsOnPages | src/utils/sortUtils.js:122-133 | item i is on page i / limit + 1, which exists; there is a next page exactly when some item lies beyond the current page |
| SortUtils.ThreePages | src/utils/sortUtils.js:123 | twenty-five items at ten per page make three pages |
| Text.StripTags | src/models/Article/virtuals.js:54 | the result is no longer than the text, keeps only characters of the text, and holds no '<' followed later by '>' |
| Text.StripTagsNoTag | src/models/Article/virtuals.js:54 | text without a tag is left unchanged |
| Text.StripTagsIdempotent | src/models/Article/virtuals.js:54 | stripping twice strips nothing more |
| Text.StripTagsPlain | src/models/Article/virtuals.js:54 | text without '<' is left unchanged |
| Text.SplitSpaces | src/models/Article/statics.js:313 | at least one piece, none holding whitespace |
| Text.SplitJoin | src/models/Article/statics.js:313 | splitting and joining with a separator is replacing every whitespace run by the separator |
| Text.SplitTrimmedNonEmpty | src/models/Article/virtuals.js:55-56 | trimmed non-empty text splits into non-empty pieces only |
| Text.SplitEmpty | src/models/Article/virtuals.js:55-56 | the empty string splits into one empty piece |
| Text.WordCountZero | src/models/Article/virtuals.js:50-57 | no words exactly when the content without tags is blank |
| Text.WordCountCounts | src/models/Article/virtuals.js:50-57 | the count is the number of words, each non-empty and free of whitespace, and the words joined by spaces give the stripped text with each whitespace run collapsed |
| Text.CalculateReadingTime | src/models/Article/statics.js:309-317 | at least one minute |
| Text.ReadingTimeFromWordCount | src/models/Article/statics.js:309-317 | the static agrees with the estimatedReadingTime formula on word counts, blank text included |
| Text.ReadingTimeCoversWords | src/models/Article/statics.js:309-317 | the minutes are the fewest that cover every word at 200 a minute |
| Text.GenerateExcerpt | src/models/Article/methods.js:89-96 | '' for no content; the stripped text when it fits in length; otherwise its first length characters and '...' |
| Text.ExcerptBounded | src/models/Article/methods.js:89-96 | the excerpt holds no tag and has at most length characters plus the three dots |
| Text.DisplayExcerpt | src/models/Article/virtuals.js:203-215 | the stored excerpt when there is one, else the 150-character excerpt of the content |
| Text.DisplayExcerptEmpty | src/models/Article/virtuals.js:203-215 | nothing is shown exactly when there is no excerpt and the content is tags only or empty |
| Slug.VietnameseMapAscii | src/models/Article/statics.js:90-98 | every replacement in the table is an ASCII letter |
| Slug.LookupOfKey | src/models/Article/statics.js:102-105 | a letter with an entry never stays; a letter without one is kept |
| Slug.ReplacedIsLookup | src/models/Article/statics.js:102-105 | replacing entry by entry is looking each letter up once, since no replacement is itself a pattern |
| Slug.KeepSlugChars | src/models/Article/statics.js:109 | only slug letters, digits, whitespace and '-' remain |
| Slug.SquashDashes | src/models/Article/statics.js:111 | no two dashes in a row remain, and the slug alphabet is kept |
| Slug.TrimDashes | src/models/Article/statics.js:112 | one leading and one trailing dash go; a leading dash stays only when the text began with two |
| Slug.Unaccent | src/models/Article/statics.js:102-105 | one base letter per character |
| Slug.TidyIsValid | src/models/Article/statics.js:108-112 | the regular-expression chain yields a slug the schema accepts, or nothing |
| Slug.TrimDashesValid | src/models/Article/statics.js:112 | trimming the end dashes of squashed text leaves a valid slug or nothing |
| Slug.SlugifyValid | src/models/Article/statics.js:86-115 | generateSlug never produces text the schema would refuse |
| Slug.SlugAlphabetLowerFixed | src/models/Article/statics.js:118-119 | a slug is all lower case, so the lower-cased lookup finds it as is |
| Slug.KeysDisjoint | src/models/Article/statics.js:90-98 | no letter has entries for two base letters |
| Slug.BaseLetters | src/models/Article/statics.js:90-98 | every letter of the table loses its marks and becomes its base letter; any other character is kept |
| Slug.TableDone | src/models/Article/statics.js:102-105 | after the whole table every character has its base letter |
| Slug.GenerateSlug | src/models/Article/statics.js:86-115 | the slug is that of the lower-cased, trimmed, unaccented title after the regular-expression chain |
| Slug.CandidatesCount | src/models/Article/statics.js:128-139 | the first k candidates are k different slugs |
| Slug.CandidatesBound | src/models/Article/statics.js:128-139 | when the first k candidates are all used, k is at most the number of used slugs, so the loop ends |
| Slug.FirstFree | src/models/Article/statics.js:133-136 | the first unused candidate from the k-th on, every earlier one being used |
| Slug.FreeCandidate | src/models/Article/statics.js:133-136 | the counter loop returns the first candidate, base then base-1, base-2 and so on, that no other document uses |
| Slug.UniqueSlug | src/models/Article/statics.js:128-139 | the slug is unused by other documents, and is the base or base-k for the least such k |
| Slug.UniqueSlugUnused | src/models/Article/statics.js:128-139 | a free base slug is used as is |
| Slug.CandidateAlphabet | src/models/Article/statics.js:134 | every candidate is written in the slug alphabet |
| Slug.UniqueSlugNormal | src/models/Article/statics.js:128-139 | a generated slug is lower case without surrounding whitespace, so the save-time lower-casing and trimming keep it |
| Slug.GenerateUniqueSlug | src/models/Article/statics.js:128-139 | the counter loop returns the unique slug |
| Labels.TimeAgo | src/models/Article/virtuals.js:69-95 | the bucket matches the elapsed time: just now under two minutes, then whole minutes, hours, days, months and years within their ranges, a future date as days |
| Labels.TimeAgoLabel | src/models/Article/virtuals.js:69-71 | no label exactly when the date is unset |
| Labels.TimeAgoOrdered | src/models/Article/virtuals.js:69-95 | a later moment never lands in an earlier kind of bucket |
| Labels.CountLabel | src/models/Article/virtuals.js:186-194 | the zero text for zero, else the number followed by the unit |
| Labels.CountLabelInjective | src/models/Category/virtuals.js:97-106 | different counts get different labels when the zero text is not a number |
| Labels.StatusLabel | src/models/User/virtuals.js:49-69 | a status in the table gets its label, an unknown one is returned unchanged |
| Slug.CandidateInjective | src/models/Article/statics.js:133-134 | two counters give the same candidate only when they are equal |
| ArticleModel.UrlInjective | src/models/Article/virtuals.js:5-7 | two articles share a URL exactly when they share a slug |
| ArticleModel.DisplayTitle | src/models/Article/virtuals.js:10-12 | the meta title or the title, empty only when both are |
| ArticleModel.DisplayDescription | src/models/Article/virtuals.js:15-17 | the meta description or the excerpt, empty only when both are |
| ArticleModel.StatusDisplayLabels | src/models/Article/virtuals.js:20-27 | the three statuses get three different labels and any other value is shown as is |
| ArticleModel.StatusFlagsExclusive | src/models/Article/virtuals.js:30-42 | at most one status flag holds, and a valid article has exactly one |
| ArticleModel.EstimatedReadingTime | src/models/Article/virtuals.js:60-66 | the stored reading time when set, otherwise at least one minute |
| ArticleModel.EstimateIsCalculated | src/models/Article/virtuals.js:60-66 | without a stored reading time the estimate is what calculateReadingTime would store |
| ArticleModel.CommentCountDisplayDistinct | src/models/Article/virtuals.js:186-194 | different comment counts get different labels; no comments a fixed text |
| ArticleModel.AfterPublish | src/models/Article/methods.js:6-18 | status published, publishedAt now, a reading time filled in when unset, nothing else changed |
| ArticleModel.PublishKeepsValid | src/models/Article/methods.js:6-18 | publishing a valid article leaves it valid |
| ArticleModel.AfterUnpublish | src/models/Article/methods.js:20-25 | status draft and publishedAt cleared, nothing else changed |
| ArticleModel.UnpublishAfterPublish | src/models/Article/methods.js:6-25 | unpublishing undoes publishing except for a reading time it filled in |
| ArticleModel.AfterArchive | src/models/Article/methods.js:27-31 | status archived; when the status changed the save's status hook clears the publication date; nothing else changes |
| ArticleModel.WithDraftStatus | src/models/Article/hooks.js:156-165 | a save that changes the status to anything but published clears the publication date; a save with the status unchanged changes nothing |
| ArticleModel.AfterUnarchive | src/models/Article/methods.js:33-37 | status draft; when the status changed the save's status hook clears the publication date; nothing else changes |
| ArticleModel.UnarchiveAfterArchive | src/models/Article/methods.js:27-37 | archiving and then unarchiving a draft gives the draft without publication date; a published article ends as unpublishing it would leave it |
| ArticleModel.HasFeaturedImage | src/models/Article/virtuals.js:45-47 | as written the virtual is false for every article: the URL is read from a field of a string |
| ArticleModel.HasFeaturedImageIntended | src/models/Article/virtuals.js:45-47 | as intended: true exactly when the image URL text is not empty |
| ArticleModel.FeaturedImageIgnored | src/models/Article/virtuals.js:45-47 | every article with an image URL is reported without one as written and with one as intended |
| ArticleModel.IncrementView | src/models/Article/methods.js:45-49 | the view count goes up by count, nothing else changes |
| ArticleModel.IncrementLike | src/models/Article/methods.js:51-55 | the like count goes up by count, nothing else changes |
| ArticleModel.IncrementComment | src/models/Article/methods.js:63-67 | the comment count goes up by count, nothing else changes |
| ArticleModel.DecrementLike | src/models/Article/methods.js:57-61 | the like count goes down by count but never below zero, nothing else changes |
| ArticleModel.DecrementComment | src/models/Article/methods.js:69-73 | the comment count goes down by count but never below zero, nothing else changes |
| ArticleModel.DecrementUndoesIncrement | src/models/Article/methods.js:51-73 | decrementing undoes incrementing by the same count on a non-negative counter |
| ArticleModel.WithFeatured | src/models/Article/methods.js:39-43 | featured set as given, nothing else changed |
| ArticleModel.AfterUpdateReadingTime | src/models/Article/methods.js:82-86 | a reading time of at least one minute, nothing else changed |
| ArticleModel.AfterUpdateExcerpt | src/models/Article/methods.js:99-104 | a stored excerpt is kept; an absent one becomes the generated excerpt |
| ArticleModel.WithCategory | src/models/Article/methods.js:107-114 | the categories afterwards are those before plus the id, nothing else changed |
| ArticleModel.WithoutCategory | src/models/Article/methods.js:116-120 | every entry equal to the id goes and every other keeps its multiplicity |
| ArticleModel.CategoryAddRemove | src/models/Article/methods.js:107-120 | adding never creates a duplicate, and removing after adding is removing alone |
| ArticleModel.WithTag | src/models/Article/methods.js:122-130 | refused exactly when the normalised tag is new and longer than 30 characters (Article schema.js:108-112), with the validation message; otherwise the tags afterwards are those before plus the normalised tag unless it is blank, nothing else changed |
| ArticleModel.TagsStayWithinLimit | src/models/Article/methods.js:122-130 | tags within the 30-character limit stay within it after an accepted addTag |
| ArticleModel.WithoutTag | src/models/Article/methods.js:132-137 | every occurrence of the normalised tag goes and every other keeps its multiplicity |
| ArticleModel.TagAddRemove | src/models/Article/methods.js:122-137 | an accepted addition never creates a duplicate, and a tag added in any spelling that normalises alike is removed again |
| ArticleModel.CanBeEditedByAsWritten | src/models/Article/methods.js:227-242 | no user is denied and an admin allowed; every other caller makes the check throw |
| ArticleModel.EditCheckThrowsForNonAdmins | src/models/Article/methods.js:233-241 | for a stored article every non-admin caller makes the edit check throw |
| ArticleModel.CanBeEditedBy | src/models/Article/methods.js:227-242 | admins always, the author always, faculty on drafts |
| ArticleModel.CanBeDeletedByAsWritten | src/models/Article/methods.js:244-256 | no user is denied, an admin allowed, every other caller on a stored article throws |
| ArticleModel.CanBeDeletedBy | src/models/Article/methods.js:244-256 | admins always, the author only while the article is a draft |
| ArticleModel.DeleteImpliesEdit | src/models/Article/methods.js:227-256 | whoever may delete may edit |
| ArticleModel.ValidateData | src/models/Article/methods.js:317-342 | one error per failed rule without repeats: blank title, blank content, no category, no author; valid exactly when there is none |
| ArticleModel.Failures | src/models/Article/methods.js:317-342 | each error is in the list exactly when its check failed, without repeats |
| ArticleModel.ListSort | src/models/Article/statics.js:142-185 | a non-empty explicit sort wins; otherwise one key from the allow-list or 'createdAt', with the requested order only when it is exactly 1 or -1 |
| ArticleModel.ArticleDoc.constructor | src/models/Article/schema.js:1-140 | the document holds the given record |
| ArticleModel.ArticleDoc.Publish | src/models/Article/methods.js:6-18 | the record becomes AfterPublish of the old one |
| ArticleModel.ArticleDoc.Unpublish | src/models/Article/methods.js:20-25 | the record becomes AfterUnpublish of the old one |
| ArticleModel.ArticleDoc.Archive | src/models/Article/methods.js:27-31 | the record becomes AfterArchive of the old one |
| ArticleModel.ArticleDoc.Unarchive | src/models/Article/methods.js:33-37 | the record becomes AfterUnarchive of the old one |
| ArticleModel.ArticleDoc.SetFeatured | src/models/Article/methods.js:39-43 | the record becomes WithFeatured of the old one |
| ArticleModel.ArticleDoc.IncrementViewCount | src/models/Article/methods.js:45-49 | the record becomes IncrementView of the old one |
| ArticleModel.ArticleDoc.IncrementLikeCount | src/models/Article/methods.js:51-55 | the record becomes IncrementLike of the old one |
| ArticleModel.ArticleDoc.DecrementLikeCount | src/models/Article/methods.js:57-61 | the record becomes DecrementLike of the old one |
| ArticleModel.ArticleDoc.IncrementCommentCount | src/models/Article/methods.js:63-67 | the record becomes IncrementComment of the old one |
| ArticleModel.ArticleDoc.DecrementCommentCount | src/models/Article/methods.js:69-73 | the record becomes DecrementComment of the old one |
| ArticleModel.ArticleDoc.UpdateReadingTime | src/models/Article/methods.js:82-86 | the record becomes AfterUpdateReadingTime of the old one |
| ArticleModel.ArticleDoc.UpdateExcerpt | src/models/Article/methods.js:99-104 | the record becomes AfterUpdateExcerpt of the old one |
| ArticleModel.ArticleDoc.UpdateModifiedBy | src/models/Article/methods.js:221-225 | only updatedBy changes, to the given user |
| ArticleModel.ArticleDoc.AddCategory | src/models/Article/methods.js:107-114 | the record becomes WithCategory of the old one |
| ArticleModel.ArticleDoc.RemoveCategory | src/models/Article/methods.js:116-120 | the record becomes WithoutCategory of the old one |
| ArticleModel.ArticleDoc.AddTag | src/models/Article/methods.js:122-130 | returns WithTag of the old record; the record becomes the saved one, and stays as it was when the save refuses |
| ArticleModel.ArticleDoc.RemoveTag | src/models/Article/methods.js:132-137 | the record becomes WithoutTag of the old one |
| CategoryModel.UrlInjective | src/models/Category/virtuals.js:5-7 | two categories share a URL exactly when they share a slug |
| CategoryModel.StatusDisplayLabels | src/models/Category/virtuals.js:20-26 | active and inactive get their two labels and any other value is shown as is |
| CategoryModel.ArticleCountDisplayDistinct | src/models/Category/virtuals.js:97-105 | no articles a fixed text; different counts different labels |
| CategoryModel.DropFirstHash | src/models/Category/virtuals.js:112 | only a leading '#' goes; text without '#' is unchanged |
| CategoryModel.Pair | src/models/Category/virtuals.js:113-115 | at most two characters |
| CategoryModel.ColorWithOpacity | src/models/Category/virtuals.js:108-118 | no value exactly when there is no colour |
| CategoryModel.ParsePair | src/models/Category/virtuals.js:113-115 | parseInt of two hex digits in base 16 is their byte value |
| CategoryModel.ColorWithOpacitySixDigits | src/models/Category/virtuals.js:108-118 | a six-digit colour is shown as its three bytes |
| CategoryModel.ColorWithOpacityThreeDigits | src/models/Category/virtuals.js:108-118 | a three-digit colour shows red and green mixed, blue alone, then NaN |
| CategoryModel.ColorWithOpacityShortColor | src/models/Category/virtuals.js:108-118 | '#F00' is shown as rgba(240, 0, NaN, 0.1) as written and rgba(255, 0, 0, 0.1) as corrected |
| CategoryModel.ExpandColor | src/models/Category/schema.js:53-62 | a valid colour becomes a valid six-digit colour |
| CategoryModel.ColorWithOpacityExpanded | src/models/Category/virtuals.js:108-118 | no value exactly when there is no colour |
| CategoryModel.ColorWithOpacityExpandedBytes | src/models/Category/virtuals.js:108-118 | every colour the schema accepts is shown as the three bytes of the colour it denotes |
| CategoryModel.FindWithPagination | src/models/Category/statics.js:106-148 | skip is (page - 1) * limit, the sort field is sortBy with the validated direction, and the pagination covers every item with next and previous pages as for the utility |
| CategoryModel.UpdateArticleCount | src/models/Category/statics.js:179-186 | the count moves by the increment with no lower bound, nothing else changes |
| CategoryModel.UpdateArticleCountAdds | src/models/Category/statics.js:179-186 | two increments add up, negative totals included |
| CategoryModel.WithStatus | src/models/Category/methods.js:6-16 | the status set as given, nothing else changed |
| CategoryModel.Toggled | src/models/Category/methods.js:18-22 | active becomes inactive and anything else active, nothing else changed |
| CategoryModel.ToggleFlips | src/models/Category/methods.js:18-22 | toggling flips isActive, and toggling twice restores a category with one of the two statuses |
| CategoryModel.Incremented | src/models/Category/methods.js:91-95 | the count goes up by count, nothing else changes |
| CategoryModel.Decremented | src/models/Category/methods.js:97-101 | the count goes down by count but not below zero, nothing else changes |
| CategoryModel.DecrementUndoesIncrement | src/models/Category/methods.js:91-101 | decrementing by what was added restores a non-negative count |
| CategoryModel.Reset | src/models/Category/methods.js:103-107 | the count becomes zero, nothing else changes |
| CategoryModel.CanBeDeletedCases | src/models/Category/methods.js:109-112 | deletable exactly at count zero; a reset makes deletable; a negative count blocks deletion though no article is counted |
| CategoryModel.Duplicate | src/models/Category/methods.js:133-156 | the copy is named as asked or '(Copy)', gets an unused unique slug, is inactive with no articles one place further, and keeps the other fields |
| CategoryModel.DuplicateDeletable | src/models/Category/methods.js:133-156 | a copy counts no article, is inactive and deletable, and a valid original gives a sort order of at least one |
| CategoryModel.Assign | src/models/Category/methods.js:182-186 | every allowed field the import defines is copied, the text fields through their trim setter, and nothing else changes |
| CategoryModel.ImportSlugRefreshDead | src/models/Category/methods.js:188-191 | as written an imported name without surrounding whitespace never refreshes the slug, even when it renames the category |
| CategoryModel.UpdateFromImportAsWritten | src/models/Category/methods.js:176-199 | as written: the allowed fields are assigned through their setters, updatedBy follows a given user, and only the slug may differ from the assignment |
| CategoryModel.ImportPaddedNameRefreshes | src/models/Category/methods.js:182-191 | as written an imported name with surrounding whitespace refreshes the slug from its trimmed form, even when that is the stored name |
| CategoryModel.Imported | src/models/Category/methods.js:176-199 | as intended: a new non-empty name, once trimmed, brings a free unique slug of that name, otherwise the slug stays; the fields are assigned through their setters and updatedBy follows a given user |
| CategoryModel.ImportVersionsDiffer | src/models/Category/methods.js:188-191 | the two versions differ whenever the import renames to a name whose slug differs from the stored one |
| CategoryModel.ValidateData | src/models/Category/methods.js:201-224 | one error per failed check: blank name, blank slug, bad colour, negative order; valid exactly when none |
| CategoryModel.Failures | src/models/Category/methods.js:201-224 | each error is in the list exactly when its check failed |
| CategoryModel.ValidPassesValidateData | src/models/Category/methods.js:201-224 | every category the schema accepts passes validateData |
| CategoryModel.NormalizeName | src/models/Category/hooks.js:29-34 | the name is trimmed and its first character upper-cased, the rest kept; the result is trimmed, no longer than the name, and empty exactly when the name is blank |
| CategoryModel.PreSave | src/models/Category/hooks.js:7-96 | refused exactly when a slug that is modified or regenerated belongs to another category; otherwise the saved slug, the normalised name and upper-cased colour, status and count kept |
| CategoryModel.NormalizeFields | src/models/Category/hooks.js:27-68 | each modified field normalised as the hook says, the status, count and order kept |
| CategoryModel.NewCategorySlugFromName | src/models/Category/hooks.js:7-25 | a new category always gets the free slug generated from its name, whatever slug it was given |
| CategoryModel.DeleteGuards | src/models/Category/hooks.js:120-139 | the hook refuses only positive counts while canBeDeleted also refuses negative ones |
| CategoryModel.UpdateHook | src/models/Category/hooks.js:152-224 | the update is refused exactly when a given slug, lower-cased and trimmed, is held by another category; otherwise updatedAt is now, the name normalised, the slug lower-cased and trimmed or generated from the name and free, the colour upper-cased, status and order kept |
| CategoryModel.UpdateHookIntended | src/models/Category/hooks.js:181-184 | as intended: refuses exactly what the hook refuses and gives the same update, except that a missing slug stays missing |
| CategoryModel.TidyUpdate | src/models/Category/hooks.js:152-224 | the given name and slug, updatedAt now, the colour upper-cased, status and order kept |
| CategoryModel.ListSort | src/controllers/category/crud.js:27-37 | the field from the allow-list or 'createdAt'; a text direction is -1 exactly for 'desc' in any case; a missing one -1; never 0 |
| CategoryModel.CategoryDoc.constructor | src/models/Category/schema.js:1-102 | the document holds the given record |
| CategoryModel.CategoryDoc.Activate | src/models/Category/methods.js:6-10 | the record becomes active |
| CategoryModel.CategoryDoc.Deactivate | src/models/Category/methods.js:12-16 | the record becomes inactive |
| CategoryModel.CategoryDoc.ToggleStatus | src/models/Category/methods.js:18-22 | the record becomes Toggled of the old one |
| CategoryModel.CategoryDoc.IncrementArticleCount | src/models/Category/methods.js:91-95 | the record becomes Incremented of the old one |
| CategoryModel.CategoryDoc.DecrementArticleCount | src/models/Category/methods.js:97-101 | the record becomes Decremented of the old one |
| CategoryModel.CategoryDoc.ResetArticleCount | src/models/Category/methods.js:103-107 | the record becomes Reset of the old one |
| CategoryModel.CategoryDoc.UpdateSortOrder | src/models/Category/methods.js:127-131 | only the sort order changes |
| CategoryModel.CategoryDoc.UpdateModifiedBy | src/models/Category/methods.js:85-88 | only updatedBy changes |
| CategoryModel.CategoryDoc.UpdateFromImport | src/models/Category/methods.js:176-199 | as intended: the record becomes Imported of the old one; the source's compare-after-assign order is UpdateFromImportAsWritten |
| ArticleHooks.NonBlank | src/models/Article/hooks.js:82 | no longer than the input |
| ArticleHooks.NonBlankKeeps | src/models/Article/hooks.js:82 | an entry survives exactly when it is not blank |
| ArticleHooks.NormalizeKeywords | src/models/Article/hooks.js:80-83 | no longer than the input |
| ArticleHooks.KeywordsStored | src/models/Article/hooks.js:80-83 | stored keywords are non-empty and carry no surrounding whitespace |
| ArticleHooks.NormalizeKeywordsIdempotent | src/models/Article/hooks.js:80-83 | normalising twice changes nothing more |
| ArticleHooks.NormalizeTags | src/models/Article/hooks.js:75-78 | no longer than the input |
| ArticleHooks.TagsStored | src/models/Article/hooks.js:75-78 | a tag is stored exactly when it is the non-empty normal form of some entry |
| ArticleHooks.Derive | src/models/Article/hooks.js:26-41 | an unset reading time is calculated from the content and an absent excerpt generated; the other fields are kept |
| ArticleHooks.Normalize | src/models/Article/hooks.js:43-96 | the slug lower-cased and trimmed, title and content trimmed, tags and keywords normalised; categories, status, date, author and reading time kept |
| ArticleHooks.StatusDate | src/models/Article/hooks.js:155-165 | a published article without a date gets now, any other status loses its date, nothing else changes |
| ArticleHooks.AfterSlugHook | src/models/Article/hooks.js:26-165 | refused exactly when another article holds the normalised slug or a category is inactive or missing; otherwise categories, author, status and the normalised slug kept |
| ArticleHooks.PreSaveNew | src/models/Article/hooks.js:7-165 | a new article with a title gets the unique slug of its title, free among the others; refused exactly for an inactive category or a taken slug |
| ArticleHooks.PreSaveNewKeepingSlug | src/models/Article/hooks.js:7-24 | the corrected chain keeps a slug given on creation and generates one only when there is none |
| ArticleHooks.NewArticleSlugReplaced | src/models/Article/hooks.js:10-13 | a free valid slug given to a new article is replaced by the title's slug as written and kept as corrected |
| ArticleHooks.ValidSlugNormal | src/models/Article/hooks.js:51-53 | a slug of the schema pattern is lower case and trimmed |
| ArticleHooks.Tidy | src/models/Article/hooks.js:271-344 | title and content trimmed, slug, status, date and categories kept, a reading time derived from new content, updatedAt now |
| ArticleHooks.UpdateHookAsWritten | src/models/Article/hooks.js:267-353 | the update is refused exactly when a given slug, lower-cased and trimmed, is held by another article; a title without slug brings the title's slug; status published without date gets now; another status clears the date |
| ArticleHooks.UpdateHook | src/models/Article/hooks.js:267-353 | the corrected hook is refused exactly when a given slug is taken, normalises a given slug and leaves slug and date otherwise as the caller sent them |
| ArticleHooks.RepublishResetsDate | src/models/Article/hooks.js:336-341 | re-sending status published without date resets the date to now as written; the corrected hook keeps the caller's choice |
| ArticleHooks.SameTitleReplacesSlug | src/models/Article/hooks.js:294-297 | re-sending an unchanged title without slug replaces the slug as written; the corrected hook leaves it out |
| ArticleHooks.Apply | src/models/Article/hooks.js:267-353 | each field the update sets replaces the stored one and the author stays |
| ArticleHooks.ApplyNothing | src/models/Article/hooks.js:267-353 | an empty update leaves the article as it is |
| ContentStore.CountInsert | src/controllers/article/crud.js:363-369 | adding an article adds one holder to each category it lists |
| ContentStore.CountRemove | src/controllers/article/crud.js:716-724 | removing an article takes one holder from each category it lists |
| ContentStore.CountReplace | src/controllers/article/crud.js:541-558 | replacing an article moves its holdings from the old list to the new one |
| ContentStore.CountZero | src/models/Category/methods.js:109-112 | a category is held by no article exactly when no article lists it |
| ContentStore.Bump | src/models/Category/statics.js:179-186 | the same categories remain; each existing category among the ids has its counter moved by delta and nothing else changed, every other category is left as it was |
| ContentStore.BumpTwice | src/models/Article/hooks.js:209-252 | two adjustments of the same categories add up |
| ContentStore.BumpOthers | src/controllers/article/crud.js:720-723 | counters outside the ids are untouched |
| ContentStore.BumpZero | src/models/Category/statics.js:179-186 | an increment of zero changes nothing |
| ContentStore.InsertKeepsConsistent | src/controllers/article/crud.js:363-369 | creating an article and incrementing each listed category keeps every counter equal to its number of articles |
| ContentStore.RemoveKeepsConsistent | src/controllers/article/crud.js:716-724 | deleting an article and decrementing each of its categories once keeps the counters right |
| ContentStore.ReplaceKeepsConsistent | src/controllers/article/crud.js:541-558 | replacing an article while moving only the categories that changed keeps the counters right |
| ContentStore.DeleteCategoryKeepsConsistent | src/controllers/category/crud.js:427-444 | a category with counter zero in a consistent store is listed by no article, so deleting it leaves no dangling category |
| ContentStore.InsertCategoryKeepsConsistent | src/controllers/category/crud.js:149-213 | a new category with counter zero keeps the store consistent |
| ContentStore.ReplaceCategoryKeepsConsistent | src/controllers/category/crud.js:264-354 | changing a category's other fields keeps the store consistent |
| ArticleController.NewArticle | src/controllers/article/crud.js:338-361 | the slug, categories and caller as author; the status as sent or draft; a published article dated now |
| ArticleController.CreateChecks | src/controllers/article/crud.js:256-335 | 400 for a missing title, content or category, for a listed id that names no active category, for two listed ids that name one category (two spellings that differ in case) and for a taken slug; 500 exactly when the first checks pass and a listed category id is no ObjectId, whose cast makes the `$in` filter throw; a passing document lists the ObjectIds of the de-duplicated ids, all active and none twice, and has the normalised slug |
| ArticleController.CategoriesFoundIff | src/controllers/article/crud.js:307-316 | the count comparison of the category check passes exactly when every de-duplicated id casts to an active category and no two cast to the same one |
| ArticleController.SaveNew | src/models/Article/hooks.js:7-165 | a saved article keeps its categories and author and has a free slug; as written every article with a title and active categories is saved |
| ArticleController.Created | src/controllers/article/crud.js:256-430 | 400 or 500 whenever the checks refuse, 500 exactly when they do for a malformed category id, and as written a refusal exactly then; a stored article lists the ObjectIds of the de-duplicated category ids, all active |
| ArticleController.CreateArticle | src/controllers/article/crud.js:256-430 | on 201 the article is stored under the new id and each distinct listed category counts one more; otherwise the refusal's status and nothing changes |
| ArticleController.CreateKeepsConsistent | src/controllers/article/crud.js:363-369 | creating keeps every counter equal to the number of articles listing its category |
| ArticleController.CreateSlugReplaced | src/controllers/article/crud.js:338-361 | a free well-formed slug given on creation is replaced by the title's slug as written and stored as corrected |
| ArticleController.CreatedSlug | src/controllers/article/crud.js:338-361 | the stored slug of each version for a document with a well-formed slug of its own |
| ArticleController.UpdateSlug | src/controllers/article/crud.js:561-589 | a changed slug is sent, else the slug of a changed title when no slug was given |
| ArticleController.UpdateDate | src/controllers/article/crud.js:590-596 | publishing a non-published article dates it now, another status clears the date, re-publishing leaves it |
| ArticleController.UpdateData | src/controllers/article/crud.js:491-599 | the update carries the new categories, status, slug and date as decided, and the caller as updatedBy |
| ArticleController.UpdatePreChecks | src/controllers/article/crud.js:458-535 | 500 for an id that is no ObjectId, 404 when no article has the ObjectId it casts to (in either case of its hex digits), the permission gate's status, 400 for a bad category list, 500 for a listed category id that is no ObjectId, 0 exactly when all pass, which for a new list means its ObjectIds are active and none repeats |
| ArticleController.Hook | src/models/Article/hooks.js:267-353 | the hook keeps categories and status; as intended it keeps the date the handler decided, as written it re-dates a published status |
| ArticleController.Updated | src/controllers/article/crud.js:561-660 | a slug clash is 400; a stored article is valid, keeps its author, has the new categories and status, and the date of the version |
| ArticleController.SlugClashRefused | src/controllers/article/crud.js:561-575 | a request slug that another article holds refuses the update with 400, in both versions |
| ArticleController.UpdateArticleAsWritten | src/controllers/article/crud.js:436-669 | a refusal by the first checks changes nothing; once they pass, the counters move whatever the slug check, the hook and the validators answer |
| ArticleController.UpdateArticle | src/controllers/article/crud.js:436-669 | a refusal changes nothing; on 200 the article is replaced and the counters move from its old categories to its new ones |
| ArticleController.RefusedAfterCounting | src/controllers/article/crud.js:536-612 | as written, an update refused by its save answers 400 with the category counters already moved |
| ArticleController.RefusedBeforeCounting | src/controllers/article/crud.js:536-612 | as intended, an update refused by its save answers 400 and changes nothing |
| ArticleController.RepublishRedates | src/controllers/article/crud.js:590-596 | re-sending 'published' re-dates a published article as written and keeps its date as intended |
| ArticleController.MovedSame | src/controllers/article/crud.js:541-558 | moving the counters to an unchanged list changes nothing |
| ArticleController.MovedOutDrops | src/controllers/article/crud.js:541-558 | moving an article out of a category leaves that category counting one article fewer than list it |
| ArticleController.UpdateKeepsConsistent | src/controllers/article/crud.js:436-669 | the intended update keeps every counter right |
| ArticleController.UpdateRefusedAfterCounting | src/controllers/article/crud.js:541-577 | as written, an update leaving category c and refused for its slug leaves c's counter one below its number of articles; as intended nothing changes; the article is named by any spelling of its id |
| ArticleController.DeleteArticle | src/controllers/article/crud.js:673-755 | 500 for an id that is no ObjectId, 404 when no article has the ObjectId it casts to, the gate's status, otherwise 200 with that article removed and each listed category lowered by three as written and by one as intended |
| ArticleController.DeleteKeepsConsistent | src/controllers/article/crud.js:673-755 | the intended deletion keeps every counter right |
| ArticleController.DeleteCountsThrice | src/controllers/article/crud.js:716-724 | as written each category of a deleted article counts two articles fewer than list it |
| ArticleController.PublishArticle | src/controllers/article/publish.js:5-62 | 500 for an id that is no ObjectId, 404 when no article has the ObjectId it casts to, the gate's status, 200 exactly when the id is well-formed, the edit is allowed and the published article is valid, with that article published; otherwise nothing changes |
| ArticleController.PublishValidSucceeds | src/controllers/article/publish.js:5-62 | a valid stored article can always be published, under any spelling of its id, by whoever may edit it |
| ArticleController.UnpublishArticle | src/controllers/article/publish.js:66-123 | 500 for an id that is no ObjectId, 404 when no article has the ObjectId it casts to, the gate's status, otherwise 200 with that article unpublished |
| ArticleController.MalformedIdIs500 | src/controllers/article/crud.js:458 | an article id that is no ObjectId gets 500 and changes nothing in update (both versions), delete, publish and unpublish, since each calls findById with it first (article/crud.js:458 and 679, publish.js:10 and 71) |
| ArticleController.AnySpellingOfId | src/controllers/article/crud.js:679 | delete, publish and unpublish answer an article id, and change the store, exactly as for its lower-case form, the ObjectId it casts to (article/crud.js:679, publish.js:10 and 71) |
| ArticleController.AnySpellingOfIdUpdates | src/controllers/article/crud.js:458 | both versions of update answer an article id, and change the store, exactly as for its lower-case form |
| ArticleController.SameListsSameCounts | src/controllers/article/publish.js:5-123 | the same ids and category lists count the same articles |
| ArticleController.PublishKeepsConsistent | src/controllers/article/publish.js:5-123 | publishing and unpublishing keep the store consistent |
| ArticleController.NonAdminsGet500 | src/controllers/article/crud.js:474-483 | as written every non-admin gets 500 from update, delete, publish and unpublish on an article with an author |
| CategoryController.NewCategory | src/controllers/category/crud.js:149-201 | the trimmed name and the given slug, status active and colour by default, no articles, the caller as creator and editor |
| CategoryController.Cast | src/models/Category/schema.js:11-62 | the slug lower-cased and trimmed and the colour trimmed, the other fields kept |
| CategoryController.CreateChecks | src/controllers/category/crud.js:164-201 | 400 for a missing name or a taken slug; a passing document is valid and has the normalised slug when one was given |
| CategoryController.Saved | src/controllers/category/crud.js:203-212 | refused with 400 as the checks refuse, and as written exactly then; as written the slug comes from the name, as intended a given slug is kept |
| CategoryController.CreateCategory | src/controllers/category/crud.js:149-260 | 201 with the saved category under the new id, or 400 with the categories unchanged |
| CategoryController.CreateCategoryKeepsConsistent | src/controllers/category/crud.js:149-260 | creation keeps the store consistent |
| CategoryController.CreateCategorySlugReplaced | src/controllers/category/crud.js:149-260 | a slug given with the request is replaced by the name's slug as written and kept as intended |
| CategoryController.UpdateSlug | src/controllers/category/crud.js:309-333 | a changed trimmed slug, or for a changed name without slug the name's slug |
| CategoryController.UpdateData | src/controllers/category/crud.js:295-336 | the trimmed name, the decided slug, status, colour, the parsed sort order and the caller as editor |
| CategoryController.Apply | src/controllers/category/crud.js:338-352 | each set field replaces the old one; count, creator and creation date stay |
| CategoryController.UpdateKeepsValid | src/controllers/category/crud.js:338-352 | a valid category stays valid under an update that passes the update validators |
| CategoryController.Updated | src/controllers/category/crud.js:309-400 | a slug clash is 400, other refusals 400 or no response; a stored category keeps its count |
| CategoryController.Hooked | src/models/Category/hooks.js:152-224 | the hooked update is dated now and edited by the caller |
| CategoryController.UpdatedFields | src/controllers/category/crud.js:264-400 | a valid category stays valid, a name is stored trimmed and capitalised, a rename without slug gets a free slug, and with neither the slug stays |
| CategoryController.RenameSlugFree | src/controllers/category/crud.js:309-333 | a rename without slug ends with a slug no other category has |
| CategoryController.UpdateCategory | src/controllers/category/crud.js:264-400 | 500 for an id that is no ObjectId, 404 when no category has the ObjectId a well-formed id casts to; 200 replaces that category; every other answer changes nothing |
| CategoryController.UpdateCategoryKeepsConsistent | src/controllers/category/crud.js:264-400 | updating never touches a counter, so the store stays consistent |
| CategoryController.SameNameReplacesSlug | src/models/Category/hooks.js:183-187 | re-sending the current name without slug makes the hook replace the slug, a custom one included |
| CategoryController.SameNameKeepsSlugIntended | src/models/Category/hooks.js:181-184 | with the intended hook, re-sending the unchanged name without a slug keeps the stored slug |
| CategoryController.DeleteCategory | src/controllers/category/crud.js:406-474 | 500 exactly for an id that is no ObjectId, 404 exactly when no category has the ObjectId a well-formed one casts to; 200 exactly when that category exists and counts zero, and then it is removed; otherwise nothing changes |
| CategoryController.DeleteCategoryWhenUnused | src/controllers/category/crud.js:406-474 | in a consistent store a category named by a well-formed id is deletable exactly when no article lists it, and deleting it keeps the store consistent |
| CategoryController.DeletedArticleLocksCategory | src/controllers/article/crud.js:716-724 | as written deleting a category's only article leaves its counter at -2 so the category cannot be deleted; as intended it can |
| CategoryController.MalformedIdIs500 | src/controllers/category/crud.js:280 | a category id that is no ObjectId gets 500 and changes nothing in update and delete, since each calls findById with it first (category/crud.js:280 and 411) |
| CategoryController.AnySpellingOfId | src/controllers/category/crud.js:280 | update and delete answer a category id exactly as they answer its lower-case form, the ObjectId it casts to (category/crud.js:280 and 411) |
| Database.BumpStep | src/controllers/article/crud.js:366-369 | adding one more listed id to an increment raises that category once, or changes nothing when it was already counted or does not exist |
| Database.BumpNone | src/controllers/article/crud.js:366-369 | an increment over no ids leaves every category as it was |
| Database.MovedInSteps | src/controllers/article/crud.js:542-556 | decrementing the dropped categories and then incrementing the added ones is the net move from the old list to the new one |
| Database.Store.MoveCounts | src/controllers/article/crud.js:541-558 | the two updateMany calls leave the counters moved from the old list to the new and the articles unchanged |
| Database.Store.IncrementCounts | src/controllers/article/crud.js:366-369 | every existing listed category moves by the given amount, once however often it is listed; the articles are untouched |
| Database.Store.InsertArticle | src/controllers/article/crud.js:363-369 | the new article is stored under its id and each of its categories counts one more |
| Database.FindByIdAndUpdate | src/controllers/article/crud.js:602-612 | the update result is the handler model's, and the stored article is replaced exactly when it succeeds |
| Database.Store.ApplyUpdate | src/controllers/article/crud.js:602-612 | the stored article is replaced exactly when the update succeeds; the counters are untouched |
| Database.Store.CreateArticle | src/controllers/article/crud.js:256-430 | the collections and the status are those the create handler prescribes, and a consistent store stays consistent |
| Database.Store.UpdateArticleAsWritten | src/controllers/article/crud.js:436-669 | the collections and the status are those the update handler as written prescribes, counters moved before the late checks |
| Database.Store.UpdateArticle | src/controllers/article/crud.js:436-669 | the collections and the status are those the intended update prescribes, and a consistent store stays consistent |
| Database.Store.DeleteArticle | src/controllers/article/crud.js:673-755 | the collections and the status are those the delete handler prescribes; as intended a consistent store stays consistent |
| Database.Store.PublishArticle | src/controllers/article/publish.js:5-62 | the articles and the status are those publish prescribes, the categories untouched, and consistency kept |
| Database.Store.UnpublishArticle | src/controllers/article/publish.js:66-123 | the articles and the status are those unpublish prescribes, the categories untouched, and consistency kept |
| Database.Store.CreateCategory | src/controllers/category/crud.js:149-260 | the categories and the status are those the create handler prescribes, the articles untouched, and consistency kept |
| Database.SaveCategory | src/controllers/category/crud.js:203-212 | the save result is the handler model's, and the category is stored under its new id exactly when it succeeds |
| Database.Store.UpdateCategory | src/controllers/category/crud.js:264-400 | the categories and the status are those the update handler prescribes, the articles untouched, and consistency kept |
| Database.Store.DeleteCategory | src/controllers/category/crud.js:406-474 | the categories and the status are those the delete handler prescribes, the articles untouched, and consistency kept |
| UserModel.NormalEmail | src/models/User/schema.js:11-20 | the stored e-mail is trimmed and has no upper-case letter |
| UserModel.Cast | src/models/User/schema.js:3-103 | the setters leave username, e-mail and names trimmed and the e-mail lower-case, and never touch id, password, role or status |
| UserModel.CastKeeps | src/models/User/schema.js:3-103 | the setters change only the text fields with a `trim` or `lowercase` option, the address part by part |
| UserModel.DefaultAddressCast | src/models/User/schema.js:77-82 | the default address, country "Việt Nam", is left as it is by the setters |
| UserModel.ToJson | src/models/User/schema.js:123-144 | the serialised form keeps every field except the password, the two tokens and the reset expiry, which never appear |
| UserModel.MinPasswordLength | src/models/User/statics.js:100 | the minimum length is the parsed setting, or 6 when the setting is not a number or parses to 0; it is never 0 |
| UserModel.ValidatePassword | src/models/User/statics.js:99-128 | valid exactly when there are no errors and exactly when the password is strong; a missing or empty password gets only Required; otherwise one error per failed rule, each present exactly when its rule fails, in the order length, lower case, upper case, digit |
| UserModel.PageInfo | src/models/User/statics.js:167-197 | for a limit of at least 1: the current page as given, the total, the least page count covering the total, and next/previous flags exactly as the page compares with the count and with 1 |
| UserModel.FullName | src/models/User/virtuals.js:5-7 | the result is trimmed, and for two non-empty trimmed names it is "first last" |
| UserModel.DisplayName | src/models/User/virtuals.js:10-15 | the username whenever one of the names is empty |
| UserModel.DisplayNameOfValid | src/models/User/virtuals.js:10-15 | a user that passes validation shows as its first and last name joined by a space |
| UserModel.Age | src/models/User/virtuals.js:18-31 | none without a date of birth; otherwise the number of birthdays reached by today: the last one is not after today and the next one is |
| UserModel.NonBlank | src/models/User/virtuals.js:37-43 | keeps every part that is set and not blank, and only such parts; empty exactly when every part is missing or blank |
| UserModel.FullAddress | src/models/User/virtuals.js:34-46 | none exactly when all five parts are missing or blank, else the non-blank parts joined by ", " |
| UserModel.DefaultFullAddress | src/models/User/virtuals.js:34-46 | a new user's address shows as "Việt Nam" |
| UserModel.RoleDisplay | src/models/User/virtuals.js:49-57 | the Vietnamese label of a known role, any other role unchanged |
| UserModel.StatusDisplay | src/models/User/virtuals.js:60-69 | the Vietnamese label of a known status, any other status unchanged |
| UserModel.DaysBetween | src/models/User/virtuals.js:97-98 | the least whole number of days covering the distance between the two instants |
| UserModel.DaysBetweenZero | src/models/User/virtuals.js:97-98 | zero days exactly for the same instant, and one day for any distance up to a day |
| UserModel.DaysSinceLastLogin | src/models/User/virtuals.js:92-101 | none exactly before the first login, else the least whole number of days covering the time since it |
| UserModel.AccountAge | src/models/User/virtuals.js:104-113 | the least whole number of days covering the time since creation |
| UserModel.HasPermission | src/models/User/methods.js:123-132 | only the three known roles have permissions; each reads; delete and the manage-users and manage-system actions are admin-only, manage_students faculty-only, write_own student-only |
| UserModel.CanAccess | src/models/User/methods.js:135-157 | admins reach everything and inactive non-admins nothing; the admin panel is admin-only; users are reachable by admins and by active faculty reading; the profile by every active user; other resources by permission |
| UserModel.Only | src/models/User/methods.js:212-216 | keeps exactly the assignments whose key is allowed |
| UserModel.Drop | src/controllers/user/profile.js:57-58 | keeps exactly the assignments whose key is not removed |
| UserModel.RoleIn | src/controllers/user/admin.js:165-169 | a role value exactly when the body assigns a role, and then one of the role assignments in it |
| UserModel.AssignAllRole | src/controllers/user/admin.js:165-169 | after the copy loop the role is the body's role if it gives one, else the old role |
| UserModel.AssignAllKeepsPassword | src/controllers/user/admin.js:165-169 | a body without a password key leaves the password and the id as they were |
| UserModel.ProfileAssignmentsKeepAccount | src/models/User/methods.js:206-219 | assigning only profile fields leaves the username, e-mail, password, role, status, verification, tokens and creation time as they were |
| UserModel.OnlyAfterDrop | src/controllers/user/profile.js:57-58 | removing keys that are not profile fields before updateProfile picks the profile fields changes nothing |
| UserModel.StatusChangesKeepValid | src/models/User/methods.js:97-120 | the status changes and verifyEmail, saved without validation, keep a valid user valid; verifyEmail activates and marks the e-mail verified |
| UserModel.UserDoc.constructor | src/models/User/schema.js:3-145 | the document holds the given user |
| UserModel.UserDoc.VerifyEmail | src/models/User/methods.js:97-102 | the e-mail is marked verified, the verification token cleared and the status made active; nothing else changes |
| UserModel.UserDoc.Activate | src/models/User/methods.js:105-108 | the status becomes active and nothing else changes |
| UserModel.UserDoc.Deactivate | src/models/User/methods.js:111-114 | the status becomes inactive and nothing else changes |
| UserModel.UserDoc.Suspend | src/models/User/methods.js:117-120 | the status becomes suspended and nothing else changes |
| UserModel.UserDoc.UpdateLastLogin | src/models/User/methods.js:56-59 | the last login becomes the current time and nothing else changes |
| UserModel.UserDoc.ChangePassword | src/models/User/methods.js:62-68 | the password becomes the digest of the new password and both reset fields are cleared; nothing else changes |
| UserModel.UserDoc.GeneratePasswordResetToken | src/models/User/methods.js:71-82 | the reset token becomes the digest of the handed-back token and expires ten minutes from now; nothing else changes |
| UserModel.UserDoc.GenerateEmailVerificationToken | src/models/User/methods.js:85-94 | the verification token becomes the digest of the handed-back token; nothing else changes |
| UserModel.UserDoc.UpdateProfile | src/models/User/methods.js:206-219 | the allowed keys of the body are assigned in order, and the account fields stay as they were |
| UserHooks.PasswordGate | src/models/User/hooks.js:15-27 | a plain password passes exactly when it is strong and is then replaced by its digest, else refused with validatePassword's errors; an already hashed value passes exactly when the minimum length is at most 60 |
| UserHooks.Save | src/models/User/hooks.js:8-54 | an invalid user is refused before any hook; the password hook refuses only a modified password that fails the gate; otherwise the save succeeds with the modified password hashed, the modified e-mail normalised, the modified username trimmed, the update time set and nothing else changed |
| UserHooks.NormalisationIdle | src/models/User/hooks.js:41-54 | on values the setters already normalised, the e-mail and username hooks change nothing |
| UserHooks.SavedPasswordHashed | src/models/User/hooks.js:8-38 | a saved modified password is stored hashed, and a plain one only when it was strong, as a digest that matches it |
| UserHooks.RemoveKeepsAnAdmin | src/models/User/hooks.js:78-97 | a removal the pre-remove hook allows leaves at least one admin |
| UserHooks.RemoveRefusedOnlyForLastAdmin | src/models/User/hooks.js:78-97 | the hook refuses exactly the removal of an admin that would leave no admin |
| UserHooks.UpdateHook | src/models/User/hooks.js:100-135 | refused exactly when a given password is weak, with validatePassword's errors; a given password is hashed, a given e-mail lower-cased and trimmed, a given username trimmed, and falsy values passed through |
| UserHooks.UpdateHookAgreesWithSave | src/models/User/hooks.js:8-38 | the update hook and the save hook accept the same plain password and store the same digest of it |
| UserStore.FindById | src/controllers/user/admin.js:128 | a position exactly when some stored user has the id, and then the user there has it |
| UserStore.FindByIdUnique | src/models/User/index.js:15-16 | with unique accounts the lookup by a stored user's id finds that very user |
| UserStore.FindByIdentifier | src/models/User/statics.js:8-15 | the first user whose e-mail is the lower-cased identifier or whose username is the identifier; none exactly when no user matches |
| UserStore.AdminCountReplace | src/controllers/user/admin.js:153-162 | replacing one user changes the admin count only by that user's change of role |
| UserStore.RemoveAt | src/controllers/user/admin.js:253 | the collection without the removed user, the others in their order |
| UserStore.AdminCountRemove | src/models/User/hooks.js:80-87 | removing a user lowers the admin count by one exactly when that user is an admin |
| UserStore.RemoveKeepsInvariants | src/models/User/index.js:15-16 | removing a user keeps ids, usernames and e-mails unique and every password hashed |
| Auth.BearerToken | src/middleware/auth.js:8-24 | a token exactly when the header starts with "Bearer ", and then the header is that prefix followed by the token |
| Auth.Authenticate | src/middleware/auth.js:5-87 | 401 without a bearer token and for a token that does not verify; passes, or is refused with 403, exactly when the token names a stored user; passes only for an active or pending user, with the request user made from that stored user |
| Auth.Authorize | src/middleware/auth.js:90-126 | passes exactly for a signed-in user whose role is listed, leaving the user as it was; 401 without a user, 403 for an unlisted role |
| Auth.RoleShorthands | src/middleware/auth.js:129-135 | adminOnly admits exactly admins, facultyOrAdmin exactly faculty and admins, authenticatedUsers exactly the three roles; whoever adminOnly admits the other two admit |
| Auth.AuthenticatedThenAuthorized | src/middleware/auth.js:5-126 | after authenticate passes, authorize passes exactly when the signed-in user's role is listed |
| Auth.OptionalAuth | src/middleware/auth.js:138-173 | never refuses; a user is set only for an active or pending one |
| Auth.OptionalAuthAgrees | src/middleware/auth.js:138-173 | optionalAuth sets a user exactly when authenticate would pass, and then the same user |
| Auth.OwnerOrAdmin | src/middleware/auth.js:176-212 | 401 without a user; admins pass; anyone else passes exactly when their id is the resource's user id, else 403; a passing user is unchanged |
| Auth.OwnerOrAdminOwnOnly | src/middleware/auth.js:186-208 | a non-admin who passes is named by the route parameter, or by the body field when the parameter is missing or empty |
| AuthController.NewUser | src/controllers/user/auth.js:28-38 | the new user has the fresh id, is pending, unverified and never signed in, has the requested role or student, and holds the given password as plain text until saved |
| AuthController.Register | src/controllers/user/auth.js:5-96 | 500 without an e-mail; 400 when the e-mail names an existing account; 201 exactly when the save succeeds and clashes with no account, appending the saved user; any other answer changes nothing; as intended there is always an answer |
| AuthController.RegisteredUser | src/controllers/user/auth.js:28-39 | a registered user is pending, has the requested role (admin included) or student, and signs in with exactly the given password |
| AuthController.RegisterPublic | src/controllers/user/auth.js:28-39 | as intended for a public route: a registration answers 201, 400 or 500, changes nothing unless it succeeds, and appends exactly one account, a student, with the new id |
| AuthController.SelfMadeAdmin | src/controllers/user/auth.js:35 | as written a body asking for role admin that registers gets an admin account; the public register never creates one |
| AuthController.AppendKeepsInvariants | src/models/User/index.js:15-16 | appending a hashed account that clashes with none keeps accounts unique and passwords hashed |
| AuthController.RegisterKeepsInvariants | src/controllers/user/auth.js:5-96 | registration keeps accounts unique and every stored password hashed |
| AuthController.RegisterWeakPassword | src/controllers/user/auth.js:57-95 | a record that passes the schema with a password that fails the strength rule gets no response as written and 400 as intended, the users unchanged |
| AuthController.WeakPasswordHookRejects | src/models/User/hooks.js:15-23 | a new account the schema accepts but whose password fails the strength rule is refused by the password hook |
| AuthController.HookRejectedAnswer | src/controllers/user/auth.js:57-95 | a registration the password hook refuses goes unanswered as written and gets 400 as intended, with the accounts unchanged |
| AuthController.WeakInputCrashesRegister | src/models/User/hooks.js:15-23 | the concrete body with password "abcdef" gets no response as written and 400 as intended |
| AuthController.Login | src/controllers/user/auth.js:99-200 | 400 for a missing identifier or password; 200 exactly when the identifier finds a user whose password matches and who is active or pending, and then only that user's last login and update time change; any other answer changes nothing |
| AuthController.LoginHidesWhichFailed | src/controllers/user/auth.js:120-149 | an unknown identifier and a wrong password both answer 401 and change nothing |
| AuthController.LoginKeepsInvariants | src/controllers/user/auth.js:99-200 | a login keeps accounts unique and every stored password hashed |
| ProfileController.LoginMatching | src/controllers/user/auth.js:135-164 | a found account whose password matches the candidate signs in or is refused for its status (200 or 403) |
| ProfileController.LoginLocked | src/controllers/user/auth.js:135-149 | a found account whose stored password no candidate matches answers 401 to every sign-in |
| AuthController.Refresh | src/controllers/user/auth.js:203-263 | 400 without a token; 200 exactly for a verified refresh token naming an existing active user; else 401 |
| AuthController.PendingCannotRefresh | src/controllers/user/auth.js:218-234 | a pending user signs in with 200, yet their refresh token is refused with 401 |
| AuthController.Logout | src/controllers/user/auth.js:266-308 | the answer is 200 and no user changes |
| ProfileController.RestrictedStripRedundant | src/controllers/user/profile.js:57-72 | removing the restricted keys before updateProfile changes nothing: the allow-list keeps none of them |
| ProfileController.ProfilePathsUnhooked | src/models/User/hooks.js:8-54 | no profile field is one the pre-save hooks look at |
| ProfileController.UpdateProfile | src/controllers/user/profile.js:49-107 | 404 exactly for a caller no longer stored; 200 exactly when the edited user passes validation, and then only the caller's record changes, by the allowed assignments and the update time, its account fields kept; any refusal changes nothing |
| ProfileController.UpdateProfileKeepsInvariants | src/controllers/user/profile.js:49-107 | a profile update keeps accounts unique, passwords hashed and the admin count |
| ProfileController.PasswordAssigned | src/models/User/methods.js:62-68 | before saving, the password is the digest of the new one as written and the new one itself as intended; both clear the reset fields and change nothing else |
| ProfileController.PasswordPathsHooked | src/models/User/hooks.js:8-54 | of the paths the hooks look at, changePassword modifies only the password |
| ProfileController.ChangePassword | src/controllers/user/profile.js:110-195 | 400 for a missing field or a confirmation that differs; 200 only for a stored caller whose current password matches and whose new password is strong, and then only the caller's password, reset fields and update time change; any refusal changes nothing |
| ProfileController.ChangedPasswordMatches | src/controllers/user/profile.js:173 | as intended, after a change the new password and only it matches the stored one |
| ProfileController.ChangedPasswordLocksOut | src/models/User/methods.js:62-68 | as written, a change stores the digest of a digest, which no password matches |
| ProfileController.LoginAfterChangeFails | src/controllers/user/auth.js:135-149 | as written, signing in to the changed account with any password answers 401 |
| ProfileController.LoginAfterChangeSucceeds | src/controllers/user/auth.js:135-165 | as intended, signing in with the new password answers 200, or 403 for an account that may not sign in |
| ProfileController.ChangePasswordKeepsInvariants | src/controllers/user/profile.js:110-195 | a password change keeps accounts unique, passwords hashed and the admin count |
| ProfileController.DeleteAccount | src/controllers/user/profile.js:198-276 | 400 without a password; 200 exactly for a stored caller whose password matches and who is not the last admin, and then the caller alone is removed; 500 only for an empty stored password; any refusal changes nothing |
| ProfileController.DeleteAccountKeepsAnAdmin | src/controllers/user/profile.js:242-254 | self-deletion keeps at least one admin, unique accounts and hashed passwords |
| ProfileController.DeleteAccountNever500 | src/controllers/user/profile.js:226-254 | with every password hashed, self-deletion never answers 500 |
| AdminController.SortOrderParam | src/controllers/user/admin.js:40 | the user list's sort direction is always 1 or -1 |
| AdminController.SortOrderAgainstShared | src/controllers/user/admin.js:40 | the admin listing agrees with the shared normalizeSortOrder on 'asc', 'desc' and an absent order, but sorts 'DESC' and '-1' ascending where the shared helper sorts them descending |
| AdminController.Paths | src/controllers/user/admin.js:165-169 | the modified paths are exactly the keys the body assigns |
| AdminController.WithheldUntouched | src/controllers/user/admin.js:166 | the body without its password keys leaves the password and the id as they were, and marks no password path |
| AdminController.AdminUpdate | src/controllers/user/admin.js:121-207 | 500 for a target id that is no ObjectId, 404 exactly when no user has the ObjectId a well-formed one casts to; 200 only when the edited user is valid and clashes with no other account, and then only the target changes, to the saved edit, keeping its password and id and taking the body's role if it gives one; any refusal changes nothing |
| AdminController.Commit | src/controllers/user/admin.js:171-205 | 200 exactly when the save succeeds and clashes with no other account, with the saved user in place; 400 or 500 otherwise, nothing changed |
| AdminController.RoleAfterDrop | src/controllers/user/admin.js:165-169 | removing the password keys leaves the role the body gives |
| AdminController.OwnRoleUnchanged | src/controllers/user/admin.js:144-150 | a successful update of the caller's own account, under any spelling of its id, leaves its role as it was |
| AdminController.AdminUpdateKeepsAnAdmin | src/controllers/user/admin.js:153-162 | an update never leaves the collection without an admin |
| AdminController.AdminUpdateKeepsInvariants | src/controllers/user/admin.js:121-207 | an update keeps every password hashed and accounts unique |
| AdminController.AdminDelete | src/controllers/user/admin.js:210-276 | 500 for a target id that is no ObjectId, 404 exactly when no user has the ObjectId a well-formed one casts to; 200 exactly when that ObjectId is another user's account that is not the last admin, and then that account alone is removed; any refusal changes nothing |
| AdminController.AdminDeleteKeepsAnAdmin | src/controllers/user/admin.js:232-253 | a deletion keeps at least one admin, unique accounts and hashed passwords |
| AdminController.MalformedTargetIs500 | src/controllers/user/admin.js:128 | a target id that is no ObjectId gets 500 from updateUser and deleteUser (admin.js:128 and 216), the users unchanged, whether or not a user holds it |
| AdminController.AnySpellingOfTarget | src/controllers/user/admin.js:128 | updateUser and deleteUser answer a target id exactly as its lower-case form, so the self-protection checks of admin.js:144 and 232 hold under any spelling of the caller's id |
| AdminController.CopyFields | src/controllers/user/admin.js:165-169 | the loop assigns every key of the body but the password, in order, and marks exactly those paths; password and id are kept and the role is the body's if it gives one |
| AdminController.Directory.constructor | src/controllers/user/admin.js:121-127 | the directory holds the given users |
| AdminController.Directory.UpdateUser | src/controllers/user/admin.js:121-207 | the answer and the new collection are those updateUser prescribes |
| AdminController.Directory.DeleteUser | src/controllers/user/admin.js:210-276 | the answer and the new collection are those deleteUser prescribes |
| RegistrationRecord.Cast | src/models/StudentRegistration.js:6-36 | the setters leave every text field trimmed and the e-mail lower-case, and keep the address, user agent and time |
| RegistrationRecord.CastIdle | src/models/StudentRegistration.js:6-36 | on a record already trimmed with a lower-case e-mail the setters change nothing |
| RegistrationRecord.CastIdempotent | src/models/StudentRegistration.js:6-36 | casting twice is casting once |
| StudentRegistration.Sanitize | src/controllers/student/registration.js:7-10 | the result is trimmed; it is the trimmed text of a string and empty for anything else |
| StudentRegistration.SanitizeIdempotent | src/controllers/student/registration.js:7-10 | sanitising a sanitised value changes nothing |
| StudentRegistration.Sanitized | src/controllers/student/registration.js:49-55 | every field of the form is trimmed, and the e-mail is the sanitised e-mail lower-cased |
| StudentRegistration.Errors | src/controllers/student/registration.js:58-70 | each field has an entry exactly when it is missing or fails its check (name and major also when too long, as intended only); the facebook link only when given and not an http(s) URL; Required only for a missing field |
| StudentRegistration.NoErrors | src/controllers/student/registration.js:58-75 | a form has no errors exactly when every field passes its check |
| StudentRegistration.NoErrorsIffValid | src/models/StudentRegistration.js:5-44 | as intended, a form passes the handler's checks exactly when its record passes the schema and its facebook link, if any, is an http(s) URL |
| StudentRegistration.VerifyRecaptcha | src/controllers/student/registration.js:19-42 | passes exactly when verification is off, or the token and the secret are set and the service confirms; a missing token and a missing secret are refused before the service is asked |
| StudentRegistration.RegisterStudent | src/controllers/student/registration.js:44-102 | 400 for any form error; 201 exactly when the form has no errors, the reCAPTCHA gate passes and the record is valid, appending exactly that record; otherwise 400 or 500 with the records unchanged |
| StudentRegistration.InvalidFormIgnoresCaptcha | src/controllers/student/registration.js:72-78 | a form with errors gets the same answer whatever the reCAPTCHA setting and verdict |
| StudentRegistration.IntendedNever500 | src/controllers/student/registration.js:85-101 | as intended, a registration is never answered with 500 |
| StudentRegistration.LongNameIs500 | src/controllers/student/registration.js:58-101 | a name over 100 characters in an otherwise valid form answers 500 as written and 400 as intended, storing nothing |
| StudentRegistration.StoredRecordValid | src/controllers/student/registration.js:85-97 | as intended, a stored registration passes the schema with a valid facebook link, and the earlier records are kept |
| Patterns.EmailLikeOneAt | src/controllers/student/registration.js:12 | an address the e-mail pattern accepts has exactly one '@' |
| Patterns.EmailAccepted | src/controllers/student/registration.js:12 | the pattern accepts an ordinary address |
| Patterns.EmailNeedsAt | src/controllers/student/registration.js:12 | text without an '@' is refused |
| Patterns.VietnamesePhoneShape | src/controllers/student/registration.js:13 | a number written with a leading 0 also fits the user schema's ten-or-eleven-digit pattern; any other starts with '+84' and is twelve or thirteen characters long |
| Patterns.ObjectIdKey | src/controllers/article/crud.js:458 | the ObjectId an id casts to, as text: same length, each hex digit A-F lowered and every other character kept, and for a well-formed id the stored lower-case form |
| Patterns.CanonicalIdIsKey | src/controllers/article/crud.js:458 | an id in the stored lower-case form casts to itself |
| Seqs.DistinctCount | src/controllers/article/crud.js:312 | a list has at least as many elements as distinct ones, and exactly as many when none repeats |
| Seqs.Dedup | src/controllers/article/crud.js:298 | the result has no repetitions and holds exactly the elements of the input |
| Seqs.DedupOfNoDup | src/controllers/article/crud.js:520 | a list without repetitions is its own de-duplication |
| Seqs.Without | src/models/Article/methods.js:134 | every occurrence of the element is gone and every other element keeps its number of occurrences |
| Seqs.AddIfAbsent | src/models/Article/methods.js:107-114 | the element is present afterwards; a list that had it is unchanged, otherwise it is appended |
| Seqs.AddIfAbsentNoDup | src/models/Article/methods.js:122-130 | adding keeps a list free of repetitions |
| Seqs.WithoutAfterAdd | src/models/Article/methods.js:122-137 | adding and then removing an element is the same as removing it |
| Seqs.Except | src/controllers/article/crud.js:540-541 | exactly the elements of the first list that the second lacks |

## Left out

- The database engine: queries are lookups in maps and sequences. The unique indexes become store invariants (`UserStore.UniqueAccounts`, the slug checks of the article and category stores). Fresh ids, which MongoDB generates, are parameters, and `requires newId !in …` says they are fresh. An id that a request names is tested with the source's own ObjectId pattern `/^[0-9a-fA-F]{24}$/` (`Patterns.ObjectIdText`); any other id makes Mongoose's cast throw a CastError, which each handler's catch block answers with 500. A well-formed id is looked up as the ObjectId it casts to (`Patterns.ObjectIdKey`), its hex digits in lower case, the form in which stored ids are kept, so any spelling that differs only in case finds the same document; category ids in a request body are stored in that form too. The twelve-character string form that older bson releases also cast to an ObjectId is not modelled.
- `populate`, `$text` and regular-expression search, `aggregate` and `countDocuments` beyond the admin count. With them go the listing and lookup handlers that only wrap such queries: `getArticles`, `getArticle`, `getArticleBySlug`, `getCategories`, `getCategory`, `getProfile`, `getAllUsers` (its sort order is modelled by `AdminController.SortOrderParam`), `getUserById`, the search and statistics controllers, and the finders of the model statics.
- Foreign libraries are oracles or parameters:
  - bcrypt is `Secret`, with no salt or cost factor. A digest is taken to pass the strength rule exactly when the minimum length is at most 60: it is 60 characters long, and its "$2a$" prefix holds a digit and a lower-case letter. The upper-case rule is an assumption: the prefix has no upper-case letter, and the model takes the 53 base-64 characters of salt and hash to hold one, which is almost certain but not guaranteed.
  - jsonwebtoken is a `Verifier` function from token to claims, and the token-generating methods are left out.
  - `crypto.randomBytes` and SHA-256 are the given `digest`; `uuid` is the given unique id.
  - sharp's re-encoding is a step that may fail.
  - The reCAPTCHA HTTP call is an optional verdict.
  - express-rate-limit's window counting is a step that passes or answers 429.
- The file system is a set of (directory, name) pairs. `fs` calls, `res.sendFile` and `ensureDirectories` are left out.
- Wall-clock time is the parameter `now`. The DDoS sweep timer is the explicit method `Ddos.Guard.SweepAll`.
- Logging, the timezone helpers, route wiring, CORS and the re-export files are left out.
- Concurrency is left out: the check-then-act races between the slug checks and the writes, and the non-transactional counter updates. Each handler runs alone and in order.
- The view and like counts in K/M form (`toFixed(1)`) are left out because they use floating-point numbers.
- The profile and export builders (`getBasicInfo`, `getDetailedInfo`, `getPublicProfile`, `getDetailedProfile`, `exportData`, `getSelectOption`), the `duplicate` method of an article, and the `authorName` and `categoryNames` virtuals are left out. They copy fields into plain objects or read populated documents.
- `updateSlugFromTitle` and `updateSlugFromName` are left out. The only caller of the second is the slug branch of `updateFromImport`, which as written runs only for an imported name with surrounding whitespace (`CategoryModel.ImportPaddedNameRefreshes`).
- Article hooks.js:167-206, the post-save increment for a new article, is left out. Mongoose has already cleared `isNew` when post-save hooks run, so the branch never runs, and the handler's own increment is the only one.
- Request values are strings, absent values or the few JSON shapes `Js.Value` lists. Numbers are integers or NaN.
- Characters are Unicode scalar values, not JavaScript's UTF-16 code units. A character outside the Basic Multilingual Plane, such as an emoji, counts 1 towards a `maxlength` in the model and 2 in the source, so a name of 60 emoji passes the model's limit of 100 and fails the schema.
- `toLowerCase` and `toUpperCase` cover the one-to-one case pairs of ASCII, Latin-1, Latin Extended-A and the Vietnamese letters, plus the capitals of µ, ı and ſ. Other characters are left unchanged. Among them are the characters whose other case is two characters long: U+0130 (capital I with dot) stays as it is under `toLowerCase`, and ß (U+00DF) and ŉ (U+0149), which `toUpperCase` turns into "SS" and "ʼN", stay as they are under `Js.UpperChar`. So `CategoryModel.NormalizeName` keeps a category name that starts with ß or ŉ as it is, where the save hook starts it with "SS" or "ʼN" and makes it one character longer.
- `featuredImage` is held as its URL text.
- The `createdAt` and `updatedAt` of a user cannot be assigned through a request body.
- `AdminController.AdminUpdate`: a request body is a sequence of `UserModel.Assignment`s over twelve user fields. `updateUser` copies every other key of the body too (`lastLogin`, the token fields, even `_id`), which the model cannot express.
- `UserModel.PageInfo`: for a limit below 1 it gives no page information. The source divides by zero or by a negative limit and answers Infinity or NaN page counts, which `getAllUsers` reaches through its unclamped `parseInt(limit)` (src/controllers/user/admin.js:38).
- `ImageFiles.ImageStore.PromoteTempImage`: for the URL `/api/images/temp_images/..` the model answers None and changes nothing. The source checks the project directory, renames it onto itself and answers `/api/images/..`; the file system here holds files, not directories.
- `ImageRoutes.ServeParams`: matches the URL text as it arrives. Express also percent-decodes the parameters, matches the path without regard to letter case and accepts a trailing slash.
- `ArticleModel.WithCategory`: `addCategory` ends in `save()`, whose categories hook refuses a missing or inactive category with a ValidationError; the model always adds the id.
- `ArticleModel.ArticleDoc.AddCategory`: the same refusal is left out.
- `ArticleModel.ArticleDoc.RemoveCategory`: the save can still be refused when a remaining category has become inactive or was deleted; the model always removes the id.
- `ArticleModel.WithTag`: the save's tag hook also trims, lower-cases and drops blank entries among the tags already stored; the model normalises only the added tag. The save's refusal is modelled only for the added tag's length; the other fields and the stored tags are taken to pass validation as they did when stored.
- `ArticleModel.ArticleDoc.AddTag`: the same, for the document method. After a refused save the in-memory document of the source still holds the pushed tag; the model keeps the record as stored.
- `UserHooks.Save`: sets `updatedAt` on every save, while Mongoose's timestamps leave it unchanged on a save that modified nothing.
- `SortUtils.CreatePaginationResponse`: requires a limit of at least 1. Every caller passes one, and with 0 JavaScript would divide by zero and answer Infinity and NaN.
- `CategoryModel.FindWithPagination`: requires a limit of at least 1, for the same reason.
- `UserHooks.PasswordGate`: on an already hashed password it states the digest assumption above, not bcrypt's real output.
- `Database.Store.DeleteArticle`: keeps the store consistent only as intended. As written it breaks consistency (see the findings).
- `Database.Store.UpdateArticleAsWritten`: keeps no consistency invariant, because as written the counters drift.
- The update handler compares the body's category ids with the stored ones as text (src/controllers/article/crud.js:541-542), so a kept category re-sent with upper-case hex digits is decremented and then incremented again. The model moves the counters between the two lists of ObjectIds (`ArticleController.Moved`), which leaves the same counters without the two steps.

## Findings

| source | as written | input that shows it | evidently intended | confidence | as-written member | corrected member |
|---|---|---|---|---|---|---|
| src/middleware/ddosProtection.js:56-81 | the first request of every new second has count 1, so it clears `firstAggressiveAt`; a kept value therefore lies in the current second, and `now - firstAggressiveAt >= 30000` never holds | any flood, for example 50 requests a second from one address for 10 minutes: never blocked | more than ten requests a second sustained for 30 seconds blocks the address | high, not executed | Ddos.NeverBlocks | Ddos.FloodBlocksIntended |
| src/middleware/upload.js:27 | the explanation is passed as the second argument of `MulterError`, which is the field name, so the message is multer's own "Unexpected field" | a file "a.exe" of type application/octet-stream | the client reads "Invalid file type. Only JPEG, PNG, GIF, and WebP are allowed." | high, not executed | ImageRoutes.RejectionMessageAsWritten | ImageRoutes.RejectionMessageIntended |
| src/utils/fileUtils.js:34 | the promoted image's URL is `/api/images/<name>`, with no directory segment, which the serve route never matches | promoting `/api/images/temp_images/x.jpg` returns `/api/images/x.jpg`, which is never served | `/api/images/images/<name>`, as an upload returns | medium, not executed | ImageFiles.PromotedUrlNotServed | ImageFiles.PromotedUrlServedIntended |
| src/models/Category/virtuals.js:112-117 | the colour is read as three hex pairs, so a three-digit colour mixes its digits and the third pair is empty | colour '#F00' shows 'rgba(240, 0, NaN, 0.1)' | 'rgba(255, 0, 0, 0.1)', the colour the schema accepts | high, not executed | CategoryModel.ColorWithOpacityShortColor | CategoryModel.ColorWithOpacityExpandedBytes |
| src/models/Category/methods.js:182-191 | the name is compared with `this.name` after it was assigned (trimmed), so a rename to a trimmed name never refreshes the slug, and a padded name refreshes it even when it does not rename | importing name "Tin mới" into a category named "Tin cũ" keeps the slug "tin-cu" | the slug follows a new name | high, not executed | CategoryModel.ImportSlugRefreshDead | CategoryModel.ImportVersionsDiffer |
| src/models/Article/methods.js:227-256 | the checks read `user._id`, which the authentication middleware never sets, so a non-admin makes them throw | an author editing their own draft gets 500 | the caller's `id` is compared with the author | high, not executed | ArticleController.NonAdminsGet500 | ArticleModel.DeleteImpliesEdit |
| src/controllers/article/crud.js:536-589 | the category counters move before the slug check, which can still refuse with 400 | moving an article out of category c with a slug another article holds: 400, yet c counts one article fewer | a refused update changes nothing | high, not executed | ArticleController.UpdateRefusedAfterCounting | ArticleController.UpdateKeepsConsistent |
| src/controllers/article/crud.js:716-724 | each category of a deleted article is decremented by the handler and by both registered pre-findOneAndDelete hooks (Article hooks.js:231-252 and 369-390) | deleting the only article of a category leaves its count at -2, and the category can no longer be deleted | one decrement per category | high, not executed | CategoryController.DeletedArticleLocksCategory | ArticleController.DeleteKeepsConsistent |
| src/models/Article/hooks.js:10-13 | a new document always gets a slug generated from its title, replacing a slug it was given (the same at Category hooks.js:10-13 for the name) | creating an article titled "Tin tức" with slug "thong-bao" stores "tin-tuc" | a slug is generated only when none was given | high, not executed | ArticleController.CreateSlugReplaced | ArticleHooks.PreSaveNewKeepingSlug |
| src/models/Article/hooks.js:336-341 | an update that sends the status 'published' without a date is given the date now, even when the article was already published | re-saving a published article with its status unchanged re-dates it | the original publication date is kept | medium, not executed | ArticleController.RepublishRedates | ArticleHooks.UpdateHook |
| src/models/Article/virtuals.js:45-47 | `hasFeaturedImage` reads `featuredImage.url`, but `featuredImage` is a string (src/models/Article/schema.js:33-37), so the virtual is always false | an article with featuredImage "/api/images/images/a.jpg" reports no featured image | true exactly when an image URL is set | high, not executed | ArticleModel.FeaturedImageIgnored | ArticleModel.HasFeaturedImageIntended |
| src/models/Article/hooks.js:294-297 | the update hook generates a slug from any title that comes without a slug, although the controller sends a slug only for a changed title | an update re-sending an article's unchanged title replaces its custom slug "thong-bao" by the one generated from the title | the slug stays when the title does not change | medium, not executed | ArticleHooks.SameTitleReplacesSlug | ArticleHooks.UpdateHook |
| src/models/Category/hooks.js:181-184 | the category update hook generates a slug from any name that comes without a slug, although the handler sends a slug only for a changed name | an update re-sending a category's unchanged name replaces its custom slug | the slug stays when the name does not change | medium, not executed | CategoryController.SameNameReplacesSlug | CategoryModel.UpdateHookIntended |
| src/controllers/user/auth.js:57-95 | the password hook's ValidationError has no `errors`, so the catch block throws; no response is sent, and the unhandled rejection makes the process exit (src/index.js:119-126), so one public registration stops the server | registering with password "abcdef", which the schema accepts but the strength rule refuses | 400 with the hook's message | high, not executed | AuthController.WeakInputCrashesRegister | AuthController.Register |
| src/controllers/user/auth.js:35 | the public register route stores the role the request body asks for, 'student' only when it asks for none, so anyone can create an admin account | registering with role 'admin' and a strong password creates an admin | every self-registered account is a student | medium, not executed | AuthController.RegisteredUser | AuthController.RegisterPublic |
| src/models/User/methods.js:62-68 | `changePassword` hashes the new password and the pre-save hook hashes it again | after changing the password to "NewPass1", signing in with "NewPass1" answers 401 | the password is stored hashed once | high, not executed | ProfileController.ChangedPasswordLocksOut | ProfileController.ChangedPasswordMatches |
| src/controllers/student/registration.js:58-75 | the handler does not check the schema's length limits, so `create` fails and the catch answers 500 | a valid form whose name is 101 characters long | 400 with a field error | high, not executed | StudentRegistration.LongNameIs500 | StudentRegistration.IntendedNever500 |
