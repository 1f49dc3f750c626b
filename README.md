# BlogKafka core, modelled in Dafny

BlogKafka is a news site: an Express/MongoDB API serves news articles, and a React
client lists, filters and shows them to signed-in readers. This project models the
logic of that system that does not depend on I/O, and proves what it promises:

- **The client's authentication slice** (`AuthSlice`). This is a Redux reducer over ten
  fields plus the two browser-storage entries "token" and "user". It appears twice: as
  the pure transition function `Reduce`, which the invariants are proved about, and as
  the class `AuthStore`, whose `Dispatch` assigns the fields in place and is proved
  equal to `Reduce`.
- **The session guard middleware** (`SessionGuard`). It covers reading the bearer
  token, validating it, the admin and role gates, and the `checkAdmin` chain over one
  request/response exchange.
- **The news controller** (`NewsController`). It covers creation with its
  required-field check, the three paged listings (query, order, window, page count)
  and lookup, update and deletion by id, over a collection held by `NewsCollection`.
- **The news grid page** (`NewsGrid`). It covers the category and search filters,
  the bookmark and like toggles, and the line that counts the results.
- **The image helpers** of the client (`ImageUtils`) and of the server
  (`Cloudinary`). They cover safe URLs with rotating fallbacks, the Cloudinary
  transformation rewrite, the upload filter and size limit, the skipped deletion, and
  public-id extraction.
- **The news card helpers** (`NewsCard`). They cover preview truncation, the
  category colour and glow, relative dates, and the sign-in guards of the four
  buttons.
- **The e-mail verification page** (`VerifyEmail`). It covers the six-digit code
  sanitiser, the submit guard, and the resend button with its sixty-second cooldown.

`Wrappers` holds `Option`. `Text` holds the string operations the code relies on
(`split`/`join`, `startsWith`, `includes`, ASCII lower-casing, `trim`'s whitespace,
decimal rendering of numbers).

Foreign behaviour enters as parameters:

- `parse` is `JSON.parse` of the stored user.
- `validate` is `ValidateToken`.
- `textMatch` is MongoDB's `$text` search.
- `looksLikeImage` is the URL constructor and the two regular expressions.
- `destroy` is the Cloudinary deletion call.
- `now` and the parsed dates replace the clock and `new Date`.

Toasts, navigation, dispatches and HTTP answers are values the model returns or records.

Where the code and its description differ, the model follows the code:

- The initial state of the auth slice counts any stored token as a session without
  looking at `isVerified`. Only `loadUserFromStorage` checks it (`InitialStateTrustsToken`).
- `requireRole("admin")` answers "admin access required" in lower case, unlike
  `requireAdmin` (`RoleGateGeneralisesAdmin`).
- A date between 23 and 24 hours away is shown as "1d ago" (`FormatDateRanges`).

## Model

| member | source | states |
|---|---|---|
| AuthSlice.Reduce | frontend/src/store/slices/authSlice.js:160-322 | A signed-out state becomes signed in only by a fulfilled login or by a restore from storage holding both entries and a verified user. A fulfilled login signs in with no pending verification. Pending cases set loading and settled cases clear it. Storage is unchanged except that restore or a rejected login may remove both entries. `loginError` rises only on a rejected login and falls only on `clearLoginError`. Both logout outcomes end signed out. |
| AuthSlice.ApplyReducer | frontend/src/store/slices/authSlice.js:164-184 | The seven own reducers never touch loading or authentication. Only `clearLoginError` changes `loginError`, and it clears it. |
| AuthSlice.ApplyThunkCase | frontend/src/store/slices/authSlice.js:215-320 | For the request cases, loading holds exactly for the pending ones. Only a fulfilled login authenticates. `loginError` is kept. Logout outcomes end signed out. |
| AuthSlice.ApplyPending | frontend/src/store/slices/authSlice.js:215-299 | Every pending case sets loading and keeps authentication and `loginError`. |
| AuthSlice.ApplySettled | frontend/src/store/slices/authSlice.js:220-320 | Every settled case clears loading. Only a fulfilled login authenticates, and it clears the pending verification. Logout outcomes end signed out. |
| AuthSlice.InitialStateTrustsToken | frontend/src/store/slices/authSlice.js:146-157 | The initial state is authenticated exactly when a non-empty token is stored, whatever the stored user says. Every feedback flag starts cleared. |
| AuthSlice.RestoreOutcomes | frontend/src/store/slices/authSlice.js:185-210 | A verified stored user gets token, user and authentication. An unverified one has both entries removed and becomes the pending verification, with token, user and authentication untouched. Unparseable or null data only clears storage. Without both entries nothing changes. |
| AuthSlice.LoginRejectedOutcomes | frontend/src/store/slices/authSlice.js:244-259 | A rejected login always records the error and raises `loginError`. With both email and userId it also signs out, sets the pending email and removes both entries. Otherwise nothing else changes. |
| AuthSlice.LogoutOutcomes | frontend/src/store/slices/authSlice.js:300-320 | Both outcomes clear user, token, authentication, the pending verification and both success flags. Only the fulfilled one also clears error and message. |
| AuthSlice.PendingResetsFeedback | frontend/src/store/slices/authSlice.js:215-299 | The signup, login, verify and resend pending cases set loading and clear error and message. Logout's pending case only sets loading. |
| AuthSlice.VerifyOutcomes | frontend/src/store/slices/authSlice.js:267-277 | A fulfilled verification clears the pending email and raises `verificationSuccess`. A rejected one lowers it and records the error. |
| AuthSlice.ClearReducersTouchOneField | frontend/src/store/slices/authSlice.js:164-184 | Each clear reducer resets exactly its own field, and the whole rest of the session is equal. |
| AuthSlice.SessionNeedsLoginOrVerifiedRestore | frontend/src/store/slices/authSlice.js:185-243 | Over any action sequence, a signed-out client that ends signed in passed through a fulfilled login, or through a restore whose storage at that step held a verified user. |
| AuthSlice.UnverifiedStorageNeverSignsIn | frontend/src/store/slices/authSlice.js:185-210 | Without a fulfilled login, storage that does not hold a verified user never produces a session and never comes to hold one. |
| AuthSlice.LoginErrorNeedsRejectedLogin | frontend/src/store/slices/authSlice.js:244-247 | Over any action sequence, a raised `loginError` needs a rejected login somewhere in it. |
| AuthSlice.AuthStore.constructor | frontend/src/store/slices/authSlice.js:146-157 | The store starts in the initial state read from storage. |
| AuthSlice.AuthStore.Dispatch | frontend/src/store/slices/authSlice.js:160-322 | The in-place field updates give the state and storage `Reduce` gives, so every property of `Reduce` holds of the store. |
| AuthSlice.AuthStore.LoadFromStorage | frontend/src/store/slices/authSlice.js:185-210 | The in-place restore equals the pure restore. |
| AuthSlice.AuthStore.OnLoginRejected | frontend/src/store/slices/authSlice.js:244-259 | The in-place rejected-login case equals the pure one, including the storage removal. |
| AuthSlice.AuthStore.RunReducer | frontend/src/store/slices/authSlice.js:164-184 | The in-place reducers equal `ApplyReducer` and leave storage alone. |
| AuthSlice.AuthStore.RunThunkCase | frontend/src/store/slices/authSlice.js:213-320 | The in-place request cases equal `ApplyThunkCase` and leave storage alone. |
| AuthSlice.AuthStore.RunPendingCase | frontend/src/store/slices/authSlice.js:215-299 | The in-place pending cases equal `ApplyPending`. |
| AuthSlice.AuthStore.RunSettledCase | frontend/src/store/slices/authSlice.js:220-320 | The in-place settled cases equal `ApplySettled`. |
| AuthSlice.AuthStore.PersistLogin | frontend/src/store/slices/authSlice.js:50-52 | Accepted credentials write exactly the two entries and leave the slice state alone. |
| AuthSlice.AuthStore.LogoutRequest | frontend/src/store/slices/authSlice.js:114-143 | Whether the server answers ok, answers with an error, or cannot be reached, both entries are removed and nothing else changes. The result message is "Logout completed locally" only on a network error. |
| SessionGuard.BearerToken | backend/middleware/checkAuth.js:16 | The token is the header text after "Bearer ", up to the next space, and contains no space. |
| SessionGuard.DoubleSpaceGivesEmptyToken | backend/middleware/checkAuth.js:16 | "Bearer  x" (two spaces) yields the empty token. |
| SessionGuard.TokenStopsAtSpace | backend/middleware/checkAuth.js:16 | A space-free token followed by a space and more text is read back exactly. |
| SessionGuard.Authenticate | backend/middleware/checkAuth.js:8-32 | The request is admitted if and only if the header carries a bearer token that validates, and then with exactly the decoded claims. A missing or non-bearer header gives 401 "No token provided", and a failed validation gives 401 "Invalid token". |
| SessionGuard.RoleText | backend/middleware/checkAuth.js:49 | The reported role is the role when it is non-empty, and "no role" otherwise. It is never empty. |
| SessionGuard.AdminDecision | backend/middleware/checkAuth.js:36-55 | Passes if and only if there are claims with role "admin". With no claims the answer is 401 "Authentication required". Otherwise it is 403 "Admin access required" with the reported role. |
| SessionGuard.RoleDecision | backend/middleware/checkAuth.js:61-76 | Passes if and only if the claims carry the given role. With no claims the answer is 401 "Authentication required". Otherwise it is 403 "<role> access required" with the reported role. |
| SessionGuard.RoleGateGeneralisesAdmin | backend/middleware/checkAuth.js:36-76 | `requireRole("admin")` passes exactly when `requireAdmin` does, with the same status and reported role. Only the message's capital letter differs. |
| SessionGuard.AdminChainSound | backend/middleware/checkAuth.js:58 | The `checkAdmin` chain passes if and only if the header's bearer token validates to claims whose role is "admin". |
| SessionGuard.Exchange.constructor | backend/middleware/checkAuth.js:4 | A request starts with no user, no answer written and no `next` call. |
| SessionGuard.Exchange.CheckAuth | backend/middleware/checkAuth.js:4-33 | Either exactly one 401 answer is written and `req.user` is untouched, or `req.user` becomes the claims and `next` is called once. Never both. |
| SessionGuard.Exchange.ApplyGate | backend/middleware/checkAuth.js:40-54 | The shared last step of both role gates: a refusal writes exactly that answer, a pass calls `next` once, never both, and `req.user` is untouched. |
| SessionGuard.Exchange.RequireAdmin | backend/middleware/checkAuth.js:36-55 | Writes the refusal or calls `next` once, as `AdminDecision` decides, and never both. |
| SessionGuard.Exchange.RequireRole | backend/middleware/checkAuth.js:61-76 | Writes the refusal or calls `next` once, as `RoleDecision` decides, and never both. |
| SessionGuard.Exchange.CheckAdmin | backend/middleware/checkAuth.js:58 | The handler is reached if and only if the chain passes. Then `req.user` holds admin claims and nothing was written. Otherwise exactly one answer was written. |
| NewsController.NewRecord | backend/controllers/new.js:15-23 | The created record carries the request's title, content and author, all non-empty, the given id and the creation time. |
| NewsController.ParamOr | backend/controllers/new.js:42-43 | `parseInt(x) or d` is never 0. NaN and 0 give the default, and any other value, negative ones included, passes through. |
| NewsController.QueryFor | backend/controllers/new.js:47-57 | The query has a category constraint if and only if a category is given, and a search constraint if and only if a search term is given, each with the given value. |
| NewsController.Select | backend/controllers/new.js:61 | Finds exactly the records that match the query, each as often as it occurs in the collection and nothing else, so its length is the `countDocuments` total. |
| NewsController.InCategory | backend/controllers/new.js:183-188 | The records of one category, each as often as in the collection and nothing else, which is what `find({ category })` lists and `countDocuments({ category })` counts. |
| NewsController.SortByDate | backend/controllers/new.js:62 | The result is newest first and a permutation of its input. |
| NewsController.Window | backend/controllers/new.js:63-64 | Skip then limit: the records from position `skip` on, at most the absolute limit of them, in order. |
| NewsController.TotalPages | backend/controllers/new.js:67 | The result is the ceiling of total divided by limit, for either sign of limit. |
| NewsController.HasNextIffMoreRecords | backend/controllers/new.js:76 | With a positive limit, `page < totalPages` holds exactly when the pages up to this one do not show every record. |
| NewsController.TotalPagesIsLeast | backend/controllers/new.js:67 | With a positive limit, the page count is the least number of pages that holds every record. |
| NewsController.GetAllNews | backend/controllers/new.js:40-86 | A negative offset is answered with 500 "Error fetching news articles", and only then. Otherwise the answer is 200, and its items are exactly the window of the matches sorted newest first, with `(page - 1) * limit` skipped and at most the absolute limit kept. The pagination reports the page, the number of matches, their page count and the next/previous flags. |
| NewsController.ListingOfPage | backend/controllers/new.js:59-64 | With a positive limit, page d + 1 is answered with 200 and the window of the sorted matches that skips d · limit of them. |
| NewsController.PagesFollowEachOther | backend/controllers/new.js:59-64 | With a positive limit, item i of page d + 1 is the match at position d · limit + i in date order, so the pages list the sorted matches one after another and reach every one. |
| NewsController.GetNewsByCategory | backend/controllers/new.js:174-205 | The items are exactly the window of the category's records sorted newest first, with the same offset and limit. The total is the number of records in the category, and the page count is its ceiling quotient. The answer carries the category and no next/previous flags. 500 "Error fetching news by category" is answered exactly for a negative offset. |
| NewsController.GetLatestNews | backend/controllers/new.js:208-224 | Returns the first min(absolute limit, n) records in newest-first order. The limit defaults to 5. |
| NewsController.LatestAreNewest | backend/controllers/new.js:212 | No record left out of the latest list is newer than a record in it. |
| NewsController.Find | backend/controllers/new.js:93 | Finds a record with the id, or reports that none has it. |
| NewsController.GetNewsById | backend/controllers/new.js:89-109 | 200 with the record exactly when some record has the id. An unknown id gives 404 "News article not found", and a malformed one gives 500. |
| NewsController.Apply | backend/controllers/new.js:117-129 | Each of title, content, author, source, image, url and category is replaced when given and kept when absent. The id and date are kept. |
| NewsController.UpdateFirst | backend/controllers/new.js:117-129 | The first record with the id becomes its updated form and every other position keeps its record unchanged. Length and ids are kept, and an unknown id changes nothing. |
| NewsController.RemoveFirst | backend/controllers/new.js:152 | Removes exactly the found record (multiset difference). An unknown id changes nothing. |
| NewsController.RemoveFirstDeletes | backend/controllers/new.js:152 | With unique ids, no record with the id remains, every other record remains, and ids stay unique. |
| NewsController.NewsCollection.constructor | backend/models/news.js:3-19 | The collection starts empty and valid. |
| NewsController.NewsCollection.AddNews | backend/controllers/new.js:4-37 | A falsy title, content or author gives 400 and stores nothing. Otherwise the new record is appended and returned with 201. Ids stay unique. |
| NewsController.NewsCollection.UpdateNews | backend/controllers/new.js:112-145 | An empty required field or a malformed id gives 500. An unknown id gives 404. Both leave the collection unchanged. Otherwise the record is updated in place and returned with 200. |
| NewsController.NewsCollection.DeleteNews | backend/controllers/new.js:148-171 | A malformed id gives 500 and an unknown one 404, both without change. Otherwise the record is removed, no record keeps the id, and only its id and title are reported. |
| NewsGrid.ShownItems | frontend/src/components/NewsGrid.jsx:88-110 | The shown list is a subsequence of the fetched list. It holds exactly the visible items, each as often as in the fetched list, so its length is the shown count: category "all" or matching case-insensitively, and a blank search or a term found in title, content or author. |
| NewsGrid.StagedIsShown | frontend/src/components/NewsGrid.jsx:88-110 | Filtering by category and then by search, as the effect does, gives exactly the visible items in order. |
| NewsGrid.NoFilterShowsAll | frontend/src/components/NewsGrid.jsx:89-109 | With category "all" and a blank or whitespace search, every fetched item is shown. |
| NewsGrid.Toggle | frontend/src/components/NewsGrid.jsx:120-142 | The id is in the result if and only if it was not in the set. Every other id is unchanged. |
| NewsGrid.ToggleTwice | frontend/src/components/NewsGrid.jsx:120-130 | Toggling an id twice restores the set. |
| NewsGrid.TogglesCommute | frontend/src/components/NewsGrid.jsx:120-142 | Toggles of two ids commute. |
| NewsGrid.FilteredText | frontend/src/components/NewsGrid.jsx:158-161 | The text starts with "N result(s) found", with "s" exactly when N ≠ 1, and its leading number is N. It names the search term and the category when they are set. |
| NewsGrid.AvailableText | frontend/src/components/NewsGrid.jsx:164 | The text starts with "M article(s)" and its leading number is M. |
| NewsGrid.ResultsText | frontend/src/components/NewsGrid.jsx:151-165 | "Loading..." while loading, then "Error loading news" on error. The filtered text applies when a term or a category is set, and the available text otherwise. |
| NewsGrid.NewsGridView.constructor | frontend/src/components/NewsGrid.jsx:35-42 | The page starts loading, with nothing fetched, no filter, and nothing bookmarked or liked. |
| NewsGrid.NewsGridView.RefreshFilter | frontend/src/components/NewsGrid.jsx:88-110 | The step-by-step filter leaves exactly the visible items, as a subsequence of the fetched list. |
| NewsGrid.NewsGridView.HandleSearchChange | frontend/src/components/NewsGrid.jsx:112-114 | The new term is stored and the shown list is recomputed with it. |
| NewsGrid.NewsGridView.HandleCategoryFilter | frontend/src/components/NewsGrid.jsx:116-118 | The new category is stored and the shown list is recomputed with it. |
| NewsGrid.NewsGridView.ClearFilters | frontend/src/components/NewsGrid.jsx:407-410 | The search is emptied, the category becomes "all", and every fetched item is shown again. |
| NewsGrid.NewsGridView.HandleBookmark | frontend/src/components/NewsGrid.jsx:120-130 | The bookmark set becomes the toggle of its old value. |
| NewsGrid.NewsGridView.HandleLike | frontend/src/components/NewsGrid.jsx:132-142 | The like set becomes the toggle of its old value. |
| ImageUtils.NoUrlIsInvalid | frontend/src/utils/imageUtils.js:13-14 | A missing or empty URL is never valid. A valid URL is non-empty and passes the image check. |
| ImageUtils.JsRem | frontend/src/utils/imageUtils.js:35 | JavaScript's remainder agrees with the mathematical one for non-negative indexes. For negative ones it lies in (-3, 0]. |
| ImageUtils.GetSafeImageUrl | frontend/src/utils/imageUtils.js:29-37 | A valid URL is returned unchanged. Otherwise a non-negative index picks fallback `i % 3`, and an index whose remainder is negative gives the placeholder. The result is never empty. |
| ImageUtils.FallbackRotates | frontend/src/utils/imageUtils.js:35 | The fallback choice has period three. |
| ImageUtils.NegativeMultipleUsesFirst | frontend/src/utils/imageUtils.js:35-36 | A negative multiple of three still picks the first fallback (the remainder is -0). One more than that gives the placeholder. |
| ImageUtils.DefaultTransformation | frontend/src/utils/imageUtils.js:43-56 | The default options give `c_fill,w_600,h_300,q_auto,f_auto/`. |
| ImageUtils.GetOptimizedImageUrl | frontend/src/utils/imageUtils.js:40-65 | A missing or empty URL gives the placeholder. A Cloudinary URL with exactly one "/upload/" gets the transformation inserted right after it, and the two parts around it contain no further marker. Any other URL is kept if valid and replaced by the placeholder otherwise. The result is never empty. |
| ImageUtils.RewriteOnlyInserts | frontend/src/utils/imageUtils.js:53-59 | The rewrite only inserts: removing the transformation segment gives back the original URL. |
| Cloudinary.FileFilter | backend/utils/cloudinary.js:87-103 | A file is accepted if and only if its MIME type starts with "image/". Otherwise the error is "Only image files are allowed!". |
| Cloudinary.UploadLimits | backend/utils/cloudinary.js:84-102 | An upload is accepted exactly when its MIME type begins "image/" and it has at most 5·1024·1024 bytes; the limit itself is accepted. |
| Cloudinary.DeleteFromCloudinary | backend/utils/cloudinary.js:164-176 | Without the start-up configuration the service is not called and the result is "ok". Otherwise the service's answer is returned. |
| Cloudinary.DeletionNeedsFullConfig | backend/utils/cloudinary.js:6-11 | Deletion reaches the service exactly when all three variables were set and non-empty at start-up. With any one missing, the answer is "ok" without a call. |
| Cloudinary.ExtractPublicId | backend/utils/cloudinary.js:179-189 | A missing or empty URL gives none. Otherwise the result is the last "/"-segment cut before its first ".", contains neither "/" nor ".", and is the whole last segment when that has no ".". |
| Cloudinary.PublicIdOfUploadUrl | backend/utils/cloudinary.js:182-184 | For `folder/name.ext`, the id is `name`. |
| NewsCard.TruncateText | frontend/src/components/NewsCard.jsx:92-95 | A text within the limit (150 by default) is unchanged. A longer one becomes its first `limit` characters followed by "...". |
| NewsCard.TruncateBounds | frontend/src/components/NewsCard.jsx:92-95 | A preview is at most the limit plus three long. It stays within the limit exactly when the text does, and it starts like the text. |
| NewsCard.LookupCategory | frontend/src/components/NewsCard.jsx:104 | A category whose lower-case form is one of the three known keys gets that key's entry. A missing or unknown one gets the default. |
| NewsCard.CategoryColor | frontend/src/components/NewsCard.jsx:97-105 | Each known category, in any case, gets its gradient. Others get the default gradient. |
| NewsCard.CategoryGlow | frontend/src/components/NewsCard.jsx:107-115 | Each known category, in any case, gets its glow. Others get the default glow. |
| NewsCard.CategoryLookIgnoresCase | frontend/src/components/NewsCard.jsx:97-115 | Spellings that lower-case alike get the same colour and glow, the same as their lower-case form. |
| NewsCard.KnownCategoriesLookDistinct | frontend/src/components/NewsCard.jsx:98-102 | The three known gradients differ from each other and from the default. |
| NewsCard.CeilDiv | frontend/src/components/NewsCard.jsx:82 | `Math.ceil(a / b)`: the least multiple count that covers `a`. |
| NewsCard.FormatDate | frontend/src/components/NewsCard.jsx:78-90 | A distance of at most 23 hours is shown as its rounded-up hours with "h ago". A longer one is shown as its rounded-up days with "d ago". An unreadable date gives "NaNd ago". |
| NewsCard.FormatDistance | frontend/src/components/NewsCard.jsx:82-89 | At most 23 hours is shown as rounded-up hours with "h ago"; anything longer is shown as rounded-up days with "d ago". |
| NewsCard.FormatDateIgnoresDirection | frontend/src/components/NewsCard.jsx:81 | Past and future dates at the same distance read the same. |
| NewsCard.FormatDateRanges | frontend/src/components/NewsCard.jsx:82-89 | The same instant reads "0h ago". Hours never exceed 23. Days start at 1, and 23 to 24 hours reads "1d ago". |
| NewsCard.FormatDateNumber | frontend/src/components/NewsCard.jsx:84-88 | The number at the head of the text is the rounded distance. |
| NewsCard.Press | frontend/src/components/NewsCard.jsx:42-76 | Signed out, every button gives the sign-in toast and a navigation to "/". Signed in, read-more opens `/article/<id>`, like and bookmark pass the id, and share passes the item, only when the callback is provided. |
| NewsCard.SignedOutNeverReachesContent | frontend/src/components/NewsCard.jsx:42-76 | Signed out, no callback is reached and no article page is opened. The press ends on the home page. |
| NewsCard.SignedInActsOnTheItem | frontend/src/components/NewsCard.jsx:48-75 | Signed in, every navigation goes to the item's article page, and every callback receives the item's id or the item itself. |
| VerifyEmail.KeepDigits | frontend/src/components/VerifyEmail.jsx:76 | The result is all digits, no longer than the input, and holds exactly the input's digit characters. |
| VerifyEmail.SanitizeCode | frontend/src/components/VerifyEmail.jsx:75-78 | The code is only digits and at most six long. It is a prefix of the input's digits: all of them, or the first six. |
| VerifyEmail.SanitizeIdempotent | frontend/src/components/VerifyEmail.jsx:76 | Sanitising twice is sanitising once. |
| VerifyEmail.SanitizeDropsNonDigits | frontend/src/components/VerifyEmail.jsx:76 | A non-digit anywhere in the typed text makes no difference. |
| VerifyEmail.SanitizeKeepsSixDigits | frontend/src/components/VerifyEmail.jsx:76 | Six typed digits are kept as they are. |
| VerifyEmail.TickStep | frontend/src/components/VerifyEmail.jsx:27-35 | A positive countdown drops by one. At zero the button is enabled. |
| VerifyEmail.CooldownRunsOut | frontend/src/components/VerifyEmail.jsx:27-35 | A disabled button with k seconds left stays disabled through k ticks and is enabled by the next one. |
| VerifyEmail.VerifyEmailForm.constructor | frontend/src/components/VerifyEmail.jsx:16-26 | The page starts with an empty code, resend enabled, no countdown, and the e-mail from the navigation state or "". |
| VerifyEmail.VerifyEmailForm.HandleVerificationChange | frontend/src/components/VerifyEmail.jsx:75-78 | The stored code is the sanitised input. |
| VerifyEmail.VerifyEmailForm.HandleVerifyEmail | frontend/src/components/VerifyEmail.jsx:80-97 | A code not six long only earns the toast. Otherwise the error and message are cleared and the verification is dispatched with the e-mail and code. |
| VerifyEmail.VerifyEmailForm.HandleResendCode | frontend/src/components/VerifyEmail.jsx:99-115 | During the cooldown or without an e-mail nothing is sent, and a missing e-mail earns the toast. Otherwise the resend is dispatched, the button is disabled for 60 seconds and the code is cleared. |
| VerifyEmail.VerifyEmailForm.Tick | frontend/src/components/VerifyEmail.jsx:27-35 | One run of the countdown effect is one `TickStep`. |

## Left out

- Network requests: the fetch calls of the signup, login, verify, resend and logout thunks, the grid's axios fetch (NewsGrid.jsx lines 52-77) and the Cloudinary upload and destroy calls. Of the thunks, only the storage writes of login and the storage removal of logout are modelled. The login writes (`AuthStore.PersistLogin`) are a separate step outside the action traces of `Run`, so the trace lemmas do not see storage written by a login. The destroy call's answer is the parameter `destroy`.
- `uploadToCloudinary`, the multer storage object and the module-level `cloudinary.config` are left out. They are configuration and I/O.
- `localStorage` is a two-key map, and one run of the countdown effect is an explicit step (`Tick`). React hooks, rendering, scrolling and console logging are left out.
- `ValidateToken`, `JSON.parse`, MongoDB's text search, the `URL` constructor and the image regular expressions are parameters. JsonWebToken.js is not part of this model.
- JSON values other than an object, `null` or malformed text are not modelled. For example, a stored number would make `isVerified` undefined.
- MongoDB behaviour is not modelled beyond these rules:
  - A negative skip is refused, giving 500.
  - A negative limit counts by its absolute value.
  - A malformed id is refused, giving 500.
  - `runValidators` refuses an empty required field.
  - The order among records with equal `publishedAt` is the collection order in the model; the database leaves it unspecified.
- The other 500 paths are left out: a failing save in `addNews` and any failure in `getLatestNews`. So is the `error.message` detail of 500 bodies.
- `parseInt` itself is left out: the page and limit arrive already parsed, with `None` for NaN.
- The schema's `timestamps` fields are not modelled, and a fresh ObjectId is a counter.
- `getFeaturedNews` is imported by the routes but not exported by the controller. It is not part of this model.
- Lower-casing is ASCII only. Lengths count characters rather than UTF-16 code units.
- Non-string inputs (a number passed as a URL, say) are excluded by the types.
- NewsCard.LookupCategory: does not model that inherited object keys such as "constructor" or "__proto__" find a non-string entry in the colour and glow tables, because the lookup is over the three declared keys only.
- NewsCard.TruncateText: takes a non-negative limit only. The card always uses the default, so `substr` with a negative length is not modelled.
- ImageUtils.JsRem: for a negative dividend it states only the range of the remainder, not its exact value.
- The success, resend-success and error effects of the verification page are left out (toasts, clearing dispatches and the delayed navigation to "/login"). So is its unmount cleanup.
