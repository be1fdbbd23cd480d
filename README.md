# TonalFocus photography site — a Dafny model of its core

TonalFocus is a Next.js photography portfolio with an admin area. The public
site lists photos by category and shows them in a lightbox. It takes contact
messages and publishes a sitemap and a robots policy. In the admin area one
can upload photos, reorder them by drag and drop, select and delete several
at once, and create categories. This project models the logic of that core,
one Dafny module per source file:

| module | source file | form |
|---|---|---|
| `ImageAnalysis` | src/lib/image-analysis.ts | sampling scan as a `method` with a loop |
| `Storage` | src/lib/storage.ts | functions on values; storage calls returned as a trace |
| `UploadRoute` | src/app/api/photos/upload/route.ts | functions returning the response and the effect trace |
| `UploadQueue` | src/app/admin/photos/upload/page.tsx | class `UploadPage` over a `seq` of queue entries |
| `ReorderRoute` | src/app/api/admin/photos/reorder/route.ts | class `PhotosTable` whose `Reorder` loops over the id list |
| `SortableGrid` | src/components/admin/SortablePhotoGrid.tsx | `arrayMove` as a function; class `SortablePhotoGrid` |
| `AdminPhotosPage` | src/app/admin/photos/page.tsx | class `PhotosManagementPage` |
| `AdminPhoto` | src/app/admin/photos/page.tsx, src/components/admin/SortablePhotoGrid.tsx | the `Photo` record the two admin files share |
| `PhotoListing` | src/app/api/photos/route.ts | query parsing, filter, stable sort and window as functions |
| `CategoriesRoute` | src/app/api/admin/categories/route.ts | slug and POST handler as functions |
| `Portfolio` | src/app/portfolio/page.tsx | category tabs and the filter as functions |
| `Lightbox` | src/components/photography/Lightbox.tsx | class `LightboxState` |
| `ContactRoute` | src/app/api/contact/route.ts | class `RateLimiter` over a `map`; validation as functions |
| `ContactForm` | src/components/forms/ContactForm.tsx | class `ContactFormState` |
| `AdminAuth` | src/lib/auth/admin.ts | cookie jar as a `map` |
| `Revalidation` | src/lib/revalidate.ts | a loop that records `revalidatePath` calls |
| `RevalidateRoute` | src/app/api/revalidate/route.ts | function |
| `Sitemap`, `Robots` | src/app/sitemap.ts, src/app/robots.ts | functions |
| `Wrappers`, `Text` | — | Option/Result and ASCII text helpers (trim, lower-case, decimal) |

Foreign calls are inputs to the model:
- the managed datastore and its storage buckets (Supabase);
- the mail service (Resend);
- bcrypt;
- canvas decoding;
- `Date.now`, `Math.random` and `crypto.randomUUID`;
- the environment variables.

Each foreign call becomes a parameter of the operation that uses it, such as
the store's error for an insert, a pre-decoded pixel buffer or the seconds
of "now". An operation that talks to the outside world returns, next to its
response, the sequence of calls it makes. That lets contracts state what is
stored, mailed or revalidated, and in what order.

Three behaviours of the code are worth stating outright:
- The categories route turns `"Black & White!!"` into the slug
  `"black--white"`. The `&` is removed, but the hyphens on both sides of it
  stay. See `CategoriesRoute.SlugKeepsDoubleHyphen`.
- The reorder route does not revalidate any cached page after a successful
  reorder. `ReorderRoute.PhotosTable.Reorder` changes only the table.
- The upload page never runs the colour classifier and never sends
  `is_black_white`. So every photo uploaded from that page is stored as
  colour. See `UploadQueue.PageUploadsAreColour`.

## Model

| member | source | states |
|---|---|---|
| Revalidation.PathsFor | src/lib/revalidate.ts:3-5 | an explicit list replaces the defaults, and no list means exactly `["/", "/portfolio"]` |
| Revalidation.TriggerRevalidation | src/lib/revalidate.ts:5-8 | one `revalidatePath` call per listed path, in list order; none for an empty list |
| RevalidateRoute.SelectToken | src/app/api/revalidate/route.ts:13-15 | a non-empty header token wins; otherwise the body's string `secret` is used; otherwise there is no token |
| RevalidateRoute.SelectPaths | src/app/api/revalidate/route.ts:26 | paths are taken from the body exactly when the body holds a `paths` list |
| RevalidateRoute.Post | src/app/api/revalidate/route.ts:4-31 | an unset secret skips; a wrong token gives 401; revalidation happens if and only if the secret is set and equals the token, and then the selected paths are revalidated |
| RevalidateRoute.UnparseableBodyUsesDefaults | src/app/api/revalidate/route.ts:5-28 | a body that does not parse still revalidates the default paths when the header token is right |
| RevalidateRoute.OnlyAuthorisedRequestsRevalidate | src/app/api/revalidate/route.ts:17-28 | a request with no matching token revalidates nothing |
| RevalidateRoute.UnsetSecretSkipsEvenWithToken | src/app/api/revalidate/route.ts:17-20 | with no secret configured, any token is answered "skipped" and no path is revalidated |
| Sitemap.StripTrailingSlash | src/app/sitemap.ts:3 | removes exactly one trailing `/` and otherwise leaves the URL alone |
| Sitemap.SiteUrl | src/app/sitemap.ts:3 | the environment's site URL, or the default deployment URL |
| Sitemap.RoutePath | src/app/sitemap.ts:7 | a route is appended to the base unchanged |
| Sitemap.Entries | src/app/sitemap.ts:5-11 | four entries, the k-th being the base URL followed by the k-th route |
| Sitemap.OnlyOneSlashRemoved | src/app/sitemap.ts:3 | a URL ending in `//` keeps one slash, so the portfolio entry reads `//portfolio` |
| Sitemap.DefaultEntries | src/app/sitemap.ts:3-7 | with no environment, the first and last entries are the default home and contact URLs |
| Robots.RobotsPolicy | src/app/robots.ts:3-16 | one rule for every agent, allowing `/` and disallowing `/api/` and `/admin`; the sitemap address is the stripped base plus `/sitemap.xml` |
| Robots.SitemapUrlExtendsRootEntry | src/app/robots.ts:14 | the robots sitemap address is the sitemap's root entry followed by `sitemap.xml` |
| Robots.AdminAndApiDisallowed | src/app/robots.ts:7-13 | the single rule disallows both the admin and the API paths |
| AdminAuth.ConfiguredUsername | src/lib/auth/admin.ts:6 | a non-empty configured name is used as is; an unset or empty one gives `admin`; the result is never empty |
| AdminAuth.VerifyAdminCredentials | src/lib/auth/admin.ts:15-26 | a wrong username fails; in development with no hash configured, only the development password passes; otherwise the bcrypt comparison decides |
| AdminAuth.MissingHashOutsideDevelopmentRefuses | src/lib/auth/admin.ts:7-25 | with no hash configured outside development, no password passes, given that bcrypt rejects the empty hash |
| AdminAuth.DevelopmentPasswordOnlyInDevelopment | src/lib/auth/admin.ts:21-25 | outside development the development password passes only if bcrypt accepts it |
| AdminAuth.SessionCookieOptions | src/lib/auth/admin.ts:35-41 | the cookie is http-only, same-site lax, scoped to `/` and lives 24 hours; it is secure exactly in production |
| AdminAuth.CreateAdminSession | src/lib/auth/admin.ts:31-44 | the jar gains the session cookie with the given id and options; every other cookie is unchanged |
| AdminAuth.IsAdminAuthenticated | src/lib/auth/admin.ts:49-56 | `!!session?.value`: the session cookie is present and its value is not empty |
| AdminAuth.AnyNonEmptyValueAuthenticates | src/lib/auth/admin.ts:49-56 | any non-empty session cookie value counts as authenticated; there is no session store |
| AdminAuth.CreatedSessionAuthenticates | src/lib/auth/admin.ts:31-56 | a session just created authenticates |
| AdminAuth.ClearAdminSession | src/lib/auth/admin.ts:61-64 | the session cookie is removed, every other cookie is unchanged, and the jar no longer authenticates |
| AdminAuth.RequireAdmin | src/lib/auth/admin.ts:69-80 | the handler runs if and only if the jar authenticates; otherwise the answer is 401 |
| AdminAuth.ClearedSessionIsRefused | src/lib/auth/admin.ts:61-80 | after logout every guarded handler is refused |
| ImageAnalysis.Spread | src/lib/image-analysis.ts:37-41 | the largest of the three pairwise channel differences |
| ImageAnalysis.ColorAtMeans | src/lib/image-analysis.ts:31-44 | a sample is colour if and only if all three channels exist and their spread exceeds 30 |
| ImageAnalysis.ScanForColor | src/lib/image-analysis.ts:27-50 | the early-exit loop answers colour if and only if some sampled pixel is colour; the samples start every 16 bytes, that is every 4th pixel |
| ImageAnalysis.CountPositiveIffColorFrom | src/lib/image-analysis.ts:31-48 | the count of colour samples from an offset is positive if and only if a colour sample exists there |
| ImageAnalysis.EarlyExitAgreesWithFullScan | src/lib/image-analysis.ts:44-47 | stopping at the first colour sample gives the same verdict as counting all of them |
| ImageAnalysis.OnlySampledChannelsMatter | src/lib/image-analysis.ts:31-34 | buffers that agree on the sampled red, green and blue bytes have the same colour count; alpha is never read |
| ImageAnalysis.SameVerdictOnSampledAgreement | src/lib/image-analysis.ts:31-50 | such buffers get the same verdict |
| ImageAnalysis.GreyBufferIsMonochrome | src/lib/image-analysis.ts:37-50 | a buffer whose sampled pixels all have equal red, green and blue is black-and-white |
| ImageAnalysis.ThresholdIsStrict | src/lib/image-analysis.ts:43-44 | a spread of exactly 30 is not colour, and 31 is |
| ImageAnalysis.SampleBufferReadsInBounds | src/lib/image-analysis.ts:13-31 | the 100×100 buffer has 40000 bytes, and every sample's three channel reads stay inside it |
| ImageAnalysis.DetectImageColorMode | src/lib/image-analysis.ts:5-67 | a failed load, missing context or refused pixel read falls back to colour; otherwise the verdict is `ScanForColor`'s |
| ImageAnalysis.DetectImageColorModeServer | src/lib/image-analysis.ts:73-78 | the server variant always answers colour |
| Storage.AllowedTypesAreExactlyFour | src/lib/storage.ts:21-29 | exactly `image/jpeg`, `image/jpg`, `image/png` and `image/webp` are allowed; the size limit is 10 MiB |
| Storage.GetImageDimensions | src/lib/storage.ts:54-80 | on the server the answer is 1920×1080; in the browser the decoded size, or the load error |
| Storage.LastSegment | src/lib/storage.ts:93 | the text after the last `.`, which is a suffix of the name and holds no dot |
| Storage.FileExtension | src/lib/storage.ts:93 | the extension is the lower-cased text after the last `.`, or `jpg` when that text is empty; it is never empty and holds no dot |
| Storage.ExtensionExamples | src/lib/storage.ts:93 | `IMG.JPG` gives `jpg` and `a.b.PNG` gives `png` |
| Storage.ExtensionOfDotlessName | src/lib/storage.ts:93 | a name without a dot is its own extension, lower-cased |
| Storage.ExtensionOfTrailingDot | src/lib/storage.ts:93 | an empty name or one ending in `.` gets `jpg` |
| Storage.GenerateStorageFilename | src/lib/storage.ts:90-95 | `${timestamp}-${random}.${extension}`; its shape is stated by `Storage.FilenameShape` |
| Storage.FilenameShape | src/lib/storage.ts:90-95 | the name is the timestamp's digits, `-`, the random part, `.` and the extension, and the extension reads back from it as its last segment |
| Storage.LastSegmentAfterDot | src/lib/storage.ts:93 | the extension of `head.tail` is `tail` when `tail` holds no dot |
| Storage.StoragePath | src/lib/storage.ts:128 | the year's digits, then the first `/`, then the generated name unchanged |
| Storage.UploadImage | src/lib/storage.ts:107-152 | a wrong type or an oversize file is refused with its message before any storage call; a file exactly at the limit is stored; a passing file is stored once under its generated path; success carries that path and the public URL; a missing public URL is an error after the store |
| Storage.CreateThumbnail | src/lib/storage.ts:194-203 | the same checks and outcome as an upload; a file that passes is stored once, in the thumbnails bucket, under the generated path |
| UploadRoute.CleanOptional | src/app/api/photos/upload/route.ts:54-55 | an absent or all-blank optional field becomes null; otherwise it is trimmed and non-empty |
| UploadRoute.Validate | src/app/api/photos/upload/route.ts:59-80 | a missing or empty file entry or title, a wrong type (a text `file` entry has none) and an oversize file each get their own 400 message; the form passes if and only if all checks hold |
| UploadRoute.InsertAndRevalidate | src/app/api/photos/upload/route.ts:125-148 | an insert error answers 500 with no revalidation; success revalidates the default paths and answers with the record |
| UploadRoute.HandleRequest | src/app/api/photos/upload/route.ts:35-158 | a body that `formData()` cannot parse answers 500 with the thrown message and no effects; a parsed body is handled as a form |
| UploadRoute.RequestSuccessIffParsedAndAllStepsSucceed | src/app/api/photos/upload/route.ts:35-158 | the answer is 200 if and only if the body parses and every step succeeds; any other answer revalidates nothing |
| UploadRoute.TextFileEntryIsRefused | src/app/api/photos/upload/route.ts:45-72 | a `file` entry that is text is refused with 400 before any service is called |
| UploadRoute.Post | src/app/api/photos/upload/route.ts:45-158 | a form that fails validation answers 400 with no effects; otherwise the steps after validation decide |
| UploadRoute.AfterValidation | src/app/api/photos/upload/route.ts:84-148 | dimensions and EXIF are read first; an EXIF error answers 500 after those two reads only |
| UploadRoute.SuccessIffAllStepsSucceed | src/app/api/photos/upload/route.ts:59-158 | the response is 200 if and only if validation, EXIF, both uploads and the insert all succeed; revalidation happens exactly then |
| UploadRoute.StoreAndInsert | src/app/api/photos/upload/route.ts:91-148 | the answer is 200 or 500; a 200 carries a record that reflects the form and the EXIF data read |
| UploadRoute.StoreAndInsertOutcome | src/app/api/photos/upload/route.ts:91-148 | a failed main upload stops before the thumbnail; a failed thumbnail stops before the insert; only a successful insert revalidates |
| UploadRoute.BuildRecord | src/app/api/photos/upload/route.ts:100-122 | the record carries the form's title, cleaned optional fields, the two exact `true` flags, order 999 and the colour-mode label, the file's name, size and type, the dimensions, both stored paths and URLs, the upload time, and the EXIF data or an empty map |
| UploadRoute.SuccessfulUploadRecord | src/app/api/photos/upload/route.ts:100-148 | a fully successful upload makes seven effects in order and answers with a record that reflects the form |
| UploadRoute.InsertErrorLeavesStoredObjects | src/app/api/photos/upload/route.ts:132-140 | when the insert fails, both stored objects stay in storage and no revalidation happens |
| UploadRoute.RouteChecksSubsumeUploadChecks | src/app/api/photos/upload/route.ts:66-91 | a file that passes the route's checks always reaches the storage call, so the storage-layer type and size errors cannot occur |
| UploadQueue.OnDrop | src/app/admin/photos/upload/page.tsx:28-35 | accepted files are appended, in order, as pending entries at 0% |
| UploadQueue.UpdateAt | src/app/admin/photos/upload/page.tsx:51-53 | only the entry at the index changes; elsewhere the queue is unchanged |
| UploadQueue.Finish | src/app/admin/photos/upload/page.tsx:66-80 | a delivered file becomes success at 100%; a failure keeps its progress and records the message |
| UploadQueue.TitleFromName | src/app/admin/photos/upload/page.tsx:48 | the title is the part of the file name before its first dot |
| UploadQueue.SentForm | src/app/admin/photos/upload/page.tsx:46-48 | the form sends the file and that title and nothing else |
| UploadQueue.PageUploadsAreColour | src/app/admin/photos/upload/page.tsx:46-48 | a photo uploaded from this page is stored as not featured, not black-and-white, and labelled colour |
| UploadQueue.LeadingDotNameIsRejected | src/app/admin/photos/upload/page.tsx:48 | a file whose name starts with `.` gets an empty title, which the route refuses with 400 |
| UploadQueue.SettledUpTo | src/app/admin/photos/upload/page.tsx:90-94 | after the first k entries, the entries before k that had not succeeded carry their outcome; all others are as in the snapshot |
| UploadQueue.SentUpTo | src/app/admin/photos/upload/page.tsx:90-94 | the indices sent are exactly the unsuccessful entries before k, in increasing order |
| UploadQueue.UploadPage.constructor | src/app/admin/photos/upload/page.tsx:17-18 | the queue starts empty and not uploading |
| UploadQueue.UploadPage.Drop | src/app/admin/photos/upload/page.tsx:28-35 | the queue becomes `OnDrop` of the old queue |
| UploadQueue.UploadPage.UploadFile | src/app/admin/photos/upload/page.tsx:45-84 | sends `SentForm(file)`; the entry at the index is finished with the outcome; an out-of-range index changes nothing |
| UploadQueue.UploadPage.HandleUploadAll | src/app/admin/photos/upload/page.tsx:86-105 | the loop settles the snapshot, sends exactly `SentUpTo`, and redirects on the check made against the click-time snapshot |
| UploadQueue.UploadPage.RemoveFile | src/app/admin/photos/upload/page.tsx:107-116 | the entry at the index is removed and the rest keep their order |
| UploadQueue.SuccessfulEntriesAreSkipped | src/app/admin/photos/upload/page.tsx:90-94 | an entry that already succeeded is neither sent again nor changed |
| UploadQueue.IntendedRedirectIffAllSentSucceed | src/app/admin/photos/upload/page.tsx:98-104 | checked against the settled queue, a redirect happens if and only if every entry sent was delivered |
| UploadQueue.StaleCheckMissesRedirect | src/app/admin/photos/upload/page.tsx:86-104 | one pending file that uploads fine settles to success, yet the code as written does not redirect |
| ReorderRoute.Applied | src/app/api/admin/photos/reorder/route.ts:22-37 | the sequential per-row updates keep the table's set of rows |
| ReorderRoute.LastGoodIndex | src/app/api/admin/photos/reorder/route.ts:28-37 | the last position of an id whose update did not fail, if there is one |
| ReorderRoute.AppliedValue | src/app/api/admin/photos/reorder/route.ts:22-37 | each row's new order is its last successfully updated position, or its old order if it has none |
| ReorderRoute.ListedOnceEndsAtItsPosition | src/app/api/admin/photos/reorder/route.ts:22-32 | an id listed once whose update succeeds ends with its 0-based position |
| ReorderRoute.UnlistedRowUnchanged | src/app/api/admin/photos/reorder/route.ts:29-32 | a row missing from the list keeps its order, so a partial list can produce duplicates |
| ReorderRoute.DuplicateTakesLastIndex | src/app/api/admin/photos/reorder/route.ts:28-37 | an id listed twice ends with its later position |
| ReorderRoute.FailedUpdateIsSkipped | src/app/api/admin/photos/reorder/route.ts:34-39 | a row whose update fails keeps its old order, and the loop goes on |
| ReorderRoute.FullListRenumbers | src/app/api/admin/photos/reorder/route.ts:22-37 | a list of distinct ids with no failures gives each of them its index |
| ReorderRoute.PhotosTable.Reorder | src/app/api/admin/photos/reorder/route.ts:5-47 | 401 without a session; 500 on an unparseable body; 400 without a `photoIds` array; otherwise the table becomes `Applied` and the answer is success |
| ReorderRoute.EmptyListChangesNothing | src/app/api/admin/photos/reorder/route.ts:22-39 | an empty list leaves every order as it was |
| ReorderRoute.ReorderExample | src/app/api/admin/photos/reorder/route.ts:22-37 | `[C, A, B]` on `{A:0, B:1, C:2}` gives `{C:0, A:1, B:2}` |
| SortableGrid.FindIndex | src/components/admin/SortablePhotoGrid.tsx:205-206 | the first index holding the id, or -1 exactly when no photo has it |
| SortableGrid.ArrayMove | src/components/admin/SortablePhotoGrid.tsx:208 | a permutation that puts the moved element at the target, with the others in their old relative order |
| SortableGrid.IdsCommuteWithMove | src/components/admin/SortablePhotoGrid.tsx:208-225 | moving photos and then listing ids equals moving the id list |
| SortableGrid.DragEndResult | src/components/admin/SortablePhotoGrid.tsx:201-210 | nothing is reported when dropped outside or on itself; otherwise the photos moved from the active index to the target index |
| SortableGrid.SortablePhotoGrid.constructor | src/components/admin/SortablePhotoGrid.tsx:188 | no drag is active |
| SortableGrid.SortablePhotoGrid.Items | src/components/admin/SortablePhotoGrid.tsx:225 | the sortable items are the photo ids, in order |
| SortableGrid.SortablePhotoGrid.HandleDragStart | src/components/admin/SortablePhotoGrid.tsx:197-199 | records the active id and leaves the photos alone |
| SortableGrid.SortablePhotoGrid.HandleDragEnd | src/components/admin/SortablePhotoGrid.tsx:201-213 | reports `DragEndResult` and clears the active id; the grid's own photos stay as given |
| AdminPhoto.Ids | src/app/admin/photos/page.tsx:137 | the ids of the photos, in order |
| AdminPhotosPage.Reindexed | src/app/admin/photos/page.tsx:125-130 | each photo gets its position as display order; ids and order are kept |
| AdminPhotosPage.ReindexIsIdempotent | src/app/admin/photos/page.tsx:127-130 | reindexing twice equals reindexing once |
| AdminPhotosPage.ToggleSelection | src/app/admin/photos/page.tsx:115-123 | the id's membership flips and every other id is unchanged |
| AdminPhotosPage.ToggleTwiceRestores | src/app/admin/photos/page.tsx:115-123 | toggling twice restores the selection |
| AdminPhotosPage.CountSuccessfulDeletes | src/app/admin/photos/page.tsx:97-107 | one DELETE per selected id; the count is the number of selected ids whose DELETE succeeded |
| AdminPhotosPage.SuccessCountBounded | src/app/admin/photos/page.tsx:97-109 | the reported count never exceeds the number selected |
| AdminPhotosPage.PhotosManagementPage.constructor | src/app/admin/photos/page.tsx:31-39 | no selection, both modes off, nothing to save |
| AdminPhotosPage.PhotosManagementPage.HandlePhotosReorder | src/app/admin/photos/page.tsx:125-133 | the page shows the reindexed order and marks it unsaved |
| AdminPhotosPage.PhotosManagementPage.SaveReorder | src/app/admin/photos/page.tsx:135-153 | sends the current id order; the unsaved mark clears exactly on a successful response |
| AdminPhotosPage.PhotosManagementPage.TogglePhotoSelection | src/app/admin/photos/page.tsx:115-123 | the selection becomes `ToggleSelection` of the old one |
| AdminPhotosPage.PhotosManagementPage.ToggleReorderMode | src/app/admin/photos/page.tsx:206-212 | flips reorder mode, leaves bulk mode and clears the selection, so the two modes stay exclusive |
| AdminPhotosPage.PhotosManagementPage.ToggleBulkMode | src/app/admin/photos/page.tsx:221-226 | flips bulk mode, leaves reorder mode and clears the selection |
| AdminPhotosPage.PhotosManagementPage.HandleBulkDelete | src/app/admin/photos/page.tsx:90-113 | nothing happens without a selection or confirmation; otherwise every selected id is requested, the success count is reported, and bulk mode and the selection are cleared |
| AdminPhotosPage.SavedOrderMatchesPage | src/app/admin/photos/page.tsx:125-142 | after saving a reorder of distinct stored ids, each stored order equals the order the page shows |
| PhotoListing.ParseInt | src/app/api/photos/route.ts:29-30 | `parseInt`: no leading digits gives NaN; an unsigned number parses to a non-negative value |
| PhotoListing.ParseIntOfDecimal | src/app/api/photos/route.ts:29-30 | parsing the decimal text of n gives n |
| PhotoListing.ParamOr | src/app/api/photos/route.ts:29-30 | an absent or empty parameter parses the default; otherwise the given text |
| PhotoListing.DefaultsAreTwentyAndZero | src/app/api/photos/route.ts:29-30 | the default limit is 20 and the default offset 0 |
| PhotoListing.ParseIntStopsAtNonDigit | src/app/api/photos/route.ts:29 | `"12abc"` parses to 12 |
| PhotoListing.ParseIntWithoutDigits | src/app/api/photos/route.ts:29 | `"abc"` parses to NaN |
| PhotoListing.ParseIntNegative | src/app/api/photos/route.ts:29-30 | `" -3"` parses to -3 |
| PhotoListing.MatchingIds | src/app/api/photos/route.ts:50-54 | the ids of categories with that slug |
| PhotoListing.CategoryFilter | src/app/api/photos/route.ts:48-65 | no slug, or a lookup that errs, gives no filter; a slug matching exactly one category filters on that category when the lookup does not err; any filter is the one matching category |
| PhotoListing.Filter | src/app/api/photos/route.ts:63-70 | keeps only rows of the category and, when asked, featured rows; a sub-multiset of the input |
| PhotoListing.FilterKeepsMatches | src/app/api/photos/route.ts:63-70 | a row is kept if and only if it is in the input and matches |
| PhotoListing.SortByOrder | src/app/api/photos/route.ts:44 | sorted by display order and a permutation of the input |
| PhotoListing.InsertByOrderAddsOne | src/app/api/photos/route.ts:44 | inserting adds exactly that row |
| PhotoListing.InsertByOrderSorted | src/app/api/photos/route.ts:44 | inserting into a sorted list keeps it sorted |
| PhotoListing.KeptAfterSort | src/app/api/photos/route.ts:44-70 | sorting keeps the filter's guarantee |
| PhotoListing.Window | src/app/api/photos/route.ts:45 | `range(offset, offset+limit-1)`: the rows from the offset, at most `limit` of them |
| PhotoListing.ListPhotos | src/app/api/photos/route.ts:20-101 | a store error answers 500 with its message; a listing carries the parsed limit and offset, at most `limit` rows sorted by display order that all match the filters, and `hasMore` exactly when the page is full |
| PhotoListing.ListingIsWindowOfOrderedRows | src/app/api/photos/route.ts:44-91 | the page is the window of the filtered rows sorted by display order |
| PhotoListing.FailedLookupIgnored | src/app/api/photos/route.ts:50-59 | when the category lookup errs, the listing is the one without a slug |
| PhotoListing.UnknownSlugIgnored | src/app/api/photos/route.ts:56-61 | an unknown category slug lists as if none were given |
| PhotoListing.DefaultPage | src/app/api/photos/route.ts:29-45 | with no parameters, the first 20 rows in display order |
| PhotoListing.FeaturedNeedsExactTrue | src/app/api/photos/route.ts:31-70 | any `featured` value other than `true` does not filter |
| CategoriesRoute.Hyphenate | src/app/api/admin/categories/route.ts:22 | no whitespace remains and the result is no longer than the input; with HyphenateAppend and HyphenateRun it is characterised completely |
| CategoriesRoute.KeepSlugChars | src/app/api/admin/categories/route.ts:22 | only lower-case letters `a`-`z`, digits and `-` remain; `_` is removed too |
| CategoriesRoute.Slug | src/app/api/admin/categories/route.ts:22 | the slug holds only slug characters and is no longer than the name |
| CategoriesRoute.SlugIsIdempotent | src/app/api/admin/categories/route.ts:22 | the slug of a slug is itself |
| CategoriesRoute.SlugOfLandscape | src/app/api/admin/categories/route.ts:22 | `"Landscape"` gives `"landscape"` |
| CategoriesRoute.SlugAroundSymbol | src/app/api/admin/categories/route.ts:22 | `a & b` followed by symbols gives `a--b` in lower case |
| CategoriesRoute.SlugKeepsDoubleHyphen | src/app/api/admin/categories/route.ts:22 | `"Black & White!!"` gives `"black--white"` |
| CategoriesRoute.HyphenateEdges | src/app/api/admin/categories/route.ts:22 | one blank on each side of a non-empty blank-free text becomes one hyphen on each side |
| CategoriesRoute.SlugKeepsEdgeHyphens | src/app/api/admin/categories/route.ts:22 | the name is not trimmed: for every non-empty slug `x`, the slug of `" " + x + " "` is `"-" + x + "-"` |
| CategoriesRoute.HyphenateAppend | src/app/api/admin/categories/route.ts:22 | a blank-free prefix passes through hyphenation unchanged |
| CategoriesRoute.LeadingSpacesOfRun | src/app/api/admin/categories/route.ts:22 | the `\s+` match at a blank run followed by a non-blank (or the end) spans exactly that run |
| CategoriesRoute.HyphenateRun | src/app/api/admin/categories/route.ts:22 | a maximal run of one or more blanks becomes exactly one `-`, and the rest is hyphenated on its own |
| CategoriesRoute.KeepSlugCharsAppend | src/app/api/admin/categories/route.ts:22 | the character filter distributes over concatenation |
| CategoriesRoute.Post | src/app/api/admin/categories/route.ts:5-46 | 401 without a session; 500 on an unparseable body; 400 without a name; 500 "Failed to create category" for a truthy name that is not a string; with a non-empty string name an insert error gives 500 with its message and no error gives a created row; a created row holds the name, its slug, and the description and order when given, else null and 0 |
| CategoriesRoute.MissingFieldsDefault | src/app/api/admin/categories/route.ts:28-30 | a missing description becomes null and a missing order 0 |
| Portfolio.Distinct | src/app/portfolio/page.tsx:53 | the same members as the input, without duplicates |
| Portfolio.DistinctKeepsFirstOccurrenceOrder | src/app/portfolio/page.tsx:53 | elements appear in the order of their first occurrence |
| Portfolio.DistinctOfDuplicateFree | src/app/portfolio/page.tsx:53 | a duplicate-free list is kept as it is |
| Portfolio.Categories | src/app/portfolio/page.tsx:53 | the tab list starts with `All` |
| Portfolio.CategoryColumn | src/app/portfolio/page.tsx:53 | the category of each image, in order |
| Portfolio.OfCategory | src/app/portfolio/page.tsx:61 | only images of that category |
| Portfolio.OfCategoryMembers | src/app/portfolio/page.tsx:61 | an image is shown if and only if it is in the list and of that category |
| Portfolio.OfCategoryKeepsOrder | src/app/portfolio/page.tsx:61 | filtering distributes over concatenation, so order is kept |
| Portfolio.FilteredImages | src/app/portfolio/page.tsx:59-61 | `All` shows every image; any other tab, that category's images |
| Portfolio.ResetFromEmptyState | src/app/portfolio/page.tsx:109-115 | the reset button goes back to `All`, which shows every image |
| Portfolio.PageCategories | src/app/portfolio/page.tsx:9-53 | the page's tabs are `All` followed by its categories in first-occurrence order |
| Portfolio.EveryListedCategoryIsNonEmpty | src/app/portfolio/page.tsx:9-61 | every tab offered shows at least one image, so the empty state cannot be reached from a tab |
| Lightbox.KeyAction | src/components/photography/Lightbox.tsx:35-62 | closed: no action; Escape closes; Space toggles zoom; arrows move by one only while a neighbour exists |
| Lightbox.KeysStayInRange | src/components/photography/Lightbox.tsx:43-52 | keyboard navigation never leaves the image range |
| Lightbox.EndsDoNotWrap | src/components/photography/Lightbox.tsx:43-52 | at the last image Right does nothing, and at the first Left does nothing |
| Lightbox.ArrowsMatchKeys | src/components/photography/Lightbox.tsx:115-130 | an arrow key navigates exactly when the matching on-screen arrow is shown: left when the index is above 0, right when it is below the last |
| Lightbox.LightboxState.constructor | src/components/photography/Lightbox.tsx:31-32 | not zoomed and loading |
| Lightbox.LightboxState.Counter | src/components/photography/Lightbox.tsx:172 | the 1-based counter is at most the total |
| Lightbox.LightboxState.HandleKey | src/components/photography/Lightbox.tsx:35-62 | applies `KeyAction`: requests close, toggles zoom or moves the index; unlike the arrow buttons, a key does not restart loading |
| Lightbox.LightboxState.HandlePrevious | src/components/photography/Lightbox.tsx:80-85 | goes back one and starts loading when there is a previous image; otherwise nothing changes |
| Lightbox.LightboxState.HandleNext | src/components/photography/Lightbox.tsx:87-92 | goes forward one and starts loading when there is a next image; otherwise nothing changes |
| Lightbox.LightboxState.HandleImageLoad | src/components/photography/Lightbox.tsx:76-78 | loading ends and nothing else changes |
| Lightbox.LightboxState.ClickImage | src/components/photography/Lightbox.tsx:148-151 | zoom flips and nothing else changes |
| ContactRoute.ClientKey | src/app/api/contact/route.ts:26-28 | the forwarded address, else the real IP, else `unknown`; never empty |
| ContactRoute.Step | src/app/api/contact/route.ts:31-49 | a new client is allowed with count 1; a live entry at 5 is limited and unchanged; an expired entry restarts; otherwise the count grows; other clients are untouched |
| ContactRoute.Swept | src/app/api/contact/route.ts:14-21 | keeps exactly the entries whose reset time has not passed |
| ContactRoute.SweepPreservesDecisions | src/app/api/contact/route.ts:14-49 | a sweep at or before a request changes neither its decision nor the client's new entry |
| ContactRoute.LiveWindowAdmitsUpToFive | src/app/api/contact/route.ts:34-46 | within a live window, request k is allowed if and only if the count plus k is below 5 |
| ContactRoute.AtMostFivePerWindow | src/app/api/contact/route.ts:31-49 | a new client gets exactly its first five requests in one window |
| ContactRoute.ResetInstantNeverLimits | src/app/api/contact/route.ts:42-46 | at the reset instant the request is allowed and the count grows without a reset |
| ContactRoute.StepFixed | src/app/api/contact/route.ts:34-49 | the limiter with the boundary instant treated as expired |
| ContactRoute.StepFixedKeepsCountBounded | src/app/api/contact/route.ts:34-49 | with that fix every count stays between 1 and 5 |
| ContactRoute.ValidEmailMatchesPattern | src/app/api/contact/route.ts:70 | a checked address matches `local@domain.tld` with no blanks or extra `@` |
| ContactRoute.IsValidEmail | src/app/api/contact/route.ts:70 | no blank character, a first `@` with something before it, and after it a domain with no `@` and a `.` that is neither its first nor its last character; `ContactRoute.EmailTestMatchesPattern` ties it to the pattern |
| ContactRoute.PatternIsValidEmail | src/app/api/contact/route.ts:70 | every address matching that pattern passes the check |
| ContactRoute.EmailTestMatchesPattern | src/app/api/contact/route.ts:70 | the check accepts exactly the addresses the pattern matches |
| ContactRoute.EmailExamples | src/app/api/contact/route.ts:70 | `a@b.co` passes; `a@b`, `@b.co` and `a b@c.de` fail |
| ContactRoute.ValidateSubmission | src/app/api/contact/route.ts:56-84 | a filled honeypot is dropped silently; a missing field and a bad email each get their own message; the submission is valid exactly when all four fields are given, the email passes and name, subject and message are within 100, 200 and 5000 characters |
| ContactRoute.ErrorResponse | src/app/api/contact/route.ts:209-224 | an error mentioning `API key` gives 503; any other error gives 500 |
| ContactRoute.NotificationRecipient | src/app/api/contact/route.ts:89 | a non-empty CONTACT_EMAIL is the recipient; an unset or empty one gives `info@tonalfocus.com` |
| ContactRoute.HandleBody | src/app/api/contact/route.ts:52-224 | a body whose parsing or destructuring throws is answered by the catch block from that error's message, 503 iff it mentions "API key", else 500; the honeypot gives a silent 200; a rejection gives 400 with no mail; mail is sent only for valid submissions; the first mail goes to the configured recipient with the sender as reply-to and the `[Contact Form]` subject, the second to the sender; the thank-you reply happens exactly when both send calls return |
| ContactRoute.RateLimiter.constructor | src/app/api/contact/route.ts:8 | the limiter starts empty |
| ContactRoute.RateLimiter.Sweep | src/app/api/contact/route.ts:14-21 | the entries become `Swept` of the old entries |
| ContactRoute.RateLimiter.Post | src/app/api/contact/route.ts:23-224 | the limiter takes one `Step` for the client key; a limited request answers 429 and sends no mail; otherwise the body is handled |
| ContactForm.FieldError | src/components/forms/ContactForm.tsx:31-57 | untouched fields show no error; blank touched fields show one; otherwise the length and email rules decide |
| ContactForm.TouchedFieldOk | src/components/forms/ContactForm.tsx:31-57 | once touched, a field is fine if and only if it passes its rules |
| ContactForm.IsFormValid | src/components/forms/ContactForm.tsx:139-141 | every visible field has no error and is not blank once trimmed; `ContactForm.FormValidWhenAllTouched` spells it out |
| ContactForm.HasErrors | src/components/forms/ContactForm.tsx:86-88 | some visible field reports an error under the touched set |
| ContactForm.AllTouchedSubmitAgreesWithButton | src/components/forms/ContactForm.tsx:86-141 | with every field touched, the submit check finds no error exactly when the button's validity check passes |
| ContactForm.FormValidWhenAllTouched | src/components/forms/ContactForm.tsx:139-141 | with every field touched, the form is valid if and only if every field passes |
| ContactForm.ShortMessageRefused | src/components/forms/ContactForm.tsx:50-54 | a 5-character message makes the form invalid once touched |
| ContactForm.ShortMessageAccepted | src/app/api/contact/route.ts:56-84 | the same submission passes every server check |
| ContactForm.ShortMessageOnlyRefusedByClient | src/components/forms/ContactForm.tsx:50-54 | the minimum length is enforced only by the client |
| ContactForm.Sent | src/components/forms/ContactForm.tsx:106 | the request body carries all five fields as typed |
| ContactForm.ValidFormPassesServerChecks | src/components/forms/ContactForm.tsx:139-141 | a form that is valid with all fields touched and an empty honeypot passes the server's checks |
| ContactForm.StatusAfter | src/components/forms/ContactForm.tsx:98-136 | success exactly on an ok reply; the server's message or the defaults otherwise |
| ContactForm.HoneypotReplyShowsThanks | src/components/forms/ContactForm.tsx:115-118 | the server's silent honeypot reply shows the default thank-you |
| ContactForm.ContactFormState.constructor | src/components/forms/ContactForm.tsx:20-29 | an empty form, nothing touched, idle |
| ContactForm.ContactFormState.Change | src/components/forms/ContactForm.tsx:59-65 | only the named visible field takes the new value |
| ContactForm.ContactFormState.ChangeWebsite | src/components/forms/ContactForm.tsx:257-267 | the honeypot input's change sets `website` and nothing else |
| ContactForm.FilledHoneypotIsDropped | src/components/forms/ContactForm.tsx:106 | a filled honeypot is sent in the body and the server drops the submission silently |
| ContactForm.ContactFormState.Blur | src/components/forms/ContactForm.tsx:67-73 | the field joins the touched set |
| ContactForm.ContactFormState.Submit | src/components/forms/ContactForm.tsx:75-137 | sends if and only if there are no errors under the touched set of the current render; success clears the form; otherwise the status reports the error, and every field is marked touched |
| ContactForm.UntouchedMessageIsNotChecked | src/components/forms/ContactForm.tsx:86-141 | with only name, email and subject touched, a non-blank message of any length leaves the form valid and error-free |
| ContactForm.UnblurredMessageSkipsClientMinimum | src/components/forms/ContactForm.tsx:75-141 | with the message field not yet touched when the handler runs, a 5-character message is sent and the server accepts it; this needs a submit that no blur of the message precedes, since clicking the button or moving to another input blurs the textarea first |
| ContactForm.UntouchedFormHasNoErrors | src/components/forms/ContactForm.tsx:33 | with nothing touched there are no errors |
| Text.Lower | src/app/api/admin/categories/route.ts:22 | maps each ASCII upper-case letter to lower case and keeps every other character |
| Text.Trim | src/app/api/photos/upload/route.ts:54-55 | removes the leading and trailing blanks |
| Text.TrimFrame | src/app/api/photos/upload/route.ts:54-55 | the input is blanks, then the trimmed text, then blanks |
| Text.BlankIffAllSpace | src/components/forms/ContactForm.tsx:36 | the trimmed text is empty if and only if the input is all blanks |
| Text.NatToDecimal | src/lib/storage.ts:94 | the decimal text of a number is non-empty and all digits |

## Left out

- Presentation: markup, styling, motion, toasts, image loading components and
  the portfolio's hover effects are not modelled.
- Timers: the contact limiter's `setInterval` sweep is the method
  `ContactRoute.RateLimiter.Sweep`, taking the current time. When it runs is
  not modelled.
- Text semantics: the model is ASCII. JavaScript's Unicode `\s`,
  `toLowerCase` and UTF-16 lengths are reduced to ASCII blanks, ASCII case
  and one code unit per `char`.
- Foreign services: Supabase queries, storage and auth clients,
  `createServiceRoleClient`, Resend and bcrypt appear only through their
  outcomes, which are parameters. The same holds for `Date.now`,
  `Math.random`, `crypto.randomUUID`, the current year and `toISOString`.
- Mail bodies: the sender line and the HTML and text bodies of the two
  contact mails are not modelled. The recipients, the notification's
  reply-to address and its subject are.
- Canvas decoding: `ImageAnalysis.DetectImageColorMode` receives the 100×100
  RGBA buffer that the canvas would produce, or the failure that stops it.
- EXIF: `extractExifData` is a foreign call whose result is a parameter of
  the upload route.
- AdminAuth.VerifyAdminCredentials: the bcrypt comparison is a parameter
  with no constraint. That bcryptjs refuses a hash that is not 60 characters
  long is stated only as a requires of
  `AdminAuth.MissingHashOutsideDevelopmentRefuses`.
- `generatePasswordHash` in src/lib/auth/admin.ts is not modelled: it only
  calls bcrypt.
- `deleteImage` in src/lib/storage.ts is not modelled: it is not part of the
  upload path and only forwards to the storage client.
- The admin page's single delete, featured toggle, edit modal and refetch
  after a bulk delete are not modelled.
- UploadQueue.UploadPage: a queue entry keeps its file for good. In the
  page, each status update writes back `{ ...f, ... }`, a plain object. The
  spread copies only own properties, and a `File`'s `name`, `size` and
  `type` are getters on its prototype, so they are lost. A retry of a failed
  entry therefore reads `file.name.split` of undefined at
  src/app/admin/photos/upload/page.tsx:48 and throws. That aborts
  `handleUploadAll` before `setUploading(false)`, so `uploading` stays true.
  The model does not capture this failure. Object URLs for previews and
  `revokeObjectURL` are left out too.
- UploadQueue.UploadPage.RemoveFile: requires an index inside the queue. The
  source can only be called with one, from a rendered entry.
- SortableGrid.DragEndResult: requires both ids to be among the photos. The
  sortable context registers only those ids, so the `findIndex == -1` path is
  not modelled.
- PhotoListing.ListPhotos: a NaN or negative limit or offset goes to the 500
  path with a stand-in message, because the store's own reaction is foreign.
- PhotoListing.SortByOrder: ties in display order keep the input order (a
  stable sort); the store does not promise any order for ties.
- PhotoListing.ListPhotos: the category join (`category:categories(*)`) is
  not modelled; rows carry only what the filter and the sort read.
- CategoriesRoute.Post: a body member is undefined, null, a string, an
  integer or a boolean. Objects, arrays and fractional numbers are not
  modelled. As a name each is truthy and has no `toLowerCase`, so it would
  take the same 500 path as a number or a boolean; as a description or an
  order it would be stored as it is.
- ContactRoute.ValidateSubmission: a JSON member of the body that is not a
  string is treated as absent.
- AdminPhotosPage.CountSuccessfulDeletes: the selection is a set, so the
  order of the DELETE requests is not modelled.
- Sitemap.Entries: `lastModified` is the current time and is left out.
- UploadRoute.Post: the route performs no authentication check. The model
  reflects this by having none; nothing is claimed about access control.
- UploadRoute.Post: a thrown value that is not an `Error` is not modelled;
  every failure in the model carries a message.
- UploadRoute.HandleRequest: a `title` or other text entry that is a file
  rather than a string is not modelled; only the `file` entry may be either.
- UploadRoute.InsertAndRevalidate: the success response carries the record
  that was inserted. The source answers with the row the store returns,
  which the model takes to equal that record. The same holds for
  CategoriesRoute.Post.
- RevalidateRoute.SelectPaths: a `paths` array is modelled as a list of
  strings. An array holding other values, which the source passes on to
  `revalidatePath` as it is, is not modelled.
- Concurrency: concurrent admin sessions and overlapping requests are not
  modelled. Each operation runs to completion on its own state.

## Findings

| source | as written | input that shows it | evidently intended | confidence | as-written member | corrected member |
|---|---|---|---|---|---|---|
| src/app/admin/photos/upload/page.tsx:99-104 | `allSuccess` reads the `files` captured when the button was clicked, so it sees no status written during the loop | one pending file that uploads successfully: the entry becomes success, but no redirect happens | redirect when every file sent in this round was delivered | not executed | UploadQueue.StaleCheckMissesRedirect | UploadQueue.IntendedRedirectIffAllSentSucceed |
| src/app/api/contact/route.ts:35-46 | the limit test is `resetTime > now` and the reset test is `now > resetTime`, so at `now == resetTime` neither fires and the count grows | an entry with count 5 and a reset time equal to the request time: the request is allowed and the count becomes 6 | the window expires at its reset time, so counts stay between 1 and 5 | not executed | ContactRoute.ResetInstantNeverLimits | ContactRoute.StepFixedKeepsCountBounded |
