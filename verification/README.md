# bkanalytics CMS core in Dafny

This project models the decision logic of the bkanalytics portfolio CMS, a
Next.js site whose admin area edits a JSON file of analytics projects
(dashboards built with Power BI, Tableau or Excel), their uploaded media,
a small site configuration and an activity log. The model is functional:
the projects file is a sequence of JSON objects, the rate-limit store and
the configuration are maps, and every effect becomes an explicit parameter
or result. These effects are the clock (`now`), random bytes, write
success, the HMAC, the JSON and base64url codecs, URL parsing and URI
escaping.

Modules, following the source layout:

- `Json`, `Text`, `Wrappers`, `Utf8`: JavaScript values with truthiness
  and strict equality, the string built-ins the code relies on (`trim`,
  `split`, `parseInt`, `toLowerCase`, `includes`), and the UTF-8 encoding
  behind `Buffer.from`.
- `Validation`: `src/lib/validation.js`. It covers sanitising, HTML
  escaping, the upload-path whitelist, the UUID check and
  `validateProjectData`.
- `Upload` and `UploadRoute`: `src/lib/upload.js` and
  `src/app/api/upload/route.js`. They cover MIME classification, size and
  magic-number checks, file-name sanitising and generation, saving, batch
  processing and the upload reply.
- `RateLimit`: `src/middleware.js`. It covers the fixed-window limiter,
  cleanup, client address and bucket selection.
- `Schema`, `Sorting`, `Store`: `src/lib/db.js`. They cover the schema
  fix-up, the listing order (a stable insertion sort), and create, update,
  delete, reorder, tool filter and tag collection.
- `SiteConfig`, `ActivityLog`, `Metrics`: `src/lib/config.js`,
  `src/lib/activityLog.js` and `src/lib/metrics.js`.
- `ProjectsApi`, `ReorderRoute`: `src/app/api/projects/route.js` and
  `src/app/api/projects/reorder/route.js`.
- `Auth`, `Env`: `src/lib/auth.js` and `src/lib/env.js`.

The routes take the outcome of the origin and session checks as booleans;
`Auth.ValidateRequestOrigin` and `Auth.IsAuthenticated` compute them.

The code and the design notes disagree in two places, and the model follows
the code. First, the projects route calls a `validateRequest` that
`validation.js` does not export (see Findings). Second, a production
deployment with the CMS mode forced is writable although
`getEnvironmentName` calls it read-only (`Env.ForcedProductionIsLabelledReadOnly`).

## Model

| member | source | states |
|---|---|---|
| Validation.CollapseSpaces | src/lib/validation.js:22 | Collapsing whitespace runs leaves no two adjacent spaces and no whitespace but the plain space. It never lengthens the text and is empty only for empty input. |
| Validation.SanitizeString | src/lib/validation.js:12-25 | A non-string gives "". The result is at most maxLength long, holds no NUL, and has single plain spaces only. |
| Validation.SanitizeStringKeepsText | src/lib/validation.js:17-24 | For a string within the limit, sanitising keeps every non-whitespace character in order and drops only NULs. |
| Validation.CollapseKeepsAbsent | src/lib/validation.js:22 | Normalising whitespace introduces no character that was not there, other than the space. |
| Validation.SanitizeHTML | src/lib/validation.js:33-44 | A non-string gives "". The result contains none of < > " '. |
| Validation.EscapePassesIsEscape | src/lib/validation.js:38-43 | The five successive replace passes equal escaping each character on its own, because & is replaced first. |
| Validation.EscapeHasNoMarkup | src/lib/validation.js:38-43 | No markup character survives escaping. |
| Validation.UnescapeSanitizeHTML | src/lib/validation.js:33-44 | Decoding the five entities recovers the input exactly, so escaping loses nothing. |
| Validation.UploadPathByPairs | src/lib/validation.js:189-212 | A path is valid iff all of these hold: it starts with /uploads/ and one of the four media folders, has no ".." and no "//", and its last segment uses only [A-Za-z0-9-_.] and is non-empty. |
| Validation.DotPairBreaksUploadPath | src/lib/validation.js:205 | Any ".." anywhere makes a path invalid. |
| Validation.UploadPathHasNoTraversal | src/lib/validation.js:189-211 | Every segment of a valid path after the leading "" is non-empty and is not "..". |
| Validation.IsValidUUID | src/lib/validation.js:219-224 | Non-strings are rejected and "sample-" ids are accepted. Any other string is accepted iff it has the version-4 UUID shape: 36 characters, hyphens at positions 8, 13, 18 and 23, version digit 4, variant digit 8, 9, a or b, and hex digits elsewhere. |
| Validation.GeneratedIdsAreValid | src/lib/validation.js:219-224 | Every version-4 UUID formatted from 16 random bytes passes the check. |
| Validation.AcceptedUuidsAreGenerated | src/lib/validation.js:219-224 | Conversely, every lower-case id accepted as a UUID is the version-4 text of the 16 bytes it spells out. So the accepted lower-case UUIDs are exactly the ones the generator can produce. |
| Validation.CheckTitle | src/lib/validation.js:55-63 | Without errors, the sanitised title is present and 1 to 200 characters long. |
| Validation.CheckTool | src/lib/validation.js:72-78 | A tool is kept iff there is no error, and a kept tool is one of the three. |
| Validation.CheckStatus | src/lib/validation.js:80-90 | A status is kept iff there is no error, and a kept status is published or draft. |
| Validation.CleanTags | src/lib/validation.js:108-111 | Every kept tag is 1 to 50 characters long. |
| Validation.CheckTags | src/lib/validation.js:103-116 | Kept tags number at most 20, each 1 to 50 characters long. |
| Validation.CleanPaths | src/lib/validation.js:123-124 | Only valid upload paths are kept. |
| Validation.CheckPathList | src/lib/validation.js:118-142 | A kept image or document list is within its cap and holds only valid upload paths. |
| Validation.ValidateProjectData | src/lib/validation.js:51-182 | valid iff there are no errors iff every field check passes. A missing title reports "Title is required" and a bad tool reports the tool error. |
| Validation.ScalarChecks | src/lib/validation.js:55-100 | Title, tool, status and order each fail exactly on the input the source rejects. |
| Validation.ListChecks | src/lib/validation.js:103-142 | Tags, images and documents fail exactly when present and not arrays. |
| Validation.PathChecks | src/lib/validation.js:144-175 | Video, pdf and thumbnail fail exactly when present, non-null and not a valid upload path. |
| Validation.ValidateDefaults | src/lib/validation.js:65-175 | Absent fields get the source's defaults: description "", status published, empty lists, null media. |
| Validation.ValidateCaps | src/lib/validation.js:59-138 | Sanitised values respect the caps: title 200, description 5000, 20 tags of up to 50 characters, 50 images, 20 documents. |
| Validation.ValidatedRecordIsComplete | src/lib/validation.js:51-182 | A valid payload has a non-empty title, a known tool and a known status. |
| Validation.PayloadObject | src/lib/validation.js:53-175 | The sanitized object holds exactly the fields that were set. The description, title, tool, status and order hold their sanitized values. |
| Validation.PayloadObjectLists | src/lib/validation.js:104-172 | Tags, images and documents hold their kept strings in order, and video, pdf and thumbnail hold the values the checks let through. |
| Upload.ParseMime | src/lib/upload.js:20-40 | A recognised MIME string is the name of the declared type it is read as. |
| Upload.TypeOf | src/lib/upload.js:20-40 | A category lists a MIME type iff the type is declared and belongs to that category. |
| Upload.CategoriesAreDisjoint | src/lib/upload.js:20-40 | No MIME type is declared under two categories. |
| Upload.TableExtensions | src/lib/upload.js:20-40 | Every declared extension is a dot followed by name characters. |
| Upload.ValidateMagicNumber | src/lib/upload.js:70-81 | Accepts iff no signature is required, or the buffer starts with the signature. |
| Upload.Scan | src/lib/upload.js:89-94 | The category scan returns a category that declares the type, or None when none does. |
| Upload.GetFileCategory | src/lib/upload.js:88-95 | A found category declares the MIME type. The result is None iff the type is undeclared. |
| Upload.GetFileCategoryIsUnique | src/lib/upload.js:88-95 | A declared type is classified under its own category. |
| Upload.InheritedNamesUndeclared | src/lib/upload.js:20-40 | Object.prototype member names are not declared types. |
| Upload.ScanAgrees | src/lib/upload.js:89-94 | For every other MIME string, the as-written lookup agrees with the corrected one. |
| Upload.GetFileCategoryAgrees | src/lib/upload.js:88-95 | For every other MIME string, the as-written lookup agrees with the corrected one. |
| Upload.GetFileCategoryAsWritten | src/lib/upload.js:88-95 | As written, a name inherited from Object.prototype reaches the images table. Any other type gets the corrected lookup's answer. |
| Upload.InheritedNameIsAnImage | src/lib/upload.js:90-91 | As written, an inherited name such as "constructor" is classified as an image; the corrected lookup refuses it. |
| Upload.ValidateFile | src/lib/upload.js:141-175 | An undeclared type is refused. An accepted file has a declared type, that type's extension, a size within its category limit and the required signature. |
| Upload.ValidateFileDecides | src/lib/upload.js:151-174 | For a declared type: too large is refused, then a signature mismatch is refused, otherwise the file is accepted with the type's extension. |
| Upload.InheritedTypeSkipsSignature | src/lib/upload.js:141-175 | As written, an inherited-name type within the image size limit is accepted with extension "undefined" without any signature check. |
| Upload.ConstructorTypeIsAcceptedAsImage | src/lib/upload.js:141-175 | A concrete file of type "constructor" is accepted as an image. |
| Upload.ValidateFileAgrees | src/lib/upload.js:141-175 | For every other type, the as-written validation equals the corrected one. |
| Upload.ValidateFileAsWritten | src/lib/upload.js:141-175 | As written, a file typed with an inherited name is accepted as an image with extension "undefined", whatever its content, when it fits the 10 MB image limit. |
| Upload.RemoveDotPairs | src/lib/upload.js:107 | Removing ".." pairs left to right leaves no "..", never lengthens the text, and keeps text without pairs unchanged. |
| Upload.ReplaceUnsafe | src/lib/upload.js:110 | Each character outside [A-Za-z0-9-_.] becomes "_" and the others are kept. The result has the input's length and consists of name characters only, and a name already made of them is returned unchanged. |
| Upload.SanitizeFilename | src/lib/upload.js:102-118 | The result is 1 to 100 name characters with no "..". |
| Upload.SanitizeFilenameKeepsClean | src/lib/upload.js:102-118 | An already clean name of at most 100 characters is kept as it is. |
| Upload.SanitizeFilenameIdempotent | src/lib/upload.js:102-118 | Sanitising twice equals sanitising once. |
| Upload.ExtName | src/lib/upload.js:129 | The extension is a suffix of the base name. |
| Upload.NamePrefix | src/lib/upload.js:127-132 | The timestamp-random prefix is name characters without dots and ends in "-". |
| Upload.GenerateUniqueFilenameAsWritten | src/lib/upload.js:126-133 | The name ends with the extension. |
| Upload.GenerateUniqueFilename | src/lib/upload.js:126-133 | The corrected name ends with the extension. |
| Upload.GeneratedNameIsClean | src/lib/upload.js:126-133 | The corrected name uses only name characters and has no "..". |
| Upload.GeneratedNameLength | src/lib/upload.js:132 | The name is at most prefix + 20 + extension long. |
| Upload.GeneratedPathIsValid | src/lib/upload.js:196-212 | Every corrected generated name under its category folder is a valid upload path. |
| Upload.DotBaseBreaksUploadPath | src/lib/upload.js:129-132 | As written, a 20-character base ending in "." meets the extension's dot and makes the public path invalid. |
| Upload.DoubleDotNameBreaksUploadPath | src/lib/upload.js:126-133 | The upload "a..pdf" gets a public path that isValidUploadPath rejects. |
| Upload.SaveFile | src/lib/upload.js:182-227 | Uses the corrected `Upload.ValidateFile` and `Upload.GenerateUniqueFilename`. A file is saved iff validation accepts it and the write succeeds. A refusal reports the validation error, and a failed write reports the save error. A saved file carries the generated name, lies under its category's directory, and reports the sanitised original name, the size and the type. |
| Upload.SavedPathIsValid | src/lib/upload.js:196-216 | Every saved file's public path passes isValidUploadPath. |
| Upload.CollectFiles | src/lib/upload.js:280-285 | Every non-empty file field is collected, every collected file is non-empty, and there are no more files than fields. |
| Upload.CollectFilesInOrder | src/lib/upload.js:280-285 | The collected files occur in the order of their form fields. |
| Upload.CollectFilesCounts | src/lib/upload.js:280-285 | A non-empty file is collected once per form field that carries it, and an empty file never. |
| Upload.ProcessFormDataFiles | src/lib/upload.js:287-294 | Over the 150 MB total, nothing is saved and a single "total" error is reported. |
| Upload.ProcessFormDataFilesPartitions | src/lib/upload.js:297-315 | With the corrected `Upload.SaveFile`, saved paths are filed under their category in upload order, and failures are listed with their file names. |
| Upload.ProcessFormDataFilesCounts | src/lib/upload.js:297-315 | With the corrected `Upload.SaveFile`, every collected file is counted exactly once: stored in one category or failed. |
| UploadRoute.ReplyAsWritten | src/app/api/upload/route.js:53-71 | As written, the 400 "All uploads failed" reply comes iff no image, video or pdf was stored and some file failed. A success never reports documents. |
| UploadRoute.StoredDocumentReportedAsFailure | src/app/api/upload/route.js:53-61 | A batch that stored a document and refused another file is answered "All uploads failed". |
| UploadRoute.BatchReply | src/app/api/upload/route.js:53-71 | Corrected: the failure reply comes iff nothing of any kind was stored and some file failed. A success reports all four lists, with errors iff there were any. |
| UploadRoute.ReplyFailsOnlyWhenNothingStored | src/app/api/upload/route.js:50-61 | A failure reply means every collected file failed. |
| UploadRoute.Post | src/app/api/upload/route.js:19-77 | Uses the corrected `UploadRoute.BatchReply`. A bad origin gives 403, then a missing session 401, then a non-multipart content type and an unparsable form the two 400s. Past the guards, the reply is the batch reply of the processed form. |
| UploadRoute.PostAccountsForEveryFile | src/app/api/upload/route.js:50-71 | Within the size limit, a successful reply accounts for every non-empty file of the form: stored in one of the four lists or listed among the failures. |
| RateLimit.MaxRequests | src/middleware.js:23-46 | Every type allows at least one request, and unknown types fall back to the api limit of 60. |
| RateLimit.CeilSeconds | src/middleware.js:59 | Math.ceil(x / 1000) is the least whole number of seconds covering x. |
| RateLimit.CheckRateLimit | src/middleware.js:44-65 | Only the key's record changes. A request is allowed iff it starts or advances a window, and remaining = limit - count. |
| RateLimit.FreshWindowStarts | src/middleware.js:50-53 | A missing or expired record restarts the window with count 1. |
| RateLimit.FullWindowDenies | src/middleware.js:55-61 | A full live window denies with remaining 0 and a retry time within the window. |
| RateLimit.OpenWindowCounts | src/middleware.js:63-64 | A live window with room increments the count. |
| RateLimit.CountStaysBounded | src/middleware.js:44-65 | The count never exceeds the limit. |
| RateLimit.WindowAllowsAtMostRest | src/middleware.js:44-65 | Within one live window, at most limit - count further requests are allowed. |
| RateLimit.AtMostMaxPerWindow | src/middleware.js:44-65 | Any run of requests within 60 s of a fresh start is allowed at most limit times. |
| RateLimit.Cleanup | src/middleware.js:32-39 | Cleanup removes exactly the records older than the window and keeps the rest unchanged. |
| RateLimit.CleanupKeepsDecisions | src/middleware.js:32-65 | Cleaning up at time now changes no decision checkRateLimit makes at now or later, nor the record it leaves for the key. |
| RateLimit.CleanupIdempotent | src/middleware.js:32-39 | Cleaning twice equals cleaning once. |
| RateLimit.FirstField | src/middleware.js:75 | The first comma-separated field is a prefix without commas. |
| RateLimit.FirstFieldIsSplit | src/middleware.js:75 | That field is the first element of split(','). |
| RateLimit.GetClientIP | src/middleware.js:70-83 | The client address is the trimmed first x-forwarded-for field if present, else x-real-ip, else "unknown". |
| RateLimit.LimitType | src/middleware.js:142-153 | Only /api/ paths are limited: /api/upload has 20, POST /api/auth has 10, and the rest have 60. |
| RateLimit.LimitKeyInjective | src/middleware.js:155 | The key ip:type identifies the address and the type. |
| RateLimit.Middleware | src/middleware.js:132-192 | Paths outside /api/ pass on uncounted, with no-store exactly for /admin. |
| RateLimit.Limited | src/middleware.js:155-178 | An /api/ request updates the store exactly as checkRateLimit does. |
| RateLimit.MiddlewareUsesBucket | src/middleware.js:142-178 | An /api/ request is counted in its address and type bucket and answered 429 iff it is denied. |
| Schema.ShapeRequirements | src/lib/db.js:79-91 | A shape is valid iff it has a non-empty string id and title, a known tool, array tags and images, and documents falsy or an array. |
| Schema.FixProjectSchema | src/lib/db.js:112-122 | Fixing yields array tags, images and documents, status draft or published, and a numeric order. Every other field is kept. |
| Schema.FixKeepsWellTyped | src/lib/db.js:112-122 | Well-typed fields are kept as they are, and a missing order becomes 0. |
| Schema.FixOfFixed | src/lib/db.js:112-122 | A record that is already well formed is a fixed point. |
| Schema.FixIdempotent | src/lib/db.js:112-122 | Fixing twice equals fixing once. |
| Schema.FixedShape | src/lib/db.js:79-122 | A fixed record has a valid shape iff its id, title and tool are acceptable. |
| Schema.SortProjects | src/lib/db.js:141-146 | Sorting permutes the records. |
| Schema.CompareRespectsOrder | src/lib/db.js:143 | The comparator never puts a larger order first. |
| Schema.CompareAsKey | src/lib/db.js:141-146 | a precedes-or-ties b iff it has a smaller order, or the same order and a creation time no older. |
| Schema.CompareIsTotalPreorder | src/lib/db.js:141-146 | On records with a time, the comparator is a total preorder. |
| Schema.Listing | src/lib/db.js:128-151 | The listing is a permutation of the fixed records. |
| Schema.ListingOrderSorted | src/lib/db.js:141-146 | The listing is in non-decreasing order. |
| Schema.ListingSorted | src/lib/db.js:141-146 | With all times readable, the listing is in comparator order: ascending order, ties newest first. |
| Schema.ListingResorted | src/lib/db.js:141-146 | Sorting the listing again changes nothing. |
| Schema.ListingIsFixed | src/lib/db.js:141 | Every listed record is already fixed. |
| Sorting.Insert | src/lib/db.js:141-146 | Insertion adds exactly one element. |
| Sorting.Sort | src/lib/db.js:141-146 | The sort permutes its input. |
| Sorting.SortStable | src/lib/db.js:141-146 | The sort is stable: records the comparator ties come out in their input order. |
| Sorting.SortSorted | src/lib/db.js:141-146 | With a total-preorder comparator, the result is in comparator order. |
| Sorting.SortKeySorted | src/lib/db.js:141-146 | A comparator that respects a key sorts by that key. |
| Sorting.SortSortedIsIdentity | src/lib/db.js:141-146 | A list already in order is returned unchanged. |
| Store.FindIndex | src/lib/db.js:223 | findIndex returns the first index whose id is strictly equal, or None when there is none. |
| Store.GetProjectById | src/lib/db.js:158-162 | A found record is listed and has the id. None means no listed record has it. |
| Store.MaxOrder | src/lib/db.js:179 | The reduce result is the largest of 0 and every record's order: at least each of them, and 0 or some record's order. |
| Store.NewProject | src/lib/db.js:181-198 | The new record has the given id, the title or "", the tool, array lists, and the given order. |
| Store.CreateProject | src/lib/db.js:170-209 | A failure is the shape error. A success appends one valid record with the id to the listing. |
| Store.CreateAcceptsExactly | src/lib/db.js:181-203 | Creation succeeds iff the id and title are non-empty and the tool is known. |
| Store.CreateRejects | src/lib/db.js:201-203 | A missing title or unknown tool throws. |
| Store.CreateOrdersLast | src/lib/db.js:179-193 | Without an order, the new record goes after every listed one, with an order one more than the largest (or 1). |
| Store.CreateKeepsGivenOrder | src/lib/db.js:193 | A numeric order is kept. |
| Store.NormalizeTimestamp | src/lib/db.js:98-105 | The result is a time, and a valid numeric time is kept. |
| Store.Merge | src/lib/db.js:232-238 | The merge keeps the existing id. |
| Store.UpdateProject | src/lib/db.js:217-253 | An unknown id gives null. A listed id succeeds iff the merged record passes the shape check. |
| Store.UpdateSucceeds | src/lib/db.js:217-253 | An update of a listed record succeeds whenever the merged title is a non-empty string and the merged tool is one of the three. |
| Store.MergeHasShape | src/lib/db.js:79-91 | A merged record whose id is a non-empty string passes the shape check whenever its title is a non-empty string and its tool one of the three. The schema fix supplies the tag, image and document arrays. |
| Store.UpdateReplacesOnlyMatch | src/lib/db.js:223-250 | Only the matching record changes, and it becomes the returned one. |
| Store.UpdateOverlays | src/lib/db.js:232-241 | An updated field takes the update's value, and others keep the stored value. |
| Store.MergeOverlays | src/lib/db.js:232-238 | The spread order: the update wins over the existing record. |
| Store.UpdateIgnoresNewId | src/lib/db.js:235 | An update cannot change the id. |
| Store.WithoutIdMembers | src/lib/db.js:313 | The filter keeps exactly the records with another id. |
| Store.WithoutIdInOrder | src/lib/db.js:313 | Deleting keeps the remaining records in their order. |
| Store.WithoutIdCounts | src/lib/db.js:313 | A record with another id occurs as often as before, and a record with the id not at all. |
| Store.ApplyOrder | src/lib/db.js:331-335 | One step changes the records iff some record has the item's id and a different order. Then the first such record takes the item's order, keeps its other fields, and no other record changes. |
| Store.DeleteProject | src/lib/db.js:287-317 | false and unchanged iff no record has the id; otherwise only the records with other ids remain. |
| Store.WithoutPresentId | src/lib/db.js:313 | With unique ids, deleting removes exactly that one record. |
| Store.ApplyOrders | src/lib/db.js:330-336 | Reordering keeps the record count. |
| Store.ApplyOrdersOnlyOrders | src/lib/db.js:330-340 | Only order fields change, and no change means nothing is written. |
| Store.ApplyOrdersIgnoresUnnamed | src/lib/db.js:330-336 | Records not named in the request are untouched. |
| Store.ApplyOrdersSets | src/lib/db.js:330-336 | A named record gets the requested order. |
| Store.UpdateProjectOrder | src/lib/db.js:323-343 | The file is written only on a change, and the record count is kept. |
| Store.GetProjectsByTool | src/lib/db.js:350-353 | Exactly the listed records with that tool are returned. |
| Store.GetProjectsByToolIsFilter | src/lib/db.js:350-353 | The result keeps the listing order and holds each listed record with the tool as often as it is listed. |
| Store.GetAllTags | src/lib/db.js:359-370 | Exactly the tags of listed records are returned. |
| Store.AllTagsOnce | src/lib/db.js:359-370 | No string, number, boolean or null tag appears twice. Array and object tags are added each time, as `Set` compares them by reference. |
| SiteConfig.DefaultConfigIsValid | src/lib/config.js:15-71 | The defaults pass isValidConfig. |
| SiteConfig.GetConfig | src/lib/config.js:77-98 | experience is a number and customStats an array. A missing or null file gives the defaults. |
| SiteConfig.GetConfigMerges | src/lib/config.js:86-92 | Stored fields override the defaults; a non-numeric experience or non-array customStats falls back to the default. |
| SiteConfig.GetConfigOfValid | src/lib/config.js:77-98 | A valid stored configuration is the defaults overlaid by it. |
| SiteConfig.UpdateConfig | src/lib/config.js:105-126 | A success is valid and equals the current configuration overlaid by the updates. A valid merge with a successful write succeeds, and a failed write gives the save error. Failures are the two messages. |
| SiteConfig.IndexKeys | src/lib/config.js:110-113 | Spreading an array gives exactly the keys "0", "1", … with the element at each index. |
| SiteConfig.UpdateConfigSpreadsArray | src/lib/config.js:110-113 | An array body is accepted over a valid configuration: each index key takes its element and the named fields stay as they were. |
| SiteConfig.UpdateConfigOverlays | src/lib/config.js:110-113 | Each updated key takes its new value, and others keep the current one. |
| SiteConfig.UpdateConfigRejectsInvalid | src/lib/config.js:115-117 | An invalid merge is refused with "Invalid configuration data". |
| SiteConfig.UpdateConfigNeedsNumber | src/lib/config.js:61-117 | A non-numeric experience is refused. |
| ActivityLog.GetActivityLogs | src/lib/activityLog.js:31-42 | A missing file reads as []. |
| ActivityLog.Entry | src/lib/activityLog.js:57-65 | The entry carries id, timestamp, action and resource. Its actor is options.actor when truthy, else "admin". |
| ActivityLog.LogActivity | src/lib/activityLog.js:53-81 | An entry is logged iff the log is an array and the write succeeds. Otherwise the file is unchanged. |
| ActivityLog.LogActivityPrepends | src/lib/activityLog.js:68-71 | The new entry comes first, followed by the old entries truncated to 100. |
| ActivityLog.LogActivityBounded | src/lib/activityLog.js:10-71 | After logging, the log holds at most 100 entries, or no more than it held before. |
| ActivityLog.ClearActivityLogs | src/lib/activityLog.js:86-92 | A successful clear leaves an empty log. |
| ActivityLog.ClearThenLog | src/lib/activityLog.js:53-92 | Logging after a clear leaves exactly the new entry. |
| Metrics.SumPermutation | src/lib/metrics.js:25-52 | Counts do not depend on record order. |
| Metrics.ToolName | src/lib/metrics.js:34-37 | Only one of the three tool names is counted. |
| Metrics.ToolCountsBounded | src/lib/metrics.js:28-38 | The tool counters sum to at most the published count. |
| Metrics.ToolCountsComplete | src/lib/metrics.js:28-38 | When every published record names a tool, the counters sum to exactly that count. |
| Metrics.FlagsBounded | src/lib/metrics.js:41-52 | The video and pdf counts are at most the published count. |
| Metrics.Calculate | src/lib/metrics.js:19-71 | totalProjects counts the published records; each tool counter, totalVideos and totalPdfs count the published records with that tool, video or pdf; totalImages and totalDocuments sum the array lengths over them. The tool and media bounds hold, totalMedia is the sum of the four media counts, and experience and customStats come from the configuration. |
| Metrics.CountOfFilter | src/lib/metrics.js:25 | Summing an indicator over the records counts the records it accepts. |
| Metrics.SumOfFilter | src/lib/metrics.js:45-52 | A weight that is zero outside the published records sums to the sum over the published records. |
| Metrics.CalculateMetrics | src/lib/metrics.js:19-71 | experience is numeric, customStats is an array, and total is at most the record count. |
| Metrics.CalculateMetricsIgnoresOrder | src/lib/metrics.js:19-25 | The metrics equal those of the fixed records in file order. |
| Metrics.FixedIsPublished | src/lib/metrics.js:25 | A record counts as published unless its status is "draft". |
| Metrics.GetMetrics | src/lib/metrics.js:78-106 | A fresh cache is served. Otherwise the computation is stored and served; a throw serves zeros and keeps the cache. |
| Metrics.CacheServesWithinTtl | src/lib/metrics.js:13-85 | Within 5 s of a computation, unforced calls return it. |
| Metrics.CacheExpires | src/lib/metrics.js:82-90 | After 5 s the next call recomputes. |
| Metrics.InvalidateMetricsCache | src/lib/metrics.js:112-115 | After invalidation the next call always recomputes. |
| Metrics.FailureKeepsCache | src/lib/metrics.js:94-105 | A failed computation leaves the cache as it was. |
| ProjectsApi.LowerOf | src/app/api/projects/route.js:48-58 | `?.toLowerCase()` gives undefined for nullish values, lower-cases strings and throws otherwise. |
| ProjectsApi.LowerEquals | src/app/api/projects/route.js:48-49 | true iff the value is a string whose lower case equals the term; it throws exactly when lower-casing throws. |
| ProjectsApi.LowerIncludes | src/app/api/projects/route.js:56-58 | true iff the value is a string whose lower case contains the term; it throws exactly when lower-casing throws. |
| ProjectsApi.AnyOf | src/app/api/projects/route.js:49-58 | `some` is true iff some element passes. |
| ProjectsApi.TechTestMatches | src/app/api/projects/route.js:46-51 | The tech filter matches the tool or any tag, case-insensitively. |
| ProjectsApi.SearchTestMatches | src/app/api/projects/route.js:54-61 | The search matches the title, description or any tag. |
| ProjectsApi.KeepMatches | src/app/api/projects/route.js:37-64 | When the filter answers, it answers exactly the reference definition of a match. |
| ProjectsApi.PlainNeverThrows | src/app/api/projects/route.js:37-64 | Records with string or missing fields never make the filter throw. |
| ProjectsApi.FilterProjects | src/app/api/projects/route.js:37-64 | Exactly the kept records survive. The result is None iff some record makes the filter throw. |
| ProjectsApi.FilterProjectsInOrder | src/app/api/projects/route.js:37-64 | The filtered records keep their listing order. |
| ProjectsApi.FilterProjectsCounts | src/app/api/projects/route.js:37-64 | A kept record occurs as often as in the listing, and any other record not at all. |
| ProjectsApi.DatesArePreorders | src/app/api/projects/route.js:68-71 | Both date orders are total preorders on timed records. |
| ProjectsApi.TitlesArePreorder | src/app/api/projects/route.js:69 | The title order is a total preorder on records with titles. |
| ProjectsApi.SortFollowsKey | src/app/api/projects/route.js:67-72 | The sort puts the page in the requested order. |
| ProjectsApi.NewestFirst | src/app/api/projects/route.js:71 | Under date-desc, earlier records are no older. |
| ProjectsApi.Paginate | src/app/api/projects/route.js:75-78 | A page has at most limit records and is the slice from (page-1)·limit; it is full when enough records remain. |
| ProjectsApi.PagesTile | src/app/api/projects/route.js:75-78 | Pages 1..k together are the first k·limit records, with none skipped or repeated. |
| ProjectsApi.FifteenInPagesOfTen | src/app/api/projects/route.test.js:73-105 | 15 records in pages of 10 give 10 then 5, the second starting at the 11th. |
| ProjectsApi.ListProjects | src/app/api/projects/route.js:16-98 | An invalid query gives 400 and a throwing filter gives 500. 304 iff If-None-Match equals the page's ETag; otherwise the page is listed with its ETag. |
| ProjectsApi.PageMatches | src/app/api/projects/route.js:37-78 | Every listed record is in the store and matches; the public sees only published ones. |
| ProjectsApi.MatchIsKept | src/app/api/projects/route.js:37-64 | Every matching record survives the filter. |
| ProjectsApi.MatchOnSomePage | src/app/api/projects/route.js:37-78 | Every matching record appears on some page. |
| ProjectsApi.ListProjectsAsWritten | src/app/api/projects/route.js:10-97 | As written, GET never lists and never answers 304. |
| ProjectsApi.MissingValidatorFailsEveryList | src/app/api/projects/route.js:10-97 | For an empty store the corrected route lists [] with its ETag, while the as-written route answers 500. |
| ProjectsApi.CreatePost | src/app/api/projects/route.js:101-127 | A bad origin gives 403, then a missing session 401, then a body the schema refuses 400. Past these, the reply is a failure iff the store's createProject fails, and otherwise the record it creates. |
| ProjectsApi.CreatePostStoresRecord | src/app/api/projects/route.js:101-127 | A request passing both checks with a non-empty string title, a valid tool and a non-empty id creates the record with that id after the listed ones. |
| ReorderRoute.Normalize | src/app/api/projects/reorder/route.js:29-32 | Normalising throws iff some item is nullish. Every kept item has a truthy id, and no more items than given are kept. |
| ReorderRoute.ExponentOrderReadsLeadingDigit | src/app/api/projects/reorder/route.js:29-32 | An order of 10^21, which `String` writes as "1e+21", is read by parseInt as 1. |
| ReorderRoute.NormalizeKeepsUsable | src/app/api/projects/reorder/route.js:29-32 | Without nullish items, exactly the items with an id and a parseable order are kept, in order. |
| ReorderRoute.KeepsNumberedItem | src/app/api/projects/reorder/route.js:29-32 | An item with an id and a numeric order is kept with the number parseInt reads back: the order itself below 10^21 in magnitude, its signed leading digit from there on. |
| ReorderRoute.DropsItemWithoutId | src/app/api/projects/reorder/route.js:32 | An item without an id is dropped. |
| ReorderRoute.Put | src/app/api/projects/reorder/route.js:11-45 | 403 before 401 before the body is read. A body that does not parse gives 500, and so does an array iff it holds a nullish item. A non-array gives 400. A success reports the normalised count and writes those orders. |
| ReorderRoute.PutOnNullFreeArray | src/app/api/projects/reorder/route.js:29-40 | On an array without null items, the orders are written iff some item is usable, and the store receives the usable items in order. Otherwise the reply is the 400 "No valid items to reorder". |
| ReorderRoute.NothingUsableIsRefused | src/app/api/projects/reorder/route.js:34-36 | An array without usable items gives 400 "No valid items to reorder". |
| Utf8.EncodeChar | src/lib/auth.js:31-32 | Each character's bytes announce their own length and decode back to its code point. |
| Utf8.EncodeInjective | src/lib/auth.js:31-40 | Equal byte buffers come from equal strings. |
| Auth.SecureCompare | src/lib/auth.js:28-41 | false if either side is empty; otherwise true iff the strings are equal, despite the byte-length check. |
| Auth.ValidateCredentials | src/lib/auth.js:59-70 | false when credentials are unset; otherwise true iff both the username and the password match. |
| Auth.GenerateSessionToken | src/lib/auth.js:77-102 | Fails with "SESSION_SECRET not configured" iff the secret is unset. |
| Auth.VerifySessionToken | src/lib/auth.js:109-150 | null when the token or secret is missing. Otherwise the payload is returned iff the token decodes to an object with version v2, a non-empty signature equal to the HMAC of the rest, and an age of at most 8 h. |
| Auth.VerifyGenerated | src/lib/auth.js:77-144 | A generated token verifies with the same secret within 8 h and gives back its payload. |
| Auth.SignatureRemoved | src/lib/auth.js:98-121 | Removing the signature from a signed payload gives back exactly the payload that was signed. |
| Auth.GeneratedTokenExpires | src/lib/auth.js:140-142 | The same token is refused after 8 h. |
| Auth.ForeignSecretRefused | src/lib/auth.js:129-137 | A token signed under another secret is refused. |
| Auth.FirstCookieAt | src/lib/auth.js:163 | The regex takes the leftmost "admin_token=" followed by a character other than ';'. |
| Auth.CapturedAt | src/lib/auth.js:163 | The captured value is non-empty, has no ';', and runs to the next ';' or the end. |
| Auth.RequestToken | src/lib/auth.js:159-171 | A cookie token wins over a Bearer header. A failed URI decode throws, and no cookie token falls back to the header. |
| Auth.IsAuthenticated | src/lib/auth.js:157-179 | false without a token; otherwise true iff the chosen token verifies. |
| Auth.NoTokenNoSession | src/lib/auth.js:173-175 | With neither a cookie match nor a Bearer header, the request is not authenticated. |
| Auth.AuthCookieOptions | src/lib/auth.js:188-201 | The cookie sets Path=/, HttpOnly, SameSite=Strict and Max-Age=28800, and sets Secure iff in production. |
| Auth.CreateAuthHeaders | src/lib/auth.js:187-206 | The header ends with Secure in production and with Max-Age=28800 otherwise. |
| Auth.CreateLogoutHeaders | src/lib/auth.js:212-216 | The header ends with Max-Age=0, and the cookie it leaves yields no token. |
| Auth.AuthCookieCarriesToken | src/lib/auth.js:163-191 | The cookie a login sets presents the token again. |
| Auth.LoginAuthenticates | src/lib/auth.js:77-206 | Logging in and presenting the cookie authenticates for 8 h. |
| Auth.ValidateRequestOrigin | src/lib/auth.js:238-259 | true outside production or without an Origin. Otherwise true iff the origin parses and its host equals the Host header. |
| Env.IsLocal | src/lib/env.js:15-17 | Local means neither production nor a Codespace. |
| Env.IsCMS | src/lib/env.js:26-31 | A CMS is true when forced, in a Codespace or outside production; false only in production with neither override. |
| Env.WritableExactlyInCMS | src/lib/env.js:39-41 | canWrite iff isCMS. |
| Env.LocalIsCMS | src/lib/env.js:15-29 | A local build is a CMS and writable. |
| Env.EnvironmentName | src/lib/env.js:47-52 | The name is never 'Unknown', and each of the three names is chosen exactly in its case. |
| Env.EnvironmentColor | src/lib/env.js:58-61 | green iff a CMS, and purple iff read-only. |
| Env.ForcedProductionIsLabelledReadOnly | src/lib/env.js:26-50 | A forced CMS in production is writable and green, yet named "Production (Read-Only)". |
| Text.ParseIntOfNumberToString | src/app/api/projects/reorder/route.js:31 | parseInt of `String(n)` is n below 10^21 in magnitude and the signed leading digit of the exponent form from there on. |
| Json.ParseIntValueOfNumber | src/lib/validation.js:94 | parseInt of a number, or of an array whose first element is that number, reads that number back below 10^21 and its signed leading digit above. |
| Text.CompareStrings | src/app/api/projects/route.js:69 | The title comparison is 0 iff the strings are equal. |
| Text.CompareStringsFlips | src/app/api/projects/route.js:69 | Swapping the titles flips the sign of the comparison. |
| Text.CompareStringsTransitive | src/app/api/projects/route.js:69 | The title order is transitive. |
| Text.ToLower | src/app/api/projects/route.js:48-58 | Only the letters A to Z change, each to its lower-case letter. The length is kept and no upper-case ASCII letter remains. |
| Text.ToLowerIdempotent | src/app/api/projects/route.js:48-58 | Lower-casing twice is lower-casing once. |
| Text.Take | src/lib/activityLog.js:71 | `slice(0, n)` keeps the first min(n, length) items. |

## Left out

- File-system effects are left out: reading and writing JSON files, the `.bak` backup and restore, atomic temp-and-rename, `ensure*Exists` and directory creation. The file contents are values, and write success is a boolean parameter.
- `safeDeleteFile` and `deleteFile` are left out, because they resolve paths on disk. `Store.DeleteProject` models only the record removal.
- Crypto and randomness are parameters:
  - HMAC-SHA256, `randomBytes`, `uuidv4` and the MD5 ETag hash are functions or values passed in;
  - the clock is an explicit `now`;
  - the one-in-a-hundred cleanup draw of the middleware is the `sweep` flag.
- Date parsing and ISO formatting are left out. `createdAt` is read as a number (unreadable times compare as 0), and timestamps are values given by the caller.
- Zod schema parsing of the query and of the POST body is given as an input: `Option<Query>` and `Option<Object>`. Non-integer page and limit values are left out.
- `createErrorResponse`, the security headers, CSP, `generateCSRFToken` (unused by the core) and the 500 messages' contents are left out.
- `Auth.SecureCompare`: lone UTF-16 surrogates cannot occur in Dafny strings, so the case where two different strings encode to the same replacement bytes is not modelled.
- `Auth.VerifySessionToken`: the following are left out:
  - a signature given as an array of byte values, which `Buffer.from` would accept;
  - `JSON.stringify`'s dependence on key order, since objects are maps;
  - the conversion of numeric strings and arrays in the timestamp subtraction (treated as NaN, which never expires).
- `Auth.IsAuthenticated`: `decodeURIComponent` is a parameter. The routes take the authentication outcome as a boolean, so a throw inside GET's `isAuthenticated` call (500) is not separated from other 500s.
- `ProjectsApi.TitleAscending`: `localeCompare` is modelled as code-point order. When the comparator receives a record whose title is not a string, `a.title.localeCompare` throws a TypeError and the route answers 500. Which pairs the engine's sort compares is engine-dependent, so the model compares such titles as equal instead of failing.
- `Text.ToLower` lower-cases ASCII letters only.
- `Upload.SanitizeFilename`: lengths count Unicode code points, where JavaScript counts UTF-16 code units. The source's character class replaces each code unit of a character outside the Basic Multilingual Plane, so a name made of U+1F600 and ".png" becomes "__.png" there and "_.png" here. Its 100-unit cap (src/lib/upload.js:113-114) can also cut such a character in half.
- `Upload.GenerateUniqueFilename`: the 20-character cut of the base (src/lib/upload.js:132) counts code points here and UTF-16 code units in the source.
- `Validation.SanitizeString`: the maxLength cut (src/lib/validation.js:24) counts code points here and UTF-16 code units in the source.
- `Schema.TimeOf`: every `createdAt` that is not a number, or is a number beyond `Schema.MaxTime` in magnitude, is read as an unreadable time. In the source, `new Date(null)` is time 0 and `new Date(true)` is 1 ms, so a null or boolean `createdAt` sorts as that time.
- `Store.NormalizeTimestamp`: a truthy value that is not a number, such as `true`, becomes now in the model. The source keeps `new Date(true)`, 1 ms after the epoch, and also keeps readable date strings.
- `SiteConfig.Spread`: a string is spread into one key per character here; the source gives one key per UTF-16 code unit, so a character outside the Basic Multilingual Plane takes two keys there. `SiteConfig.GetConfig`'s result may hold invalid `customStats` elements, as the source's does.
- `ActivityLog.LogActivity`: `JSON.stringify` dropping undefined fields of an entry is not modelled.
- `Metrics.GetMetrics`: a throw in the computation is given as `None` rather than derived.
- `Upload.ParseMime`: only the direction "recognised implies declared name" is stated; the converse follows from `Upload.TypeOf`.
- `RateLimit.MaxRequests`: the same inherited-name lookup issue as in the MIME table exists for `RATE_LIMIT_MAX_REQUESTS[type]`. Only the three internal type names reach it, so it is not modelled.
- `Json.Value`: numbers are unbounded integers, not doubles. A fraction such as an order of 1.5 (which parseInt reads as 1) cannot be written, and an integer that is not a double, such as 2^53 + 1, is a value only the model has.
- `Json.ParseIntValue`: from 10^21 on, a number is written in exponent form from its exact digits, where JavaScript writes the shortest digits that round back to the same double. The results differ whenever the exact digits and the shortest digits start with different digits. The double written 2e23 is exactly 199999999999999983222784: the source writes "2e+23" and reads 2, while the model reads 1. Likewise 10^23 reads 1 in the source and 9 in the model.
- `ReorderRoute.Normalize`: inherits the two lines above; a fractional order is outside the model.

## Findings

| source | as written | input that shows it | evidently intended | confidence | as-written member | corrected member |
|---|---|---|---|---|---|---|
| src/lib/upload.js:88-95 | `types[mimeType]` also finds names inherited from Object.prototype | a file of type "constructor" within 10 MB | only declared MIME types are accepted | high, not executed | Upload.GetFileCategoryAsWritten, Upload.ValidateFileAsWritten, Upload.ConstructorTypeIsAcceptedAsImage | Upload.GetFileCategory, Upload.ValidateFile |
| src/app/api/upload/route.js:53-71 | totalUploaded counts images, videos and pdfs but not documents | one stored .txt document and one refused file | a stored document counts as an upload and is reported | high, not executed | UploadRoute.ReplyAsWritten, UploadRoute.StoredDocumentReportedAsFailure | UploadRoute.BatchReply |
| src/lib/upload.js:126-133 | the 20-character base can end in "." before the extension's "." | an upload named "a..pdf" | generated names pass isValidUploadPath | high, not executed | Upload.GenerateUniqueFilenameAsWritten, Upload.DoubleDotNameBreaksUploadPath, Upload.DotBaseBreaksUploadPath | Upload.GenerateUniqueFilename, Upload.GeneratedPathIsValid, Upload.SavedPathIsValid |
| src/app/api/projects/route.js:10, 23, 114 | `validateRequest` is imported from validation.js, which does not define it, so the call throws | any GET of /api/projects | the query is validated and the page listed | high, not executed | ProjectsApi.ListProjectsAsWritten, ProjectsApi.MissingValidatorFailsEveryList | ProjectsApi.ListProjects |

For the fourth finding, POST also answers 500 once both guards pass, for the
same reason. `ProjectsApi.CreatePost` models the corrected route and takes
the validated body as an input.
