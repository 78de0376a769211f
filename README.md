# Product creation in the storefront, modelled in Dafny

This project models how the storefront creates a product:

- **Uploader.** The create-product form's image uploader keeps a list of upload entries and a dictionary of local preview URLs. It admits selected files and asks the upload-URL endpoint for signed PUT URLs. It then applies each file's transport outcome to the entry with that file's id. It also removes entries, clears the list, and revokes previews on unmount.
- **Validation schema.** The form and the API share one schema.
- **Upload-URL endpoint.** It builds one object key and public URL per file.
- **Products endpoint.** POST validates the payload and writes the product and its image rows in one all-or-nothing transaction. GET pages the products and attaches each product's images.
- **Tables.** The two database tables, with their bounds, defaults and cascade.
- **Home page.** It groups image rows under their products.
- **Product card.** It chooses one picture per card.
- **Price input.** Both create forms filter what is typed into the price field.

Modules:

| file | module | what it holds |
|---|---|---|
| common.dfy | Common | `Option` (`??`), truthiness, decimal printing, `filter`/`map` on sequences, subsequences |
| form_schema.dfy | FormSchema | image entry and payload types; the schema as a list of issues; `Valid` |
| price_input.dfy | PriceInput | the price sanitiser and the forms' default values |
| db_schema.dfy | DbSchema | rows, column bounds, defaults, inserts, cascade delete, table consistency |
| upload_url.dfy | UploadUrl | extension, key, public URL, the upload-URL handler |
| uploader.dfy | Uploader | per-id updates as pure functions; the `ImageUploader` class holding the entry list, the preview dictionary, the message and the revoked URLs |
| listing.dfy | Listing | the group-by loop and the product/image DTOs of the home page |
| product_card.dfy | ProductCard | primary-image choice and placeholder |
| products_api.dfy | ProductsApi | the `Database` class and POST; GET with paging, where-in, grouping and URL fallback |

State that the source changes in place is modelled as class fields:

- The uploader's `images` state and `objectUrlMapRef` are fields of `Uploader.ImageUploader`. Its methods reassign them.
- The database is `ProductsApi.Database.tables`. POST stages its inserts on a copy and assigns the copy only when the transaction completes.
- The grouping loops are `while` loops over a `map` (`Listing.GroupBy`).

Everything else is functions and lemmas.

Some inputs come from outside and are taken as parameters:

- the clock readings (`Date.now()`);
- the random bytes;
- the presigner;
- the bucket and region settings;
- the database's failure points (`ProductsApi.Fault`).

The upload transport and the broker call are seen only through what they report (`Uploader.Event`, `Uploader.BrokerReply`). Their completions are an arbitrary sequence of per-id events.

Facts about the code that the model keeps (a design description of the system reads otherwise):

- **Progress.** Each progress report replaces the entry's progress (src/features/product/components/ProductImageUploader.tsx:104-109), and the completion handler matches by id alone (ProductImageUploader.tsx:112-126). So nothing keeps progress non-decreasing, and an outcome that arrives after `done` is still applied.
- **Clear all.** The "clear all" button only empties the list (ProductImageUploader.tsx:296). The previews are revoked only by the unmount cleanup (ProductImageUploader.tsx:181-188).
- **Persisted images.** The POST handler keeps only images whose status is done (or missing) *and* whose key is a non-empty string (src/app/api/products/route.ts:92-97). An image that has only a url passes validation but gets no row (`ProductsApi.UrlOnlyImageCommitsNoRows`).
- **Image ordering.** The image insert supplies only `product_id`, `key` and `url` (route.ts:113-120). So `ordering` and `is_primary` take their column defaults, 0 and false (src/drizzle/schema/product.ts:30-31): no image is primary and all share ordering 0 (`ProductsApi.CommitWrites`).
- **Uploading url.** A new entry's `url` is its local preview URL (ProductImageUploader.tsx:72) until its upload completes.

## Model

| member | source | states |
|---|---|---|
| FormSchema.PricePositiveIsAboveZero | src/lib/schemas/product.ts:28-33 | the positivity rule (`PricePositive`) holds exactly when the text is digits with at most one point and its digits, read without the point, make a number above zero |
| FormSchema.ScaledDigits | src/lib/schemas/product.ts:32 | the price's digits without the point are all decimal digits |
| FormSchema.AnyUploaded | src/lib/schemas/product.ts:39-46 | true exactly when some entry is done (a missing status counts as done) and has a non-empty url or key |
| FormSchema.ProgressIssues | src/lib/schemas/product.ts:14 | the per-entry check reports only out-of-range progress issues |
| FormSchema.ProgressIssuesExact | src/lib/schemas/product.ts:14 | an out-of-range issue is reported for index k exactly when entry k has a progress outside 0..100 |
| FormSchema.FieldIssues | src/lib/schemas/product.ts:26-35 | a name, price-required, price-positive or currency issue is reported exactly when that rule fails |
| FormSchema.ImageListIssues | src/lib/schemas/product.ts:36-46 | an images-required, per-entry or uploaded-image issue is reported exactly when that rule fails |
| FormSchema.Issues | src/lib/schemas/product.ts:25-47 | an issue is in the parse result exactly when its rule fails |
| FormSchema.ValidIff | src/lib/schemas/product.ts:25-47 | the parse succeeds exactly when name, price, currency, image count, progress ranges and the uploaded-image rule all hold |
| FormSchema.ValidHasUploadedImage | src/lib/schemas/product.ts:39-46 | a valid payload has an entry that is done and has a non-empty url or key |
| FormSchema.UnfinishedImagesRejected | src/lib/schemas/product.ts:41 | a list whose entries are all uploading or failed is rejected with the uploaded-image issue |
| PriceInput.Sanitize | src/features/product/template/create-product.template.tsx:146-149 | the result holds only digits and points and is no longer than the input |
| PriceInput.SanitizeIsSubsequence | src/features/product/template/create-product.template.tsx:146-149 | the result is the input with characters deleted, the rest kept in order |
| PriceInput.SanitizeKeepsPriceChars | src/app/product/create/page.tsx:142-145 | every digit and point of the input survives, as many times as it occurs |
| PriceInput.SanitizeKeepsClean | src/app/product/create/page.tsx:141-147 | text made only of digits and points is unchanged |
| PriceInput.SanitizeIdempotent | src/features/product/template/create-product.template.tsx:145-151 | filtering twice equals filtering once |
| PriceInput.ValidPriceSurvivesSanitize | src/app/product/create/page.tsx:142-146 | a price the schema accepts is never altered by the filter |
| PriceInput.DefaultValues | src/features/product/template/create-product.template.tsx:42-48 | the initial currency is the column default "VND" and there are no images |
| PriceInput.DefaultsRejected | src/app/product/create/page.tsx:40-46 | the untouched form fails exactly on name, price (required and positive), image count and uploaded image |
| DbSchema.ProductDefaults | src/drizzle/schema/product.ts:15-18 | a product insert without description and currency stores no description and currency "VND" |
| DbSchema.ImageDefaults | src/drizzle/schema/product.ts:27-31 | an image insert of product, key and url only stores no alt, no mime, ordering 0 and not primary |
| DbSchema.ImageRowsOf | src/drizzle/schema/product.ts:22 | a multi-row insert writes one row per value, in order, with consecutive serial ids |
| DbSchema.EmptyTablesConsistent | src/drizzle/schema/product.ts:12-33 | the empty tables meet every constraint |
| DbSchema.InsertProductConsistent | src/drizzle/schema/product.ts:13-17 | a product insert within the name, currency and numeric(12,2) bounds keeps the tables consistent and adds exactly the new id |
| DbSchema.InsertImagesConsistent | src/drizzle/schema/product.ts:23-29 | image inserts referencing existing products and within the key, alt and mime bounds keep the tables consistent |
| DbSchema.AppendedImageRows | src/drizzle/schema/product.ts:22-26 | appended image rows keep serial ids distinct and increasing, and keep every row within bounds and referencing a product |
| DbSchema.DeleteProduct | src/drizzle/schema/product.ts:23-25 | deleting a product removes it and every image referencing it, keeps every other row in its order, adds nothing and leaves both serials as they were |
| DbSchema.DeleteProductConsistent | src/drizzle/schema/product.ts:25 | the cascade never leaves an image pointing at a missing product |
| DbSchema.DeleteKeepsReferences | src/drizzle/schema/product.ts:23-25 | after the cascade every image still references an existing product |
| DbSchema.DeleteKeepsFit | src/drizzle/schema/product.ts:12-31 | after the cascade every remaining row still meets its column bounds |
| DbSchema.FilterKeepsSerialProducts | src/drizzle/schema/product.ts:13 | removing product rows keeps the remaining serial ids distinct and below the next serial value |
| DbSchema.FilterKeepsSerialImages | src/drizzle/schema/product.ts:22 | removing image rows keeps the remaining serial ids distinct and below the next serial value |
| UploadUrl.MatchUnique | src/app/api/upload-url/route.ts:24 | the extension pattern matches at most one position |
| UploadUrl.Extension | src/app/api/upload-url/route.ts:24 | the extension is empty exactly when the pattern does not match, else the name's suffix from the matching point |
| UploadUrl.ExtensionShape | src/app/api/upload-url/route.ts:24 | a non-empty extension is a point followed by at least one character that is neither point nor slash |
| UploadUrl.HexByte | src/app/api/upload-url/route.ts:25-27 | a byte prints as two lower-case hex digits |
| UploadUrl.Hex | src/app/api/upload-url/route.ts:25-27 | bytes print as twice as many lower-case hex digits |
| UploadUrl.RandomPartIsTwelveHex | src/app/api/upload-url/route.ts:25-27 | right after the first dash of a key come the twelve lower-case hex digits of its random bytes, then a dash |
| UploadUrl.IssuedTargetsCarryIndex | src/app/api/upload-url/route.ts:23-44 | each issued result names its own file: its key starts with "products/", the index read back from it is the file's position and it ends with the file's extension; its public URL is an https URL ending with that key |
| UploadUrl.ObjectKey | src/app/api/upload-url/route.ts:24-27 | a key starts with "products/" and ends with the file's extension |
| UploadUrl.KeyIndexRoundTrip | src/app/api/upload-url/route.ts:25-27 | the file index written into a key is read back from it |
| UploadUrl.DistinctIndexesDistinctKeys | src/app/api/upload-url/route.ts:23-27 | keys for different indexes differ, whatever the clock and the random bytes |
| UploadUrl.PublicUrl | src/app/api/upload-url/route.ts:37 | the public URL starts with "https://" and ends with the key |
| UploadUrl.AttemptCarriesIndex | src/app/api/upload-url/route.ts:23-44 | the attempt for file k succeeds exactly when the presigner signs its request, and its key then starts with "products/" and reads back as index k |
| UploadUrl.AllOrNone | src/app/api/upload-url/route.ts:22 | a successful combination has one value per attempt |
| UploadUrl.AllOrNoneSucceeds | src/app/api/upload-url/route.ts:22 | the combination succeeds exactly when every attempt does; one failure fails the whole list |
| UploadUrl.AllOrNoneInOrder | src/app/api/upload-url/route.ts:22 | a successful combination holds each attempt's value at that attempt's position |
| UploadUrl.Handle | src/app/api/upload-url/route.ts:17-55 | answers results exactly when the body parses and every file is signed, one per file in order with its key, public URL and signed URL; otherwise 500 with "Error creating upload URLs" |
| UploadUrl.IssuedKeysDistinct | src/app/api/upload-url/route.ts:22-45 | no two results of one call share a key |
| UploadUrl.MissingFilesMetaIssuesNothing | src/app/api/upload-url/route.ts:20 | a body without filesMeta gets an empty result list |
| UploadUrl.SignRequestsUseDeclaredType | src/app/api/upload-url/route.ts:29-35 | each signing request names the bucket, the declared content type, a 60-second expiry and a key under "products/" |
| Uploader.MakeId | src/features/product/components/ProductImageUploader.tsx:44 | an id is the file name, a dash, digits that read back as the file size, a dash, and ends with the millisecond reading |
| Uploader.AcceptedAreTheImages | src/features/product/components/ProductImageUploader.tsx:56-59 | the admitted files are exactly the selected image files, in selection order |
| Uploader.NewEntriesShape | src/features/product/components/ProductImageUploader.tsx:61-74 | one entry per admitted file: its id, its file name, uploading, progress 0, url the preview, no key |
| Uploader.PreviewsOfRecordsEach | src/features/product/components/ProductImageUploader.tsx:62-64 | with distinct ids, each admitted file's preview is recorded under its id and nothing else is recorded |
| Uploader.PreviewRecorded | src/features/product/components/ProductImageUploader.tsx:62-64 | with distinct ids, the k-th admitted file's preview is recorded under its id |
| Uploader.PreviewsOfOnlyAdmitted | src/features/product/components/ProductImageUploader.tsx:62-64 | only ids of admitted files are recorded |
| Uploader.AppendKeepsUniqueIds | src/features/product/components/ProductImageUploader.tsx:77 | appending entries whose ids are fresh keeps all ids distinct |
| Uploader.Updated | src/features/product/components/ProductImageUploader.tsx:104-139 | an outcome never changes an entry's id or file name; progress leaves the status as it was, a completion leaves it done or error |
| Uploader.Apply | src/features/product/components/ProductImageUploader.tsx:105-109 | mapping an event over the list keeps its length |
| Uploader.ApplyTouchesOnlyItsId | src/features/product/components/ProductImageUploader.tsx:105-139 | an event updates exactly the entries with its id and keeps length, order and ids |
| Uploader.ProgressChangesOnlyProgress | src/features/product/components/ProductImageUploader.tsx:104-110 | a progress report changes only the progress field of the matching entry |
| Uploader.CompletionOutcome | src/features/product/components/ProductImageUploader.tsx:113-139 | success makes the entry done at 100 with the key and public URL; failure makes it error with the transport's message or "Upload failed" |
| Uploader.EventsCommute | src/features/product/components/ProductImageUploader.tsx:98-142 | outcomes for different entries give the same list in either arrival order |
| Uploader.RemoveCommutesWithEvent | src/features/product/components/ProductImageUploader.tsx:175 | removing an id and delivering an event give the same list in either order |
| Uploader.EventForRemovedIdIsNoop | src/features/product/components/ProductImageUploader.tsx:113-126 | after removal of an id, an event for it changes nothing |
| Uploader.LateEventsAfterRemoveAreNoops | src/features/product/components/ProductImageUploader.tsx:105-139 | any run of events for a removed id leaves the list as the removal left it |
| Uploader.ApplyAll | src/features/product/components/ProductImageUploader.tsx:98-142 | a run of events keeps the list's length |
| Uploader.RemoveId | src/features/product/components/ProductImageUploader.tsx:175 | no remaining entry has the id, every remaining entry was there, and every entry with another id remains |
| Uploader.ApplyAllKeepsIds | src/features/product/components/ProductImageUploader.tsx:98-142 | a run of events never adds, drops or reorders entries or changes an id |
| Uploader.ApplyAllLeavesOthers | src/features/product/components/ProductImageUploader.tsx:113-139 | an entry whose id no event names is untouched by the run |
| Uploader.ApplyAllSingleEvent | src/features/product/components/ProductImageUploader.tsx:104-139 | an entry named by exactly one event of a run ends as that event alone leaves it |
| Uploader.BatchSuccessLandsOnItsEntries | src/features/product/components/ProductImageUploader.tsx:99-126 | when every upload of a batch with distinct ids succeeds, the entry of file i ends done at 100 with the key and public URL of the broker's i-th result; entries outside the batch are untouched |
| Uploader.RemoveKeepsUniqueIds | src/features/product/components/ProductImageUploader.tsx:166-176 | removal keeps the remaining ids distinct |
| Uploader.CheckReply | src/features/product/components/ProductImageUploader.tsx:94-95 | a reply is usable exactly when it is an array with one result per admitted file; a mismatch carries "Upload URL mismatch"; a throw keeps its message |
| Uploader.FailBatch | src/features/product/components/ProductImageUploader.tsx:143-152 | exactly the entries whose id is in the batch become error with "Lỗi khi lấy URL upload"; the others are untouched |
| Uploader.ImageUploader.constructor | src/features/product/components/ProductImageUploader.tsx:28-36 | starts from the given entries (none when absent) and the given limit (6 when absent), no previews, no message |
| Uploader.ImageUploader.HandleFiles | src/features/product/components/ProductImageUploader.tsx:46-77 | no files: message cleared, nothing else changes. Too many files (counting non-images): the capacity message and no change. Otherwise the admitted entries are appended, their previews recorded and the batch ids returned, with the type warning when files were dropped. Keeps the list within maxFiles and keeps ids distinct |
| Uploader.ImageUploader.Admit | src/features/product/components/ProductImageUploader.tsx:61-77 | appends one entry per admitted file, records each preview under its id, returns the ids in order |
| Uploader.ImageUploader.ResolveBroker | src/features/product/components/ProductImageUploader.tsx:86-153 | a usable reply returns the targets and changes nothing; otherwise shows the message (or "Lỗi khi upload") and fails exactly the batch's entries |
| Uploader.ImageUploader.Deliver | src/features/product/components/ProductImageUploader.tsx:104-139 | applies an outcome by id and keeps ids distinct |
| Uploader.ImageUploader.Remove | src/features/product/components/ProductImageUploader.tsx:166-176 | revokes and forgets the entry's preview when one is recorded, then drops every entry with that id |
| Uploader.ImageUploader.ClearAll | src/features/product/components/ProductImageUploader.tsx:296 | empties the list and leaves the previews as they are |
| Uploader.ReleaseAll | src/features/product/components/ProductImageUploader.tsx:184-186 | one URL per recorded preview: every recorded URL is released and nothing else |
| Uploader.ImageUploader.Unmount | src/features/product/components/ProductImageUploader.tsx:182-189 | revokes each recorded preview once, nothing else, then empties the dictionary |
| Listing.GroupBy | src/app/page.tsx:45-56 | the groups are the product ids present, each holding the views of that product's rows in the order read |
| Listing.BuildListing | src/app/page.tsx:39-67 | the image table is read exactly when there is a product; the DTOs are each product with the views of its own image rows |
| Listing.ListingShape | src/features/product/components/ListProduct.tsx:30-38 | one DTO per product in the same order, fields and missing description carried over, images exactly the rows referencing it, in order |
| Listing.ImageLandsInItsGroup | src/features/product/components/ListProduct.tsx:16-28 | every image row appears under the product it references, with its url (or its absence) unchanged |
| Listing.UnreferencedProductHasNoImages | src/app/page.tsx:66 | a product no row references gets an empty image list |
| Listing.NoMatchFiltersToEmpty | src/features/product/components/ListProduct.tsx:37 | with no row for a product, its image list is empty |
| ProductCard.FirstPrimary | src/features/home/components/ProductCard.tsx:27-28 | finds the first primary image, with none primary before it, or reports that none is primary |
| ProductCard.ChosenImage | src/features/home/components/ProductCard.tsx:27-28 | an image is chosen exactly when there are images, and it is one of them |
| ProductCard.Src | src/features/home/components/ProductCard.tsx:29 | no images gives the placeholder; otherwise the picture is the placeholder or the url of one of the images |
| ProductCard.ChosenIsFirstPrimaryElseFirst | src/features/home/components/ProductCard.tsx:27-28 | the chosen image is the first primary one, else the first image, and there is none exactly when there are no images |
| ProductCard.SrcFallback | src/features/home/components/ProductCard.tsx:29 | the picture is the chosen image's url when it has one, else "/icon/empty_product.png" |
| ProductsApi.DoneImages | src/app/api/products/route.ts:92-97 | every persisted image is done (status defaulting to done), has a non-empty key and comes from the payload |
| ProductsApi.DoneImagesAreThePersistable | src/app/api/products/route.ts:92-97 | the persisted images are exactly the done (status defaulting to done) images with a non-empty key, in original order, each as many times as it occurs in the payload |
| ProductsApi.Commit | src/app/api/products/route.ts:100-124 | one product row more and its serial advanced by one; one image row more per persisted image and the image serial advanced by as many |
| ProductsApi.CommitConsistent | src/app/api/products/route.ts:100-124 | a committed creation whose rows meet the bounds keeps the tables consistent |
| ProductsApi.CommitWrites | src/app/api/products/route.ts:100-124 | one new product row with the next id and the payload's fields, then one image row per persisted image in order, each pointing at the new product with its key and url, no alt or mime, ordering 0, not primary; existing rows unchanged |
| ProductsApi.CommitAppends | src/app/api/products/route.ts:100-124 | the transaction appends the product row and the persisted images' rows, one per persisted image, after the existing rows |
| ProductsApi.UrlOnlyImageCommitsNoRows | src/app/api/products/route.ts:92-97 | a payload whose only image is done with a url and no key is valid, yet its product is committed with no image row |
| ProductsApi.Database.Post | src/app/api/products/route.ts:79-131 | invalid: 400 with the issues, no write. A database failure or bound violation: 500, no write. Otherwise 201 with the new id and the tables become the commit. Consistency is kept either way |
| ProductsApi.PageNumber | src/app/api/products/route.ts:13 | the page is the parameter when it is at least 1, else 1 |
| ProductsApi.PageOf | src/app/api/products/route.ts:14-22 | limit rows, or all rows after the offset when fewer remain (none when the offset is past the end), the rows from the offset on, in order |
| ProductsApi.RowsForProductsKeepsOwn | src/app/api/products/route.ts:31-35 | narrowing the image query to the page's ids keeps each page product's own rows intact |
| ProductsApi.GroupsGivePageData | src/app/api/products/route.ts:37-47 | grouping the fetched rows gives every page product exactly its own rows |
| ProductsApi.Get | src/app/api/products/route.ts:9-77 | a negative limit answers 500. Otherwise the page is the products from (page-1)·limit on, at most limit of them; the image query runs exactly when the page is non-empty; each product comes with its own rows |
| ProductsApi.FetchPage | src/app/api/products/route.ts:29-59 | one image query over the page's ids, grouped by product, gives each page product exactly its own rows in order |
| ProductsApi.ImageUrl | src/app/api/products/route.ts:52-56 | the row's own url when it has one; else a composed https URL when the key is non-empty; none exactly when both are missing |
| ProductsApi.PageDataShape | src/app/api/products/route.ts:45-59 | one item per page product, each holding exactly its rows in order; a row's url is its own, else the key's public URL when the key is non-empty, else none |
| ProductsApi.ComposedUrlEndsWithKey | src/app/api/products/route.ts:52-56 | a url composed from a key ends with that key |

## Left out

- React rendering, hooks and effects are not modelled. This includes the effect that reports the list to the form (`onChange`), drag and drop, and the input reset. They are UI, not logic.
- Promise concurrency is not modelled as threads. Completions are an arbitrary sequence of per-id events (`Uploader.ApplyAll`).
- The transport, the broker service, the S3 presigner, `crypto.randomBytes`, `Date.now()` and the bucket/region environment are foreign calls. They are parameters: `UploadUrl.Env`, `Uploader.Selection`, `Uploader.BrokerReply`, `Uploader.Event`, `ProductsApi.Fault`.
- Uploader.ImageUploader.HandleFiles: when the selection fits within maxFiles, requires that the new ids be distinct from each other and from existing ids. The source does not ensure this: `name-size-Date.now()` repeats for the same file within one millisecond.
- Uploader.ImageUploader.HandleFiles: its result is the batch ids only. The broker call and the transport are separate steps (`ResolveBroker`, `Deliver`), so interleavings with other user actions are modelled as any order of those calls.
- Uploader.Updated: the `file: undefined` reset on success is not modelled, because the entry type has no file field.
- FormSchema.PricePositive: JavaScript `Number()` is modelled only on text of digits and points. Whitespace, signs, exponents, hex, "Infinity" and float rounding are not modelled, since the field's sanitiser only ever produces digits and points.
- FormSchema.Issues: the `url()` format check on image urls is not modelled, because it is a library check. Issues are reported as a set of failed rules, not as zod's message texts.
- The JSON parsing of request bodies is not modelled. A body that is not JSON, or not of the payload's shape, is outside the model. The exception is the upload-URL handler's `Malformed` case, which answers 500.
- DbSchema.PriceFits: numeric(12,2) rounding to two decimals is not modelled. The stored price keeps the received text, and only the ten-digit integer bound is checked.
- ProductsApi.Database.Post: a failed transaction still consumes serial values in the database. The model leaves them unconsumed.
- ProductsApi.Database.Post: the missing-id check is taken as the fault `NoIdReturned`. Serial ids start at 1, so a zero id cannot occur.
- ProductsApi.Get: the model reads the query-builder calls `.desc()`, `.in(...)` and `.asc()` on columns (src/app/api/products/route.ts:20,34,35) as ORDER BY created_at DESC, WHERE product_id IN (…) and ORDER BY ordering ASC. The query builder's own API is not part of this model; if the columns lack those methods, every GET throws and answers 500, which the model does not capture.
- ProductsApi.Get: the database's sorting is not modelled. The product rows (newest first) and the image rows (by ordering) are taken in the order the two queries return them.
- ProductsApi.Get: only a negative limit is modelled as a query failure. Non-numeric or fractional page and limit parameters (NaN, floats) are not modelled, and parameters are integers.
- Listing.BuildListing: `String(created_at)` formatting is not modelled. The timestamp stays a number, and the price keeps its text.
- `formatCurrency` and the card's image-error state are not modelled. They are display only.
