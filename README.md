# Storage keys and variant plans of an S3 / ImageMagick upload provider

This project models, in Dafny, the core of a Strapi upload provider that stores
assets in an S3-compatible bucket and uses ImageMagick to resize images. The
model covers the following parts:

- **Classification.** An asset is a `thumbnail` when the text of its hash before
  the first `_` is `thumbnail`. Otherwise it is an `origin`. The lower-cased
  extension makes it an `image`, an `icon` or a `file`.
- **Size selection.** The metadata field `imageSizes` is split on commas into
  requested names. `imageSizesfunc` keeps the entries of the configured size
  catalog whose names were requested.
- **Variant planning on upload.** `uploadLocalSizes` lists an `original/…`
  entry, followed by one entry per selected size for an image that is not a
  thumbnail. Any other asset gets a single `file/…` entry. `getStreams` pairs
  each entry with a read stream of its staged file.
- **Key resolution.** The four-way precedence over `custom_path` and `pathAWS`
  gives the storage key. The same rule with the
  `https://{endpoint}/{Bucket}` prefix gives the public URL.
- **Upload and delete.** `uploadAWS` puts every planned variant under its key.
  `getDeleteAWS` re-derives the variant paths from the stored metadata and
  deletes each key.

The bucket is a `Bucket` object holding a map from keys to stored objects
(body and content type). The file record that the host hands in and that the
helpers update in place is the class `Pipeline.Asset`. The planning steps
`uploadLocalSizes`, `getStreams`, `uploadAWS` and `getDeleteAWS` are methods
with loops. Each is proved against a specification function: `UploadPlan`,
`StreamOf`, `PutAll` or `DeletePlan`.

Outside effects are parameters of the model:

- `writeOk` / `drainOk`: whether staging the upload to the scratch directory succeeded.
- `converted`: the set of staged files that ImageMagick produced.
- `contentOf`: the bytes of a staged file.

The main results are these:

- With the same custom path and selected sizes, the delete resolves exactly the
  keys the upload resolved, in the same order (`Plan.UploadDeleteKeysAgree`).
  This holds for an image, and for any asset that is not a thumbnail.
- An upload followed by a delete leaves none of the uploaded objects in the
  bucket (`Pipeline.UploadThenDeleteLeavesNothing`). This holds when the
  delete sees the JSON options the upload applied. It also holds without
  JSON options, when the custom path is the same and no sizes were requested.
  The method `Pipeline.UploadThenDelete` states the same of the record and
  the bucket: it runs `UploadLogic` and then `GetDeleteAWS`.

Behaviour the code has and the model records:

- A non-image thumbnail yields no upload plan, and the promise of
  `uploadLocalSizes` never resolves. The delete still removes its `file/` key
  (`Plan.NonImageThumbnailUploadsNothing`).
- When the stored metadata is not JSON, the delete of an image original
  removes the original. It then stops, because iterating over the undefined
  size list throws (`Plan.DeletePlan`, `completes == false`).
- `uploadLocal`, the buffer variant, does not record its options in
  `provider_metadata`; only `uploadLocalStream` does. A later delete of an
  asset uploaded from a buffer under a custom path therefore misses the stored
  object (`Pipeline.BufferUploadLeavesObject`).
- A size named `original` resolves to the key of the original, so its upload
  overwrites the original (`Plan.SizeNamedOriginalCollides`).
- The URL the host receives is computed from the configured endpoint before
  anything is stored. `uploadAWS` writes the locations the store reports onto
  the per-variant records, not onto the host's record. The model returns
  those locations. It proves that the host's URL is the first of them when the
  bucket's base URL is `https://{endpoint}/{Bucket}`.
- The exported `upload`, `uploadStream` and `delete` pass `customParams = {}`,
  an assignment, so host-supplied parameters never reach the store calls.

Choices the code makes that a reader might not expect:

- An absent size list selects no sizes, not the full catalog
  (`imageSizesfunc`, lib/index.js:84-86).
- A failed conversion does not fail the upload with an error. Only a
  successful conversion counts down, so the countdown never reaches zero and
  nothing is uploaded (lib/index.js:289-298).
- Deleting a missing key is not an error. `deleteAWS` logs a store error and
  resolves in any case (lib/index.js:145, 150).

## Model

| member | source | states |
|---|---|---|
| `JsStrings.JoinSplit` | lib/index.js:109 | joining the pieces of `split(',')` with commas gives back the original text, and no piece contains a comma |
| `JsStrings.SplitJoin` | lib/index.js:109 | splitting comma-free names joined by commas gives back exactly those names |
| `JsStrings.SplitHead` | lib/index.js:40 | the first piece of `split('_')` equals a text without `_` exactly when the input is that text or starts with it followed by `_` |
| `JsStrings.ToLower` | lib/index.js:49 | the lower-cased extension equals the input ignoring case and has no upper-case letter |
| `JsStrings.ToLowerEqual` | lib/index.js:49 | two texts lower-case to the same text exactly when they are equal ignoring case |
| `Classify.GetFileType` | lib/index.js:38-44 | `thumbnail` exactly when the hash is `thumbnail` or starts with `thumbnail_`; `origin` otherwise |
| `Classify.GetFileFormat` | lib/index.js:47-63 | `image` exactly when the extension equals one of `.jpg .jpeg .png .tif .tiff .exr` ignoring case, `icon` exactly for `.svg` ignoring case, `file` for everything else |
| `Classify.FormatIgnoresCase` | lib/index.js:49 | extensions that differ only in letter case have the same format |
| `Classify.Convertible` | lib/index.js:287-298 | corrected conversion dispatch: an extension converts exactly when its format is `image` |
| `Classify.ConvertibleAsWritten` | lib/index.js:287-298 | the case-sensitive dispatch starts a conversion only for extensions with no upper-case letter |
| `Classify.DispatchAgreesOnLowerCase` | lib/index.js:287-298 | on an extension without upper-case letters the written dispatch converts exactly when the corrected one does |
| `Classify.ConvertibleAsWrittenIsImage` | lib/index.js:287-298 | every extension the case-sensitive dispatch converts is an image extension |
| `Classify.UpperCaseImageNotConvertedAsWritten` | lib/index.js:287-298 | `.JPG` is an image, yet the dispatch as written starts no conversion for it |
| `Sizes.ParseSizeNames` | lib/index.js:109 | no names exactly when `imageSizes` is absent or empty; otherwise the names joined by commas are `imageSizes` and none contains a comma |
| `Sizes.ImageSizesSelects` | lib/index.js:80-88 | no request list selects nothing; a list selects a subsequence of the catalog in catalog order, holding every copy of each catalog entry whose name is requested and nothing else |
| `Sizes.ImageSizesOnlyCatalogNames` | lib/index.js:82 | the selection depends only on which catalog names are requested, not on their order or on other names |
| `Sizes.UnknownNamesIgnored` | lib/index.js:82 | adding names the catalog does not know leaves the selection unchanged |
| `Sizes.ImageSizes` | lib/index.js:80-88 | the selection is never longer than the catalog (`Sizes.ImageSizesSelects` says which entries it holds) |
| `Sizes.FilterBounded` | lib/index.js:82 | the selection is never longer than the catalog |
| `Keys.ResolveKey` | lib/index.js:138 | the four-way precedence equals the custom path plus `/` (when non-empty) followed by the variant path (when non-empty) or else `hash + ext` |
| `Keys.ResolveUrl` | lib/index.js:189 | the URL precedence, repeated at each URL site, is always the endpoint, `/`, and the key of the same precedence |
| `Keys.BucketEndpoint` | lib/index.js:179 | the endpoint prefix is `https://`, the configured endpoint, `/` and the bucket name, in that order and nothing else |
| `Keys.OriginalPathSpelled` | lib/index.js:272 | the original's path, the size path of the variant named `original`, is `original/{hash}_original{ext}` |
| `Keys.FilePathSpelled` | lib/index.js:306 | a non-image's path, the size path of the variant named `file`, is `file/{hash}_file{ext}` |
| `Keys.SizePathInjective` | lib/index.js:278 | different size names give different variant paths for the same asset |
| `Keys.ResolveKeyInjective` | lib/index.js:341 | under one custom path, different non-empty variant paths give different keys |
| `Plan.UploadPlan` | lib/index.js:270-311 | an image plans its original first, then, unless it is a thumbnail, one entry per selected size in catalog order (length 1 + sizes, or 1); a non-image original plans exactly one `file/` entry; a non-image thumbnail plans none; each entry's staged file is `{tempDir}/{hash}_{role}{ext}` for its role (`original`, the size name, or `file`); every entry carries the asset's custom path, hash, extension and mime |
| `Plan.ConvertedCountAll` | lib/index.js:289-298 | the conversion countdown reaches zero exactly when there are no sizes or every launched conversion succeeded |
| `Plan.Resolves` | lib/index.js:289-310 | the step resolves exactly when the plan is non-empty and, for an image original, the number of successful conversions equals the number of selected sizes |
| `Plan.ResolvesAsWrittenOnLowerCase` | lib/index.js:289-310 | for an extension without upper-case letters, `Plan.Resolves` is exactly resolving with the countdown of the dispatch as written |
| `Plan.CountDownSizes` | lib/index.js:274-300 | the size loop appends exactly the planned size entries and leaves the countdown at the number of sizes minus the successful conversions |
| `Plan.UploadLocalSizes` | lib/index.js:257-313 | the step builds exactly the planned list, and resolves exactly when `Plan.Resolves` holds |
| `Plan.GetStreams` | lib/index.js:315-333 | one record per planned entry, in order, with custom path, variant path, mime, hash and extension unchanged and the stream opened on the entry's staged file |
| `Plan.DeletePlan` | lib/index.js:114-130 | the delete walk has at least one path and stops early exactly for an image original without JSON metadata |
| `Plan.DeletePlanShape` | lib/index.js:114-130 | the delete walk is the head variant (original of an image, `file/` variant otherwise) followed, for an image original with JSON options, by one path per selected size |
| `Plan.UploadDeleteKeysAgree` | lib/index.js:114-130 | for an image, or any non-thumbnail, the delete resolves the same keys as the upload, in the same order, given the same custom path and selected sizes |
| `Plan.NonImageThumbnailUploadsNothing` | lib/index.js:304 | a non-image thumbnail plans nothing and never resolves, while delete still targets its `file/` key |
| `Plan.PlanKeysDistinct` | lib/index.js:272-281 | with distinct size names none of which is `original`, every planned variant has its own key |
| `Plan.SizeNamedOriginalCollides` | lib/index.js:278 | a size named `original` gets the original's key |
| `Plan.KeysWithoutCustomPath` | lib/index.js:138 | without a custom path, each resolved key is its variant path |
| `Plan.ScenarioJpegWithThumb` | lib/index.js:270-281 | JPEG `a1` with catalog `thumb` gives keys `original/a1_original.jpg` and `thumb/a1_thumb.jpg` |
| `Plan.ScenarioPdf` | lib/index.js:304-310 | PDF `doc1` gives the single key `file/doc1_file.pdf` whatever the sizes |
| `Plan.UpperCaseExtensionStallsAsWritten` | lib/index.js:287-298 | for `.JPG` with one size whose conversion succeeds, the written dispatch counts no conversion, so its countdown stays at 1; the corrected dispatch counts it and the step resolves |
| `Plan.ImagesResolveWhenConverted` | lib/index.js:276-300 | with the corrected dispatch, an image resolves once all its conversions succeeded |
| `Store.Bucket.Upload` | lib/index.js:343-359 | the object is stored under the key, everything else is kept, and the location is the base URL, `/` and the key |
| `Store.Bucket.DeleteObject` | lib/index.js:139-149 | exactly the key is removed, whether it was present or not |
| `Store.PutAllEffect` | lib/index.js:340-360 | after the puts, the bucket holds the old keys plus every put key; each put key holds the object of the last put under it; the other keys keep their objects |
| `Store.PutAllObject` | lib/index.js:340-360 | a put that no later put overwrites leaves its object under its key |
| `Store.RemoveAllIsSubtraction` | lib/index.js:121-129 | deleting keys one by one removes exactly the set of those keys |
| `Store.RemoveAllAppend` | lib/index.js:114-129 | deleting one run of keys and then another leaves the bucket as deleting both runs in order |
| `Store.RemoveAllIdempotent` | lib/index.js:136-151 | deleting the same keys twice leaves the bucket as deleting them once |
| `Store.UploadThenRemove` | lib/index.js:337-362 | if the deleted keys cover the put keys, no put object survives and keys outside both are untouched |
| `Pipeline.ApplyMetadata` | lib/index.js:106-109 | non-JSON options leave the record alone; JSON options set the custom path to `upload_path` and the names to the comma split of `imageSizes`: comma-free pieces that join back to it |
| `Pipeline.Asset.ApplyCustomValues` | lib/index.js:226-229 | the record's custom path and requested names become those the options give |
| `Pipeline.Asset.UploadLocal` | lib/index.js:221-255 | options applied; after a successful write, URL and staged path of the original (or `file/` variant) are set; `provider_metadata` is unchanged |
| `Pipeline.Asset.UploadLocalStream` | lib/index.js:175-219 | options applied; URL, staged path and `provider_metadata` set before draining; the result reports the drain |
| `Pipeline.Asset.DeleteAWS` | lib/index.js:136-152 | exactly the key the record resolves to is removed |
| `Pipeline.Asset.DeleteSizes` | lib/index.js:120-125 | the bucket loses exactly the keys of the given sizes' variant paths under the record's custom path, and the record is left pointing at the last of them |
| `Pipeline.Asset.DeleteVariants` | lib/index.js:114-129 | the bucket loses exactly the keys of the delete walk for the given selection, completion is the walk's, and the record points at the last variant walked |
| `Pipeline.Asset.GetDeleteAWS` | lib/index.js:99-133 | stored options applied when they are JSON; the bucket loses exactly the keys of the delete walk; completion as the walk says; only the custom values and `pathAWS` of the record change |
| `Pipeline.UploadAWS` | lib/index.js:337-363 | the bucket gains every record under its resolved key with its mime type, and one location per record is reported |
| `Pipeline.Stage` | lib/index.js:160-164 | the stream or buffer helper runs: options applied, URL and staged path set when the stream is used or the write succeeded, otherwise kept; `pathAWS` unchanged; the result is the staging outcome |
| `Pipeline.UploadStaged` | lib/index.js:167-171 | resolves exactly when `Plan.Resolves` holds; the bucket gains exactly the planned puts; one location per put, each the base URL, `/` and that put's key; the first is the head variant's key |
| `Pipeline.UploadPutsOfPlan` | lib/index.js:167-171 | once planning resolves, the puts are those of the plan's stream records and the first is the head variant under the custom path |
| `Pipeline.UploadLogic` | lib/index.js:155-173 | options applied; URL and staged path set as staging sets them, `pathAWS` unchanged; the bucket gains exactly the planned puts when staging and planning succeed, otherwise nothing; the locations are then one per put, each the base URL and that put's key, otherwise none; when the bucket's base URL is `https://{endpoint}/{Bucket}`, the host's URL is the first location |
| `Pipeline.UploadThenDeleteLeavesNothing` | lib/index.js:99-133 | upload then delete leaves no uploaded object when the options are JSON (both sides then apply the same options), or, for non-JSON options, when the upload and delete records have the same custom path and the upload record requested no sizes |
| `Pipeline.UploadThenDelete` | lib/index.js:99-173 | a stream upload with JSON options through `UploadLogic`, then `GetDeleteAWS` on the same record: the delete completes, no planned key is left in the bucket, and keys neither planned nor walked keep their objects |
| `Pipeline.JsonDeleteCoversUpload` | lib/index.js:114-129 | with the upload's JSON options, every uploaded key is among the keys the delete walk resolves |
| `Pipeline.PlainDeleteCoversUpload` | lib/index.js:114-129 | without options and sizes, the one uploaded key is the head key the delete resolves |
| `Pipeline.BufferUploadLeavesObject` | lib/index.js:221-255 | for options `{upload_path}` with no `imageSizes`, a record with no prior options, and an image or any non-thumbnail asset: the buffer upload makes one put under the custom path, the later delete (seeing no stored options) resolves the key without it, and the uploaded object survives |
| `Pipeline.CustomHeadPut` | lib/index.js:167-171 | an upload under a custom path with no sizes makes one put, under the custom path, `/` and the head variant's path |
| `Pipeline.PlainHeadDelete` | lib/index.js:116-131 | without options the delete walk resolves the head variant's path as its only key |

## Findings

| source | as written | input that shows it | evidently intended | confidence | as-written member | corrected member |
|---|---|---|---|---|---|---|
| lib/index.js:287-298 | the conversion dispatch compares the extension case-sensitively, while `getFileFormat` lower-cases it first | an origin asset `a1.JPG` with one selected size `thumb` whose conversion would succeed: no conversion starts, the countdown stays at 1, and nothing is uploaded | dispatch on the lower-cased extension, so every image converts and the countdown reaches zero | medium, not executed | `Plan.UpperCaseExtensionStallsAsWritten` | `Classify.Convertible` |

## Left out

- S3 client: credentials, `ACL: 'public-read'`, the form of the `Location` the
  store reports (the model uses base URL, `/` and key), and failures of
  `S3.upload`. A put the store rejects is not modelled; `uploadAWS` resolves
  before any upload finishes, so such a rejection has no effect on the caller.
- `S3.deleteObject` errors are only logged in the code. The model's delete
  never fails.
- ImageMagick: the `magick convert` command and its options
  (`resizeOptions.options`). A conversion is the opaque set `converted` of
  staged files it produced.
- Promise scheduling: the model runs the steps in order. It leaves out that
  `uploadLogic` and `deleteLogic` never resolve, that the countdown callbacks
  run after the list is built, and that `uploadAWS` resolves before its
  uploads finish.
- Plan.UploadLocalSizes: models the countdown by counting successful
  conversions rather than the asynchronous callbacks, because only whether it
  reaches zero matters. It uses the corrected case-insensitive dispatch of the
  finding above; the written dispatch is `Classify.ConvertibleAsWritten`.
- Plan.Resolves: counts conversions with the corrected, case-insensitive
  dispatch, so an image extension with an upper-case letter and selected
  sizes resolves once its conversions succeed; as written the step never
  resolves for it. `Plan.ResolvesAsWrittenOnLowerCase` shows the two agree on
  every extension without upper-case letters.
- Pipeline.UploadStaged: states `stored` and the new bucket through
  `Plan.Resolves`, so it uses the corrected dispatch; as written an
  upper-case image extension with selected sizes never reaches `uploadAWS`.
  It is exact for every extension without upper-case letters.
- Pipeline.UploadLogic: the same as `Pipeline.UploadStaged`, whose result it
  passes on; it uses the corrected dispatch and is exact for every extension
  without upper-case letters.
- Pipeline.UploadThenDelete: its `stored` result comes from
  `Pipeline.UploadLogic` and so uses the corrected dispatch; the keys it
  proves gone are gone under either dispatch.
- Filesystem: `fs.writeFile`, `pipeline` into `createWriteStream`,
  `createReadStream`, `removeTemp`/`unlinkSync`, `ensureDir` and
  `pathExistsSync`. Staging success is a parameter, and file contents are
  `contentOf`.
- `checkJson` and `JSON.parse`: the options arrive already parsed as `Metadata`
  (`NotJson` or `Json` with `upload_path` and `imageSizes`). The JSON value
  `null` (accepted by `checkJson`, then dereferenced) and non-text
  `upload_path` or `imageSizes` values are not modelled.
- `toLowerCase` is modelled on ASCII letters only. Classification is
  unaffected. Outside ASCII, only the Kelvin sign (U+212A) lowers to a lone
  ASCII letter, `k`, and no recognised extension contains `k`. `İ` (U+0130)
  lowers to `i` followed by a combining dot (U+0307). The dot stays in the
  result, so it cannot match an extension either.
- Plugin initialisation (`init`, the AWS client, the upload-folder check and
  the temp-folder creation) and all `strapi.log`/`console.error` output.
