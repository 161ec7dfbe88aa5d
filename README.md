# Image service core, modelled in Dafny

This project models the request-handling core of a small Express image service. Users
register and log in and receive a one-hour bearer token. With it they upload JPEG/PNG
images to a remote image host, list, fetch, delete and re-describe them, and ask for
transformed renditions. Those renditions are cached for an hour in a key-value store.

The model follows the service's own structure, one module per source file:

- `ImageController` (`imagecontroller.dfy`) holds the image collection. It is a class over
  a sequence of records in insertion order, plus the shared transform cache. The six
  handlers are its methods. Every lookup is by `(id, caller)`.
- `ImageService` (`imageservice.dfy`) builds the host's directive list step by step, as the
  service does. It is proved against a pure specification of that list.
- `Cache` (`cache.dfy`) is the Redis-backed TTL cache: a class over a map from key to
  (stored text, expiry instant), with the clock and the backend's availability as parameters.
- `AuthMiddleware` (`auth.dfy`) covers bearer-token extraction, verification and user resolution.
- `AuthController` (`authcontroller.dfy`) covers register, login and logout over a user store.
- `Validate` (`validate.dfy`) holds the four request schemas, written as values of a small rule
  language, and the `validate` middleware.
- `Errors` (`errors.dfy`) holds the error objects and the error handler's defaulting.
- `ImageRoutes` (`routes.dfy`) holds the route table, the upload parser's file filter and its size limit.
- `Json` and `Strings` hold the JavaScript behaviour the core leans on: property reads on
  objects whose properties stay in insertion order, object spread, `JSON.stringify` and the
  `JSON.parse` of a string, `indexOf`, `replace`, `split` and `join`.

Every outside collaborator is a parameter of the operation that uses it:

- the image host's URL builder (`url`) and its upload and release outcomes;
- the token signer and verifier (`sign`, `verify`);
- the password hasher and comparer (`hash`, `matches`);
- the email-address check of the validator (`isEmail`);
- the clock (`now`, in seconds);
- whether the cache backend answers (`up`, `getUp`, `setUp`).

Responses are returned as values: a status with a payload, or the error handed to the error
handler.

Some behaviour of the code is easy to misread. The model reproduces it as written:

- **The cache key is not canonical.** The key is `JSON.stringify` of the descriptor exactly as
  the client sent it (server/src/controllers/imageController.js:97). The same request with its
  properties in another order therefore misses the cache
  (`ImageController.PermutedDescriptorMisses`). The directive list itself does not depend on
  that order (`ImageService.FieldOrderIrrelevant`).
- **A lease of 0 or less is a dropped write, not an immediate miss.** Redis refuses SETEX with
  such an expiry, the helper swallows the error (server/src/utils/cache.js:25-32), and whatever the
  key held before stays.
- **A deleted user is reported as `Invalid token`.** The middleware raises `User not found`
  inside its `try`, and the `catch` replaces every error there with 401 `Invalid token`
  (server/src/middlewares/auth.js:20-33).
- **The upload filter is unanchored.** `/jpeg|jpg|png/` accepts any MIME type that merely
  contains one of the three words.
- **Login returns the token at the top level of the body**, beside `data`, and also as a cookie.

One behaviour differs from the code on purpose:

- **The model's metadata merge keeps `description`.** The handler spreads the patch into the
  stored metadata (server/src/controllers/imageController.js:151-154), so the merged object
  holds `description`. The model keeps it there. The code's store does not: the Image schema
  declares no `description` (server/src/models/Image.js:18-24), and Mongoose's strict mode
  drops the key on save, so a later read does not return it.

## Model

| member | source | states |
|---|---|---|
| `ImageController.ImageStore.Upload` | server/src/controllers/imageController.js:7-37 | no file: 400 `No file uploaded` and nothing stored; a host failure is passed on and nothing stored; otherwise exactly one record is appended, owned by the caller, with the host's id and URL and the derived metadata, and 201 returns its view |
| `ImageController.ImageStore.Get` | server/src/controllers/imageController.js:39-57 | succeeds exactly when a record with that id is owned by the caller and returns that record's view; otherwise 404 `Image not found`, so another user's image and a missing one are indistinguishable |
| `ImageController.ImageStore.List` | server/src/controllers/imageController.js:59-76 | 200 with the page of the caller's records at offset `(page-1)*limit`, at most `limit` of them (defaults 1 and 10), echoing page and limit, and `total` = the number of all the caller's records |
| `ImageController.ImageStore.Transform` | server/src/controllers/imageController.js:78-116 | the reply and the new cache are exactly `TransformSpec`: descriptor check, then the owned lookup, then a truthy cache hit answered from the cache, otherwise the service's URL stored under the key with the default lease |
| `ImageController.ImageStore.Delete` | server/src/controllers/imageController.js:118-137 | unowned or missing: 404 and nothing changes; owned: the host id is released first; if the release fails its error is returned and the record kept, otherwise exactly that record is removed, the others keep their order, and the store stays valid |
| `ImageController.ImageStore.UpdateMetadata` | server/src/controllers/imageController.js:139-163 | unowned or missing: 404 and nothing changes; owned: only that record is replaced, by its shallow merge with the body's `metadata`, and the merged view is returned |
| `ImageController.Locate` | server/src/controllers/imageController.js:40-43 | `findOne({ _id, user })`: a found position holds that id and that owner; `None` exactly when no record has both |
| `ImageController.LocateOwned` | server/src/controllers/imageController.js:40-50 | with distinct ids, looking up record k's id finds k when the caller owns it and nothing otherwise (ownership isolation) |
| `ImageController.OwnedBy` | server/src/controllers/imageController.js:63 | the caller's records: every one belongs to the caller and comes from the store, and every record of the caller is among them |
| `ImageController.Positions` | server/src/controllers/imageController.js:63 | the positions of the caller's records: strictly increasing, each holding a record of the caller, and every record of the caller is at one of them |
| `ImageController.OwnedByPositions` | server/src/controllers/imageController.js:63 | the query's result has one entry per position of the caller's records, and entry `k` is the record at the `k`-th position |
| `ImageController.OwnedByInOrder` | server/src/controllers/imageController.js:63-73 | the query returns the caller's records in insertion order, each exactly once, so its length is the number of records the caller owns, the `total` that `countDocuments` reports |
| `ImageController.Page` | server/src/controllers/imageController.js:63-65 | `.skip(s).limit(l)`: at most l entries, exactly l when enough remain, entry i being item s+i |
| `ImageController.PageOfIndex` | server/src/controllers/imageController.js:60-65 | every listed item appears on exactly the page its position says, at the offset within it its position says |
| `ImageController.PagesTile` | server/src/controllers/imageController.js:61-65 | `Offset`, the skip `(page - 1) * limit`: consecutive pages start `limit` apart, and every position `i` lies in page `i / limit + 1`, so the pages cover the listing without gap or overlap |
| `ImageController.Views` | server/src/controllers/imageController.js:66-74 | the listing returns one view per selected record, in order |
| `ImageController.WithoutMembers` | server/src/controllers/imageController.js:130 | `deleteOne({ _id })` keeps exactly the records whose id differs |
| `ImageController.WithoutOne` | server/src/controllers/imageController.js:130 | when only record k has its id, deleting it removes exactly record k and keeps the rest in order |
| `ImageController.WithoutNone` | server/src/controllers/imageController.js:130 | deleting an id no record has changes nothing |
| `ImageController.RemoveValid` | server/src/controllers/imageController.js:130 | removing a record keeps ids distinct and metadata keys unique |
| `ImageController.DeletedIsNotFound` | server/src/controllers/imageController.js:121-130 | after a delete, a lookup of that id fails for every caller |
| `ImageController.FormatOfMime` | server/src/controllers/imageController.js:24 | `mimetype.split('/')[1]` of `type/subtype` is the subtype; a MIME type without `/` gives no format |
| `ImageController.UploadMetadataFields` | server/src/controllers/imageController.js:17-28 | the stored metadata has distinct keys, records the original file name, and its `format` is the MIME subtype (absent when there is none) |
| `ImageController.MergeSemantics` | server/src/controllers/imageController.js:151-154 | after `{ ...old, ...patch }` a key the patch provides has the patch's value, every other key keeps its old value, and owner, host id and URL are unchanged |
| `ImageController.MergeNothing` | server/src/controllers/imageController.js:151-154 | an absent, null, boolean or numeric `metadata` changes no key |
| `ImageController.MergeKeys` | server/src/controllers/imageController.js:151-154 | the merged metadata keeps unique keys and every old key in its old place |
| `ImageController.CacheKeySeparatesImages` | server/src/controllers/imageController.js:97 | two different colon-free host ids never share a cache key, whatever the descriptors |
| `ImageController.TransformChecksDescriptorFirst` | server/src/controllers/imageController.js:82-89 | a missing, falsy or keyless descriptor gets 400 `At least one transformation is required` whatever the store and the cache hold, and the cache is untouched |
| `ImageController.TransformOthersNotFound` | server/src/controllers/imageController.js:89-95 | a transform of another user's or a missing image is 404 and leaves the cache untouched |
| `ImageController.RepeatServedFromCache` | server/src/controllers/imageController.js:97-115 | after a miss stored its URL, the same request within the lease gets the same answer from the cache, whatever the URL builder would now say |
| `ImageController.PermutedDescriptorMisses` | server/src/controllers/imageController.js:97 | the same descriptor with its properties in another order yields the same directives but a different cache key |
| `ImageService.TransformImage` | server/src/services/imageService.js:24-76 | builds the directive list push by push; the result is the URL builder applied to `(cloudinaryId, Directives(t))`, and any failure, including reading properties of an undefined or null descriptor, is `Failed to transform image` |
| `ImageService.Outcome` | server/src/services/imageService.js:66-75 | succeeds exactly when the URL builder does, with its URL; otherwise the single failure message |
| `ImageService.Rank` | server/src/services/imageService.js:28-64 | each operation's position in the fixed emission order |
| `ImageService.DirectivesCollect` | server/src/services/imageService.js:26-64 | the directive list is the concatenation, in the fixed order, of steps that each contribute at most their own operation's directive |
| `ImageService.DirectivesInOrder` | server/src/services/imageService.js:28-64 | directives come out strictly in the order resize, crop, rotate, watermark, grayscale, sepia, format, so there are at most 7 |
| `ImageService.DirectivesEmitted` | server/src/services/imageService.js:28-64 | each directive is the object the service builds for its operation |
| `ImageService.DirectivesExactly` | server/src/services/imageService.js:28-64 | an operation has a directive if and only if the descriptor requests it by the service's truthiness test |
| `ImageService.NothingRequested` | server/src/services/imageService.js:26-64 | a descriptor requesting nothing yields the empty list |
| `ImageService.RotateZeroIgnored` | server/src/services/imageService.js:44-46 | a rotation of 0 is falsy and yields no rotate directive |
| `ImageService.GrayscaleBeforeSepia` | server/src/services/imageService.js:54-61 | with both filters set, the grayscale effect precedes the sepia effect |
| `ImageService.ResizeAndCropDirectives` | server/src/services/imageService.js:28-43 | resize gives `{width, height, crop: 'fill'}` and crop gives `{width, height, crop: 'crop', x, y}`, in that order |
| `ImageService.SingleDirectives` | server/src/services/imageService.js:44-64 | a lone rotate, watermark or format request yields exactly `{angle}`, `{overlay: text, gravity: 'center', opacity}` or `{fetch_format}` |
| `ImageService.FieldOrderIrrelevant` | server/src/services/imageService.js:28-64 | descriptors holding the same properties in different orders yield the same directives |
| `Cache.Fetch` | server/src/utils/cache.js:17 | GET finds a value exactly while the key's lease runs, and returns the stored text |
| `Cache.Write` | server/src/utils/cache.js:25-31 | an unreachable backend or a lease of 0 or less leaves the store as it was; otherwise the key holds the stringified value until `now + expiry`; no other key changes |
| `Cache.ReadAbsent` | server/src/utils/cache.js:15-18 | a key never written reads as null |
| `Cache.ReadWhenDown` | server/src/utils/cache.js:19-22 | a failing backend reads as null instead of failing |
| `Cache.ReadAfterWrite` | server/src/utils/cache.js:15-27 | a written string is read back unchanged while its lease runs (the stringify/parse round trip) |
| `Cache.ReadAfterExpiry` | server/src/utils/cache.js:27 | once the lease has run out the key reads as null |
| `Cache.WriteOtherKey` | server/src/utils/cache.js:27 | writing one key changes no read of another |
| `Cache.WriteReplaces` | server/src/utils/cache.js:27 | writing an existing key replaces its value and restarts its lease |
| `Cache.WriteTwice` | server/src/utils/cache.js:27 | writing the same value twice is the same as writing it once |
| `Cache.DefaultLease` | server/src/utils/cache.js:25-27 | with the default expiry an entry is served for 3600 seconds and not a second longer |
| `Cache.TtlCache.constructor` | server/src/utils/cache.js:4-6 | the shared client starts with no entries |
| `Cache.TtlCache.Get` | server/src/utils/cache.js:15-23 | `getCachedData` answers `Read` of the current entries |
| `Cache.TtlCache.Set` | server/src/utils/cache.js:25-32 | `setCachedData` leaves the entries as `Write` of the old ones, with 3600 when no expiry is given |
| `Json.ParseQuote` | server/src/utils/cache.js:18 | `JSON.parse(JSON.stringify(s))` is `s` for every string |
| `Json.UnescapeEscape` | server/src/utils/cache.js:18 | decoding the escaped body of a string literal gives the string back |
| `Json.UnescapeChar` | server/src/utils/cache.js:18 | decoding consumes exactly one escaped character at a time |
| `Json.Quote` | server/src/utils/cache.js:27 | `JSON.stringify` of a string is wrapped in double quotes |
| `Json.LookupSpec` | server/src/services/imageService.js:28-63 | a property read finds a value exactly when the object has a property with that key, and returns its value |
| `Json.LookupPermutation` | server/src/services/imageService.js:28-63 | reordering an object's properties changes no property read |
| `Json.Assign` | server/src/controllers/imageController.js:151-154 | an assignment sets its key, leaves every other key's value alone, and grows the object only for a new key |
| `Json.AssignKeys` | server/src/controllers/imageController.js:151-154 | an existing key keeps its place and a new key goes last |
| `Json.SpreadLookup` | server/src/controllers/imageController.js:151-154 | spreading a patch: a key the patch has takes the patch's value, every other key keeps the base's |
| `Json.SpreadKeys` | server/src/controllers/imageController.js:151-154 | spreading keeps keys unique and the base's keys first, in their order |
| `Json.Keys` | server/src/controllers/imageController.js:82 | `Object.keys` lists the keys in property order |
| `Strings.IndexFrom` | server/src/middlewares/auth.js:7 | the first occurrence of the pattern at or after a position, or none when there is none |
| `Strings.ContainsOccurs` | server/src/routes/images.js:21-22 | the unanchored test holds exactly when the word occurs somewhere |
| `Strings.Split` | server/src/controllers/imageController.js:24 | the pieces contain no separator and join back to the input |
| `Strings.SplitJoin` | server/src/controllers/imageController.js:24 | splitting a join of separator-free pieces gives the pieces back |
| `Strings.SplitFree` | server/src/controllers/imageController.js:24 | a string without the separator splits into itself |
| `Errors.HandleError` | server/src/middlewares/errorHandler.js:6-12 | the body always has `success: false`; the status is `statusCode` when set and non-zero, otherwise 500; the message is the error's when non-empty, otherwise `Internal Server Error` |
| `Errors.RaisedReachesClient` | server/src/middlewares/errorHandler.js:6-11 | an error raised with a status and a message reaches the client unchanged |
| `Errors.UnexpectedIs500` | server/src/middlewares/errorHandler.js:6-7 | an error without a status is a 500 carrying its own message |
| `AuthMiddleware.Authenticate` | server/src/middlewares/auth.js:6-35 | on success attaches the resolved user and calls `next()` once; on failure leaves `req.user` alone and passes the error to `next` once |
| `AuthMiddleware.Verified` | server/src/middlewares/auth.js:17 | the verifier yields claims only for a well-signed token whose expiry has not been reached |
| `AuthMiddleware.ExtractBearer` | server/src/middlewares/auth.js:7 | `Bearer <t>` yields `t` |
| `AuthMiddleware.ExtractWithoutBearer` | server/src/middlewares/auth.js:7 | a header without the prefix is taken as the token itself |
| `AuthMiddleware.MissingToken` | server/src/middlewares/auth.js:7-14 | no header, or a header that is only the prefix, gives 401 `No token provided` |
| `AuthMiddleware.FailuresAre401` | server/src/middlewares/auth.js:9-34 | every failure is 401 `No token provided` or `Invalid token`, and reaches the client as such |
| `AuthMiddleware.ExpiredTokenRejected` | server/src/middlewares/auth.js:16-33 | a well-signed token past its expiry gives 401 `Invalid token` |
| `AuthMiddleware.UnknownUserIsInvalidToken` | server/src/middlewares/auth.js:18-33 | a good token for a user who no longer exists gives `Invalid token`, not `User not found` |
| `AuthMiddleware.IssuedTokenLifetime` | server/src/middlewares/auth.js:16-28 | a token issued for a stored user admits exactly that user for one hour after issue and is refused from then on |
| `AuthController.UserStore.Register` | server/src/controllers/authController.js:7-35 | keeps the store valid; the reply and the new users are `RegisterSpec`; the id counter advances exactly when a user was added |
| `AuthController.UserStore.Login` | server/src/controllers/authController.js:37-77 | answers `LoginSpec` from the stored users without changing them |
| `AuthController.Find` | server/src/controllers/authController.js:47 | `findOne({ email })` and `findById(id)`: a found position is the first user the query selects; `None` exactly when no user matches |
| `AuthController.RegisterEffect` | server/src/controllers/authController.js:7-35 | a missing field (400) or a taken name or email (409) leaves the users as they were; otherwise exactly one user is appended, holding the hash rather than the password, and success echoes the username and email |
| `AuthController.RegisterKeepsValid` | server/src/controllers/authController.js:17-26 | registration keeps emails pairwise distinct, usernames pairwise distinct and ids distinct |
| `AuthController.SecondRegistrationConflicts` | server/src/controllers/authController.js:17-23 | a second registration reusing the email or the username is refused with 409 and adds no one |
| `AuthController.LoginFailuresIndistinguishable` | server/src/controllers/authController.js:47-52 | an unknown email and a wrong password get the same 401 `Invalid credentials` |
| `AuthController.LoginUnknownEmail` | server/src/controllers/authController.js:47-50 | an email that no user has is refused with 401 `Invalid credentials` |
| `AuthController.LoginWrongPassword` | server/src/controllers/authController.js:47-52 | a known email with a password the stored hash rejects is refused with 401 `Invalid credentials` |
| `AuthController.RegisterThenLogin` | server/src/controllers/authController.js:25-76 | a newly registered user can log in with the same credentials; the welcome message names them, and the body and the httpOnly cookie carry the same token |
| `AuthController.Logout` | server/src/controllers/authController.js:79-84 | logout always succeeds and clears the `token` cookie (empty value, maxAge 0, httpOnly, sameSite strict) |
| `Validate.ValidateSpec` | server/src/middlewares/validate.js:5-15 | the middleware passes the request on exactly when the body satisfies the schema; otherwise it reports a 400 whose message is every violation joined by `", "` |
| `Validate.CheckAccepts` | server/src/middlewares/validate.js:6-8 | the checker reports no violation exactly when the value satisfies the rule |
| `Validate.MissingRequiredKey` | server/src/middlewares/validate.js:6-8 | a missing required key is reported first, followed by one message per undeclared key |
| `Validate.AcceptsObject` | server/src/middlewares/validate.js:19-50 | an object passes exactly when every declared key passes, it has no undeclared key, and it has enough keys |
| `Validate.RegisterRules` | server/src/middlewares/validate.js:19-23 | register passes exactly when username has at least 3 characters, email is an email address, password has at least 6, and there is no other key |
| `Validate.LoginRules` | server/src/middlewares/validate.js:24-27 | login passes exactly when email is an email address, password is a non-empty string, and there is no other key |
| `Validate.DescriptorNames` | server/src/middlewares/validate.js:29-41 | a descriptor may name exactly the six operations |
| `Validate.ResizeRules` | server/src/middlewares/validate.js:30 | `resize` is accepted exactly when it is an object whose keys are among width and height, each a number when present |
| `Validate.CropRules` | server/src/middlewares/validate.js:31-36 | `crop` is accepted exactly when it is an object whose keys are among width, height, x and y, each a number when present |
| `Validate.WatermarkRules` | server/src/middlewares/validate.js:38 | `watermark` is accepted exactly when it is an object whose only possible key is `text`, a non-empty string when present |
| `Validate.FiltersRules` | server/src/middlewares/validate.js:39 | `filters` is accepted exactly when it is an object whose keys are among grayscale and sepia, each a boolean when present |
| `Validate.OperationsRules` | server/src/middlewares/validate.js:30-40 | the six declared descriptor keys pass exactly when each operation present has its shape: numeric resize and crop dimensions, a numeric rotate, a watermark text, boolean filters, a format among jpg, png and webp |
| `Validate.DescriptorRules` | server/src/middlewares/validate.js:29-43 | a descriptor is accepted exactly when it is an object with at least one key, only the six operations as keys, and each operation in its shape |
| `Validate.TransformRules` | server/src/middlewares/validate.js:28-44 | a transform request is accepted exactly when its only key is `transformations` and that key holds an accepted descriptor; both directions, so every well-formed descriptor passes |
| `Validate.RotateAndFormatAccepted` | server/src/middlewares/validate.js:37-40 | any numeric rotation with an allowed format is accepted |
| `Validate.TransformRequiresDescriptor` | server/src/middlewares/validate.js:28-44 | a transform request without `transformations` is refused with `"transformations" is required` first |
| `Validate.UpdateMetadataRules` | server/src/middlewares/validate.js:45-50 | the update passes exactly when its only key is `metadata` (or it has none) and a present patch is an object with at least one key, all among `originalName` and `description`, each a non-empty string |
| `ImageRoutes.DispatchFrom` | server/src/routes/images.js:30-35 | picks the first route whose verb and pattern match, and reports no route only when none matches |
| `ImageRoutes.EveryRouteAuthenticatesFirst` | server/src/routes/images.js:30-35 | every route runs the auth middleware first and ends in exactly one controller |
| `ImageRoutes.StagePlacement` | server/src/routes/images.js:30-35 | transform and metadata validate between auth and controller; upload parses the `image` file between auth and controller; no other route validates or parses |
| `ImageRoutes.RoutesDisjoint` | server/src/routes/images.js:30-35 | no request matches two routes |
| `ImageRoutes.DispatchIsOnlyMatch` | server/src/routes/images.js:30-35 | a request goes to a route if and only if that route matches it |
| `ImageRoutes.DispatchTable` | server/src/routes/images.js:30-35 | `GET /` lists, `POST /` uploads, and `GET`, `DELETE`, `POST /transform` and `PATCH /metadata` on an id reach their handlers; deeper paths match nothing |
| `ImageRoutes.ParseSingle` | server/src/routes/images.js:17-30 | no file leaves `req.file` unset; an accepted file came under the `image` field, passed the filter and is within the limit; every refusal carries no status |
| `ImageRoutes.FileFilterOccurs` | server/src/routes/images.js:21-25 | the filter accepts a MIME type if and only if `jpeg`, `jpg` or `png` occurs in it |
| `ImageRoutes.FileFilterUnanchored` | server/src/routes/images.js:21-25 | any MIME type that merely contains one of the three words is accepted |
| `ImageRoutes.RefusedTypeIs500` | server/src/routes/images.js:26 | a refused type fails with `Only JPEG and PNG images are allowed`, which reaches the client as a 500 |
| `ImageRoutes.SizeLimit` | server/src/routes/images.js:19 | the limit is 5242880 bytes, inclusive |
| `ImageRoutes.UnauthenticatedStopsFirst` | server/src/routes/images.js:30-35 | on every route an unauthenticated request gets the auth error, whatever its body or file |
| `ImageRoutes.TransformAdmission` | server/src/routes/images.js:33 | a transform request reaches its controller exactly when it is authenticated and its body passes the transform schema, and carries the authenticated user |
| `ImageRoutes.UpdateMetadataAdmission` | server/src/routes/images.js:35 | a metadata update reaches its controller exactly when it is authenticated and its body passes the update schema |
| `ImageRoutes.UploadAdmission` | server/src/routes/images.js:30 | an authenticated upload reaches its controller with the parsed file (or none), and a refused file stops it with the parser's error |

## Left out

- Logging: every logger call is omitted.
- The HTTP layer is not modelled: `res`, status chaining and JSON serialisation of the response body. Responses are values.
- Statuses: the image handlers' replies carry their status (200 or 201), and so does every error (through `Errors.HandleError`). The success replies of register (201, authController.js:31), login and logout (Express's default 200) are bare values without a status.
- `utils/asyncHandler.js` is not part of this model. A thrown error is modelled as the `Failure` that reaches the error handler.
- Concurrency is not modelled. Each handler runs as one sequential step, so two concurrent misses on the same key are not interleaved.
- Floating point is not modelled. The watermark opacity 0.5 is an opaque constant.
- ImageController.ImageStore.List: requires `page` and `limit` of at least 1, because query-string coercion is not modelled; strings, zero and negative values are left out.
- Upload to the host (`uploadImage` in the image service) is not modelled. Its outcome is a parameter: the host's answer or the error it raised.
- The remote release on delete is an outcome parameter. The controller imports a `deleteImage` that the image service does not define, so its body is not invented.
- Token signing and verification, bcrypt and Joi's email check are function parameters.
- The Mongo collections are class state (`ImageController.ImageStore`, `AuthController.UserStore`). Their queries are the functions `Locate`, `OwnedBy`, `Page`, `Without` and `Find`.
- Store failures are not modelled: a rejected `save()`, a failed query or an unreachable database, each of which reaches the client as 500.
- Numbers are integers (`Json.Num`). Fractional values such as `45.5` are not representable, so a fractional width or rotation is not modelled.
- Joi's check that a number is a safe integer (magnitude below 2^53) is not modelled. The model accepts every integer.
- `Json.IntToString` writes every integer in plain digits. `JSON.stringify` writes numbers of 1e21 and above in exponent form, so cache keys holding such numbers differ from the code's.
- String lengths count characters. Joi's `min()` counts UTF-16 code units, so a string with characters outside the Basic Multilingual Plane (such as "a😀", length 3 in Joi) is shorter in the model.
- Route matching is exact. Express matches paths case-insensitively by default, so a request for `/:id/TRANSFORM` reaches the transform handler in the code but no route in the model. Express also accepts a trailing slash (`/5/`) and answers HEAD requests through GET routes; the model matches neither.
- Json.AssignKeys, Json.SpreadKeys, ImageController.MergeKeys: JavaScript lists keys that are canonical natural-number strings ("0", "5") first, in ascending numeric order, before the other keys in insertion order. The model keeps pure insertion order for every key, so its key order differs from JavaScript's for such keys. This also holds for `JSON.parse` of an object and for `Json.Stringify`. The request schemas refuse such keys in every descriptor and metadata patch, so no request through the routes produces them.
- The `exp` check is modelled with an explicit clock; the signature check is the `verify` parameter.
- AuthController.UserStore.Login: the `profilePicture` field of the login reply is not modelled, because `User.js` is not part of this model.
- Mongoose schema behaviour is not modelled: strict-mode dropping of undeclared metadata keys such as `description`, and casting.
- ImageController.ImageStore.List: returns `{ id, url, metadata }` views rather than the `url metadata createdAt` projection, because creation times are not modelled.
- Joi is not modelled beyond the rules used by the four schemas. Type conversion, such as numeric strings accepted as numbers, is omitted. The message texts are reproduced only for the violations these schemas can raise.
- The upload parser's size error and wrong-field error are modelled by their messages (`File too large`, `Unexpected field`) and carry no status, so they reach the client as 500.
- Cache values are always strings, because the only caller stores URLs. `getCachedData`'s `JSON.parse` is modelled for string literals only.
- The rate limiter and the authentication route table are not modelled. They are configuration of library middleware; their handlers are the ones modelled here.
- ImageRoutes.ParseSingle: multer's multipart parsing is not modelled. A request carries at most one file part, given with its field name.
