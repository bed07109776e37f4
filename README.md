# symfony-attachment-storage, modelled in Dafny

This project models the core of `pfcode/symfony-attachment-storage`, a PHP
library that stores file attachments for Symfony/Doctrine applications. It
models and proves:

- **The local storage backend** (`LocalStorage`).
  - It derives a record's file name from its slug and extension, using PHP's
    `trim` and `empty`.
  - It copies a source file into its base directory, or writes a blob there.
  - It stamps size, content type and storage identifier onto the record.
  - It downloads a stored file, builds its URL, tests for its presence and
    removes it.
- **The storage registry** (`StorageRegistry`): storages keyed by class and by
  identifier, listed in insertion order, with a default that is registered
  on demand.
- **The uploader** (`AttachmentUploader`). It uploads from a path, a URL, an
  uploaded file or a blob. It picks each value with a fixed precedence:
  - the extension: the argument, then the path's extension, then the
    suggestion for the content type;
  - the slug: the argument, then the generator;
  - the storage: the argument, then the registry's default.
  It also looks up the storage of a record.
- **The slug generators**: `NullSlugGenerator`, and `SampleSlugGenerator`,
  which retries random alphanumeric candidates at most ten times.
- **`AttachmentDescriber`**: three content-type tests.

`ExtensionSuggester` is modelled as a table function with its fallback.

The operating system is an explicit `FileSystem` object with:
- a map from path to bytes;
- a set of directories;
- a set of unreadable paths and a set of unwritable paths;
- a content-sniffing function of the bytes.

Storage, registry and uploader are classes whose methods change that object
and the attachment record in place. The describer, the extension rules and
the file-name rule are functions.

Modules, one per source file or PHP facility:

| module | file | models |
|---|---|---|
| `Wrappers` | `wrappers.dfy` | Option, Result, and the void-or-exception `Outcome` |
| `PhpStrings` | `php_strings.dfy` | `trim`, `ltrim`, `rtrim`, `empty`, `basename`, `pathinfo(..., PATHINFO_EXTENSION)` |
| `FileSystems` | `file_system.dfy` | `file_exists`, `is_dir`, `is_readable`, `is_writable`, `filesize`, `mime_content_type`, `copy`, `file_put_contents`, `unlink` |
| `Entity` | `entity.dfy` | the attachment record (`AttachmentInterface`) |
| `Storage` | `storage.dfy` | `LocalStorage`, and other backends as `StorageService` |
| `Registry` | `storage_registry.dfy` | `StorageRegistry` |
| `SlugGenerators` | `slug_generators.dfy` | `NullSlugGenerator`, `SampleSlugGenerator` |
| `Describer` | `attachment_describer.dfy` | `AttachmentDescriber` |
| `Uploader` | `attachment_uploader.dfy` | `AttachmentUploader`, `ExtensionSuggester`, the downloader as a function |

Where the code differs from what its messages or documentation suggest, the
model follows the code:

- `registerStorage` writes the class entry before it checks the identifier.
  A registration that fails on a duplicate identifier therefore still
  leaves its class registered (`RegisterStorage`, `SharedIdentifier`).
- After a blob upload, the local backend re-reads size and content type from
  the written file.
- A null storage identifier is looked up under the key "", as PHP reads a
  null array key.
- The cURL downloader returns the name of a `tmpfile()` whose handle is
  local to the download. PHP deletes that file as the download returns,
  before `uploadFromPath` checks that it exists.
- The registry lookups have inverted guards, and the slug generator ignores
  its tenth lookup.

The last two points are described under Findings, in four rows. Other code
uses the corrected versions.

## Model

| member | source | states |
|---|---|---|
| PhpStrings.TrimRight | src/Storage/LocalStorage.php:26-27 | `rtrim`: the result is a prefix of the input that does not end in a stripped character, and everything it drops is a stripped character |
| PhpStrings.TrimLeft | src/Storage/LocalStorage.php:161-162 | `ltrim`: the result is a suffix that does not start with a stripped character, and everything it drops is a stripped character |
| PhpStrings.Trim | src/Storage/LocalStorage.php:161-162 | `trim` leaves neither a leading nor a trailing whitespace or NUL character |
| PhpStrings.TrimIsStrippedInfix | src/Storage/LocalStorage.php:161-162 | `trim` returns an infix of its input, and every character it removes is whitespace or NUL |
| PhpStrings.TrimLeftDropsStripped | src/Storage/LocalStorage.php:161-162 | `ltrim` removes a whole prefix of stripped characters, whatever follows it |
| PhpStrings.TrimRightDropsStripped | src/Storage/LocalStorage.php:161-162 | `rtrim` removes a whole suffix of stripped characters, whatever precedes it |
| PhpStrings.TrimLeftAppend | src/Storage/LocalStorage.php:161-162 | `ltrim` of `s + q` is `ltrim(s) + q` when `ltrim(s)` is not empty, and `ltrim(q)` otherwise |
| PhpStrings.TrimSurrounded | src/Storage/LocalStorage.php:161-162 | stripped characters wrapped around a string do not change its `trim` |
| PhpStrings.TrimFixesTrimmed | src/Storage/LocalStorage.php:161-162 | a string that neither starts nor ends with a stripped character is its own trim |
| PhpStrings.TrimIdempotent | src/Storage/LocalStorage.php:161-162 | trimming twice is trimming once |
| PhpStrings.Basename | src/Uploader/AttachmentUploader.php:78 | `basename`: the text of the path, with trailing slashes removed, after its last slash |
| PhpStrings.NameExtension | src/Uploader/AttachmentUploader.php:78 | a file name's extension: empty without a dot; otherwise the text after its last dot |
| PhpStrings.PathExtension | src/Uploader/AttachmentUploader.php:78 | the path's extension: empty when the basename has no dot; otherwise the text after the basename's last dot. It contains no dot and no slash |
| PhpStrings.PathExtensionOfSpelledPath | src/Uploader/AttachmentUploader.php:78 | for `dir/stem.ext`, the extension is `ext`, whatever the directory and the dots in the stem |
| PhpStrings.NoDotNoExtension | src/Uploader/AttachmentUploader.php:78 | a path without a dot has the empty extension |
| FileSystems.FileSystem.SizeOf | src/Uploader/AttachmentUploader.php:89 | `filesize` of a regular file is its byte length |
| FileSystems.FileSystem.MimeOfPath | src/Uploader/AttachmentUploader.php:76 | `mime_content_type` of a regular file is the sniffer applied to its bytes |
| FileSystems.FileSystem.Copy | src/Storage/LocalStorage.php:46 | `copy` succeeds exactly when PHP allows it. On success the destination holds the source's bytes and nothing else changes; on failure nothing changes. No path becomes both a file and a directory |
| FileSystems.FileSystem.Put | src/Storage/LocalStorage.php:69 | `file_put_contents` succeeds exactly when a regular file may be written there. On success it writes the data and nothing else; on failure nothing changes. No path becomes both a file and a directory |
| FileSystems.FileSystem.Unlink | src/Storage/LocalStorage.php:152 | `unlink` removes an existing, writable file and leaves every other path as it was |
| FileSystems.FileSystem.ReleaseTemporary | src/Utils/Downloader/CurlDownloader.php:13-55 | the file of a `tmpfile()` handle is gone once the handle is released, whatever its permissions; nothing else changes |
| Entity.Attachment.constructor | src/Uploader/AttachmentUploader.php:86 | a new entity has every property unset and size 0 |
| Storage.AttachmentFileName | src/Storage/LocalStorage.php:160-173 | no name exactly when the trimmed slug is PHP-empty ("" or "0"). Otherwise the name starts with the trimmed slug, is not PHP-empty and is its own trim |
| Storage.FileNameOfTrimmedParts | src/Storage/LocalStorage.php:160-173 | for trimmed parts the name is: none for an empty slug; the slug for an empty extension; `slug.ext` otherwise. A null extension acts as "" |
| Storage.FileNameOfTrimmedArguments | src/Storage/LocalStorage.php:160-173 | the name depends on slug and extension only through their trimmed forms |
| Storage.FileNameIgnoresSurroundingWhitespace | src/Storage/LocalStorage.php:161-162 | any whitespace and NUL characters around slug and extension leave the name unchanged |
| Storage.LocalStorage.constructor | src/Storage/LocalStorage.php:25-28 | base path and base URL are stored with every trailing slash removed |
| Storage.LocalStorage.IsStorageAvailable | src/Storage/LocalStorage.php:130-135 | available exactly when the base path is a non-empty, existing directory that is readable and writable |
| Storage.LocalStorage.HasAttachment | src/Storage/LocalStorage.php:141-144 | with a file name: exactly when `base/name` exists. Without one: true whenever the base directory exists, since the path checked is `base/` |
| Storage.LocalStorage.GetUrlOfAttachment | src/Storage/LocalStorage.php:111-118 | null exactly when there is no file name; otherwise `baseUrl/name` |
| Storage.LocalStorage.StoredIsLocated | src/Storage/LocalStorage.php:111-144 | a record whose file is in place is present, and its URL is `baseUrl/name` |
| Storage.LocalStorage.UpdateAttachmentInfo | src/Storage/LocalStorage.php:179-183 | the record gets the written file's size and sniffed type and the identifier "local"; slug, extension and original name are unchanged |
| Storage.LocalStorage.PathUploadOutcome | src/Storage/LocalStorage.php:35-48 | checked in order: unavailable, then no file name, then a failed copy. Each error arises exactly when its check is the first to fail, and it passes exactly when none fails |
| Storage.LocalStorage.UploadAttachmentFromPath | src/Storage/LocalStorage.php:35-51 | ends as `PathUploadOutcome` says. A failure changes neither files nor record. On success only `base/name` changes, now holding the source's bytes (last writer wins), and the record is stamped from it |
| Storage.LocalStorage.BlobUploadOutcome | src/Storage/LocalStorage.php:58-71 | checked in order: unavailable, then no file name, then a failed write. Each error arises exactly when its check is the first to fail, and it passes exactly when none fails |
| Storage.LocalStorage.UploadAttachmentFromBlob | src/Storage/LocalStorage.php:58-74 | ends as `BlobUploadOutcome` says. A failure changes nothing. On success only `base/name` changes, now holding the blob; size and content type are the blob's |
| Storage.LocalStorage.DownloadCopy | src/Storage/LocalStorage.php:81-100 | checked in order: unavailable, then not present, then no file name. The copy goes from `base/name` to `path/name` when `path` is a directory, else to `path` |
| Storage.LocalStorage.DownloadAttachmentToLocal | src/Storage/LocalStorage.php:81-105 | fails with `DownloadCopy`'s error, or when the copy fails, and then changes nothing. Otherwise only the destination changes, and it holds the stored bytes |
| Storage.LocalStorage.RemoveAttachment | src/Storage/LocalStorage.php:149-154 | no effect without a file name or when the file is absent; otherwise only `base/name` is removed |
| Storage.ForeignStorage.constructor | src/Storage/StorageInterface.php:42 | another backend reports its own class name and identifier |
| Storage.ForeignStorage.UploadAttachment | src/Storage/StorageInterface.php:16-23 | another backend accepts an upload exactly when it accepts uploads at all. It may stamp the record's size, content type and identifier with values the model leaves open, touches no other property, and a refused upload changes nothing |
| Storage.StorageService.ClassName | src/StorageRegistry/StorageRegistry.php:24-28 | `get_class`: the local backend's class name for a `LocalStorage`, and another backend's own class name otherwise |
| Storage.StorageService.StorageIdentifier | src/Storage/LocalStorage.php:123-125 | `getStorageIdentifier`: "local" for a `LocalStorage`, and another backend's own identifier otherwise |
| Storage.UploadThenDownload | src/Storage/LocalStorage.php:58-105 | after a successful blob upload, a download to a writable non-directory path yields exactly the blob, and the stored copy still holds it |
| Storage.DownloadUploaded | src/Storage/LocalStorage.php:81-105 | a stored file holding the blob is downloaded to `dst` unchanged |
| Storage.UploadBlobIsLocated | src/Storage/LocalStorage.php:58-74 | with the storage available and the target writable, a blob upload passes. The record is then present, located at `baseUrl/name`, has the blob's size and is stamped "local" |
| Registry.LookupAsWritten | src/StorageRegistry/StorageRegistry.php:42-61 | as written, a lookup never succeeds: a present key throws "not found" |
| Registry.AsWrittenLookupRejectsRegisteredStorage | src/StorageRegistry/StorageRegistry.php:42-48 | as written, a registered identifier is reported as not found |
| Registry.StorageRegistry.constructor | src/StorageRegistry/StorageRegistry.php:10-17 | both arrays are empty and there is no default |
| Registry.StorageRegistry.RegisterStorage | src/StorageRegistry/StorageRegistry.php:23-35 | a registered class fails and changes nothing. Otherwise the class entry is added. Then a duplicate identifier fails, with the class entry kept, while a new identifier adds its entry. The default is never touched; the registry invariant is kept |
| Registry.StorageRegistry.GetStorageByIdentifier | src/StorageRegistry/StorageRegistry.php:42-48 | corrected: succeeds exactly when the identifier is registered, and then returns its entry; otherwise NotFound(identifier) |
| Registry.StorageRegistry.GetStorageByClass | src/StorageRegistry/StorageRegistry.php:55-61 | corrected: succeeds exactly when the class is registered, and then returns its entry; otherwise NotFound(class) |
| Registry.StorageRegistry.GetAllStorageServices | src/StorageRegistry/StorageRegistry.php:66-73 | the class entries in insertion order, one per registered class, and exactly the registered values |
| Registry.StorageRegistry.HasStorage | src/StorageRegistry/StorageRegistry.php:79-81 | true exactly when some registered storage has the same class, whatever the instance or identifier |
| Registry.StorageRegistry.SetDefaultStorage | src/StorageRegistry/StorageRegistry.php:87-93 | a registered class becomes the default with no registration, even as another instance. An unregistered storage is registered first; it becomes the default only if registration passes |
| Registry.StorageRegistry.GetDefaultStorage | src/StorageRegistry/StorageRegistry.php:98-100 | the current default, none before any, whose class is registered |
| Registry.RegisterTwice | src/StorageRegistry/StorageRegistry.php:23-26 | registering the same storage again fails with "already registered" |
| Registry.SharedIdentifier | src/StorageRegistry/StorageRegistry.php:23-93 | a second storage with a shared identifier fails yet counts as registered, and can then be made the default without entering the identifier array |
| Registry.DefaultBootstrap | src/StorageRegistry/StorageRegistry.php:87-100 | on an empty registry, making a storage the default registers it, and the default is then that storage |
| SlugGenerators.AlphabetSpelling | src/Utils/SlugGenerator/SampleSlugGenerator.php:65 | the alphabet is the ten digits, then a to z |
| SlugGenerators.NullGenerate | src/Utils/SlugGenerator/NullSlugGenerator.php:15-17 | no slug, whatever the argument |
| SlugGenerators.Repeats | src/Utils/SlugGenerator/SampleSlugGenerator.php:66 | the fewest copies of the alphabet, and at least one, covering the length: `max(ceil(length/36), 1)` |
| SlugGenerators.RepeatMultiset | src/Utils/SlugGenerator/SampleSlugGenerator.php:66 | `n` copies hold each character `n` times as often |
| SlugGenerators.PoolLength | src/Utils/SlugGenerator/SampleSlugGenerator.php:66-67 | the repeated alphabet is at least as long as the slug |
| SlugGenerators.ShuffledPrefixBound | src/Utils/SlugGenerator/SampleSlugGenerator.php:67 | a prefix of a shuffle of `n` copies of a repeat-free alphabet draws only alphabet characters, each at most `n` times |
| SlugGenerators.RandomAlphanumericString | src/Utils/SlugGenerator/SampleSlugGenerator.php:64-74 | exactly `length` characters, all from the alphabet, each at most `max(ceil(length/36), 1)` times |
| SlugGenerators.SampleSlugGenerator.constructor | src/Utils/SlugGenerator/SampleSlugGenerator.php:31-35 | the generator keeps the given slug length |
| SlugGenerators.SampleSlugGenerator.Candidate | src/Utils/SlugGenerator/SampleSlugGenerator.php:47 | each candidate has the configured length |
| SlugGenerators.SampleSlugGenerator.FirstUnused | src/Utils/SlugGenerator/SampleSlugGenerator.php:46-49 | the index of the first free candidate among the ten, every earlier one taken; none exactly when all are taken |
| SlugGenerators.SampleSlugGenerator.AsWrittenSlug | src/Utils/SlugGenerator/SampleSlugGenerator.php:42-57 | as written: succeeds exactly when one of the first nine candidates is unused; a slug it returns is unused and of the configured length |
| SlugGenerators.SampleSlugGenerator.IntendedSlug | src/Utils/SlugGenerator/SampleSlugGenerator.php:42-57 | corrected: succeeds exactly when one of the ten candidates is unused; a slug it returns is unused and of the configured length |
| SlugGenerators.SampleSlugGenerator.Generate | src/Utils/SlugGenerator/SampleSlugGenerator.php:42-57 | as written: between 1 and 10 lookups, every candidate before the last taken. A success comes before the tenth lookup and returns the last, free candidate; a failure means all ten lookups ran |
| SlugGenerators.SampleSlugGenerator.GenerateIntended | src/Utils/SlugGenerator/SampleSlugGenerator.php:42-57 | corrected: the first free candidate among ten; fails only when all ten are taken |
| SlugGenerators.SampleSlugGenerator.IntendedSlugIsFresh | src/Utils/SlugGenerator/SampleSlugGenerator.php:47-56 | a success as written agrees with the corrected result; a returned slug is unused, of the configured length and alphanumeric |
| SlugGenerators.SampleSlugGenerator.AllTakenExhausts | src/Utils/SlugGenerator/SampleSlugGenerator.php:43-53 | with every candidate taken, both versions throw |
| SlugGenerators.SampleSlugGenerator.TenthCandidateFree | src/Utils/SlugGenerator/SampleSlugGenerator.php:46-53 | with nine candidates taken and the tenth free, the code as written throws while the corrected version returns the tenth |
| Describer.MimeString | src/Utils/AttachmentDescriber.php:16 | a null content type casts to "" |
| Describer.IsImage | src/Utils/AttachmentDescriber.php:15-17 | true exactly when the content type is set and its first six characters are "image/" |
| Describer.IsVideo | src/Utils/AttachmentDescriber.php:23-25 | true exactly when the content type is set and its first six characters are "video/" |
| Describer.IsPdf | src/Utils/AttachmentDescriber.php:31-36 | a PDF has content type exactly "application/pdf" or "application/x-pdf", and the test agrees on the string cast |
| Describer.KindsAreExclusive | src/Utils/AttachmentDescriber.php:15-36 | no attachment is of two kinds |
| Uploader.SuggestExtension | src/Utils/ExtensionSuggester.php:16-19 | the table's entry, else the default |
| Uploader.ResolveExtension | src/Uploader/AttachmentUploader.php:77-82 | the argument; else the path's extension unless it is PHP-empty; else the suggestion for the content type |
| Uploader.ResolveSpelledExtension | src/Uploader/AttachmentUploader.php:77-82 | for `dir/stem.ext`: `ext`, unless it is "" or "0", which gives the suggestion |
| Uploader.ResolveWithoutDot | src/Uploader/AttachmentUploader.php:77-82 | a path without a dot gets the suggestion |
| Uploader.GeneratedSlug | src/Uploader/AttachmentUploader.php:91-93 | the null generator gives no slug; the sample one fails or succeeds as the corrected generator does, and a slug it gives is unused |
| Uploader.AttachmentUploader.constructor | src/Uploader/AttachmentUploader.php:44-56 | keeps its collaborators; the entity class must implement `AttachmentInterface` |
| Uploader.AttachmentUploader.PlannedSlug | src/Uploader/AttachmentUploader.php:91-95 | the slug argument when given, else the generator's result, null included |
| Uploader.AttachmentUploader.PlannedStorage | src/Uploader/AttachmentUploader.php:97-99 | the storage argument when given, else the registry's default |
| Uploader.AttachmentUploader.ResolveStorage | src/Uploader/AttachmentUploader.php:97-99 | the planned storage, or NoDefaultStorage when there is none |
| Uploader.AttachmentUploader.SniffSource | src/Uploader/AttachmentUploader.php:76-82 | the sniffed type of the source, and the resolved extension |
| Uploader.AttachmentUploader.NewRecord | src/Uploader/AttachmentUploader.php:85-89 | a new entity carrying the given slug, content type, extension and size, with no identifier and no original name |
| Uploader.AttachmentUploader.StoreFromPath | src/Uploader/AttachmentUploader.php:101-102 | the backend's outcome for the record's file name. A failure changes nothing. On success the record carries the backend's identifier, with slug, extension and original name kept; after the local backend it has the source's size and sniffed type, while another backend may stamp its own |
| Uploader.AttachmentUploader.UploadFromPath | src/Uploader/AttachmentUploader.php:67-105 | fails in order: missing, unreadable, slug failure, no storage, backend failure; each failure writes nothing. A success returns a new record with the planned slug and extension and the chosen storage's identifier; with the local backend it also has the source's content type and size |
| Uploader.AttachmentUploader.UploadPathWithSlug | src/Uploader/AttachmentUploader.php:67-105 | the same as `UploadFromPath`, for a given outcome of the slug step |
| Uploader.AttachmentUploader.UploadFromUrl | src/Uploader/AttachmentUploader.php:117-120 | corrected: a failed download writes nothing. Otherwise it is `uploadFromPath` on the downloaded path with the same arguments |
| Uploader.AttachmentUploader.UploadFromUrlAsWritten | src/Uploader/AttachmentUploader.php:117-120 | as written: a failed download writes nothing. After a successful download the temporary file is already deleted, so the upload fails as missing (unless the name is a directory's), and the file system differs from before only by that deleted file |
| Uploader.AttachmentUploader.SetOriginalName | src/Uploader/AttachmentUploader.php:133 | the record's original name becomes the given name; no other property of it changes |
| Uploader.AttachmentUploader.UploadFromUploadedFile | src/Uploader/AttachmentUploader.php:131-135 | `uploadFromPath` on the real path ("" when there is none, which fails as missing); a success carries the client's original name |
| Uploader.AttachmentUploader.StoreBlob | src/Uploader/AttachmentUploader.php:162-163 | the backend's outcome for the record's file name; a success carries the backend's identifier, with slug, extension and original name kept; after the local backend it has the blob's size and sniffed type, while another backend may stamp its own |
| Uploader.AttachmentUploader.UploadFromBlob | src/Uploader/AttachmentUploader.php:145-166 | fails in order: slug failure, no storage, backend failure; each failure writes nothing. A success carries the extension argument unchanged and the chosen storage's identifier, and with the local backend the blob's length as size; it never sniffs a path |
| Uploader.AttachmentUploader.UploadBlobWithSlug | src/Uploader/AttachmentUploader.php:145-166 | the same as `UploadFromBlob`, for a given outcome of the slug step |
| Uploader.AttachmentUploader.GetStorageOfAttachment | src/Uploader/AttachmentUploader.php:174-181 | the registry entry for the record's identifier exactly when one is registered; otherwise LookupFailed(NotFound(identifier)) |
| Uploader.AttachmentUploader.NullSlugLocalUpload | src/Uploader/AttachmentUploader.php:91-101 | with the null generator and no slug, a local upload of a readable file fails with "slug set first" and writes nothing |

## Left out

- Network I/O: the cURL downloader is a function from URL to a temporary path or a downloader error; TLS options and progress callbacks are not modelled.
- Uploader.AttachmentUploader.UploadFromUrl: the downloader is a pure function of the URL. It neither writes nor deletes the temporary file, so the upload succeeds only when the file system already holds a readable file at the returned path. `UploadFromUrlAsWritten` models the deletion that PHP performs.
- FileSystems.FileSystem.constructor: it does not demand that files and directories are disjoint, so a path may be both at first. `Copy`, `Put`, `Unlink` and `ReleaseTemporary` keep disjointness once it holds.
- The Mimey extension table is an arbitrary function from content type to optional extension.
- Doctrine's `findOneBy` is the set `taken` of slugs already stored. The model takes that set as fixed during one `generate` call.
- `str_shuffle` randomness is a supplied sequence of draws, each required to be a rearrangement of the repeated alphabet.
- Other storage backends are modelled only by their class name, identifier and whether they accept an upload; their effects on their own storage are not modelled.
- Uploader.AttachmentUploader.StoreFromPath: the size and content type another backend stamps on the record are not modelled; the contract fixes them only for the local backend.
- Uploader.AttachmentUploader.StoreBlob: the size and content type another backend stamps on the record are not modelled; the contract fixes them only for the local backend.
- FileSystems.FileSystem.SizeOf: the size of a directory or a missing path reads as 0; the operating system's answer is not modelled.
- FileSystems.FileSystem.MimeOfPath: `mime_content_type` failing and returning false is not modelled; it always reports a type.
- Path normalisation (`..`, repeated slashes other than trailing ones, symbolic links) is not modelled; paths are compared as strings.
- The `slugColumn` setting of `SampleSlugGenerator` only names the database column and is not modelled.
- SlugGenerators.SampleSlugGenerator.constructor: the length parameter is typed as a string in the source and coerced by PHP; the model takes a natural number.
- The `$str === false` check in `randomAlphanumericString` and the `!$storage` check in `getStorageOfAttachment` can never fire and are not modelled as separate paths.
- The `LogicException` of the uploader's constructor is a precondition of the constructor.
- Generators ignore the attachment they receive, so the record passed to `generate` is not modelled.
- The uploader calls the corrected generator (`GenerateIntended`'s result), not the one as written.
- Uploader.AttachmentUploader.UploadFromPath: the storage is resolved before the record is created. The order is not observable, because both steps are free of side effects.
- `getDefaultStorage` with no default returns null into a non-nullable return type, which PHP rejects with a TypeError. The model returns `None`, and the uploader reports NoDefaultStorage.
- The interfaces (`StorageInterface`, `SlugGeneratorInterface`, `DownloaderInterface`, `AttachmentInterface`) declare signatures only. They become the `StorageService` and `SlugGenerator` datatypes and the `Attachment` class.
- Concurrency is not modelled; the library has none.

## Findings

| source | as written | input that shows it | evidently intended | confidence | as-written member | corrected member |
|---|---|---|---|---|---|---|
| src/StorageRegistry/StorageRegistry.php:43 | `isset(...)` without negation throws "Storage ... has not been found!" for a registered identifier, and turns a missing one into a null that the return type rejects | any registered identifier, e.g. "local" after registering a `LocalStorage`: the lookup throws | throw only when the identifier is not registered, and return the entry otherwise | high, not executed | Registry.AsWrittenLookupRejectsRegisteredStorage | Registry.StorageRegistry.GetStorageByIdentifier |
| src/StorageRegistry/StorageRegistry.php:56 | the same inverted guard in the lookup by class | any registered class name: the lookup throws | throw only when the class is not registered | high, not executed | Registry.LookupAsWritten | Registry.StorageRegistry.GetStorageByClass |
| src/Utils/SlugGenerator/SampleSlugGenerator.php:51 | after the loop, `$tries === 0` decides the exception, ignoring the result of the tenth lookup | candidates 1-9 taken and candidate 10 free: it throws although candidate 10 is free | throw only when the last lookup also found its candidate taken | high, not executed | SlugGenerators.SampleSlugGenerator.TenthCandidateFree | SlugGenerators.SampleSlugGenerator.GenerateIntended |
| src/Utils/Downloader/CurlDownloader.php:13 | the file comes from `tmpfile()`, and its only handle is a local variable, so PHP deletes the file as the download returns its name (line 55) | any URL that downloads: `uploadFromURL` then calls `uploadFromPath` on a deleted file, which throws "Source file does not exist!" | keep the downloaded file until `uploadFromPath` has copied it | medium, not executed | Uploader.AttachmentUploader.UploadFromUrlAsWritten | Uploader.AttachmentUploader.UploadFromUrl |
