/** `AttachmentUploader`: builds an attachment record for a file, a URL, an
    uploaded file or a blob of bytes, gives it a slug and hands it to a
    storage service. The file system, the extension table, the downloader and
    the slug generator's randomness are explicit inputs. */
module Uploader {
  import opened Wrappers
  import opened PhpStrings
  import opened FileSystems
  import opened Entity
  import opened Storage
  import opened Registry
  import opened SlugGenerators

  /** `AttachmentInterface::class`. */
  const AttachmentInterfaceClass := "Pfcode\\AttachmentStorage\\Entity\\AttachmentInterface"

  /** A `DownloaderException` and its message. */
  datatype DownloaderError = DownloaderError(message: string)

  /** How an upload or a lookup ends when it does not return normally. */
  datatype UploaderError =
    | SourceMissing                         // "Source file does not exist!"
    | SourceUnreadable                      // "Source file is not readable!"
    | SlugFailed(slugError: SlugGeneratorError)
    | NoDefaultStorage                      // the registry's null default meets a non-nullable return type
    | StorageFailed(storageError: StorageError)
    | ForeignFailed                         // whatever another backend throws
    | DownloadFailed(downloadError: DownloaderError)
    | LookupFailed(registryError: RegistryError)

  /** `UploadedFile`: `getRealPath()` is false for a file that no longer
      exists, and the false becomes the empty path. */
  datatype UploadedFile = UploadedFile(realPath: Option<string>, clientOriginalName: string)

  /** The slug generator an uploader is configured with. */
  datatype SlugGenerator = NullSlugGenerator | Sample(sample: SampleSlugGenerator)

  /** What one call of the sample generator sees: the slugs the repository
      already holds and the strings `str_shuffle` returns. */
  datatype Randomness = Randomness(taken: set<string>, draws: seq<string>)

  /** `ExtensionSuggester::suggestExtension($mimeType, $default)`: the
      extension table's entry, else the default. */
  function SuggestExtension(table: string -> Option<string>, mimeType: string, default: Option<string>): (r: Option<string>)
    ensures table(mimeType).Some? ==> r == table(mimeType)
    ensures table(mimeType).None? ==> r == default
  {
    if table(mimeType).Some? then table(mimeType) else default
  }

  /** The extension `uploadFromPath` records: the argument when given, else
      the path's extension, else, when that is PHP-empty, the suggestion for
      the sniffed content type. */
  function ResolveExtension(table: string -> Option<string>, extension: Option<string>, path: string, mimeType: string): (r: Option<string>)
    ensures extension.Some? ==> r == extension
    ensures extension.None? && !Empty(PathExtension(path)) ==> r == Some(PathExtension(path))
    ensures extension.None? && Empty(PathExtension(path)) ==> r == table(mimeType)
  {
    if extension.Some? then extension
    else
      var fromPath := PathExtension(path);
      if Empty(fromPath) then SuggestExtension(table, mimeType, None) else Some(fromPath)
  }

  /** The extension of a path spelled `dir/stem.ext` is `ext` unless that is
      "" or "0", which PHP takes as empty and replaces by the suggestion. */
  lemma ResolveSpelledExtension(table: string -> Option<string>, dir: string, stem: string, ext: string, mimeType: string)
    requires '/' !in stem && '/' !in ext && '.' !in ext
    ensures !Empty(ext) ==> ResolveExtension(table, None, dir + "/" + stem + "." + ext, mimeType) == Some(ext)
    ensures Empty(ext) ==> ResolveExtension(table, None, dir + "/" + stem + "." + ext, mimeType) == table(mimeType)
  {
    PathExtensionOfSpelledPath(dir, stem, ext);
  }

  /** A path without a dot in it gets the suggested extension. */
  lemma ResolveWithoutDot(table: string -> Option<string>, path: string, mimeType: string)
    requires '.' !in path
    ensures ResolveExtension(table, None, path, mimeType) == table(mimeType)
  {
    NoDotNoExtension(path);
  }

  /** What the configured generator returns. */
  function GeneratedSlug(generator: SlugGenerator, random: Randomness): (r: Result<Option<string>, SlugGeneratorError>)
    requires generator.Sample? ==> SuitableDraws(generator.sample.slugLength, random.draws)
    ensures generator.NullSlugGenerator? ==> r == Success(NullGenerate(None))
    ensures generator.Sample? && r.Success? ==> r.value.Some? && r.value.value !in random.taken
    ensures generator.Sample? ==> (r.Success? <==> generator.sample.IntendedSlug(random.taken, random.draws).Success?)
  {
    match generator
    case NullSlugGenerator => Success(NullGenerate(None))
    case Sample(g) =>
      g.IntendedSlugIsFresh(random.taken, random.draws);
      match g.IntendedSlug(random.taken, random.draws)
      case Success(slug) => Success(Some(slug))
      case Failure(e) => Failure(e)
  }

  class AttachmentUploader {
    const storageRegistry: StorageRegistry
    /** The extension table behind `ExtensionSuggester`. */
    const extensionTable: string -> Option<string>
    const slugGenerator: SlugGenerator
    /** `downloadFromUrlToTemporaryFile`: the temporary path the download was
        written to, or the downloader's exception. */
    const downloader: string -> Result<string, DownloaderError>
    const entityClass: string

    /** The constructor; the entity class must implement
        `AttachmentInterface`, as the `LogicException` demands. */
    constructor (storageRegistry: StorageRegistry, extensionTable: string -> Option<string>,
                 slugGenerator: SlugGenerator, downloader: string -> Result<string, DownloaderError>,
                 entityClass: string, entityInterfaces: set<string>)
      requires AttachmentInterfaceClass in entityInterfaces
      ensures this.storageRegistry == storageRegistry && this.extensionTable == extensionTable
      ensures this.slugGenerator == slugGenerator && this.downloader == downloader
      ensures this.entityClass == entityClass
    {
      this.storageRegistry, this.extensionTable := storageRegistry, extensionTable;
      this.slugGenerator, this.downloader := slugGenerator, downloader;
      this.entityClass := entityClass;
    }

    /** The randomness suits the configured generator. */
    predicate SuitableRandomness(random: Randomness) {
      slugGenerator.Sample? ==> SuitableDraws(slugGenerator.sample.slugLength, random.draws)
    }

    /** The slug an upload records: the argument when given, else the
        generator's result, null included. */
    function PlannedSlug(slug: Option<string>, random: Randomness): (r: Result<Option<string>, SlugGeneratorError>)
      requires slug.None? ==> SuitableRandomness(random)
      ensures slug.Some? ==> r == Success(slug)
      ensures slug.None? && slugGenerator.NullSlugGenerator? ==> r == Success(None)
      ensures slug.None? && slugGenerator.Sample? ==>
        (r.Success? <==> slugGenerator.sample.IntendedSlug(random.taken, random.draws).Success?)
      ensures slug.None? && slugGenerator.Sample? && r.Success? ==> r.value.Some? && r.value.value !in random.taken
    {
      if slug.Some? then Success(slug) else GeneratedSlug(slugGenerator, random)
    }

    /** The storage an upload uses: the argument when given, else the
        registry's default. */
    function PlannedStorage(storage: Option<StorageService>): (r: Option<StorageService>)
      reads storageRegistry
      ensures storage.Some? ==> r == storage
      ensures storage.None? ==> r == storageRegistry.defaultStorage
    {
      if storage.Some? then storage else storageRegistry.defaultStorage
    }

    /** The extension `uploadFromPath` records for `path` in `fs`. */
    function PlannedExtension(fs: FileSystem, path: string, extension: Option<string>): (r: Option<string>)
      reads fs
    {
      ResolveExtension(extensionTable, extension, path, fs.MimeOfPath(path))
    }

    /** The storage step of both uploads: the storage argument, else the default. */
    method ResolveStorage(storage: Option<StorageService>) returns (r: Result<StorageService, UploaderError>)
      requires storageRegistry.Valid()
      ensures PlannedStorage(storage).Some? ==> r == Success(PlannedStorage(storage).value)
      ensures PlannedStorage(storage).None? ==> r == Failure(NoDefaultStorage)
    {
      var chosen := storage;
      if chosen.None? {
        chosen := storageRegistry.GetDefaultStorage();
      }
      if chosen.None? {
        return Failure(NoDefaultStorage);
      }
      r := Success(chosen.value);
    }

    /** The record a successful `uploadFromPath` returns: a new attachment
        with the planned slug and extension and the chosen storage's
        identifier. The local backend leaves it with the size and content
        type of the source file in `fs` before the upload; another backend
        may stamp its own. */
    twostate predicate PathRecord(fs: FileSystem, path: string, slug: Option<string>, extension: Option<string>,
                                  target: StorageService, new a: Attachment)
      reads fs, a`slug, a`extension, a`mimeType, a`fileSize, a`storageIdentifier
    {
      && fresh(a)
      && a.slug == slug
      && a.extension == old(PlannedExtension(fs, path, extension))
      && (target.Local? ==> a.mimeType == Some(old(fs.MimeOfPath(path))) && a.fileSize == old(fs.SizeOf(path)))
      && a.storageIdentifier == Some(target.StorageIdentifier())
    }

    /** The checks `uploadFromPath` makes before it hands the record to a
        backend, in the source's order: the source file exists, is readable,
        the slug step succeeds and a storage is chosen. Every failure leaves
        the file system alone, and no upload touches directories or
        permissions. */
    twostate predicate PathChecks(fs: FileSystem, path: string, plannedSlug: Result<Option<string>, SlugGeneratorError>,
                                  target: Option<StorageService>, new r: Result<Attachment, UploaderError>)
      reads fs
    {
      && (r.Failure? ==> unchanged(fs))
      && fs.dirs == old(fs.dirs) && fs.unreadable == old(fs.unreadable) && fs.unwritable == old(fs.unwritable)
      && (!old(fs.Exists(path)) ==> r == Failure(SourceMissing))
      && (old(fs.Exists(path)) && !old(fs.IsReadable(path)) ==> r == Failure(SourceUnreadable))
      && (old(fs.IsReadable(path)) && plannedSlug.Failure? ==> r == Failure(SlugFailed(plannedSlug.error)))
      && (old(fs.IsReadable(path)) && plannedSlug.Success? && target.None? ==> r == Failure(NoDefaultStorage))
      && (r.Success? ==> old(fs.IsReadable(path)) && plannedSlug.Success? && target.Some?)
    }

    /** How the chosen backend ends the upload of `path` for a record whose
        file name is `name`: as `PathUploadOutcome` says for the local
        backend; another backend is modelled only by whether it accepts the
        upload, and writes nothing here. */
    twostate predicate PathBackendOutcome(fs: FileSystem, path: string, name: Option<string>, target: StorageService,
                                          new r: Result<Attachment, UploaderError>)
      reads fs
    {
      match target
      case Local(ls) =>
        var outcome := old(ls.PathUploadOutcome(fs, path, name));
        && (r.Success? <==> outcome.Pass?)
        && (r.Failure? ==> r.error == StorageFailed(outcome.error))
        && (r.Success? ==>
              && name.Some? && path in old(fs.files)
              && fs.files == old(fs.files)[ls.StoredPath(name.value) := old(fs.files[path])])
      case Foreign(f) =>
        && (r.Success? <==> f.acceptsUploads)
        && (r.Failure? ==> r.error == ForeignFailed)
        && unchanged(fs)
    }

    /** The record a successful upload returns, as a frame. */
    static function Record(r: Result<Attachment, UploaderError>): set<Attachment> {
      if r.Success? then {r.value} else {}
    }

    /** The outcome of `uploadFromPath(path, slug, extension, storage)`, given
        what the slug step yields (`PlannedSlug`) and the file system before
        and after: the checks of `PathChecks`, then the backend's outcome for
        the record's file name, and on success the record `PathRecord`
        describes. */
    twostate predicate PathUploaded(fs: FileSystem, path: string, plannedSlug: Result<Option<string>, SlugGeneratorError>,
                                    extension: Option<string>, storage: Option<StorageService>,
                                    new r: Result<Attachment, UploaderError>)
      reads fs, storageRegistry
      reads Record(r)`slug, Record(r)`extension, Record(r)`mimeType, Record(r)`fileSize, Record(r)`storageIdentifier
    {
      var target := old(PlannedStorage(storage));
      && PathChecks(fs, path, plannedSlug, target, r)
      && (old(fs.IsReadable(path)) && plannedSlug.Success? && target.Some? ==>
            PathBackendOutcome(fs, path, AttachmentFileName(plannedSlug.value, old(PlannedExtension(fs, path, extension))),
                               target.value, r))
      && (r.Success? ==>
            && plannedSlug.Success? && target.Some?
            && PathRecord(fs, path, plannedSlug.value, extension, target.value, r.value))
    }

    /** The last step of `uploadFromPath`: the chosen backend stores the record's file and the
        record is stamped with the backend's identifier. The outcome is the
        one `PathBackendOutcome` describes for the record's file name; the
        local backend re-reads size and content type from the copy, which
        leaves them those of the source, and another backend may stamp them
        as it sees fit. */
    method StoreFromPath(target: StorageService, fs: FileSystem, path: string, a: Attachment)
      returns (r: Result<Attachment, UploaderError>)
      modifies fs, a
      ensures PathBackendOutcome(fs, path, old(AttachmentFileName(a.slug, a.extension)), target, r)
      ensures r.Failure? ==> unchanged(fs, a)
      ensures r.Success? ==>
        && r.value == a
        && a.slug == old(a.slug) && a.extension == old(a.extension) && a.originalName == old(a.originalName)
        && a.storageIdentifier == Some(target.StorageIdentifier())
      ensures r.Success? && target.Local? ==> a.mimeType == Some(old(fs.MimeOfPath(path))) && a.fileSize == old(fs.SizeOf(path))
      ensures fs.dirs == old(fs.dirs) && fs.unreadable == old(fs.unreadable) && fs.unwritable == old(fs.unwritable)
    {
      match target {
        case Local(ls) =>
          var stored := ls.UploadAttachmentFromPath(fs, path, a);
          if stored.Fail? {
            return Failure(StorageFailed(stored.error));
          }
        case Foreign(f) =>
          var accepted := f.UploadAttachment(a);
          if !accepted {
            return Failure(ForeignFailed);
          }
      }
      a.storageIdentifier := Some(target.StorageIdentifier());
      r := Success(a);
    }

    /** The first step of `uploadFromPath`: the sniffed content type of the source, and the
        extension argument, else the path's, else the suggested one. */
    method SniffSource(fs: FileSystem, path: string, extension: Option<string>)
      returns (mimeType: string, resolvedExtension: Option<string>)
      ensures mimeType == fs.MimeOfPath(path)
      ensures resolvedExtension == PlannedExtension(fs, path, extension)
    {
      mimeType := fs.MimeOfPath(path);
      resolvedExtension := extension;
      if resolvedExtension.None? {
        var fromPath := PathExtension(path);
        resolvedExtension := if Empty(fromPath) then SuggestExtension(extensionTable, mimeType, None) else Some(fromPath);
      }
    }

    /** A new entity with the properties an upload sets before storing. */
    static method NewRecord(slug: Option<string>, mimeType: Option<string>, extension: Option<string>, fileSize: int)
      returns (a: Attachment)
      ensures fresh(a)
      ensures a.slug == slug && a.mimeType == mimeType && a.extension == extension && a.fileSize == fileSize
      ensures a.storageIdentifier == None && a.originalName == None
    {
      a := new Attachment();
      a.slug, a.mimeType, a.extension, a.fileSize := slug, mimeType, extension, fileSize;
    }

    /** `uploadFromPath`. */
    method UploadFromPath(fs: FileSystem, path: string, slug: Option<string>, extension: Option<string>,
                          storage: Option<StorageService>, random: Randomness)
      returns (r: Result<Attachment, UploaderError>)
      requires storageRegistry.Valid() && (slug.None? ==> SuitableRandomness(random))
      modifies fs
      ensures PathUploaded(fs, path, PlannedSlug(slug, random), extension, storage, r)
      ensures r.Success? ==> r.value.originalName == None
    {
      r := UploadPathWithSlug(fs, path, PlannedSlug(slug, random), extension, storage);
    }

    /** The body of `uploadFromPath`, given what the slug step yields. */
    method UploadPathWithSlug(fs: FileSystem, path: string, plannedSlug: Result<Option<string>, SlugGeneratorError>,
                              extension: Option<string>, storage: Option<StorageService>)
      returns (r: Result<Attachment, UploaderError>)
      requires storageRegistry.Valid()
      modifies fs
      ensures PathUploaded(fs, path, plannedSlug, extension, storage, r)
      ensures r.Success? ==> r.value.originalName == None
    {
      if !fs.Exists(path) {
        return Failure(SourceMissing);
      }
      if !fs.IsReadable(path) {
        return Failure(SourceUnreadable);
      }
      var mimeType, resolvedExtension := SniffSource(fs, path, extension);
      var target := ResolveStorage(storage);
      if plannedSlug.Failure? {
        return Failure(SlugFailed(plannedSlug.error));
      }
      var a := NewRecord(plannedSlug.value, Some(mimeType), resolvedExtension, fs.SizeOf(path));
      if target.Failure? {
        return Failure(target.error);
      }
      r := StoreFromPath(target.value, fs, path, a);
    }

    /** `uploadFromURL` as intended, with the downloaded file still in place
        when it is read: a download that fails ends the upload with the
        downloader's exception and writes nothing; otherwise the upload is
        `uploadFromPath` on the downloaded temporary path with the same
        arguments. */
    method UploadFromUrl(fs: FileSystem, url: string, slug: Option<string>, extension: Option<string>,
                         storage: Option<StorageService>, random: Randomness)
      returns (r: Result<Attachment, UploaderError>)
      requires storageRegistry.Valid() && (slug.None? ==> SuitableRandomness(random))
      modifies fs
      ensures downloader(url).Failure? ==> r == Failure(DownloadFailed(downloader(url).error)) && unchanged(fs)
      ensures downloader(url).Success? ==>
        PathUploaded(fs, downloader(url).value, PlannedSlug(slug, random), extension, storage, r)
      ensures r.Success? ==> r.value.originalName == None
    {
      var path := downloader(url);
      if path.Failure? {
        return Failure(DownloadFailed(path.error));
      }
      r := UploadFromPath(fs, path.value, slug, extension, storage, random);
    }

    /** `uploadFromURL` with the cURL downloader as written: the downloader
        returns the name of a `tmpfile()` whose handle is a local of the
        download, so PHP deletes the file when the download returns, before
        `uploadFromPath` checks that it exists. Unless the name happens to
        be a directory's, every successful download then ends the upload
        with `SourceMissing`. */
    method UploadFromUrlAsWritten(fs: FileSystem, url: string, slug: Option<string>, extension: Option<string>,
                                  storage: Option<StorageService>, random: Randomness)
      returns (r: Result<Attachment, UploaderError>)
      requires storageRegistry.Valid() && (slug.None? ==> SuitableRandomness(random))
      modifies fs
      ensures downloader(url).Failure? ==> r == Failure(DownloadFailed(downloader(url).error)) && unchanged(fs)
      ensures downloader(url).Success? && !old(fs.IsDir(downloader(url).value)) ==> r == Failure(SourceMissing)
      ensures downloader(url).Success? ==> fs.files == old(fs.files) - {downloader(url).value}
      ensures fs.dirs == old(fs.dirs) && fs.unreadable == old(fs.unreadable) && fs.unwritable == old(fs.unwritable)
    {
      var path := downloader(url);
      if path.Failure? {
        return Failure(DownloadFailed(path.error));
      }
      fs.ReleaseTemporary(path.value);
      r := UploadFromPath(fs, path.value, slug, extension, storage, random);
    }

    /** `setOriginalName` on a record: only its original name changes. */
    static method SetOriginalName(a: Attachment, name: string)
      modifies a`originalName
      ensures a.originalName == Some(name)
    {
      a.originalName := Some(name);
    }

    /** `uploadFromUploadedFile`: `uploadFromPath` on the file's real path
        (the empty path when there is none, which never exists), after which
        the record carries the client's original file name. */
    method UploadFromUploadedFile(fs: FileSystem, uploadedFile: UploadedFile, slug: Option<string>,
                                  extension: Option<string>, storage: Option<StorageService>, random: Randomness)
      returns (r: Result<Attachment, UploaderError>)
      requires storageRegistry.Valid() && (slug.None? ==> SuitableRandomness(random))
      modifies fs
      ensures PathUploaded(fs, uploadedFile.realPath.GetOr(""), PlannedSlug(slug, random), extension, storage, r)
      ensures uploadedFile.realPath.None? ==> r == Failure(SourceMissing)
      ensures r.Success? ==> r.value.originalName == Some(uploadedFile.clientOriginalName)
    {
      r := UploadFromPath(fs, uploadedFile.realPath.GetOr(""), slug, extension, storage, random);
      if r.Success? {
        SetOriginalName(r.value, uploadedFile.clientOriginalName);
      }
    }

    /** The record a successful `uploadFromBlob` returns: a new attachment
        with the planned slug, the extension argument as given and the chosen
        storage's identifier. The local backend leaves it with the blob's
        length as its size and the content type sniffed from the blob;
        another backend may stamp its own. */
    twostate predicate BlobRecord(fs: FileSystem, blob: seq<byte>, slug: Option<string>, extension: Option<string>,
                                  target: StorageService, new a: Attachment)
      reads a
    {
      && fresh(a)
      && a.slug == slug && a.extension == extension
      && (target.Local? ==> a.mimeType == Some(fs.mimeOf(blob)) && a.fileSize == |blob|)
      && a.storageIdentifier == Some(target.StorageIdentifier())
    }

    /** How the chosen backend ends the upload of a blob for a record whose
        file name is `name`: as `BlobUploadOutcome` says for the local
        backend, by whether it accepts uploads for another. */
    twostate predicate BlobBackendOutcome(fs: FileSystem, blob: seq<byte>, name: Option<string>, target: StorageService,
                                          new r: Result<Attachment, UploaderError>)
      reads fs
    {
      match target
      case Local(ls) =>
        var outcome := old(ls.BlobUploadOutcome(fs, name));
        && (r.Success? <==> outcome.Pass?)
        && (r.Failure? ==> r.error == StorageFailed(outcome.error))
        && (r.Success? ==> name.Some? && fs.files == old(fs.files)[ls.StoredPath(name.value) := blob])
      case Foreign(f) =>
        && (r.Success? <==> f.acceptsUploads)
        && (r.Failure? ==> r.error == ForeignFailed)
        && unchanged(fs)
    }

    /** The outcome of `uploadFromBlob(blob, slug, extension, storage)`, given
        what the slug step yields: the slug step fails first, then a missing
        default storage, then the backend; every failure writes nothing. */
    twostate predicate BlobUploaded(fs: FileSystem, blob: seq<byte>, plannedSlug: Result<Option<string>, SlugGeneratorError>,
                                    extension: Option<string>, storage: Option<StorageService>,
                                    new r: Result<Attachment, UploaderError>)
      reads fs, storageRegistry, if r.Success? then {r.value} else {}
    {
      var target := old(PlannedStorage(storage));
      && (r.Failure? ==> unchanged(fs))
      && fs.dirs == old(fs.dirs) && fs.unreadable == old(fs.unreadable) && fs.unwritable == old(fs.unwritable)
      && (plannedSlug.Failure? ==> r == Failure(SlugFailed(plannedSlug.error)))
      && (plannedSlug.Success? && target.None? ==> r == Failure(NoDefaultStorage))
      && (plannedSlug.Success? && target.Some? ==>
            BlobBackendOutcome(fs, blob, AttachmentFileName(plannedSlug.value, extension), target.value, r))
      && (r.Success? ==>
            && plannedSlug.Success? && target.Some?
            && BlobRecord(fs, blob, plannedSlug.value, extension, target.value, r.value))
    }

    /** The last step of `uploadFromBlob`: the chosen backend stores the blob and the record is
        stamped with the backend's identifier. */
    method StoreBlob(target: StorageService, fs: FileSystem, blob: seq<byte>, a: Attachment)
      returns (r: Result<Attachment, UploaderError>)
      modifies fs, a
      ensures BlobBackendOutcome(fs, blob, old(AttachmentFileName(a.slug, a.extension)), target, r)
      ensures r.Failure? ==> unchanged(fs, a)
      ensures r.Success? ==>
        && r.value == a
        && a.slug == old(a.slug) && a.extension == old(a.extension) && a.originalName == old(a.originalName)
        && a.storageIdentifier == Some(target.StorageIdentifier())
      ensures r.Success? && target.Local? ==> a.mimeType == Some(fs.mimeOf(blob)) && a.fileSize == |blob|
      ensures fs.dirs == old(fs.dirs) && fs.unreadable == old(fs.unreadable) && fs.unwritable == old(fs.unwritable)
    {
      match target {
        case Local(ls) =>
          var stored := ls.UploadAttachmentFromBlob(fs, blob, a);
          if stored.Fail? {
            return Failure(StorageFailed(stored.error));
          }
        case Foreign(f) =>
          var accepted := f.UploadAttachment(a);
          if !accepted {
            return Failure(ForeignFailed);
          }
      }
      a.storageIdentifier := Some(target.StorageIdentifier());
      r := Success(a);
    }

    /** `uploadFromBlob`. */
    method UploadFromBlob(fs: FileSystem, blob: seq<byte>, slug: Option<string>, extension: Option<string>,
                          storage: Option<StorageService>, random: Randomness)
      returns (r: Result<Attachment, UploaderError>)
      requires storageRegistry.Valid() && (slug.None? ==> SuitableRandomness(random))
      modifies fs
      ensures BlobUploaded(fs, blob, PlannedSlug(slug, random), extension, storage, r)
      ensures r.Success? ==> r.value.storageIdentifier == Some(old(PlannedStorage(storage)).value.StorageIdentifier())
      ensures r.Success? ==> r.value.originalName == None
    {
      r := UploadBlobWithSlug(fs, blob, PlannedSlug(slug, random), extension, storage);
    }

    /** The body of `uploadFromBlob`, given what the slug step yields. */
    method UploadBlobWithSlug(fs: FileSystem, blob: seq<byte>, plannedSlug: Result<Option<string>, SlugGeneratorError>,
                              extension: Option<string>, storage: Option<StorageService>)
      returns (r: Result<Attachment, UploaderError>)
      requires storageRegistry.Valid()
      modifies fs
      ensures BlobUploaded(fs, blob, plannedSlug, extension, storage, r)
      ensures r.Success? ==> r.value.storageIdentifier == Some(old(PlannedStorage(storage)).value.StorageIdentifier())
      ensures r.Success? ==> r.value.originalName == None
    {
      var target := ResolveStorage(storage);
      if plannedSlug.Failure? {
        return Failure(SlugFailed(plannedSlug.error));
      }
      var a := NewRecord(plannedSlug.value, None, extension, |blob|);
      if target.Failure? {
        return Failure(target.error);
      }
      r := StoreBlob(target.value, fs, blob, a);
    }

    /** `getStorageOfAttachment`: the registry's lookup of the record's
        storage identifier (a null one reads as the key ""), with the
        not-found check the registry's message states; the source's own
        null test can never fire, a lookup returning an object or throwing. */
    method GetStorageOfAttachment(a: Attachment) returns (r: Result<StorageService, UploaderError>)
      requires storageRegistry.Valid()
      ensures var key := a.storageIdentifier.GetOr("");
        && (r.Success? <==> key in storageRegistry.byIdentifier)
        && (r.Success? ==> r.value == storageRegistry.byIdentifier[key] && r.value.StorageIdentifier() == key)
        && (r.Failure? ==> r.error == LookupFailed(NotFound(key)))
    {
      var found := storageRegistry.GetStorageByIdentifier(a.storageIdentifier.GetOr(""));
      if found.Failure? {
        return Failure(LookupFailed(found.error));
      }
      r := Success(found.value);
    }

    /** With the null generator and no slug argument the record keeps a null
        slug, which the local backend refuses before copying anything. */
    method NullSlugLocalUpload(fs: FileSystem, path: string, extension: Option<string>, ls: LocalStorage)
      returns (r: Result<Attachment, UploaderError>)
      requires storageRegistry.Valid() && slugGenerator.NullSlugGenerator?
      requires fs.IsReadable(path) && ls.IsStorageAvailable(fs)
      modifies fs
      ensures r == Failure(StorageFailed(MissingSlug)) && unchanged(fs)
    {
      assert Trim("") == "";
      r := UploadFromPath(fs, path, None, extension, Some(Local(ls)), Randomness({}, []));
    }
  }
}
