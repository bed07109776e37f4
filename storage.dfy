/** The storage services: the local-filesystem backend (`LocalStorage`), the
    backends of other classes a registry may hold, and the filename rule every
    local operation is built on. */
module Storage {
  import opened Wrappers
  import opened PhpStrings
  import opened FileSystems
  import opened Entity

  /** `get_class()` of the local backend. */
  const LocalStorageClass := "Pfcode\\AttachmentStorage\\Storage\\LocalStorage"

  /** What `LocalStorage::getStorageIdentifier()` returns. */
  const LocalIdentifier := "local"

  /** The reasons a `StorageException` is thrown, one per message. */
  datatype StorageError =
    | Unavailable   // "This storage is not currently available."
    | MissingSlug   // "Cannot upload an Attachment without having slug set first."
    | NotStored     // "This storage does not store this attachment."
    | CopyFailed    // "Failed to copy a file."
    | SaveFailed    // "Failed to save a file."

  /** A path or URL after `rtrim($x, '/')`. */
  type Normalized = s: string | s == [] || s[|s| - 1] != '/'

  /** `getAttachmentFileName`: trim slug and extension (a null one reads as
      ""); an empty slug ("" or "0") gives no name, an empty extension gives
      the slug alone, otherwise `slug.extension`. */
  function AttachmentFileName(slug: Option<string>, extension: Option<string>): (r: Option<string>)
    ensures r.None? <==> Empty(Trim(slug.GetOr("")))
    ensures r.Some? ==> Trim(slug.GetOr("")) <= r.value
    ensures r.Some? ==> !Empty(r.value) && Trim(r.value) == r.value
  {
    var ext := Trim(extension.GetOr(""));
    var name := Trim(slug.GetOr(""));
    if Empty(name) then None
    else if Empty(ext) then
      TrimFixesTrimmed(name);
      Some(name)
    else
      var full := name + "." + ext;
      assert full[0] == name[0] && full[|full| - 1] == ext[|ext| - 1];
      TrimFixesTrimmed(full);
      Some(full)
  }

  /** The three shapes of a filename, for parts that are already trimmed; an
      extension of "0" counts as empty and is dropped. */
  lemma FileNameOfTrimmedParts(slug: string, ext: string)
    requires Trim(slug) == slug && Trim(ext) == ext
    ensures Empty(slug) ==> AttachmentFileName(Some(slug), Some(ext)) == None
    ensures !Empty(slug) && Empty(ext) ==> AttachmentFileName(Some(slug), Some(ext)) == Some(slug)
    ensures !Empty(slug) && !Empty(ext) ==> AttachmentFileName(Some(slug), Some(ext)) == Some(slug + "." + ext)
    ensures AttachmentFileName(Some(slug), None) == AttachmentFileName(Some(slug), Some(""))
  {
    assert Trim("") == "";
  }

  /** The name depends on the parts only through their trimmed forms. */
  lemma FileNameOfTrimmedArguments(slug: Option<string>, extension: Option<string>)
    ensures AttachmentFileName(slug, extension)
         == AttachmentFileName(Some(Trim(slug.GetOr(""))), Some(Trim(extension.GetOr(""))))
  {
    TrimIdempotent(slug.GetOr(""));
    TrimIdempotent(extension.GetOr(""));
  }

  /** Whitespace and NUL characters around either part do not change the
      name. */
  lemma FileNameIgnoresSurroundingWhitespace(slug: string, ext: string, p: string, q: string, p2: string, q2: string)
    requires Stripped(p) && Stripped(q) && Stripped(p2) && Stripped(q2)
    ensures AttachmentFileName(Some(p + slug + q), Some(p2 + ext + q2))
         == AttachmentFileName(Some(slug), Some(ext))
  {
    TrimSurrounded(p, slug, q);
    TrimSurrounded(p2, ext, q2);
  }

  /** A slash appended to a trimmed path is the only slash `rtrim` removes. */
  lemma SlashAppendedTrimsBack(s: Normalized)
    ensures TrimRight(s + "/", {'/'}) == s
  {
    var t := s + "/";
    assert t[..|t| - 1] == s;
  }

  /** The local filesystem backend. Its base directory and base URL are
      stored without trailing slashes. */
  class LocalStorage {
    const absolutePath: Normalized
    const baseUrl: Normalized

    constructor (absolutePath: string, baseUrl: string)
      ensures this.absolutePath == TrimRight(absolutePath, {'/'})
      ensures this.baseUrl == TrimRight(baseUrl, {'/'})
    {
      this.absolutePath := TrimRight(absolutePath, {'/'});
      this.baseUrl := TrimRight(baseUrl, {'/'});
    }

    function FileNameOf(a: Attachment): (r: Option<string>)
      reads a
    {
      AttachmentFileName(a.slug, a.extension)
    }

    /** Where a file of the given name is kept. */
    function StoredPath(fileName: string): (r: string) {
      absolutePath + "/" + fileName
    }

    /** `isStorageAvailable`: the base directory exists, is a directory, and is
        readable and writable. Since the base path carries no trailing slash,
        this is membership of that exact spelling; a backend rooted at "/" is
        never available, its base path having been trimmed to "". */
    predicate IsStorageAvailable(fs: FileSystem)
      reads fs
      ensures IsStorageAvailable(fs) <==>
        absolutePath != "" && absolutePath in fs.dirs &&
        absolutePath !in fs.unreadable && absolutePath !in fs.unwritable
    {
      fs.Exists(absolutePath) && fs.IsDir(absolutePath) &&
      fs.IsReadable(absolutePath) && fs.IsWritable(absolutePath)
    }

    /** `hasAttachment`: existence of the derived path. Without a filename the
        path is the base directory followed by a slash, so the answer is then
        whether the base directory exists. */
    predicate HasAttachment(fs: FileSystem, a: Attachment)
      reads fs, a
      ensures FileNameOf(a).Some? ==> (HasAttachment(fs, a) <==> fs.Exists(StoredPath(FileNameOf(a).value)))
      ensures FileNameOf(a).None? && absolutePath in fs.dirs ==> HasAttachment(fs, a)
    {
      var path := absolutePath + "/" + FileNameOf(a).GetOr("");
      if FileNameOf(a).None? then
        assert path == absolutePath + "/" && path[|path| - 1] == '/';
        SlashAppendedTrimsBack(absolutePath);
        fs.Exists(path)
      else
        fs.Exists(path)
    }

    /** `getUrlOfAttachment`: no URL without a filename, otherwise the file's
        name under the base URL, joined by exactly one slash. */
    function GetUrlOfAttachment(a: Attachment): (r: Option<string>)
      reads a
      ensures r.None? <==> FileNameOf(a).None?
      ensures r.Some? ==> r.value == baseUrl + "/" + FileNameOf(a).value
      ensures r.Some? ==> |r.value| > |baseUrl| + 1 && r.value[|baseUrl|] == '/'
    {
      match FileNameOf(a)
      case None => None
      case Some(name) => Some(baseUrl + "/" + name)
    }

    /** A record whose file is in place is present, and is located under
        the base URL by its file name. */
    lemma StoredIsLocated(fs: FileSystem, a: Attachment, name: string)
      requires FileNameOf(a) == Some(name) && StoredPath(name) in fs.files
      ensures HasAttachment(fs, a)
      ensures GetUrlOfAttachment(a) == Some(baseUrl + "/" + name)
    {
    }

    /** The record after `updateAttachmentInfo($dest, $attachment)`: size and
        content type of the file at `dest` and the identifier "local"; its
        other properties as before. */
    twostate predicate StampedFrom(fs: FileSystem, dest: string, a: Attachment)
      reads fs, a
    {
      && dest in fs.files
      && a.fileSize == |fs.files[dest]|
      && a.mimeType == Some(fs.mimeOf(fs.files[dest]))
      && a.storageIdentifier == Some(LocalIdentifier)
      && a.slug == old(a.slug) && a.extension == old(a.extension)
      && a.originalName == old(a.originalName)
    }

    method UpdateAttachmentInfo(fs: FileSystem, dest: string, a: Attachment)
      requires dest in fs.files
      modifies a
      ensures StampedFrom(fs, dest, a)
    {
      a.fileSize := fs.SizeOf(dest);
      a.mimeType := Some(fs.MimeOfPath(dest));
      a.storageIdentifier := Some(LocalIdentifier);
    }

    /** How `uploadAttachmentFromPath` ends for a record whose filename is
        `name`: an unavailable storage, then a missing filename, then a copy
        that fails. */
    function PathUploadOutcome(fs: FileSystem, path: string, name: Option<string>): (r: Outcome<StorageError>)
      reads fs
      ensures r.Pass? <==> IsStorageAvailable(fs) && name.Some? && fs.CanCopy(path, StoredPath(name.value))
      ensures r == Fail(Unavailable) <==> !IsStorageAvailable(fs)
      ensures r == Fail(MissingSlug) <==> IsStorageAvailable(fs) && name.None?
      ensures r.Fail? ==> r.error == Unavailable || r.error == MissingSlug || r.error == CopyFailed
    {
      if !IsStorageAvailable(fs) then Fail(Unavailable)
      else if name.None? then Fail(MissingSlug)
      else if fs.CanCopy(path, StoredPath(name.value)) then Pass
      else Fail(CopyFailed)
    }

    /** `uploadAttachmentFromPath`: ends as `PathUploadOutcome` says for the
        record's filename; a failure writes nothing, and a success replaces
        whatever the stored path held by the source bytes, changes no other
        path and stamps the record from the written file. */
    method UploadAttachmentFromPath(fs: FileSystem, path: string, a: Attachment)
      returns (r: Outcome<StorageError>)
      modifies fs, a
      ensures r == old(PathUploadOutcome(fs, path, FileNameOf(a)))
      ensures r.Fail? ==> unchanged(fs, a)
      ensures r.Pass? ==>
        && old(FileNameOf(a)).Some? && path in old(fs.files)
        && fs.files == old(fs.files)[StoredPath(old(FileNameOf(a)).value) := old(fs.files[path])]
        && StampedFrom(fs, StoredPath(old(FileNameOf(a)).value), a)
      ensures r.Pass? ==> FileNameOf(a) == old(FileNameOf(a))
      ensures fs.dirs == old(fs.dirs) && fs.unreadable == old(fs.unreadable) && fs.unwritable == old(fs.unwritable)
    {
      if !IsStorageAvailable(fs) {
        return Fail(Unavailable);
      }
      var fileName := FileNameOf(a);
      if fileName.None? {
        return Fail(MissingSlug);
      }
      var destinationPath := StoredPath(fileName.value);
      var copied := fs.Copy(path, destinationPath);
      if !copied {
        return Fail(CopyFailed);
      }
      UpdateAttachmentInfo(fs, destinationPath, a);
      r := Pass;
    }

    /** How `uploadAttachmentFromBlob` ends for a record whose filename is
        `name`: the same checks in the same order, with a write that fails
        reported as a failed save. */
    function BlobUploadOutcome(fs: FileSystem, name: Option<string>): (r: Outcome<StorageError>)
      reads fs
      ensures r.Pass? <==> IsStorageAvailable(fs) && name.Some? && fs.CanWriteFile(StoredPath(name.value))
      ensures r == Fail(Unavailable) <==> !IsStorageAvailable(fs)
      ensures r == Fail(MissingSlug) <==> IsStorageAvailable(fs) && name.None?
      ensures r.Fail? ==> r.error == Unavailable || r.error == MissingSlug || r.error == SaveFailed
    {
      if !IsStorageAvailable(fs) then Fail(Unavailable)
      else if name.None? then Fail(MissingSlug)
      else if fs.CanWriteFile(StoredPath(name.value)) then Pass
      else Fail(SaveFailed)
    }

    /** `uploadAttachmentFromBlob`: ends as `BlobUploadOutcome` says; on
        success the stored path holds exactly the blob and the record's size
        and content type are the blob's. */
    method UploadAttachmentFromBlob(fs: FileSystem, blob: seq<byte>, a: Attachment)
      returns (r: Outcome<StorageError>)
      modifies fs, a
      ensures r == old(BlobUploadOutcome(fs, FileNameOf(a)))
      ensures r.Fail? ==> unchanged(fs, a)
      ensures r.Pass? ==>
        && old(FileNameOf(a)).Some?
        && fs.files == old(fs.files)[StoredPath(old(FileNameOf(a)).value) := blob]
        && StampedFrom(fs, StoredPath(old(FileNameOf(a)).value), a)
        && a.fileSize == |blob| && a.mimeType == Some(fs.mimeOf(blob))
      ensures r.Pass? ==> FileNameOf(a) == old(FileNameOf(a))
      ensures fs.dirs == old(fs.dirs) && fs.unreadable == old(fs.unreadable) && fs.unwritable == old(fs.unwritable)
    {
      if !IsStorageAvailable(fs) {
        return Fail(Unavailable);
      }
      var fileName := FileNameOf(a);
      if fileName.None? {
        return Fail(MissingSlug);
      }
      var destinationPath := StoredPath(fileName.value);
      var saved := fs.Put(destinationPath, blob);
      if !saved {
        return Fail(SaveFailed);
      }
      UpdateAttachmentInfo(fs, destinationPath, a);
      r := Pass;
    }

    /** Where `downloadAttachmentToLocal` writes: inside `path` when it is a
        directory, otherwise `path` itself. */
    function DownloadDestination(fs: FileSystem, path: string, fileName: string): (r: string)
      reads fs
    {
      if fs.IsDir(path) then path + "/" + fileName else path
    }

    /** The copy `downloadAttachmentToLocal` attempts, as the stored path and
        the destination, or the error that stops it first: an unavailable
        storage, then an attachment that is not present, then a missing
        filename. */
    function DownloadCopy(fs: FileSystem, a: Attachment, path: string): (r: Result<(string, string), StorageError>)
      reads fs, a
      ensures r.Success? <==> IsStorageAvailable(fs) && HasAttachment(fs, a) && FileNameOf(a).Some?
      ensures r.Success? ==> r.value == (StoredPath(FileNameOf(a).value), DownloadDestination(fs, path, FileNameOf(a).value))
      ensures r.Failure? && !IsStorageAvailable(fs) ==> r.error == Unavailable
      ensures r.Failure? && IsStorageAvailable(fs) && !HasAttachment(fs, a) ==> r.error == NotStored
      ensures r.Failure? && IsStorageAvailable(fs) && HasAttachment(fs, a) ==> r.error == MissingSlug
    {
      if !IsStorageAvailable(fs) then Failure(Unavailable)
      else if !HasAttachment(fs, a) then Failure(NotStored)
      else match FileNameOf(a)
        case None => Failure(MissingSlug)
        case Some(name) => Success((StoredPath(name), DownloadDestination(fs, path, name)))
    }

    /** `downloadAttachmentToLocal`: fails with the first error of
        `DownloadCopy`, writing nothing, and otherwise when the copy fails;
        on success the destination receives exactly the stored bytes and no
        other path changes. */
    method DownloadAttachmentToLocal(fs: FileSystem, a: Attachment, path: string)
      returns (r: Outcome<StorageError>)
      modifies fs
      ensures old(DownloadCopy(fs, a, path)).Failure? ==> r == Fail(old(DownloadCopy(fs, a, path)).error)
      ensures old(DownloadCopy(fs, a, path)).Success? ==>
        r == if old(fs.CanCopy(DownloadCopy(fs, a, path).value.0, DownloadCopy(fs, a, path).value.1)) then Pass else Fail(SaveFailed)
      ensures r.Fail? ==> unchanged(fs)
      ensures r.Pass? ==>
        var copy := old(DownloadCopy(fs, a, path));
        && copy.Success? && old(fs.CanCopy(copy.value.0, copy.value.1))
        && fs.files == old(fs.files)[copy.value.1 := old(fs.files)[copy.value.0]]
      ensures fs.dirs == old(fs.dirs) && fs.unreadable == old(fs.unreadable) && fs.unwritable == old(fs.unwritable)
    {
      if !IsStorageAvailable(fs) {
        return Fail(Unavailable);
      }
      if !HasAttachment(fs, a) {
        return Fail(NotStored);
      }
      var fileName := FileNameOf(a);
      if fileName.None? {
        return Fail(MissingSlug);
      }
      var sourcePath := StoredPath(fileName.value);
      var destinationPath := DownloadDestination(fs, path, fileName.value);
      ghost var before := fs.files;
      var copied := fs.Copy(sourcePath, destinationPath);
      if !copied {
        return Fail(SaveFailed);
      }
      assert sourcePath != destinationPath && fs.files == before[destinationPath := before[sourcePath]];
      r := Pass;
    }

    /** `removeAttachment`: without a filename, or when nothing exists at the
        stored path, nothing happens; otherwise only the stored file is
        deleted (an unlink that fails, as on a directory, is ignored). */
    method RemoveAttachment(fs: FileSystem, a: Attachment)
      modifies fs
      ensures fs.files ==
        if FileNameOf(a).Some? && StoredPath(FileNameOf(a).value) in old(fs.files)
           && StoredPath(FileNameOf(a).value) !in fs.unwritable
        then old(fs.files) - {StoredPath(FileNameOf(a).value)}
        else old(fs.files)
      ensures fs.dirs == old(fs.dirs) && fs.unreadable == old(fs.unreadable) && fs.unwritable == old(fs.unwritable)
    {
      var fileName := FileNameOf(a);
      if fileName.Some? && HasAttachment(fs, a) {
        fs.Unlink(StoredPath(fileName.value));
      }
    }
  }

  /** A backend of another class. Its code is not part of this model, so the
      class name it reports, its identifier and whether it accepts uploads are
      fixed when it is created. */
  class ForeignStorage {
    const className: string
    const identifier: string
    const acceptsUploads: bool

    constructor (className: string, identifier: string, acceptsUploads: bool)
      requires className != LocalStorageClass
      ensures this.className == className && this.identifier == identifier
      ensures this.acceptsUploads == acceptsUploads
    {
      this.className, this.identifier := className, identifier;
      this.acceptsUploads := acceptsUploads;
    }

    /** `uploadAttachmentFromPath` and `uploadAttachmentFromBlob` of this
        backend: it accepts the upload exactly when the backend accepts uploads.
        Such a backend may stamp the record's size, content type and
        identifier as it sees fit, so the contract leaves their new values
        open and promises only that no other property of the record changes,
        and that a refused upload changes nothing. */
    method UploadAttachment(a: Attachment) returns (accepted: bool)
      modifies a`mimeType, a`fileSize, a`storageIdentifier
      ensures accepted == acceptsUploads
      ensures !accepted ==> unchanged(a)
    {
      accepted := acceptsUploads;
    }
  }

  /** An object implementing `StorageInterface`. */
  datatype StorageService = Local(local: LocalStorage) | Foreign(foreign: ForeignStorage) {
    /** `get_class($storage)`. */
    function ClassName(): (r: string)
      ensures this.Local? ==> r == LocalStorageClass
      ensures this.Foreign? ==> r == foreign.className
    {
      match this
      case Local(_) => LocalStorageClass
      case Foreign(f) => f.className
    }

    /** `$storage->getStorageIdentifier()`. */
    function StorageIdentifier(): (r: string)
      ensures this.Local? ==> r == LocalIdentifier
      ensures this.Foreign? ==> r == foreign.identifier
    {
      match this
      case Local(_) => LocalIdentifier
      case Foreign(f) => f.identifier
    }
  }

  /** Uploading a blob and then downloading the attachment to a path that is
      not a directory (and not the stored file itself) hands back exactly the
      uploaded bytes, and the stored copy is unchanged. */
  method UploadThenDownload(storage: LocalStorage, fs: FileSystem, blob: seq<byte>, a: Attachment, dst: string)
    returns (up: Outcome<StorageError>, down: Outcome<StorageError>)
    requires fs.CanWriteFile(dst)
    requires storage.FileNameOf(a).Some? ==>
      dst != storage.StoredPath(storage.FileNameOf(a).value) &&
      storage.StoredPath(storage.FileNameOf(a).value) !in fs.unreadable
    modifies fs, a
    ensures up == Pass ==> storage.FileNameOf(a).Some?
    ensures up == Pass ==> down == Pass && dst in fs.files && fs.files[dst] == blob
    ensures up == Pass ==>
      var stored := storage.StoredPath(storage.FileNameOf(a).value);
      stored in fs.files && fs.files[stored] == blob
  {
    var name := storage.FileNameOf(a);
    up := storage.UploadAttachmentFromBlob(fs, blob, a);
    if up == Pass {
      assert storage.IsStorageAvailable(fs) && fs.CanWriteFile(dst);
      down := DownloadUploaded(storage, fs, blob, a, name.value, dst);
    } else {
      down := Fail(NotStored);
    }
  }

  /** A blob uploaded under a record whose file name is `name` is present
      in the storage, is located under the base URL by that name, and the
      record holds the blob's size (`FileNameOfTrimmedParts` gives `name` as
      `slug.ext` for trimmed parts). */
  method UploadBlobIsLocated(storage: LocalStorage, fs: FileSystem, blob: seq<byte>, a: Attachment, name: string)
    returns (up: Outcome<StorageError>)
    requires storage.FileNameOf(a) == Some(name)
    requires storage.IsStorageAvailable(fs) && fs.CanWriteFile(storage.StoredPath(name))
    modifies fs, a
    ensures up == Pass && a.fileSize == |blob| && a.storageIdentifier == Some(LocalIdentifier)
    ensures storage.StoredPath(name) in fs.files && fs.files[storage.StoredPath(name)] == blob
    ensures storage.HasAttachment(fs, a)
    ensures storage.GetUrlOfAttachment(a) == Some(storage.baseUrl + "/" + name)
  {
    up := storage.UploadAttachmentFromBlob(fs, blob, a);
    storage.StoredIsLocated(fs, a, name);
  }

  /** The second half of `UploadThenDownload`: the stored file `name`
      holds the blob, so the download copies it to `dst` and leaves it in
      place. */
  method DownloadUploaded(storage: LocalStorage, fs: FileSystem, blob: seq<byte>, a: Attachment, name: string, dst: string)
    returns (down: Outcome<StorageError>)
    requires storage.IsStorageAvailable(fs) && fs.CanWriteFile(dst)
    requires storage.FileNameOf(a) == Some(name)
    requires storage.StoredPath(name) in fs.files && fs.files[storage.StoredPath(name)] == blob
    requires storage.StoredPath(name) !in fs.unreadable && dst != storage.StoredPath(name)
    modifies fs
    ensures down == Pass && dst in fs.files && fs.files[dst] == blob
    ensures storage.StoredPath(name) in fs.files && fs.files[storage.StoredPath(name)] == blob
  {
    assert storage.HasAttachment(fs, a);
    assert storage.DownloadDestination(fs, dst, name) == dst;
    ghost var uploaded := fs.files;
    down := storage.DownloadAttachmentToLocal(fs, a, dst);
    assert fs.files == uploaded[dst := blob];
  }
}
