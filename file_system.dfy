/** The part of the operating system the library touches: regular files and
    their bytes, directories, permissions, and the content sniffing behind
    `mime_content_type`. Paths are compared as spelled; `..`, symbolic links
    and repeated slashes are not resolved. */
module FileSystems {
  import opened PhpStrings

  newtype byte = x: int | 0 <= x < 256

  class FileSystem {
    /** Regular files and their contents. */
    var files: map<string, seq<byte>>
    /** Directories, spelled without a trailing slash (the root is "/"). */
    var dirs: set<string>
    /** Paths `is_readable` reports false for; `copy` refuses to read them. */
    var unreadable: set<string>
    /** Paths `is_writable` reports false for, and paths the operating system
        refuses to create, overwrite or delete (permissions, a full disk, a
        missing parent directory). */
    var unwritable: set<string>
    /** The content type `mime_content_type` reports for a file's bytes. */
    const mimeOf: seq<byte> -> string

    constructor (files: map<string, seq<byte>>, dirs: set<string>,
                 unreadable: set<string>, unwritable: set<string>,
                 mimeOf: seq<byte> -> string)
      ensures this.files == files && this.dirs == dirs
      ensures this.unreadable == unreadable && this.unwritable == unwritable
      ensures this.mimeOf == mimeOf
    {
      this.files, this.dirs := files, dirs;
      this.unreadable, this.unwritable := unreadable, unwritable;
      this.mimeOf := mimeOf;
    }

    /** No path is both a regular file and a directory. The constructor
        does not demand it; every operation that writes keeps it. */
    predicate Disjoint()
      reads this
    {
      files.Keys !! dirs
    }

    /** `is_dir($p)`: a directory's spelling, possibly followed by slashes. */
    predicate IsDir(p: string)
      reads this
    {
      p != "" && (p in dirs || (p[|p| - 1] == '/' && TrimRight(p, {'/'}) in dirs))
    }

    /** `file_exists($p)`; the empty path names nothing. */
    predicate Exists(p: string)
      reads this
    {
      p != "" && (p in files || IsDir(p))
    }

    /** `is_readable($p)`. */
    predicate IsReadable(p: string)
      reads this
    {
      Exists(p) && p !in unreadable
    }

    /** `is_writable($p)`. */
    predicate IsWritable(p: string)
      reads this
    {
      Exists(p) && p !in unwritable
    }

    /** Whether a regular file can be written at `p`: not a directory, not a
        spelling that ends in a slash, and not refused by the system. */
    predicate CanWriteFile(p: string)
      reads this
    {
      p != "" && p[|p| - 1] != '/' && !IsDir(p) && p !in unwritable
    }

    /** Whether `copy($src, $dst)` succeeds: PHP refuses a directory on either
        side and a copy of a file onto itself. */
    predicate CanCopy(src: string, dst: string)
      reads this
    {
      src in files && src !in unreadable && src != dst && CanWriteFile(dst)
    }

    /** `filesize($p)`; a directory's size is not modelled and reads as 0. */
    function SizeOf(p: string): (r: nat)
      reads this
      ensures p in files ==> r == |files[p]|
    {
      if p in files then |files[p]| else 0
    }

    /** `mime_content_type($p)`: libmagic reports "directory" for a directory. */
    function MimeOfPath(p: string): (r: string)
      reads this
      ensures p in files ==> r == mimeOf(files[p])
    {
      if p in files then mimeOf(files[p]) else "directory"
    }

    /** `copy($src, $dst) !== false`. */
    method Copy(src: string, dst: string) returns (ok: bool)
      modifies this
      ensures ok == old(CanCopy(src, dst))
      ensures !ok ==> unchanged(this)
      ensures files == if ok then old(files)[dst := old(files)[src]] else old(files)
      ensures dirs == old(dirs) && unreadable == old(unreadable) && unwritable == old(unwritable)
      ensures old(Disjoint()) ==> Disjoint()
    {
      ok := CanCopy(src, dst);
      if ok {
        files := files[dst := files[src]];
      }
    }

    /** `file_put_contents($dst, $data) !== false`. */
    method Put(dst: string, data: seq<byte>) returns (ok: bool)
      modifies this
      ensures ok == old(CanWriteFile(dst))
      ensures !ok ==> unchanged(this)
      ensures files == if ok then old(files)[dst := data] else old(files)
      ensures dirs == old(dirs) && unreadable == old(unreadable) && unwritable == old(unwritable)
      ensures old(Disjoint()) ==> Disjoint()
    {
      ok := CanWriteFile(dst);
      if ok {
        files := files[dst := data];
      }
    }

    /** `unlink($p)`, whose failure the library ignores. */
    method Unlink(p: string)
      modifies this
      ensures files == if p in old(files) && p !in unwritable then old(files) - {p} else old(files)
      ensures dirs == old(dirs) && unreadable == old(unreadable) && unwritable == old(unwritable)
      ensures old(Disjoint()) ==> Disjoint()
    {
      if p in files && p !in unwritable {
        files := files - {p};
      }
    }

    /** The end of a file made by `tmpfile()`: PHP deletes it once the
        last reference to its handle is gone, whatever its permissions. */
    method ReleaseTemporary(p: string)
      modifies this
      ensures files == old(files) - {p}
      ensures dirs == old(dirs) && unreadable == old(unreadable) && unwritable == old(unwritable)
      ensures old(Disjoint()) ==> Disjoint()
    {
      files := files - {p};
    }
  }
}
