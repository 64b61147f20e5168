/** The upload store: stored names built from a fresh UUID plus the original
    name's extension, a save that creates the directory and copies the bytes,
    and a best-effort delete. The disk is a map from path to bytes. */
module FileStorage {
  import opened Common

  type Bytes = seq<bv8>

  /** A multipart upload: the client's file name (may be null) and the bytes. */
  datatype Upload = Upload(originalName: Option<string>, bytes: Bytes)
  {
    /** `file.isEmpty()`: no bytes were sent. */
    predicate IsEmpty() {
      |bytes| == 0
    }

    function Size(): nat {
      |bytes|
    }
  }

  /** `file != null && !file.isEmpty()`. */
  predicate HasContent(file: Option<Upload>) {
    file.Some? && !file.value.IsEmpty()
  }

  /** What a successful save reports: the resolved path, the original name as
      given and the upload's size. */
  datatype FileInfo = FileInfo(path: string, originalName: Option<string>, size: int)

  /** Which step of a save throws `IOException`, if any: creating the missing
      directory; opening the upload's stream, before the target is touched;
      creating the target, after `REPLACE_EXISTING` removed any file there; or
      writing, once `written` bytes have reached the target. */
  datatype SaveFault = NoFault | DirectoryFails | OpenFails | CreateFails | WriteFails(written: nat)

  datatype StorageError = SaveFailed

  /** One call made on the store, in the order the calls were made. */
  datatype StoreCall = DeleteCall(path: string) | SaveCall(path: string)

  /** `s.lastIndexOf(c)`: the last position of `c`, or -1. */
  function LastIndexOf(s: string, c: char): (i: int)
    ensures -1 <= i < |s|
    ensures i >= 0 ==> s[i] == c && c !in s[i + 1..]
    ensures i == -1 ==> c !in s
  {
    if s == [] then -1
    else if s[|s| - 1] == c then |s| - 1
    else LastIndexOf(s[..|s| - 1], c)
  }

  /** The extension cut from the original name: from its last `.` to the end,
      or empty when the name is null or has no `.`. */
  function Extension(name: Option<string>): (ext: string)
    ensures name.None? ==> ext == ""
    ensures name.Some? ==> |ext| <= |name.value| && ext == name.value[|name.value| - |ext|..]
    ensures name.Some? ==> ('.' in name.value <==> ext != "")
    ensures ext != "" ==> ext[0] == '.' && '.' !in ext[1..]
  {
    if name.None? || '.' !in name.value then ""
    else name.value[LastIndexOf(name.value, '.')..]
  }

  /** The stored file name: a fresh UUID followed by the extension. */
  function StoredName(uuid: string, name: Option<string>): (s: string)
    ensures |s| == |uuid| + |Extension(name)|
    ensures s[..|uuid|] == uuid && s[|uuid|..] == Extension(name)
  {
    uuid + Extension(name)
  }

  predicate ContainsDotDot(s: string) {
    exists i :: 0 <= i < |s| - 1 && s[i] == '.' && s[i + 1] == '.'
  }

  /** A stored name has at most one `.`, so never `..`, and begins with the UUID. */
  lemma StoredNameIsSafe(uuid: string, name: Option<string>)
    requires IsUuid(uuid)
    ensures var s := StoredName(uuid, name);
            && s[..36] == uuid
            && (forall i, j :: 0 <= i < j < |s| && s[i] == '.' ==> s[j] != '.')
            && !ContainsDotDot(s)
  {
    var s := StoredName(uuid, name);
    var ext := Extension(name);
    assert s == uuid + ext;
    forall i, j | 0 <= i < j < |s| && s[i] == '.'
      ensures s[j] != '.'
    {
      assert i >= 36 && s[i] == ext[i - 36];
      assert s[j] == ext[1..][j - 37];
    }
  }

  /** The base part of the original name never reaches the stored name: two
      names with the same extension give the same stored name. */
  lemma StoredNameIgnoresBase(uuid: string, base1: string, base2: string, ext: string)
    requires |ext| > 0 && ext[0] == '.' && '.' !in ext[1..]
    ensures StoredName(uuid, Some(base1 + ext)) == StoredName(uuid, Some(base2 + ext))
  {
    ExtensionOfSuffix(base1, ext);
    ExtensionOfSuffix(base2, ext);
  }

  lemma ExtensionOfSuffix(base: string, ext: string)
    requires |ext| > 0 && ext[0] == '.' && '.' !in ext[1..]
    ensures Extension(Some(base + ext)) == ext
  {
    var n := base + ext;
    assert n[|base|] == '.';
    assert LastIndexOf(n, '.') == |base|;
    assert n[|base|..] == ext;
  }

  /** The directory of a sub-store: `Paths.get(uploadDir, subDir)`. */
  function DirectoryOf(root: string, subDir: string): string {
    root + "/" + subDir
  }

  /** `uploadPath.resolve(savedFilename)`: the stored name directly inside
      the sub-directory. */
  function StoredPath(root: string, subDir: string, uuid: string, name: Option<string>): (p: string)
    ensures var n := |DirectoryOf(root, subDir)| + 1;
            && |p| == n + |StoredName(uuid, name)|
            && p[..n] == DirectoryOf(root, subDir) + "/"
            && p[n..] == StoredName(uuid, name)
  {
    DirectoryOf(root, subDir) + "/" + StoredName(uuid, name)
  }

  /** Two different UUIDs never give the same stored path, whatever the names. */
  lemma StoredPathsDiffer(root: string, subDir: string, uuid1: string, uuid2: string,
                          name1: Option<string>, name2: Option<string>)
    requires IsUuid(uuid1) && IsUuid(uuid2) && uuid1 != uuid2
    ensures StoredPath(root, subDir, uuid1, name1) != StoredPath(root, subDir, uuid2, name2)
  {
    var n := |DirectoryOf(root, subDir)| + 1;
    var p1 := StoredPath(root, subDir, uuid1, name1);
    var p2 := StoredPath(root, subDir, uuid2, name2);
    assert p1[n..][..36] == uuid1;
    assert p2[n..][..36] == uuid2;
    assert p1[n..n + 36] == uuid1 && p2[n..n + 36] == uuid2;
  }

  /** The directory step throws: it is attempted only when the directory is missing. */
  predicate DirectoryThrows(dirs: set<string>, dir: string, fault: SaveFault) {
    fault == DirectoryFails && dir !in dirs
  }

  /** Whether a save with this fault throws: every step of the copy can fail;
      the directory step only when it runs. */
  predicate SaveThrows(dirs: set<string>, dir: string, fault: SaveFault) {
    DirectoryThrows(dirs, dir, fault) || fault.OpenFails? || fault.CreateFails? || fault.WriteFails?
  }

  /** The directories after a save: the target directory exists unless
      creating it threw. */
  function DirsAfterSave(dirs: set<string>, dir: string, fault: SaveFault): (d: set<string>)
    ensures d == dirs || d == dirs + {dir}
    ensures !SaveThrows(dirs, dir, fault) ==> dir in d
  {
    if DirectoryThrows(dirs, dir, fault) then dirs else dirs + {dir}
  }

  /** The files after a save of `bytes` to `path`, step by step: nothing when
      the directory or the stream fails; `REPLACE_EXISTING` removes any file at
      the target before creating it; a failed write leaves what was written. */
  function FilesAfterSave(files: map<string, Bytes>, dirs: set<string>, dir: string, path: string,
                          bytes: Bytes, fault: SaveFault): (r: map<string, Bytes>)
    ensures !SaveThrows(dirs, dir, fault) ==> r == files[path := bytes]
    ensures forall p :: p != path ==> (p in r <==> p in files)
    ensures forall p :: p != path && p in r ==> r[p] == files[p]
    ensures path !in files && path in r ==> |r[path]| <= |bytes| && r[path] == bytes[..|r[path]|]
  {
    if DirectoryThrows(dirs, dir, fault) then files
    else match fault
      case OpenFails => files
      case CreateFails => files - {path}
      case WriteFails(k) => files[path := if k < |bytes| then bytes[..k] else bytes]
      case _ => files[path := bytes]
  }

  /** The files after `deleteFile(path)`: the path is gone unless the
      `IOException` (`fails`) was swallowed. */
  function Deleted(files: map<string, Bytes>, path: string, fails: bool): (r: map<string, Bytes>)
    ensures fails ==> r == files
    ensures !fails ==> path !in r
    ensures forall p :: p != path ==> (p in r <==> p in files)
    ensures forall p :: p in r ==> p in files && r[p] == files[p]
  {
    if fails then files else files - {path}
  }

  /** Deleting twice is deleting once, unless both attempts fail; deleting a
      missing path changes nothing. */
  lemma DeleteIsIdempotent(files: map<string, Bytes>, path: string, fails1: bool, fails2: bool)
    ensures Deleted(Deleted(files, path, fails1), path, fails2) == Deleted(files, path, fails1 && fails2)
    ensures path !in files ==> Deleted(files, path, fails1) == files
  {
    if !fails1 && !fails2 {
      assert (files - {path}) - {path} == files - {path};
    }
  }

  class FileStore {
    /** The configured upload directory, already absolute and normalised. */
    const root: string
    var files: map<string, Bytes>
    var dirs: set<string>
    ghost var log: seq<StoreCall>

    constructor (root: string)
      ensures this.root == root && files == map[] && dirs == {} && log == []
    {
      this.root := root;
      files := map[];
      dirs := {};
      log := [];
    }

    /** `saveFile(file, subDir)`. The stored name is `uuid` plus the extension;
        the directory is created when missing; the copy first removes any file
        at the target, then creates it and writes the bytes. An `IOException`
        at any step surfaces as a failure with no `FileInfo`; what the steps
        before it did to the disk stays done. */
    method SaveFile(file: Upload, subDir: string, uuid: string, fault: SaveFault)
      returns (r: Result<FileInfo, StorageError>)
      requires IsUuid(uuid)
      modifies this
      ensures var dir := DirectoryOf(root, subDir);
              var path := StoredPath(root, subDir, uuid, file.originalName);
              && log == old(log) + [SaveCall(path)]
              && (r.Err? <==> SaveThrows(old(dirs), dir, fault))
              && (r.Ok? ==> r.value == FileInfo(path, file.originalName, file.Size()))
              && files == FilesAfterSave(old(files), old(dirs), dir, path, file.bytes, fault)
              && dirs == DirsAfterSave(old(dirs), dir, fault)
    {
      var extension := Extension(file.originalName);
      var savedFilename := uuid + extension;
      var uploadPath := DirectoryOf(root, subDir);
      var filePath := uploadPath + "/" + savedFilename;
      log := log + [SaveCall(filePath)];
      if uploadPath !in dirs {
        if fault == DirectoryFails {
          return Err(SaveFailed);
        }
        dirs := dirs + {uploadPath};
      }
      if fault == OpenFails {
        return Err(SaveFailed);
      }
      files := files - {filePath};
      if fault == CreateFails {
        return Err(SaveFailed);
      }
      if fault.WriteFails? {
        var k := fault.written;
        files := files[filePath := if k < |file.bytes| then file.bytes[..k] else file.bytes];
        return Err(SaveFailed);
      }
      files := files[filePath := file.bytes];
      r := Ok(FileInfo(filePath, file.originalName, file.Size()));
    }

    /** `deleteFile(path)`: removes the file if present. A missing file is not
        an error, and an `IOException` (`fails`) is swallowed, leaving the file. */
    method DeleteFile(path: string, fails: bool)
      modifies this
      ensures log == old(log) + [DeleteCall(path)]
      ensures files == Deleted(old(files), path, fails)
      ensures dirs == old(dirs)
    {
      log := log + [DeleteCall(path)];
      if !fails {
        files := files - {path};
      }
    }
  }
}
