/** The board service: reading a post (with and without counting the view),
    and creating, updating and deleting posts together with their attachment
    files. The table is a map from id to row; a call that fails leaves the
    table as it was (the transaction rolls back), but file-store calls already
    made are not undone. */
module BoardServices {
  import opened Common
  import opened Members
  import opened Boards
  import opened BoardMapper
  import opened FileStorage

  /** The sub-directory of the upload root that holds board attachments. */
  const FileSubDir: string := "board"

  datatype BoardError = NotFound | NotAuthorised | StorageFailure

  /** The service's edit rule: only the author. */
  predicate CanEdit(r: BoardRecord, caller: Member) {
    r.IsAuthor(caller.id)
  }

  /** The service's delete rule: the author or an administrator. */
  predicate CanDelete(r: BoardRecord, caller: Member) {
    r.IsAuthor(caller.id) || caller.IsAdmin()
  }

  /** Whoever may edit a post may delete it; the only other callers who may
      delete are administrators. */
  lemma EditRightsWithinDeleteRights(r: BoardRecord, caller: Member)
    ensures CanEdit(r, caller) ==> CanDelete(r, caller)
    ensures CanDelete(r, caller) && !CanEdit(r, caller) ==> caller.IsAdmin()
    ensures !caller.IsAdmin() ==> (CanDelete(r, caller) <==> CanEdit(r, caller))
  {
  }

  /** Every stored path a row references is present in the store. */
  predicate NoDangling(rows: map<int, BoardRecord>, files: map<string, Bytes>) {
    forall k :: k in rows && rows[k].attachmentPath.Some? ==> rows[k].attachmentPath.value in files
  }

  /** No two rows reference the same stored path (stored names come from fresh UUIDs). */
  predicate DistinctPaths(rows: map<int, BoardRecord>) {
    forall k1, k2 :: k1 in rows && k2 in rows && k1 != k2 && rows[k1].attachmentPath.Some?
                     ==> rows[k1].attachmentPath != rows[k2].attachmentPath
  }

  /** No row references `p`. */
  predicate Unreferenced(rows: map<int, BoardRecord>, p: string) {
    forall k :: k in rows ==> rows[k].attachmentPath != Some(p)
  }

  /** The UUID drawn for an upload is fresh: its stored path holds no file and
      no row references it. */
  predicate FreshUpload(rows: map<int, BoardRecord>, files: map<string, Bytes>, root: string,
                        uuid: string, file: Option<Upload>) {
    HasContent(file) ==>
      var p := StoredPath(root, FileSubDir, uuid, file.value.originalName);
      p !in files && Unreferenced(rows, p)
  }

  /** The store calls a delete of `d` makes: none, or exactly one. */
  function DeleteCalls(d: Option<string>): seq<StoreCall> {
    if d.Some? then [DeleteCall(d.value)] else []
  }

  /** The files after a best-effort delete of `d`, when there is one. */
  function AfterDelete(files: map<string, Bytes>, d: Option<string>, fails: bool): map<string, Bytes> {
    if d.Some? then Deleted(files, d.value, fails) else files
  }

  /** What a save of `file` reports when it succeeds; nothing without an upload. */
  function SavedInfo(root: string, uuid: string, file: Option<Upload>): (saved: Option<FileInfo>)
    ensures saved.Some? <==> HasContent(file)
    ensures saved.Some? ==> saved.value.path == StoredPath(root, FileSubDir, uuid, file.value.originalName)
  {
    if HasContent(file) then
      Some(FileInfo(StoredPath(root, FileSubDir, uuid, file.value.originalName),
                    file.value.originalName, file.value.Size()))
    else None
  }

  /** The path a save writes to, if there is an upload. */
  function SavedPath(saved: Option<FileInfo>): Option<string> {
    if saved.Some? then Some(saved.value.path) else None
  }

  /** The store calls a save makes: none without an upload, else exactly one. */
  function SaveCalls(saved: Option<FileInfo>): seq<StoreCall> {
    if saved.Some? then [SaveCall(saved.value.path)] else []
  }

  /** Whether saving `file` throws: only an upload is saved. */
  predicate UploadThrows(dirs: set<string>, root: string, file: Option<Upload>, fault: SaveFault) {
    HasContent(file) && SaveThrows(dirs, DirectoryOf(root, FileSubDir), fault)
  }

  /** The files after saving `file`, whether or not the save throws. */
  function SaveEffect(files: map<string, Bytes>, dirs: set<string>, root: string, uuid: string,
                      file: Option<Upload>, fault: SaveFault): (r: map<string, Bytes>)
    ensures !HasContent(file) ==> r == files
    ensures HasContent(file) && !UploadThrows(dirs, root, file, fault) ==>
              r == files[StoredPath(root, FileSubDir, uuid, file.value.originalName) := file.value.bytes]
  {
    if HasContent(file) then
      FilesAfterSave(files, dirs, DirectoryOf(root, FileSubDir),
                     StoredPath(root, FileSubDir, uuid, file.value.originalName), file.value.bytes, fault)
    else files
  }

  /** The directories after saving `file`. */
  function DirsEffect(dirs: set<string>, root: string, file: Option<Upload>, fault: SaveFault): set<string> {
    if HasContent(file) then DirsAfterSave(dirs, DirectoryOf(root, FileSubDir), fault) else dirs
  }

  /** The old path an update deletes: the current path, when the caller asked
      to drop the attachment or sent a replacement. The clear in the first step
      makes the second step see no path, so at most one delete is issued. */
  function ReplacedPath(o: BoardRecord, file: Option<Upload>, deleteAttachment: bool): (d: Option<string>)
    ensures d.Some? <==> o.attachmentPath.Some? && (deleteAttachment || HasContent(file))
    ensures d.Some? ==> d == o.attachmentPath
  {
    if o.attachmentPath.Some? && (deleteAttachment || HasContent(file)) then o.attachmentPath else None
  }

  /** The row an update leaves: the attachment is cleared when asked, then
      title and content are replaced, and a saved file installs its whole triple. */
  function AfterUpdate(o: BoardRecord, title: string, content: string,
                       saved: Option<FileInfo>, deleteAttachment: bool): (u: BoardRecord)
    ensures u.member == o.member && u.viewCount == o.viewCount
    ensures u.title == title && u.content == content
    ensures saved.Some? ==> (u.attachmentPath, u.attachmentName, u.attachmentSize)
                            == (Some(saved.value.path), saved.value.originalName, Some(saved.value.size))
    ensures saved.None? && !deleteAttachment ==>
              (u.attachmentPath, u.attachmentName, u.attachmentSize)
              == (o.attachmentPath, o.attachmentName, o.attachmentSize)
    ensures saved.None? && deleteAttachment && o.AttachmentCoherent() ==> u.HasNoAttachment()
    ensures o.AttachmentCoherent() ==> u.AttachmentCoherent()
  {
    var base := if deleteAttachment && o.attachmentPath.Some? then Cleared(o) else o;
    if saved.Some? then
      Updated(base, title, content, Some(saved.value.path), saved.value.originalName, Some(saved.value.size))
    else
      Updated(base, title, content, None, None, None)
  }

  /** The two steps of an update (drop when asked, then replace when an
      upload came) add up to one delete of `ReplacedPath`, one save and
      `AfterUpdate`. */
  lemma UpdateStepsCompose(o: BoardRecord, title: string, content: string, file: Option<Upload>,
                           deleteAttachment: bool, saved: Option<FileInfo>,
                           files: map<string, Bytes>, fails: bool, log: seq<StoreCall>,
                           dirs: set<string>, root: string, uuid: string, fault: SaveFault)
    ensures var d3 := if deleteAttachment then o.attachmentPath else None;
            var b1 := if d3.Some? then Cleared(o) else o;
            var d4 := if HasContent(file) then b1.attachmentPath else None;
            var d := ReplacedPath(o, file, deleteAttachment);
            && log + DeleteCalls(d3) + DeleteCalls(d4) + SaveCalls(saved) == log + DeleteCalls(d) + SaveCalls(saved)
            && SaveEffect(AfterDelete(AfterDelete(files, d3, fails), d4, fails), dirs, root, uuid, file, fault)
               == SaveEffect(AfterDelete(files, d, fails), dirs, root, uuid, file, fault)
            && AfterUpdate(b1, title, content, saved, false) == AfterUpdate(o, title, content, saved, deleteAttachment)
  {
    var d3 := if deleteAttachment then o.attachmentPath else None;
    var b1 := if d3.Some? then Cleared(o) else o;
    var d4 := if HasContent(file) then b1.attachmentPath else None;
    assert DeleteCalls(d3) + DeleteCalls(d4) == DeleteCalls(ReplacedPath(o, file, deleteAttachment));
    assert log + DeleteCalls(d3) + DeleteCalls(d4) == log + (DeleteCalls(d3) + DeleteCalls(d4));
  }

  /** A save to a fresh path leaves every file that was there before in place,
      with its contents. */
  lemma SaveKeepsOldFiles(files: map<string, Bytes>, dirs: set<string>, root: string, uuid: string,
                          file: Option<Upload>, fault: SaveFault)
    requires HasContent(file) ==> StoredPath(root, FileSubDir, uuid, file.value.originalName) !in files
    ensures var w := SaveEffect(files, dirs, root, uuid, file, fault);
            forall p :: p in files ==> p in w && w[p] == files[p]
  {
  }

  /** A file deleted before a save to another path stays gone, whether or not
      the save throws: the save writes only its own path. */
  lemma DeletedStaysGone(files: map<string, Bytes>, dirs: set<string>, root: string, uuid: string,
                         file: Option<Upload>, fault: SaveFault, p: string)
    requires HasContent(file) ==> StoredPath(root, FileSubDir, uuid, file.value.originalName) != p
    ensures p !in SaveEffect(Deleted(files, p, false), dirs, root, uuid, file, fault)
  {
  }

  /** Deleting the path a failed save wrote to puts back the files as they
      were, provided the path was fresh: nothing else was touched, and the
      delete removes what the save left behind unless the delete fails too. */
  lemma CleanupRestores(files: map<string, Bytes>, dirs: set<string>, root: string, uuid: string,
                        file: Option<Upload>, fault: SaveFault, fails: bool)
    requires HasContent(file)
    requires StoredPath(root, FileSubDir, uuid, file.value.originalName) !in files
    ensures var w := AfterDelete(SaveEffect(files, dirs, root, uuid, file, fault),
                                 Some(StoredPath(root, FileSubDir, uuid, file.value.originalName)), fails);
            && (forall p :: p in files ==> p in w && w[p] == files[p])
            && (!fails ==> w == files)
  {
    var path := StoredPath(root, FileSubDir, uuid, file.value.originalName);
    var w := AfterDelete(SaveEffect(files, dirs, root, uuid, file, fault), Some(path), fails);
    SaveKeepsOldFiles(files, dirs, root, uuid, file, fault);
    if !fails {
      assert w.Keys == files.Keys;
    }
  }

  /** Replacing one row keeps every reference valid when the only file that
      may have gone is the one that row referenced, and the new row's own file
      is present. */
  lemma ReplacingRowKeepsReferences(rows: map<int, BoardRecord>, files: map<string, Bytes>,
                                    files2: map<string, Bytes>, id: int, u: BoardRecord)
    requires NoDangling(rows, files) && DistinctPaths(rows) && id in rows
    requires forall p :: p in files && Some(p) != rows[id].attachmentPath ==> p in files2
    requires u.attachmentPath.Some? ==> u.attachmentPath.value in files2
    ensures NoDangling(rows[id := u], files2)
  {
    var rows2 := rows[id := u];
    forall k | k in rows2 && rows2[k].attachmentPath.Some?
      ensures rows2[k].attachmentPath.value in files2
    {
      if k != id {
        assert rows2[k] == rows[k];
        assert rows[k].attachmentPath != rows[id].attachmentPath;
      }
    }
  }

  /** Removing a row keeps every reference valid when the only file that may
      have gone is the one that row referenced. */
  lemma RemovingRowKeepsReferences(rows: map<int, BoardRecord>, files: map<string, Bytes>,
                                   files2: map<string, Bytes>, id: int)
    requires NoDangling(rows, files) && DistinctPaths(rows) && id in rows
    requires forall p :: p in files && Some(p) != rows[id].attachmentPath ==> p in files2
    ensures NoDangling(rows - {id}, files2)
  {
    var rows2 := rows - {id};
    forall k | k in rows2 && rows2[k].attachmentPath.Some?
      ensures rows2[k].attachmentPath.value in files2
    {
      assert rows2[k] == rows[k];
      assert rows[k].attachmentPath != rows[id].attachmentPath;
    }
  }

  /** Putting `u` at `id` keeps paths distinct when no other row references
      `u`'s path: it either keeps the path `id` had or takes an unreferenced one. */
  lemma InstallingRowKeepsDistinct(rows: map<int, BoardRecord>, id: int, u: BoardRecord)
    requires DistinctPaths(rows)
    requires u.attachmentPath.Some? ==>
               forall k :: k in rows && k != id ==> rows[k].attachmentPath != u.attachmentPath
    ensures DistinctPaths(rows[id := u])
  {
    var rows2 := rows[id := u];
    forall k1, k2 | k1 in rows2 && k2 in rows2 && k1 != k2 && rows2[k1].attachmentPath.Some?
      ensures rows2[k1].attachmentPath != rows2[k2].attachmentPath
    {
      if k1 == id {
        assert rows2[k2] == rows[k2];
      } else if k2 == id {
        assert rows2[k1] == rows[k1];
      } else {
        assert rows2[k1] == rows[k1] && rows2[k2] == rows[k2];
      }
    }
  }

  class BoardService {
    var rows: map<int, BoardRecord>
    /** The next identity the table hands out. */
    var nextId: int
    const store: FileStore

    /** Ids are positive and below `nextId`; every row's attachment fields are
        coherent and its counter is a Java `int`; no two rows share a stored
        path. */
    predicate Valid()
      reads this
    {
      && nextId >= 1
      && (forall id :: id in rows ==> 1 <= id < nextId)
      && (forall id :: id in rows ==> rows[id].AttachmentCoherent() && InIntRange(rows[id].viewCount))
      && DistinctPaths(rows)
    }

    constructor (store: FileStore)
      ensures this.store == store && rows == map[] && nextId == 1 && Valid()
    {
      this.store := store;
      rows := map[];
      nextId := 1;
    }

    /** `getBoardDetail`: an unknown id fails; a known one has its counter
        incremented once, and the detail shows the incremented post. */
    method GetBoardDetail(id: int) returns (r: Result<BoardDetail, BoardError>)
      requires Valid()
      modifies this
      ensures Valid() && nextId == old(nextId)
      ensures id !in old(rows) ==> r == Err(NotFound) && rows == old(rows)
      ensures id in old(rows) ==>
                && rows == old(rows)[id := Viewed(old(rows)[id])]
                && r == Ok(ToDetailResponse(id, rows[id]))
    {
      if id !in rows {
        return Err(NotFound);
      }
      var board := new Board.Load(rows[id]);
      board.IncrementViewCount();
      InstallingRowKeepsDistinct(rows, id, board.Record());
      rows := rows[id := board.Record()];
      r := Ok(ToDetailResponse(id, board.Record()));
    }

    /** `getBoardDetailWithoutViewCount`: a read of the table that changes nothing. */
    function GetBoardDetailWithoutViewCount(id: int): (r: Result<BoardDetail, BoardError>)
      reads this
      ensures r.Ok? <==> id in rows
      ensures r.Err? ==> r.error == NotFound
      ensures r.Ok? ==> r.value == ToDetailResponse(id, rows[id]) && r.value.viewCount == rows[id].viewCount
    {
      if id in rows then Ok(ToDetailResponse(id, rows[id])) else Err(NotFound)
    }

    /** `createBoard`: a non-empty upload is saved first and the post records
        the returned path, name and size; when the save throws nothing is
        inserted, though the store may keep a directory and a partial file.
        Without an upload the post has no attachment. */
    method CreateBoard(dto: BoardRequest, member: Member, file: Option<Upload>,
                       uuid: string, fault: SaveFault)
      returns (r: Result<int, BoardError>)
      requires Valid() && dto.Valid() && IsUuid(uuid)
      requires FreshUpload(rows, store.files, store.root, uuid, file)
      modifies this, store
      ensures Valid()
      ensures nextId == if r.Ok? then old(nextId) + 1 else old(nextId)
      ensures store.log == old(store.log) + SaveCalls(SavedInfo(store.root, uuid, file))
      ensures store.files == SaveEffect(old(store.files), old(store.dirs), store.root, uuid, file, fault)
      ensures store.dirs == DirsEffect(old(store.dirs), store.root, file, fault)
      ensures r.Err? <==> UploadThrows(old(store.dirs), store.root, file, fault)
      ensures r.Err? ==> r.error == StorageFailure && rows == old(rows)
      ensures r.Ok? ==>
                var saved := SavedInfo(store.root, uuid, file);
                && r.value == old(nextId)
                && rows == old(rows)[old(nextId) := BoardRecord(member, dto.title, dto.content, 0,
                                                                SavedPath(saved),
                                                                if saved.Some? then saved.value.originalName else None,
                                                                if saved.Some? then Some(saved.value.size) else None)]
      ensures NoDangling(old(rows), old(store.files)) ==> NoDangling(rows, store.files)
    {
      var board: Board;
      if HasContent(file) {
        var info := store.SaveFile(file.value, FileSubDir, uuid, fault);
        if info.Err? {
          return Err(StorageFailure);
        }
        board := ToEntityWithFile(dto, member, Some(info.value.path), info.value.originalName,
                                  Some(info.value.size));
      } else {
        board := ToEntity(dto, member);
      }
      InstallingRowKeepsDistinct(rows, nextId, board.Record());
      r := Ok(nextId);
      rows := rows[nextId := board.Record()];
      nextId := nextId + 1;
    }

    /** `updateBoard`, in the code's order: look up, check the author, delete
        the old file when asked to drop it, then (with an upload) delete any
        path still referenced, save the new file and install it; otherwise
        replace title and content only. A failed save rolls the row back but
        not the delete that came before it, nor what the save left behind. */
    method UpdateBoard(id: int, dto: BoardRequest, member: Member, file: Option<Upload>,
                       deleteAttachment: bool, uuid: string, fault: SaveFault, deleteFails: bool)
      returns (r: Result<(), BoardError>)
      requires Valid() && dto.Valid() && IsUuid(uuid)
      requires FreshUpload(rows, store.files, store.root, uuid, file)
      modifies this, store
      ensures Valid() && nextId == old(nextId)
      ensures id !in old(rows) ==> r == Err(NotFound) && rows == old(rows) && unchanged(store)
      ensures id in old(rows) && !CanEdit(old(rows)[id], member) ==>
                r == Err(NotAuthorised) && rows == old(rows) && unchanged(store)
      ensures id in old(rows) && CanEdit(old(rows)[id], member) ==>
                var o := old(rows)[id];
                var d := ReplacedPath(o, file, deleteAttachment);
                var saved := SavedInfo(store.root, uuid, file);
                var kept := AfterDelete(old(store.files), d, deleteFails);
                && store.log == old(store.log) + DeleteCalls(d) + SaveCalls(saved)
                && store.files == SaveEffect(kept, old(store.dirs), store.root, uuid, file, fault)
                && store.dirs == DirsEffect(old(store.dirs), store.root, file, fault)
                && (r.Err? <==> UploadThrows(old(store.dirs), store.root, file, fault))
                && (r.Err? ==> r.error == StorageFailure && rows == old(rows))
                && (r.Ok? ==> rows == old(rows)[id := AfterUpdate(o, dto.title, dto.content, saved, deleteAttachment)])
      /* The old file is gone but the rolled-back row still points at it. */
      ensures r == Err(StorageFailure) && !deleteFails && ReplacedPath(old(rows)[id], file, deleteAttachment).Some? ==>
                && rows[id] == old(rows)[id]
                && rows[id].attachmentPath.value !in store.files
      /* No orphan: a replaced or dropped file whose delete went through is gone. */
      ensures id in old(rows) && CanEdit(old(rows)[id], member) && !deleteFails &&
              ReplacedPath(old(rows)[id], file, deleteAttachment).Some? ==>
                ReplacedPath(old(rows)[id], file, deleteAttachment).value !in store.files
      ensures r.Ok? && NoDangling(old(rows), old(store.files)) ==> NoDangling(rows, store.files)
    {
      if id !in rows {
        return Err(NotFound);
      }
      var board := new Board.Load(rows[id]);
      if !board.IsAuthor(member.id) {
        return Err(NotAuthorised);
      }
      r := CommitUpdate(id, board, dto, file, deleteAttachment, uuid, fault, deleteFails);
    }

    /** The authorised part of `UpdateBoard` on the loaded post `board`: apply
        the steps as written and store the row, or roll the row back. */
    method CommitUpdate(id: int, board: Board, dto: BoardRequest, file: Option<Upload>,
                        deleteAttachment: bool, uuid: string, fault: SaveFault, deleteFails: bool)
      returns (r: Result<(), BoardError>)
      requires Valid() && IsUuid(uuid) && id in rows && board.Record() == rows[id]
      requires FreshUpload(rows, store.files, store.root, uuid, file)
      modifies this, store, board
      ensures Valid() && nextId == old(nextId)
      ensures var o := old(rows)[id];
              var d := ReplacedPath(o, file, deleteAttachment);
              var saved := SavedInfo(store.root, uuid, file);
              var kept := AfterDelete(old(store.files), d, deleteFails);
              && store.log == old(store.log) + DeleteCalls(d) + SaveCalls(saved)
              && store.files == SaveEffect(kept, old(store.dirs), store.root, uuid, file, fault)
              && store.dirs == DirsEffect(old(store.dirs), store.root, file, fault)
              && (r.Err? <==> UploadThrows(old(store.dirs), store.root, file, fault))
              && (r.Err? ==> r.error == StorageFailure && rows == old(rows))
              && (r.Ok? ==> rows == old(rows)[id := AfterUpdate(o, dto.title, dto.content, saved, deleteAttachment)])
              && (!deleteFails && d.Some? ==> d.value !in store.files)
      ensures r.Ok? && NoDangling(old(rows), old(store.files)) ==> NoDangling(rows, store.files)
    {
      ghost var o := rows[id];
      ghost var d := ReplacedPath(o, file, deleteAttachment);
      var ok := ApplyUpdate(board, dto.title, dto.content, file, deleteAttachment, uuid, fault, deleteFails);
      if d.Some? && HasContent(file) {
        // the fresh path differs from the one the row references
        assert d.value != StoredPath(store.root, FileSubDir, uuid, file.value.originalName);
      }
      if !deleteFails && d.Some? {
        DeletedStaysGone(old(store.files), old(store.dirs), store.root, uuid, file, fault, d.value);
      }
      if !ok {
        return Err(StorageFailure);
      }
      InstallingRowKeepsDistinct(rows, id, board.Record());
      rows := rows[id := board.Record()];
      r := Ok(());
      if NoDangling(old(rows), old(store.files)) {
        ReplacingRowKeepsReferences(old(rows), old(store.files), store.files, id, rows[id]);
      }
    }

    /** Steps 3 and 4 of `updateBoard` on the loaded post: together they delete
        `ReplacedPath` at most once, before the save, and leave `AfterUpdate`. */
    method ApplyUpdate(board: Board, title: string, content: string, file: Option<Upload>,
                       deleteAttachment: bool, uuid: string, fault: SaveFault, deleteFails: bool)
      returns (ok: bool)
      requires IsUuid(uuid)
      modifies board, store
      ensures var o := old(board.Record());
              var d := ReplacedPath(o, file, deleteAttachment);
              var saved := SavedInfo(store.root, uuid, file);
              var kept := AfterDelete(old(store.files), d, deleteFails);
              && store.log == old(store.log) + DeleteCalls(d) + SaveCalls(saved)
              && store.files == SaveEffect(kept, old(store.dirs), store.root, uuid, file, fault)
              && store.dirs == DirsEffect(old(store.dirs), store.root, file, fault)
              && (!ok <==> UploadThrows(old(store.dirs), store.root, file, fault))
              && (ok ==> board.Record() == AfterUpdate(o, title, content, saved, deleteAttachment))
    {
      ghost var o := board.Record();
      DropAttachment(board, deleteAttachment, deleteFails);
      ok := InstallUpload(board, title, content, file, uuid, fault, deleteFails);
      UpdateStepsCompose(o, title, content, file, deleteAttachment, SavedInfo(store.root, uuid, file),
                         old(store.files), deleteFails, old(store.log), old(store.dirs), store.root, uuid, fault);
    }

    /** Step 3 of `updateBoard`: when asked to drop the attachment and a path
        is set, delete that file and clear the triple. */
    method DropAttachment(board: Board, deleteAttachment: bool, deleteFails: bool)
      modifies board, store
      ensures var o := old(board.Record());
              var d := if deleteAttachment then o.attachmentPath else None;
              && board.Record() == (if d.Some? then Cleared(o) else o)
              && store.log == old(store.log) + DeleteCalls(d)
              && store.files == AfterDelete(old(store.files), d, deleteFails)
              && store.dirs == old(store.dirs)
    {
      if deleteAttachment && board.attachmentPath.Some? {
        store.DeleteFile(board.attachmentPath.value, deleteFails);
        board.RemoveAttachment();
      }
    }

    /** Step 4 of `updateBoard`: with an upload, delete any path still set,
        save the upload and install it with the new title and content (a
        failed save reports `false` and leaves the post alone); without one,
        replace title and content only. */
    method InstallUpload(board: Board, title: string, content: string, file: Option<Upload>,
                         uuid: string, fault: SaveFault, deleteFails: bool)
      returns (ok: bool)
      requires IsUuid(uuid)
      modifies board, store
      ensures var d := if HasContent(file) then old(board.attachmentPath) else None;
              var saved := SavedInfo(store.root, uuid, file);
              var kept := AfterDelete(old(store.files), d, deleteFails);
              && store.log == old(store.log) + DeleteCalls(d) + SaveCalls(saved)
              && store.files == SaveEffect(kept, old(store.dirs), store.root, uuid, file, fault)
              && store.dirs == DirsEffect(old(store.dirs), store.root, file, fault)
              && (!ok <==> UploadThrows(old(store.dirs), store.root, file, fault))
              && (!ok ==> board.Record() == old(board.Record()))
              && (ok ==> board.Record() == AfterUpdate(old(board.Record()), title, content, saved, false))
    {
      ghost var d := if HasContent(file) then board.attachmentPath else None;
      if HasContent(file) && board.attachmentPath.Some? {
        store.DeleteFile(board.attachmentPath.value, deleteFails);
      }
      assert store.files == AfterDelete(old(store.files), d, deleteFails);
      assert store.log == old(store.log) + DeleteCalls(d) && store.dirs == old(store.dirs);
      assert board.Record() == old(board.Record());
      ghost var log := store.log;
      ok := SaveAndInstall(board, title, content, file, uuid, fault);
      assert store.log == log + SaveCalls(SavedInfo(store.root, uuid, file));
    }

    /** With an upload, save it and install it with the new title and content
        (a failed save reports `false` and leaves the post alone); without one,
        replace title and content only. */
    method SaveAndInstall(board: Board, title: string, content: string, file: Option<Upload>,
                          uuid: string, fault: SaveFault)
      returns (ok: bool)
      requires IsUuid(uuid)
      modifies board, store
      ensures store.log == old(store.log) + SaveCalls(SavedInfo(store.root, uuid, file))
      ensures store.files == SaveEffect(old(store.files), old(store.dirs), store.root, uuid, file, fault)
      ensures store.dirs == DirsEffect(old(store.dirs), store.root, file, fault)
      ensures !ok <==> UploadThrows(old(store.dirs), store.root, file, fault)
      ensures !ok ==> board.Record() == old(board.Record())
      ensures ok ==> board.Record() == AfterUpdate(old(board.Record()), title, content,
                                                   SavedInfo(store.root, uuid, file), false)
    {
      ok := true;
      if HasContent(file) {
        var info := store.SaveFile(file.value, FileSubDir, uuid, fault);
        if info.Err? {
          return false;
        }
        board.Update(title, content, Some(info.value.path), info.value.originalName, Some(info.value.size));
      } else {
        board.Update(title, content, None, None, None);
      }
    }

    /** `updateBoard` with the replacement saved before the old file is
        deleted: a failed save removes whatever it left at the new path and
        touches no other file, and the old file is deleted only once the row
        no longer references it. */
    method UpdateBoardSafe(id: int, dto: BoardRequest, member: Member, file: Option<Upload>,
                           deleteAttachment: bool, uuid: string, fault: SaveFault, deleteFails: bool)
      returns (r: Result<(), BoardError>)
      requires Valid() && dto.Valid() && IsUuid(uuid)
      requires FreshUpload(rows, store.files, store.root, uuid, file)
      modifies this, store
      ensures Valid() && nextId == old(nextId)
      ensures id !in old(rows) ==> r == Err(NotFound) && rows == old(rows) && unchanged(store)
      ensures id in old(rows) && !CanEdit(old(rows)[id], member) ==>
                r == Err(NotAuthorised) && rows == old(rows) && unchanged(store)
      ensures r.Err? ==> rows == old(rows)
      ensures r.Err? ==> forall p :: p in old(store.files) ==> p in store.files && store.files[p] == old(store.files)[p]
      ensures r.Err? && !deleteFails ==> store.files == old(store.files)
      ensures id in old(rows) && CanEdit(old(rows)[id], member) ==>
                var o := old(rows)[id];
                var d := ReplacedPath(o, file, deleteAttachment);
                var saved := SavedInfo(store.root, uuid, file);
                var written := SaveEffect(old(store.files), old(store.dirs), store.root, uuid, file, fault);
                && store.dirs == DirsEffect(old(store.dirs), store.root, file, fault)
                && (r.Err? <==> UploadThrows(old(store.dirs), store.root, file, fault))
                && (r.Err? ==> && store.log == old(store.log) + SaveCalls(saved) + DeleteCalls(SavedPath(saved))
                               && store.files == AfterDelete(written, SavedPath(saved), deleteFails))
                && (r.Ok? ==> && rows == old(rows)[id := AfterUpdate(o, dto.title, dto.content, saved, deleteAttachment)]
                              && store.log == old(store.log) + SaveCalls(saved) + DeleteCalls(d)
                              && store.files == AfterDelete(written, d, deleteFails))
      /* No orphan: after a successful update the replaced or dropped file is gone. */
      ensures r.Ok? && !deleteFails && ReplacedPath(old(rows)[id], file, deleteAttachment).Some? ==>
                ReplacedPath(old(rows)[id], file, deleteAttachment).value !in store.files
      ensures NoDangling(old(rows), old(store.files)) ==> NoDangling(rows, store.files)
    {
      if id !in rows {
        return Err(NotFound);
      }
      var board := new Board.Load(rows[id]);
      if !board.IsAuthor(member.id) {
        return Err(NotAuthorised);
      }
      r := CommitUpdateSafe(id, board, dto, file, deleteAttachment, uuid, fault, deleteFails);
    }

    /** The authorised part of `UpdateBoardSafe` on the loaded post `board`:
        apply the corrected steps and store the row, or roll it back. */
    method CommitUpdateSafe(id: int, board: Board, dto: BoardRequest, file: Option<Upload>,
                            deleteAttachment: bool, uuid: string, fault: SaveFault, deleteFails: bool)
      returns (r: Result<(), BoardError>)
      requires Valid() && IsUuid(uuid) && id in rows && board.Record() == rows[id]
      requires FreshUpload(rows, store.files, store.root, uuid, file)
      modifies this, store, board
      ensures Valid() && nextId == old(nextId)
      ensures r.Err? ==> r.error == StorageFailure && rows == old(rows)
      ensures r.Err? ==> forall p :: p in old(store.files) ==> p in store.files && store.files[p] == old(store.files)[p]
      ensures r.Err? && !deleteFails ==> store.files == old(store.files)
      ensures var o := old(rows)[id];
              var d := ReplacedPath(o, file, deleteAttachment);
              var saved := SavedInfo(store.root, uuid, file);
              var written := SaveEffect(old(store.files), old(store.dirs), store.root, uuid, file, fault);
              && store.dirs == DirsEffect(old(store.dirs), store.root, file, fault)
              && (r.Err? <==> UploadThrows(old(store.dirs), store.root, file, fault))
              && (r.Err? ==> && store.log == old(store.log) + SaveCalls(saved) + DeleteCalls(SavedPath(saved))
                             && store.files == AfterDelete(written, SavedPath(saved), deleteFails))
              && (r.Ok? ==> && rows == old(rows)[id := AfterUpdate(o, dto.title, dto.content, saved, deleteAttachment)]
                            && store.log == old(store.log) + SaveCalls(saved) + DeleteCalls(d)
                            && store.files == AfterDelete(written, d, deleteFails))
      ensures NoDangling(old(rows), old(store.files)) ==> NoDangling(rows, store.files)
    {
      var ok := ApplyUpdateSafe(board, dto.title, dto.content, file, deleteAttachment, uuid, fault, deleteFails);
      if !ok {
        return Err(StorageFailure);
      }
      InstallingRowKeepsDistinct(rows, id, board.Record());
      rows := rows[id := board.Record()];
      r := Ok(());
      if NoDangling(old(rows), old(store.files)) {
        ReplacingRowKeepsReferences(old(rows), old(store.files), store.files, id, rows[id]);
      }
    }

    /** The corrected steps 3 and 4: clear when asked, save and install the
        upload, and only then delete the old file; a failed save is followed
        by a delete of its own (fresh) path, so the files are as before. */
    method ApplyUpdateSafe(board: Board, title: string, content: string, file: Option<Upload>,
                           deleteAttachment: bool, uuid: string, fault: SaveFault, deleteFails: bool)
      returns (ok: bool)
      requires IsUuid(uuid)
      requires HasContent(file) ==>
                 var p := StoredPath(store.root, FileSubDir, uuid, file.value.originalName);
                 p !in store.files && board.attachmentPath != Some(p)
      modifies board, store
      ensures var o := old(board.Record());
              var d := ReplacedPath(o, file, deleteAttachment);
              var saved := SavedInfo(store.root, uuid, file);
              var written := SaveEffect(old(store.files), old(store.dirs), store.root, uuid, file, fault);
              && store.dirs == DirsEffect(old(store.dirs), store.root, file, fault)
              && (!ok <==> UploadThrows(old(store.dirs), store.root, file, fault))
              && (!ok ==> && store.log == old(store.log) + SaveCalls(saved) + DeleteCalls(SavedPath(saved))
                          && store.files == AfterDelete(written, SavedPath(saved), deleteFails))
              && (ok ==> && board.Record() == AfterUpdate(o, title, content, saved, deleteAttachment)
                         && store.log == old(store.log) + SaveCalls(saved) + DeleteCalls(d)
                         && store.files == AfterDelete(written, d, deleteFails))
      ensures !ok ==> forall p :: p in old(store.files) ==> p in store.files && store.files[p] == old(store.files)[p]
      ensures !ok && !deleteFails ==> store.files == old(store.files)
      ensures ok ==> forall p :: p in old(store.files) && Some(p) != old(board.attachmentPath) ==> p in store.files
      ensures ok && board.attachmentPath.Some? ==>
                || board.attachmentPath.value in store.files
                || (board.attachmentPath == old(board.attachmentPath) && store.files == old(store.files))
    {
      ghost var o := board.Record();
      var d := ReplacedPath(board.Record(), file, deleteAttachment);
      if deleteAttachment && board.attachmentPath.Some? {
        board.RemoveAttachment();
      }
      ok := SaveAndInstall(board, title, content, file, uuid, fault);
      if !ok {
        store.DeleteFile(StoredPath(store.root, FileSubDir, uuid, file.value.originalName), deleteFails);
        CleanupRestores(old(store.files), old(store.dirs), store.root, uuid, file, fault, deleteFails);
        return;
      }
      SaveKeepsOldFiles(old(store.files), old(store.dirs), store.root, uuid, file, fault);
      if d.Some? {
        store.DeleteFile(d.value, deleteFails);
      }
    }

    /** `deleteBoard`: an unknown id or a caller who is neither author nor
        administrator fails with nothing changed; otherwise the attachment file,
        if any, is deleted and then the row is removed. */
    method DeleteBoard(id: int, member: Member, deleteFails: bool) returns (r: Result<(), BoardError>)
      requires Valid()
      modifies this, store
      ensures Valid() && nextId == old(nextId)
      ensures id !in old(rows) ==> r == Err(NotFound) && rows == old(rows) && unchanged(store)
      ensures id in old(rows) && !CanDelete(old(rows)[id], member) ==>
                r == Err(NotAuthorised) && rows == old(rows) && unchanged(store)
      ensures id in old(rows) && CanDelete(old(rows)[id], member) ==>
                var p := old(rows)[id].attachmentPath;
                && r == Ok(())
                && rows == old(rows) - {id}
                && store.log == old(store.log) + DeleteCalls(p)
                && store.files == AfterDelete(old(store.files), p, deleteFails)
                && store.dirs == old(store.dirs)
      /* No orphan: once the delete goes through, the post's file is gone with it. */
      ensures r.Ok? && !deleteFails && old(rows)[id].attachmentPath.Some? ==>
                old(rows)[id].attachmentPath.value !in store.files
      ensures NoDangling(old(rows), old(store.files)) ==> NoDangling(rows, store.files)
    {
      if id !in rows {
        return Err(NotFound);
      }
      var board := new Board.Load(rows[id]);
      if !board.IsAuthor(member.id) && !member.IsAdmin() {
        return Err(NotAuthorised);
      }
      if board.attachmentPath.Some? {
        store.DeleteFile(board.attachmentPath.value, deleteFails);
      }
      rows := rows - {id};
      r := Ok(());
      if NoDangling(old(rows), old(store.files)) {
        RemovingRowKeepsReferences(old(rows), old(store.files), store.files, id);
      }
    }
  }

  /** A fresh service over an empty store after one post with an attachment
      was created. */
  method ServiceWithOnePost(author: Member, uuid: string) returns (svc: BoardService, id: int)
    requires IsUuid(uuid)
    ensures fresh(svc) && fresh(svc.store) && svc.Valid()
    ensures svc.rows.Keys == {id} && svc.rows[id].member == author
    ensures svc.rows[id].attachmentPath == Some(StoredPath(svc.store.root, FileSubDir, uuid, Some("a.txt")))
    ensures svc.store.files.Keys == {StoredPath(svc.store.root, FileSubDir, uuid, Some("a.txt"))}
  {
    var store := new FileStore("/uploads");
    svc := new BoardService(store);
    var dto := BoardRequest("title", "content");
    assert dto.title[0] > ' ' && dto.content[0] > ' ';
    var created := svc.CreateBoard(dto, author, Some(Upload(Some("a.txt"), [1])), uuid, NoFault);
    id := created.value;
  }

  /** A failed replacement leaves a post referencing a file that no longer
      exists: create a post with an attachment, then update it with a new
      upload whose target cannot be opened. */
  method FailedReplaceScenario(author: Member, uuid1: string, uuid2: string)
    returns (svc: BoardService, id: int)
    requires IsUuid(uuid1) && IsUuid(uuid2) && uuid1 != uuid2
    ensures id in svc.rows && svc.rows[id].attachmentPath.Some?
    ensures svc.rows[id].attachmentPath.value !in svc.store.files
  {
    svc, id := ServiceWithOnePost(author, uuid1);
    var second := Some(Upload(Some("b.txt"), [2]));
    var p2 := StoredPath(svc.store.root, FileSubDir, uuid2, Some("b.txt"));
    StoredPathsDiffer(svc.store.root, FileSubDir, uuid1, uuid2, Some("a.txt"), Some("b.txt"));
    assert p2 !in svc.store.files && Unreferenced(svc.rows, p2);
    assert FreshUpload(svc.rows, svc.store.files, svc.store.root, uuid2, second);
    assert svc.rows[id].attachmentPath.Some? && CanEdit(svc.rows[id], author);
    ReplaceWithUnopenable(svc, id, author, second, uuid2);
  }

  /** The second half of the scenario: the author replaces the attachment of
      post `id` with `second`, whose input stream cannot be opened. */
  method ReplaceWithUnopenable(svc: BoardService, id: int, author: Member, second: Option<Upload>, uuid2: string)
    requires svc.Valid() && IsUuid(uuid2) && HasContent(second)
    requires id in svc.rows && svc.rows[id].attachmentPath.Some? && CanEdit(svc.rows[id], author)
    requires FreshUpload(svc.rows, svc.store.files, svc.store.root, uuid2, second)
    modifies svc, svc.store
    ensures id in svc.rows && svc.rows[id].attachmentPath.Some?
    ensures svc.rows[id].attachmentPath.value !in svc.store.files
  {
    assert ReplacedPath(svc.rows[id], second, false) == svc.rows[id].attachmentPath;
    assert UploadThrows(svc.store.dirs, svc.store.root, second, OpenFails);
    var dto := BoardRequest("title", "content");
    assert dto.title[0] > ' ' && dto.content[0] > ' ';
    var updated := svc.UpdateBoard(id, dto, author, second, false, uuid2, OpenFails, false);
    assert updated == Err(StorageFailure);
  }
}
