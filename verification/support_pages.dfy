/** The support controller's decisions that carry logic: which response a
    board-attachment or resource download gets, and who the edit form admits.
    Whether the stored file exists and is readable is given as the store's
    files and a set of readable paths. */
module SupportPages {
  import opened Common
  import opened Members
  import opened Boards
  import opened BoardMapper
  import opened FileStorage
  import opened BoardServices
  import opened FilenameEncoding

  /** A 302 to `location`, or a 200 whose body is the file at `path`. */
  datatype Response = Redirect(location: string) | Serve(path: string, contentDisposition: string)

  const BoardListPage: string := "/support/board"
  const ResourceListPage: string := "/support/resource"

  function BoardPage(id: int): string {
    BoardListPage + "/" + DecimalText(id)
  }

  function ResourcePage(id: int): string {
    ResourceListPage + "/" + DecimalText(id)
  }

  /** `UrlResource.exists() && isReadable()`. */
  predicate Servable(path: string, files: map<string, Bytes>, readable: set<string>) {
    path in files && path in readable
  }

  /** `boardFileDownload(id)` given the non-counting lookup's outcome. Any
      exception, the lookup's or the one a null path or a null name throws,
      ends on the list page; no attachment, or a file that is missing or
      unreadable, ends on the post's page; otherwise the file is served. */
  function BoardFileDownload(id: int, lookup: Result<BoardDetail, BoardError>,
                             files: map<string, Bytes>, readable: set<string>): (resp: Response)
    ensures lookup.Err? ==> resp == Redirect(BoardListPage)
    ensures lookup.Ok? && !lookup.value.hasAttachment ==> resp == Redirect(BoardPage(id))
    ensures lookup.Ok? && lookup.value.hasAttachment && lookup.value.attachmentPath.Some?
            && !Servable(lookup.value.attachmentPath.value, files, readable)
            ==> resp == Redirect(BoardPage(id))
    ensures resp.Serve? <==>
              && lookup.Ok? && lookup.value.hasAttachment && lookup.value.attachmentPath.Some?
              && Servable(lookup.value.attachmentPath.value, files, readable)
              && lookup.value.attachmentName.Some?
    ensures resp.Serve? ==>
              && resp.path == lookup.value.attachmentPath.value
              && resp.contentDisposition == ContentDisposition(lookup.value.attachmentName.value)
  {
    match lookup
    case Err(_) => Redirect(BoardListPage)
    case Ok(board) =>
      if !board.hasAttachment then Redirect(BoardPage(id))
      else if board.attachmentPath.None? then Redirect(BoardListPage)
      else if Servable(board.attachmentPath.value, files, readable) then
        if board.attachmentName.None? then Redirect(BoardListPage)
        else Serve(board.attachmentPath.value, ContentDisposition(board.attachmentName.value))
      else Redirect(BoardPage(id))
  }

  /** The download reads through the lookup that does not count views, so it
      changes no post (the method modifies nothing). */
  method DownloadBoardFile(svc: BoardService, id: int, readable: set<string>) returns (resp: Response)
    ensures resp == BoardFileDownload(id, svc.GetBoardDetailWithoutViewCount(id), svc.store.files, readable)
    ensures id !in svc.rows ==> resp == Redirect(BoardListPage)
    ensures resp.Serve? ==> id in svc.rows && svc.rows[id].attachmentPath == Some(resp.path)
  {
    var board := svc.GetBoardDetailWithoutViewCount(id);
    resp := BoardFileDownload(id, board, svc.store.files, readable);
  }

  /** What the resource lookup returns: the file's path and its display name. */
  datatype ResourceFile = ResourceFile(filePath: string, fileName: Option<string>)

  /** `downloadResource(id)` given the resource lookup's outcome (`None` when
      it throws): the same rule as board downloads, with the resource pages. */
  function ResourceDownload(id: int, lookup: Option<ResourceFile>,
                            files: map<string, Bytes>, readable: set<string>): (resp: Response)
    ensures lookup.None? ==> resp == Redirect(ResourceListPage)
    ensures lookup.Some? && !Servable(lookup.value.filePath, files, readable) ==> resp == Redirect(ResourcePage(id))
    ensures resp.Serve? <==>
              lookup.Some? && Servable(lookup.value.filePath, files, readable) && lookup.value.fileName.Some?
    ensures resp.Serve? ==>
              resp == Serve(lookup.value.filePath, ContentDisposition(lookup.value.fileName.value))
  {
    match lookup
    case None => Redirect(ResourceListPage)
    case Some(res) =>
      if Servable(res.filePath, files, readable) then
        if res.fileName.None? then Redirect(ResourceListPage)
        else Serve(res.filePath, ContentDisposition(res.fileName.value))
      else Redirect(ResourcePage(id))
  }

  /** The edit form's gate: the author or an administrator. */
  predicate EditFormAdmits(board: BoardDetail, caller: Member) {
    board.authorId == caller.id || caller.IsAdmin()
  }

  /** The edit form's gate is the service's delete rule, not its edit rule. */
  lemma EditGateIsDeleteRule(id: int, r: BoardRecord, caller: Member)
    ensures EditFormAdmits(ToDetailResponse(id, r), caller) <==> CanDelete(r, caller)
  {
  }

  /** An administrator who is not the author passes the form's gate, yet the
      service refuses the update, so the form can never be submitted. */
  lemma AdminEditRejected(id: int, r: BoardRecord, caller: Member)
    requires caller.IsAdmin() && !r.IsAuthor(caller.id)
    ensures EditFormAdmits(ToDetailResponse(id, r), caller)
    ensures !CanEdit(r, caller)
  {
  }

  /** The edit form's gate narrowed to the service's rule. */
  predicate EditFormAdmitsAuthor(board: BoardDetail, caller: Member) {
    board.authorId == caller.id
  }

  /** The narrowed gate admits exactly the callers the service lets update. */
  lemma AuthorGateAgreesWithService(id: int, r: BoardRecord, caller: Member)
    ensures EditFormAdmitsAuthor(ToDetailResponse(id, r), caller) <==> CanEdit(r, caller)
  {
  }
}
