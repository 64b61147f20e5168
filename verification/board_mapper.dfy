/** Conversions between the board post entity, the request form and the two
    response views (list row and detail page). */
module BoardMapper {
  import opened Common
  import opened Members
  import opened Boards

  /** The submitted form. */
  datatype BoardRequest = BoardRequest(title: string, content: string)
  {
    /** The form's bean constraints, checked before the service is called:
        title and content not blank after trimming, title at most 200 UTF-16 units. */
    predicate Valid() {
      NotBlankAfterTrim(Some(title)) && Utf16Length(title) <= 200 && NotBlankAfterTrim(Some(content))
    }
  }

  datatype BoardListItem = BoardListItem(
    id: int, title: string, authorName: string, viewCount: int, hasAttachment: bool)

  datatype BoardDetail = BoardDetail(
    id: int, title: string, content: string, authorId: int, authorName: string, viewCount: int,
    attachmentPath: Option<string>, attachmentName: Option<string>, hasAttachment: bool)

  /** `toListResponseDto`: the list row calls any non-null path an attachment. */
  function ToListResponse(id: int, r: BoardRecord): (d: BoardListItem)
    ensures d.hasAttachment <==> r.attachmentPath.Some?
    ensures d.id == id && d.title == r.title && d.viewCount == r.viewCount
    ensures d.authorName == r.member.name
  {
    BoardListItem(id, r.title, r.member.name, r.viewCount, r.attachmentPath.Some?)
  }

  /** `toDetailResponseDto`: the detail page requires the path to be non-null
      and non-empty; the author id is the owner's id. */
  function ToDetailResponse(id: int, r: BoardRecord): (d: BoardDetail)
    ensures d.hasAttachment <==> r.attachmentPath.Some? && r.attachmentPath.value != ""
    ensures d.hasAttachment ==> d.attachmentPath.Some?
    ensures d.authorId == r.member.id && d.authorName == r.member.name
    ensures d.id == id && d.title == r.title && d.content == r.content
    ensures d.viewCount == r.viewCount
    ensures d.attachmentPath == r.attachmentPath && d.attachmentName == r.attachmentName
  {
    BoardDetail(id, r.title, r.content, r.member.id, r.member.name, r.viewCount,
                r.attachmentPath, r.attachmentName,
                r.attachmentPath.Some? && r.attachmentPath.value != "")
  }

  /** The two views disagree about an attachment exactly when the stored path is empty. */
  lemma AttachmentFlagsDifferOnlyOnEmptyPath(id: int, r: BoardRecord)
    ensures ToListResponse(id, r).hasAttachment != ToDetailResponse(id, r).hasAttachment
            <==> r.attachmentPath == Some("")
  {
  }

  /** `toListResponseDto` with the detail page's test: the two views then always agree. */
  function ToListResponseCorrected(id: int, r: BoardRecord): (d: BoardListItem)
    ensures d.hasAttachment == ToDetailResponse(id, r).hasAttachment
    ensures d.(hasAttachment := ToListResponse(id, r).hasAttachment) == ToListResponse(id, r)
  {
    ToListResponse(id, r).(hasAttachment := r.attachmentPath.Some? && r.attachmentPath.value != "")
  }

  /** `toEntity(dto, member)`: a new post with no attachment. */
  method ToEntity(dto: BoardRequest, member: Member) returns (b: Board)
    ensures fresh(b)
    ensures b.Record() == BoardRecord(member, dto.title, dto.content, 0, None, None, None)
  {
    b := new Board(member, dto.title, dto.content, None, None, None);
  }

  /** `toEntity(dto, member, path, name, size)`: the file fields copied verbatim. */
  method ToEntityWithFile(dto: BoardRequest, member: Member,
                          path: Option<string>, name: Option<string>, size: Option<int>)
    returns (b: Board)
    ensures fresh(b)
    ensures b.Record() == BoardRecord(member, dto.title, dto.content, 0, path, name, size)
  {
    b := new Board(member, dto.title, dto.content, path, name, size);
  }
}
