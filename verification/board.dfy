/** The board post entity: owner, title, content, a Java `int` view counter and
    the attachment triple (stored path, original name, size). */
module Boards {
  import opened Common
  import opened Members

  /** The value of a post's fields at one moment; also a row of the board table. */
  datatype BoardRecord = BoardRecord(
    member: Member,
    title: string,
    content: string,
    viewCount: int,
    attachmentPath: Option<string>,
    attachmentName: Option<string>,
    attachmentSize: Option<int>)
  {
    /** `isAuthor(memberId)`: the owning member's id is `memberId`. */
    predicate IsAuthor(memberId: int) {
      member.id == memberId
    }

    predicate HasNoAttachment() {
      attachmentPath.None? && attachmentName.None? && attachmentSize.None?
    }

    /** What the service keeps true of every stored post: a path comes with a
        size and no path means no attachment at all. The name alone may be null,
        because the upload's original file name may be. */
    predicate AttachmentCoherent() {
      && (attachmentPath.None? <==> attachmentSize.None?)
      && (attachmentPath.None? ==> attachmentName.None?)
    }
  }

  /** `viewCount++` on a Java `int`. */
  function NextViewCount(v: int): (r: int)
    requires InIntRange(v)
    ensures InIntRange(r)
    ensures v < IntMax ==> r == v + 1
    ensures v == IntMax ==> r == IntMin
  {
    WrapInt(v + 1)
  }

  /** The counter after `n` increments. */
  function ViewCountAfter(v: int, n: nat): (r: int)
    requires InIntRange(v)
    ensures InIntRange(r)
  {
    if n == 0 then v else NextViewCount(ViewCountAfter(v, n - 1))
  }

  /** `n` increments add `n` modulo 2^32, and exactly `n` while the sum stays in `int` range. */
  lemma {:induction false} ViewCountAfterAdds(v: int, n: nat)
    requires InIntRange(v)
    ensures ViewCountAfter(v, n) == WrapInt(v + n)
    ensures v + n <= IntMax ==> ViewCountAfter(v, n) == v + n
  {
    if n > 0 {
      ViewCountAfterAdds(v, n - 1);
      WrapIntSucc(v + n - 1);
    }
  }

  /** Adding one after a wrap is the same as wrapping after adding one. */
  lemma WrapIntSucc(x: int)
    ensures WrapInt(WrapInt(x) + 1) == WrapInt(x + 1)
  {
    var a := x - IntMin;
    var q := a % IntModulus;
    assert a == (a / IntModulus) * IntModulus + q;
    assert a + 1 == (a / IntModulus) * IntModulus + (q + 1);
    if q + 1 < IntModulus {
      assert (a + 1) % IntModulus == q + 1;
    } else {
      assert (a + 1) % IntModulus == 0;
    }
  }

  /** The post after `incrementViewCount`. */
  function Viewed(r: BoardRecord): (u: BoardRecord)
    requires InIntRange(r.viewCount)
    ensures u.viewCount == NextViewCount(r.viewCount)
    ensures u.(viewCount := r.viewCount) == r
  {
    r.(viewCount := NextViewCount(r.viewCount))
  }

  /** The post after `update(title, content, path, name, size)`. */
  function Updated(r: BoardRecord, title: string, content: string,
                   path: Option<string>, name: Option<string>, size: Option<int>): (u: BoardRecord)
    ensures u.title == title && u.content == content
    ensures u.member == r.member && u.viewCount == r.viewCount
    ensures path.Some? ==> (u.attachmentPath, u.attachmentName, u.attachmentSize) == (path, name, size)
    ensures path.None? ==> (u.attachmentPath, u.attachmentName, u.attachmentSize)
                           == (r.attachmentPath, r.attachmentName, r.attachmentSize)
    ensures r.AttachmentCoherent() && (path.Some? ==> size.Some?) ==> u.AttachmentCoherent()
  {
    if path.Some? then
      r.(title := title, content := content,
         attachmentPath := path, attachmentName := name, attachmentSize := size)
    else
      r.(title := title, content := content)
  }

  /** The post after `removeAttachment`. */
  function Cleared(r: BoardRecord): (u: BoardRecord)
    ensures u.HasNoAttachment() && u.AttachmentCoherent()
    ensures u.member == r.member && u.title == r.title && u.content == r.content
    ensures u.viewCount == r.viewCount
  {
    r.(attachmentPath := None, attachmentName := None, attachmentSize := None)
  }

  /** The three attachment fields only ever change together: an update either
      installs the whole new triple or leaves the whole old one. */
  lemma UpdateMovesTripleTogether(r: BoardRecord, title: string, content: string,
                                  path: Option<string>, name: Option<string>, size: Option<int>)
    ensures var u := Updated(r, title, content, path, name, size);
            || (u.attachmentPath, u.attachmentName, u.attachmentSize) == (path, name, size)
            || (u.attachmentPath, u.attachmentName, u.attachmentSize)
               == (r.attachmentPath, r.attachmentName, r.attachmentSize)
  {
  }

  /** No operation on a post changes its owner, so whoever is its author stays
      its author: counting a view, updating and clearing the attachment. */
  lemma AuthorshipIsFixed(r: BoardRecord, memberId: int, title: string, content: string,
                          path: Option<string>, name: Option<string>, size: Option<int>)
    requires InIntRange(r.viewCount)
    ensures Viewed(r).IsAuthor(memberId) <==> r.IsAuthor(memberId)
    ensures Updated(r, title, content, path, name, size).IsAuthor(memberId) <==> r.IsAuthor(memberId)
    ensures Cleared(r).IsAuthor(memberId) <==> r.IsAuthor(memberId)
  {
  }

  class Board {
    var member: Member
    var title: string
    var content: string
    var viewCount: int
    var attachmentPath: Option<string>
    var attachmentName: Option<string>
    var attachmentSize: Option<int>

    function Record(): BoardRecord
      reads this
    {
      BoardRecord(member, title, content, viewCount, attachmentPath, attachmentName, attachmentSize)
    }

    /** The builder: whatever else is supplied, a new post has not been viewed. */
    constructor (member: Member, title: string, content: string,
                 attachmentPath: Option<string>, attachmentName: Option<string>,
                 attachmentSize: Option<int>)
      ensures Record() == BoardRecord(member, title, content, 0,
                                      attachmentPath, attachmentName, attachmentSize)
    {
      this.member := member;
      this.title := title;
      this.content := content;
      this.attachmentPath := attachmentPath;
      this.attachmentName := attachmentName;
      this.attachmentSize := attachmentSize;
      this.viewCount := 0;
    }

    /** The persistence layer materialising a stored row as a managed entity. */
    constructor Load(r: BoardRecord)
      ensures Record() == r
    {
      member := r.member;
      title := r.title;
      content := r.content;
      viewCount := r.viewCount;
      attachmentPath := r.attachmentPath;
      attachmentName := r.attachmentName;
      attachmentSize := r.attachmentSize;
    }

    method IncrementViewCount()
      requires InIntRange(viewCount)
      modifies this
      ensures Record() == Viewed(old(Record()))
    {
      viewCount := NextViewCount(viewCount);
    }

    method Update(title: string, content: string,
                  attachmentPath: Option<string>, attachmentName: Option<string>,
                  attachmentSize: Option<int>)
      modifies this
      ensures Record() == Updated(old(Record()), title, content,
                                  attachmentPath, attachmentName, attachmentSize)
    {
      this.title := title;
      this.content := content;
      if attachmentPath.Some? {
        this.attachmentPath := attachmentPath;
        this.attachmentName := attachmentName;
        this.attachmentSize := attachmentSize;
      }
    }

    method RemoveAttachment()
      modifies this
      ensures Record() == Cleared(old(Record()))
    {
      attachmentPath := None;
      attachmentName := None;
      attachmentSize := None;
    }

    /** `isAuthor(memberId)` on the entity: its owner's id is `memberId`,
        exactly when the stored row says so. */
    predicate IsAuthor(memberId: int)
      reads this
      ensures IsAuthor(memberId) <==> member.id == memberId
    {
      Record().IsAuthor(memberId)
    }
  }
}
