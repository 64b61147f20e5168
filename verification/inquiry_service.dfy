/** The inquiry service: creating an inquiry, reading one's own inquiry, and
    listing and counting a member's inquiries newest first. The table is a
    sequence of rows in insertion order, each with its id and creation time. */
module InquiryServices {
  import opened Common
  import opened Members
  import opened Inquiries

  datatype InquiryRow = InquiryRow(id: int, createdAt: int, record: InquiryRecord)

  datatype InquiryError = InquiryNotFound | AccessDenied

  /** The submitted form (title and content, checked non-blank by the controller). */
  datatype InquiryRequest = InquiryRequest(title: string, content: string)

  /** `i.member = :member`: the row's author is the member with this id. */
  predicate Owns(row: InquiryRow, memberId: int) {
    row.record.member.id == memberId
  }

  /** The row with this id, if any. */
  function FindRow(rows: seq<InquiryRow>, id: int): (r: Option<InquiryRow>)
    ensures r.Some? ==> r.value in rows && r.value.id == id
    ensures r.None? ==> forall i :: 0 <= i < |rows| ==> rows[i].id != id
  {
    if rows == [] then None
    else if rows[0].id == id then Some(rows[0])
    else FindRow(rows[1..], id)
  }

  /** The member's rows, in table order. */
  function Mine(rows: seq<InquiryRow>, memberId: int): (r: seq<InquiryRow>)
    ensures forall x :: x in r ==> x in rows && Owns(x, memberId)
    ensures forall x :: x in rows && Owns(x, memberId) ==> x in r
    ensures |r| <= |rows|
  {
    if rows == [] then []
    else (if Owns(rows[0], memberId) then [rows[0]] else []) + Mine(rows[1..], memberId)
  }

  /** `countByMember`: the number of rows the member wrote. */
  function CountMine(rows: seq<InquiryRow>, memberId: int): (n: nat)
    ensures n <= |rows|
  {
    if rows == [] then 0
    else (if Owns(rows[0], memberId) then 1 else 0) + CountMine(rows[1..], memberId)
  }

  predicate NewestFirst(s: seq<InquiryRow>) {
    forall i, j :: 0 <= i < j < |s| ==> s[i].createdAt >= s[j].createdAt
  }

  /** A row at least as new as every row of a newest-first list may go in
      front of it. */
  lemma PrependKeepsOrder(y: InquiryRow, t: seq<InquiryRow>)
    requires NewestFirst(t)
    requires forall k :: 0 <= k < |t| ==> t[k].createdAt <= y.createdAt
    ensures NewestFirst([y] + t)
  {
    forall i, j | 0 <= i < j < |[y] + t|
      ensures ([y] + t)[i].createdAt >= ([y] + t)[j].createdAt
    {
      assert ([y] + t)[j] == t[j - 1];
      if i > 0 {
        assert ([y] + t)[i] == t[i - 1];
      }
    }
  }

  /** Rows drawn from the tail of a newest-first list, or older than its
      head, are none of them newer than its head. */
  lemma NoneNewerThanHead(x: InquiryRow, s: seq<InquiryRow>, t: seq<InquiryRow>)
    requires NewestFirst(s) && s != [] && x.createdAt < s[0].createdAt
    requires forall k :: 0 <= k < |t| ==> t[k] == x || t[k] in s[1..]
    ensures forall k :: 0 <= k < |t| ==> t[k].createdAt <= s[0].createdAt
  {
    forall k | 0 <= k < |t|
      ensures t[k].createdAt <= s[0].createdAt
    {
      if t[k] != x {
        var m :| 0 <= m < |s[1..]| && s[1..][m] == t[k];
        assert s[m + 1] == t[k];
      }
    }
  }

  /** One step of the sort: put `x` before the first row that is not newer. */
  function Insert(x: InquiryRow, s: seq<InquiryRow>): (r: seq<InquiryRow>)
    requires NewestFirst(s)
    ensures NewestFirst(r)
    ensures multiset(r) == multiset(s) + multiset{x}
    ensures forall k :: 0 <= k < |r| ==> r[k] == x || r[k] in s
    ensures |r| == |s| + 1
  {
    if s == [] then [x]
    else if x.createdAt >= s[0].createdAt then
      PrependKeepsOrder(x, s);
      [x] + s
    else
      var t := Insert(x, s[1..]);
      NoneNewerThanHead(x, s, t);
      PrependKeepsOrder(s[0], t);
      assert s == [s[0]] + s[1..];
      [s[0]] + t
  }

  /** `ORDER BY createdAt DESC`: newest first, equal times keeping table order. */
  function SortNewestFirst(s: seq<InquiryRow>): (r: seq<InquiryRow>)
    ensures NewestFirst(r)
    ensures multiset(r) == multiset(s)
    ensures |r| == |s|
  {
    if s == [] then []
    else
      assert s == [s[0]] + s[1..];
      Insert(s[0], SortNewestFirst(s[1..]))
  }

  /** `findByMemberOrderByCreatedAtDesc`, without the paging. */
  function MyInquiries(rows: seq<InquiryRow>, memberId: int): (r: seq<InquiryRow>)
    ensures NewestFirst(r)
    ensures multiset(r) == multiset(Mine(rows, memberId))
    ensures forall x :: x in r ==> x in rows && Owns(x, memberId)
    ensures forall x :: x in rows && Owns(x, memberId) ==> x in r
  {
    var r := SortNewestFirst(Mine(rows, memberId));
    assert forall x :: x in r ==> x in multiset(Mine(rows, memberId));
    assert forall x :: x in Mine(rows, memberId) ==> x in multiset(r);
    r
  }

  /** The count and the list agree: the list holds every one of the
      member's rows exactly once. */
  lemma {:induction false} CountIsListLength(rows: seq<InquiryRow>, memberId: int)
    ensures CountMine(rows, memberId) == |Mine(rows, memberId)| == |MyInquiries(rows, memberId)|
  {
    if rows != [] {
      CountIsListLength(rows[1..], memberId);
    }
    var m := Mine(rows, memberId);
    assert |multiset(MyInquiries(rows, memberId))| == |multiset(m)|;
  }

  class InquiryService {
    var rows: seq<InquiryRow>
    var nextId: int

    /** Ids are handed out in increasing order, so they are distinct. */
    predicate Valid()
      reads this
    {
      && nextId >= 1
      && (forall i :: 0 <= i < |rows| ==> 1 <= rows[i].id < nextId)
      && (forall i, j :: 0 <= i < j < |rows| ==> rows[i].id < rows[j].id)
    }

    constructor ()
      ensures rows == [] && nextId == 1 && Valid()
    {
      rows := [];
      nextId := 1;
    }

    /** `createInquiry`: one waiting inquiry is appended, created at `now`,
        and its new id is returned. */
    method CreateInquiry(member: Member, dto: InquiryRequest, now: int) returns (id: int)
      requires Valid()
      modifies this
      ensures Valid()
      ensures id == old(nextId) && nextId == old(nextId) + 1
      ensures rows == old(rows) + [InquiryRow(id, now, Opened(member, dto.title, dto.content))]
      ensures FindRow(rows, id) == Some(rows[|rows| - 1])
    {
      var inquiry := new Inquiry(member, dto.title, dto.content);
      id := nextId;
      rows := rows + [InquiryRow(id, now, inquiry.Record())];
      nextId := nextId + 1;
      FindLast(old(rows), rows[|rows| - 1]);
    }

    /** `getInquiryDetail(id, member)`: an unknown id fails, and so does any
        caller other than the author (administrators included). */
    function GetInquiryDetail(id: int, member: Member): (r: Result<InquiryRow, InquiryError>)
      requires Valid()
      reads this
      ensures r == Err(InquiryNotFound) <==> forall i :: 0 <= i < |rows| ==> rows[i].id != id
      ensures forall i :: 0 <= i < |rows| && rows[i].id == id ==>
                && (r.Ok? <==> Owns(rows[i], member.id))
                && (r.Ok? ==> r.value == rows[i])
                && (r.Err? ==> r.error == AccessDenied)
    {
      FindRowFindsEach(rows, id);
      match FindRow(rows, id)
      case None => Err(InquiryNotFound)
      case Some(row) => if Owns(row, member.id) then Ok(row) else Err(AccessDenied)
    }

    /** `getMyInquiries(member)` without the paging. */
    function GetMyInquiries(member: Member): (r: seq<InquiryRow>)
      reads this
      ensures NewestFirst(r)
      ensures multiset(r) == multiset(Mine(rows, member.id))
      ensures forall x :: x in r ==> x in rows && Owns(x, member.id)
      ensures forall x :: x in rows && Owns(x, member.id) ==> x in r
    {
      MyInquiries(rows, member.id)
    }

    /** `countMyInquiries(member)`: the number of rows the member wrote, which
        is as many as the list shows. */
    function CountMyInquiries(member: Member): (n: nat)
      reads this
      ensures n == CountMine(rows, member.id)
      ensures n == |GetMyInquiries(member)|
    {
      CountIsListLength(rows, member.id);
      CountMine(rows, member.id)
    }
  }

  /** With increasing ids, the row carrying an id is the one found under it. */
  lemma {:induction false} FindRowUnique(rows: seq<InquiryRow>, id: int, i: int)
    requires forall a, b :: 0 <= a < b < |rows| ==> rows[a].id < rows[b].id
    requires 0 <= i < |rows| && rows[i].id == id
    ensures FindRow(rows, id) == Some(rows[i])
  {
    if i > 0 {
      assert rows[0].id < rows[i].id;
      FindRowUnique(rows[1..], id, i - 1);
    }
  }

  lemma FindRowFindsEach(rows: seq<InquiryRow>, id: int)
    requires forall a, b :: 0 <= a < b < |rows| ==> rows[a].id < rows[b].id
    ensures forall i :: 0 <= i < |rows| && rows[i].id == id ==> FindRow(rows, id) == Some(rows[i])
  {
    forall i | 0 <= i < |rows| && rows[i].id == id
      ensures FindRow(rows, id) == Some(rows[i])
    {
      FindRowUnique(rows, id, i);
    }
  }

  /** With increasing ids, the last row is the one found under its id. */
  lemma {:induction false} FindLast(rows: seq<InquiryRow>, x: InquiryRow)
    requires forall i :: 0 <= i < |rows| ==> rows[i].id < x.id
    ensures FindRow(rows + [x], x.id) == Some(x)
  {
    if rows != [] {
      assert (rows + [x])[1..] == rows[1..] + [x];
      FindLast(rows[1..], x);
    }
  }
}
