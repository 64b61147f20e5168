/** A customer inquiry: written by a member in WAITING status, and moved to
    COMPLETED when an administrator answers it. */
module Inquiries {
  import opened Common
  import opened Members

  datatype InquiryStatus = Waiting | Completed

  /** The value of an inquiry's fields at one moment; also a row of the table. */
  datatype InquiryRecord = InquiryRecord(
    member: Member,
    title: string,
    content: string,
    answer: Option<string>,
    status: InquiryStatus,
    answeredAt: Option<int>,
    answerer: Option<Member>)

  /** A new inquiry: waiting, with no answer, answerer or answer time. */
  function Opened(member: Member, title: string, content: string): (r: InquiryRecord)
    ensures r.status == Waiting && r.answer.None? && r.answerer.None? && r.answeredAt.None?
    ensures r.member == member && r.title == title && r.content == content
  {
    InquiryRecord(member, title, content, None, Waiting, None, None)
  }

  /** The inquiry after `addAnswer(answer, answerer)` at time `now`. */
  function Answered(r: InquiryRecord, answer: Option<string>, answerer: Option<Member>, now: int)
    : (u: InquiryRecord)
    ensures u.status == Completed && u.answer == answer && u.answerer == answerer && u.answeredAt == Some(now)
    ensures u.member == r.member && u.title == r.title && u.content == r.content
  {
    r.(answer := answer, answerer := answerer, status := Completed, answeredAt := Some(now))
  }

  /** There is no guard: answering a completed inquiry again replaces the
      answer, answerer and time, and it stays completed. */
  lemma AnswerAgainOverwrites(r: InquiryRecord, a1: Option<string>, m1: Option<Member>, t1: int,
                              a2: Option<string>, m2: Option<Member>, t2: int)
    ensures Answered(Answered(r, a1, m1, t1), a2, m2, t2) == Answered(r, a2, m2, t2)
    ensures Answered(Answered(r, a1, m1, t1), a2, m2, t2).status == Completed
  {
  }

  class Inquiry {
    var member: Member
    var title: string
    var content: string
    var answer: Option<string>
    var status: InquiryStatus
    var answeredAt: Option<int>
    var answerer: Option<Member>

    function Record(): InquiryRecord
      reads this
    {
      InquiryRecord(member, title, content, answer, status, answeredAt, answerer)
    }

    /** The builder: every new inquiry starts waiting. */
    constructor (member: Member, title: string, content: string)
      ensures Record() == Opened(member, title, content)
    {
      this.member := member;
      this.title := title;
      this.content := content;
      answer := None;
      status := Waiting;
      answeredAt := None;
      answerer := None;
    }

    /** `addAnswer`: the clock reading is the caller's `now`. */
    method AddAnswer(answer: Option<string>, answerer: Option<Member>, now: int)
      modifies this
      ensures Record() == Answered(old(Record()), answer, answerer, now)
    {
      this.answer := answer;
      this.answerer := answerer;
      status := Completed;
      answeredAt := Some(now);
    }
  }
}
