/**
 * The question form (pages/qna/write.tsx): the login and field guards of
 * `handleSubmit`, the question record it writes, and where the page goes afterwards.
 */
module QnaWrite {
  import opened Wrappers
  import opened Store
  import opened Session

  const LoginRequired: string := "로그인이 필요합니다."
  const FieldsRequired: string := "제목과 내용을 모두 입력해주세요."
  const SubmitFailed: string := "질문 등록 중 오류가 발생했습니다."
  const Submitted: string := "질문이 등록되었습니다!"
  const ListPath: string := "/qna"

  /** The record `addQnaPost` receives; the store adds the server timestamp. */
  datatype QuestionData = QuestionData(title: string, content: string, authorEmail: string, authorId: string)

  /** The guards in their order (login first, then both fields, untrimmed) and the record they let through. */
  function CheckQuestion(user: Option<User>, title: string, content: string): (r: Result<QuestionData, string>)
    ensures r.Failure? <==> user.None? || title == "" || content == ""
    ensures user.None? ==> r == Failure(LoginRequired)
    ensures user.Some? && r.Failure? ==> r.error == FieldsRequired
    ensures r.Success? ==> r.value.title == title && r.value.content == content
    ensures r.Success? ==> r.value.authorEmail == AuthorEmail(user) && r.value.authorId == user.value.uid
  {
    if user.None? then Failure(LoginRequired)
    else if title == "" || content == "" then Failure(FieldsRequired)
    else Success(QuestionData(title, content, AuthorEmail(user), user.value.uid))
  }

  /** There is no trim: a title and content of blanks only are accepted. */
  lemma BlankFieldsAccepted(u: User)
    ensures CheckQuestion(Some(u), " ", " ").Success?
  {
  }

  /** The page's state. `navigatedTo` records `router.push`. */
  class QnaWritePage {
    const store: Collection<QuestionData>
    var title: string
    var content: string
    var error: string
    var navigatedTo: Option<string>

    ghost predicate Valid()
      reads this, store
    {
      store.Valid()
    }

    constructor (store: Collection<QuestionData>)
      requires store.Valid()
      ensures Valid() && this.store == store
      ensures title == "" && content == "" && error == "" && navigatedTo == None
    {
      this.store := store;
      title := "";
      content := "";
      error := "";
      navigatedTo := None;
    }

    /**
     * `handleSubmit`; `fail` says whether the store rejects the write and `alert` is the
     * message shown with `alert()`. The error is not cleared before the guards run.
     */
    method HandleSubmit(user: Option<User>, fail: bool) returns (alert: Option<string>)
      requires Valid()
      modifies this`error, this`navigatedTo, store
      ensures Valid()
      ensures var r := CheckQuestion(user, title, content);
        && (r.Failure? ==>
              && error == r.error && navigatedTo == old(navigatedTo) && alert == None
              && store.docs == old(store.docs) && store.calls == old(store.calls))
        && (r.Success? ==>
              && store.calls == old(store.calls) + 1
              && (fail ==> error == SubmitFailed && store.docs == old(store.docs) && navigatedTo == old(navigatedTo) && alert == None)
              && (!fail ==>
                    && |store.docs| == |old(store.docs)| + 1 && store.docs[..|old(store.docs)|] == old(store.docs)
                    && store.docs[|old(store.docs)|].data == r.value
                    && error == old(error) && alert == Some(Submitted) && navigatedTo == Some(ListPath)))
    {
      alert := None;
      var r := CheckQuestion(user, title, content);
      if r.Failure? {
        error := r.error;
        return;
      }
      var ok, key := store.Add(r.value, fail);
      if ok {
        alert := Some(Submitted);
        navigatedTo := Some(ListPath);
      } else {
        error := SubmitFailed;
      }
    }
  }
}
