/**
 * The comment form (components/QnaCommentForm.tsx): the checks `handleSubmit` runs
 * before it writes, the document it writes, and what the form shows afterwards.
 */
module CommentForm {
  import opened Wrappers
  import opened Store
  import opened Session
  import opened Text
  import opened CommentTree

  const LoginRequired: string := "로그인이 필요합니다."
  const ContentRequired: string := "내용을 입력해주세요."
  const SubmitFailed: string := "댓글 등록 중 오류가 발생했습니다."

  /**
   * The guards of `handleSubmit` in their order, and the document it sends when they pass.
   * `now` is the client clock (`new Date()`).
   */
  function CheckComment(user: Option<User>, content: string, parentId: Option<string>, now: Timestamp): (r: Result<CommentData, string>)
    ensures r.Failure? <==> user.None? || forall i :: 0 <= i < |content| ==> IsJsWhitespace(content[i])
    ensures user.None? ==> r == Failure(LoginRequired)
    ensures user.Some? && r.Failure? ==> r.error == ContentRequired
    ensures r.Success? ==> r.value.content == Some(content) && r.value.createdAt == Some(now)
    ensures r.Success? ==> r.value.authorEmail == Some(AuthorEmail(user)) && r.value.authorId == Some(user.value.uid)
    ensures r.Success? ==> r.value.parentId == OrNull(parentId)
  {
    TrimEmptyIffBlank(content);
    if user.None? then Failure(LoginRequired)
    else if Trim(content) == "" then Failure(ContentRequired)
    else Success(CommentData(Some(content), Some(AuthorEmail(user)), Some(user.value.uid), Some(now), OrNull(parentId)))
  }

  /**
   * A submitted comment reads back from the store as written: the untrimmed text, the
   * author, and a parent that is `null` for a top-level comment.
   */
  lemma SubmittedReadsBack(user: Option<User>, content: string, parentId: Option<string>, now: Timestamp, key: string)
    requires CheckComment(user, content, parentId, now).Success?
    ensures Normalise(Doc(key, CheckComment(user, content, parentId, now).value))
      == Comment(key, content, AuthorEmail(user), user.value.uid, Some(now), OrNull(parentId))
  {
  }

  /** A submitted comment carries its time, so the reloaded list shows it after every earlier one. */
  lemma SubmittedIsListedLast(ds: seq<Doc<CommentData>>, user: Option<User>, content: string, parentId: Option<string>, now: Timestamp, key: string)
    requires CheckComment(user, content, parentId, now).Success?
    ensures var d := Doc(key, CheckComment(user, content, parentId, now).value);
      NormaliseAll(Dated(ds + [d])) == NormaliseAll(Dated(ds)) + [Normalise(d)]
  {
    var d := Doc(key, CheckComment(user, content, parentId, now).value);
    DatedAppend(ds, d);
    NormaliseAllAppend(Dated(ds), d);
  }

  /** A reply form passes its comment's id; the top-level form passes nothing. */
  lemma ReplyHangsUnderParent(user: Option<User>, content: string, parent: Comment, now: Timestamp, key: string)
    requires CheckComment(user, content, Some(parent.id), now).Success? && parent.id != ""
    ensures Normalise(Doc(key, CheckComment(user, content, Some(parent.id), now).value)).parentId == Some(parent.id)
  {
  }

  /** The form's state: the text being typed and the error shown under it. */
  class CommentFormState {
    const postId: string
    const parentId: Option<string>
    const store: Collection<CommentData>
    var content: string
    var error: string

    ghost predicate Valid()
      reads this, store
    {
      store.Valid()
    }

    constructor (postId: string, parentId: Option<string>, store: Collection<CommentData>)
      requires store.Valid()
      ensures Valid() && this.postId == postId && this.parentId == parentId && this.store == store
      ensures content == "" && error == ""
    {
      this.postId := postId;
      this.parentId := parentId;
      this.store := store;
      content := "";
      error := "";
    }

    /** The textarea's `onChange`. */
    method SetContent(text: string)
      modifies this`content
      ensures content == text && error == old(error)
    {
      content := text;
    }

    /**
     * `handleSubmit`. `fail` says whether the store rejects the write and `hasCallback`
     * whether `onCommentAdded` was given; `called` is whether it was invoked.
     */
    method HandleSubmit(user: Option<User>, now: Timestamp, fail: bool, hasCallback: bool) returns (called: bool)
      requires Valid()
      modifies this`content, this`error, store
      ensures Valid()
      ensures var r := CheckComment(user, old(content), parentId, now);
        && (r.Failure? ==>
              && error == r.error && content == old(content) && !called
              && store.docs == old(store.docs) && store.calls == old(store.calls))
        && (r.Success? ==>
              && store.calls == old(store.calls) + 1
              && (fail ==> store.docs == old(store.docs) && error == SubmitFailed && content == old(content) && !called)
              && (!fail ==>
                    && |store.docs| == |old(store.docs)| + 1 && store.docs[..|old(store.docs)|] == old(store.docs)
                    && store.docs[|old(store.docs)|].data == r.value
                    && error == "" && content == "" && called == hasCallback))
    {
      called := false;
      error := "";
      var r := CheckComment(user, content, parentId, now);
      if r.Failure? {
        error := r.error;
        return;
      }
      var ok, key := store.Add(r.value, fail);
      if ok {
        content := "";
        if hasCallback {
          called := true;
        }
      } else {
        error := SubmitFailed;
      }
    }
  }
}
