/**
 * The free-board post form (pages/write.tsx): one guard on the two fields, no login
 * check, the post record it builds, whether the store takes it, and where the page
 * goes afterwards.
 */
module FreeWrite {
  import opened Wrappers
  import opened Store
  import opened Session

  const FieldsRequired: string := "제목과 내용을 모두 입력해주세요."
  const SubmitFailed: string := "게시글 등록 중 오류가 발생했습니다."
  const Submitted: string := "게시글이 등록되었습니다!"
  const HomePath: string := "/"

  /** The document written to `posts`; `authorId` is `user?.uid`, absent for a signed-out visitor. */
  datatype PostData = PostData(title: string, content: string, authorId: Option<string>, authorEmail: string)

  /** The field guard and the record it builds; there is no login check. */
  function CheckPost(user: Option<User>, title: string, content: string): (r: Result<PostData, string>)
    ensures r.Failure? <==> title == "" || content == ""
    ensures r.Failure? ==> r.error == FieldsRequired
    ensures r.Success? ==> r.value.title == title && r.value.content == content
    ensures r.Success? ==> r.value.authorId == Uid(user) && r.value.authorEmail == AuthorEmail(user)
  {
    if title == "" || content == "" then Failure(FieldsRequired)
    else Success(PostData(title, content, Uid(user), AuthorEmail(user)))
  }

  /** For a visitor who is not signed in the guard builds a record with author `익명` and no author id. */
  lemma SignedOutPostsAnonymously(title: string, content: string)
    requires title != "" && content != ""
    ensures CheckPost(None, title, content) == Success(PostData(title, content, None, Anonymous))
  {
  }

  /**
   * Whether `addDoc` takes the record. Firestore refuses a field whose value is `undefined`
   * unless the instance was set up with `ignoreUndefinedProperties`, which drops the field
   * instead; services/firebase.ts, where that choice is made, is not part of this model.
   */
  predicate Accepted(d: PostData, ignoreUndefined: bool) {
    d.authorId.Some? || ignoreUndefined
  }

  /** Under the default settings a signed-out visitor's post is refused; a signed-in user's never is. */
  lemma SignedOutRefusedByDefault(user: Option<User>, title: string, content: string, ignoreUndefined: bool)
    requires title != "" && content != ""
    ensures Accepted(CheckPost(user, title, content).value, ignoreUndefined) <==> user.Some? || ignoreUndefined
  {
  }

  /** The page's state. `navigatedTo` records `router.push`. */
  class WritePage {
    const store: Collection<PostData>
    var title: string
    var content: string
    var error: string
    var navigatedTo: Option<string>

    ghost predicate Valid()
      reads this, store
    {
      store.Valid()
    }

    constructor (store: Collection<PostData>)
      requires store.Valid()
      ensures Valid() && this.store == store
      ensures title == "" && content == "" && error == "" && navigatedTo == None
    {
      this.store := store;
      title := "";
      content := "";
      error := "";
      navigatedTo := None;
    }

    /**
     * `handleSubmit`. `ignoreUndefined` is the store's `ignoreUndefinedProperties` setting;
     * `fail` says whether the store rejects an acceptable write for any other reason;
     * `alert` is the `alert()` message.
     */
    method HandleSubmit(user: Option<User>, ignoreUndefined: bool, fail: bool) returns (alert: Option<string>)
      requires Valid()
      modifies this`error, this`navigatedTo, store
      ensures Valid()
      ensures var r := CheckPost(user, title, content);
        && (r.Failure? ==>
              && error == r.error && navigatedTo == old(navigatedTo) && alert == None
              && store.docs == old(store.docs) && store.calls == old(store.calls))
        && (r.Success? && !Accepted(r.value, ignoreUndefined) ==>
              && error == SubmitFailed && navigatedTo == old(navigatedTo) && alert == None
              && store.docs == old(store.docs) && store.calls == old(store.calls))
        && (r.Success? && Accepted(r.value, ignoreUndefined) ==>
              && store.calls == old(store.calls) + 1
              && (fail ==> error == SubmitFailed && store.docs == old(store.docs) && navigatedTo == old(navigatedTo) && alert == None)
              && (!fail ==>
                    && |store.docs| == |old(store.docs)| + 1 && store.docs[..|old(store.docs)|] == old(store.docs)
                    && store.docs[|old(store.docs)|].data == r.value
                    && error == old(error) && alert == Some(Submitted) && navigatedTo == Some(HomePath)))
    {
      alert := None;
      var r := CheckPost(user, title, content);
      if r.Failure? {
        error := r.error;
        return;
      }
      if !Accepted(r.value, ignoreUndefined) {
        error := SubmitFailed;
        return;
      }
      var ok, key := store.Add(r.value, fail);
      if ok {
        alert := Some(Submitted);
        navigatedTo := Some(HomePath);
      } else {
        error := SubmitFailed;
      }
    }
  }
}
