/**
 * The Q&A comment list component (components/QnaCommentList.tsx) as a state machine:
 * the loaded `comments`, the id whose reply form is open, the handlers that replace
 * them, and what the rendered page offers to the signed-in user.
 */
module CommentListView {
  import opened Wrappers
  import opened Store
  import opened Session
  import opened CommentTree

  /** The 답글 (reply) button is shown to any signed-in user. */
  predicate CanReply(user: Option<User>): (r: bool)
    ensures r <==> Uid(user).Some?
  {
    user.Some?
  }

  /**
   * The 삭제 (delete) button is shown only to the comment's author: `user?.uid === comment.authorId`.
   * Whoever sees it also sees the reply button.
   */
  predicate CanDelete(user: Option<User>, c: Comment): (r: bool)
    ensures r <==> Uid(user) == Some(c.authorId)
    ensures r ==> CanReply(user)
  {
    user.Some? && user.value.uid == c.authorId
  }

  /**
   * A comment stored without an author id is normalised to the author id "", so no user
   * with a real uid is offered its delete button.
   */
  lemma NoAuthorNoDelete(user: Option<User>, d: Doc<CommentData>)
    requires d.data.authorId.None? || d.data.authorId == Some("")
    requires user.Some? ==> user.value.uid != ""
    ensures !CanDelete(user, Normalise(d))
  {
  }

  /** How many rendered comments show the reply form: those whose id is `replyingTo`. */
  function FormsShown(r: seq<Entry>, replyingTo: Option<string>): (n: nat)
    ensures n <= |r|
    ensures replyingTo.None? ==> n == 0
  {
    if r == [] then 0
    else (if Some(r[0].node.id) == replyingTo then 1 else 0) + FormsShown(r[1..], replyingTo)
  }

  lemma {:induction false} NoneShown(r: seq<Entry>, replyingTo: Option<string>)
    requires forall i :: 0 <= i < |r| ==> Some(r[i].node.id) != replyingTo
    ensures FormsShown(r, replyingTo) == 0
  {
    if r != [] {
      NoneShown(r[1..], replyingTo);
    }
  }

  lemma {:induction false} AtMostOneShown(cs: seq<Comment>, r: seq<Entry>, replyingTo: Option<string>)
    requires DistinctIds(cs) && NoRepeats(r)
    requires forall i :: 0 <= i < |r| ==> r[i].node in cs
    ensures FormsShown(r, replyingTo) <= 1
  {
    if r != [] {
      var tail := r[1..];
      assert NoRepeats(tail) by {
        forall i, j | 0 <= i < j < |tail| ensures tail[i].node != tail[j].node {
          assert tail[i] == r[i + 1] && tail[j] == r[j + 1];
        }
      }
      if Some(r[0].node.id) == replyingTo {
        forall i | 0 <= i < |tail| ensures Some(tail[i].node.id) != replyingTo {
          assert tail[i] == r[i + 1];
          assert r[0].node != r[i + 1].node;
          var a :| 0 <= a < |cs| && cs[a] == r[0].node;
          var b :| 0 <= b < |cs| && cs[b] == tail[i].node;
        }
        NoneShown(tail, replyingTo);
      } else {
        AtMostOneShown(cs, tail, replyingTo);
      }
    }
  }

  /** `replyingTo` holds a single id, so with distinct ids at most one reply form is open on the page. */
  lemma OneReplyForm(cs: seq<Comment>, replyingTo: Option<string>)
    requires DistinctIds(cs)
    ensures FormsShown(RenderComments(cs), replyingTo) <= 1
  {
    RenderShape(cs, None, 0, {});
    AtMostOneShown(cs, RenderComments(cs), replyingTo);
  }

  /** The component's state, over the comment collection of one question. */
  class CommentList {
    const postId: string
    const store: Collection<CommentData>
    var comments: seq<Comment>
    var replyingTo: Option<string>

    ghost predicate Valid()
      reads this, store
    {
      store.Valid() && DistinctIds(comments)
    }

    /** The first render: no comments yet, no reply form open. */
    constructor (postId: string, store: Collection<CommentData>)
      requires store.Valid()
      ensures Valid() && this.postId == postId && this.store == store
      ensures comments == [] && replyingTo == None
    {
      this.postId := postId;
      this.store := store;
      comments := [];
      replyingTo := None;
    }

    /**
     * `loadComments`: the list is replaced wholesale by the normalised documents the query
     * returns. Nothing catches a rejected read, so then the list keeps what it held.
     */
    method LoadComments(fail: bool)
      requires Valid()
      modifies this`comments
      ensures Valid() && replyingTo == old(replyingTo)
      ensures !fail ==> comments == NormaliseAll(Dated(store.docs))
      ensures fail ==> comments == old(comments)
    {
      var ok, res := store.Fetch(fail);
      if !ok {
        return;
      }
      DatedUnique(res);
      NormaliseAllKeepsDistinct(Dated(res));
      comments := NormaliseAll(Dated(res));
    }

    /**
     * `handleDelete`: nothing happens unless the confirmation is accepted; then the one
     * document is deleted and the list reloaded, the deleted comment's replies staying in it.
     * A rejected delete skips the reload; a rejected reload leaves the deleted comment shown.
     */
    method HandleDelete(confirmed: bool, commentId: string, deleteFails: bool, loadFails: bool)
      requires Valid()
      modifies this`comments, store
      ensures Valid() && replyingTo == old(replyingTo)
      ensures !confirmed ==> comments == old(comments) && store.docs == old(store.docs) && store.calls == old(store.calls)
      ensures confirmed ==> store.calls == old(store.calls) + 1
      ensures confirmed && deleteFails ==> store.docs == old(store.docs) && comments == old(comments)
      ensures confirmed && !deleteFails ==> store.docs == RemoveKey(old(store.docs), commentId)
      ensures confirmed && !deleteFails && !loadFails ==> comments == Without(NormaliseAll(Dated(old(store.docs))), commentId)
      ensures confirmed && !deleteFails && loadFails ==> comments == old(comments)
    {
      if !confirmed {
        return;
      }
      var ok := store.Delete(commentId, deleteFails);
      if !ok {
        return;
      }
      DatedRemoveKey(old(store.docs), commentId);
      NormaliseRemoveKey(Dated(old(store.docs)), commentId);
      LoadComments(loadFails);
    }

    /** The reply button: opens the form under that comment, closing any other. */
    method StartReply(commentId: string)
      modifies this`replyingTo
      ensures replyingTo == Some(commentId) && comments == old(comments)
    {
      replyingTo := Some(commentId);
    }

    /** `onCommentAdded` of the reply form: the form closes and the list is reloaded. */
    method CommentAdded(loadFails: bool)
      requires Valid()
      modifies this`comments, this`replyingTo
      ensures Valid() && replyingTo == None
      ensures !loadFails ==> comments == NormaliseAll(Dated(store.docs))
      ensures loadFails ==> comments == old(comments)
    {
      replyingTo := None;
      LoadComments(loadFails);
    }

    /**
     * `💬 댓글 {comments.length}개`: never fewer than the comments shown below it, and as
     * many exactly when every comment hangs under a top-level one.
     */
    function Header(): (n: nat)
      reads this
      ensures n == |comments|
      ensures DistinctIds(comments) ==> |Shown()| <= n
      ensures DistinctIds(comments) ==> (|Shown()| == n <==> forall i :: 0 <= i < |comments| ==> Reachable(comments, comments[i]))
    {
      HeaderCount(comments)
    }

    /** The forest under the header: `renderComments(null)`, with at most one reply form open. */
    function Shown(): (r: seq<Entry>)
      reads this
      ensures forall e :: e in r ==> e.node in comments
      ensures DistinctIds(comments) ==> NoRepeats(r) && FormsShown(r, replyingTo) <= 1
    {
      if DistinctIds(comments) then OneReplyForm(comments, replyingTo); RenderComments(comments)
      else RenderComments(comments)
    }
  }
}
