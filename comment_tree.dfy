/**
 * The pure part of the Q&A comment list: the records, the normalisation applied to
 * what the store returns, and the depth-first rendering of the flat list as a forest
 * of replies (components/QnaCommentList.tsx).
 */
module CommentTree {
  import opened Wrappers
  import opened Store
  import Text

  /** A comment as the list component holds it. `parentId == None` marks a top-level comment. */
  datatype Comment = Comment(
    id: string,
    content: string,
    authorEmail: string,
    authorId: string,
    createdAt: Option<Timestamp>,
    parentId: Option<string>)

  /** The data of a comment document as the store returns it: any field may be missing. */
  datatype CommentData = CommentData(
    content: Option<string>,
    authorEmail: Option<string>,
    authorId: Option<string>,
    createdAt: Option<Timestamp>,
    parentId: Option<string>)

  /** One rendered comment and the nesting level it is indented at. */
  datatype Entry = Entry(node: Comment, depth: nat)

  // ---------------------------------------------------------------------------
  // Normalisation (the `map` in loadComments)
  // ---------------------------------------------------------------------------

  /** A comment in the form normalisation produces: an empty parent reference has become `null`. */
  predicate IsNormal(c: Comment) {
    c.parentId != Some("")
  }

  /** `v || ""` on a nullable string. */
  function OrEmpty(v: Option<string>): string {
    match v
    case Some(s) => s
    case None => ""
  }

  /** The normalisation of one stored document `{ id: doc.id, ...doc.data() }`. */
  function Normalise(d: Doc<CommentData>): (c: Comment)
    ensures IsNormal(c) && c.id == d.key && c.createdAt == d.data.createdAt
    ensures c.content == if d.data.content.Some? then d.data.content.value else ""
    ensures c.authorEmail == if d.data.authorEmail.Some? then d.data.authorEmail.value else ""
    ensures c.authorId == if d.data.authorId.Some? then d.data.authorId.value else ""
    ensures c.parentId.Some? <==> d.data.parentId.Some? && d.data.parentId.value != ""
    ensures c.parentId.Some? ==> c.parentId == d.data.parentId
  {
    var data := d.data;
    Comment(
      d.key,
      OrEmpty(data.content),
      OrEmpty(data.authorEmail),
      OrEmpty(data.authorId),
      data.createdAt,
      Text.OrNull(data.parentId))
  }

  /** The document a comment would be stored as, every field present. */
  function Stored(c: Comment): (d: Doc<CommentData>)
    ensures d.key == c.id
    ensures IsNormal(c) ==> Normalise(d) == c
  {
    Doc(c.id, CommentData(Some(c.content), Some(c.authorEmail), Some(c.authorId), c.createdAt, c.parentId))
  }

  /**
   * The documents the comment query `orderBy('createdAt', 'asc')` returns: a query ordered
   * by a field leaves out every document that lacks it. The others keep the store's order
   * (with `DatedAppend` and `DatedAppendUndated` this fixes the answer write by write).
   */
  function Dated(ds: seq<Doc<CommentData>>): (r: seq<Doc<CommentData>>)
    ensures |r| <= |ds|
    ensures forall i :: 0 <= i < |r| ==> r[i] in ds && r[i].data.createdAt.Some?
    ensures forall i :: 0 <= i < |ds| && ds[i].data.createdAt.Some? ==> ds[i] in r
    ensures IsSubsequence(r, ds)
  {
    if ds == [] then []
    else if ds[0].data.createdAt.Some? then [ds[0]] + Dated(ds[1..])
    else Dated(ds[1..])
  }

  /** Leaving documents out keeps the keys unique. */
  lemma {:induction false} DatedUnique(ds: seq<Doc<CommentData>>)
    requires UniqueKeys(ds)
    ensures UniqueKeys(Dated(ds))
  {
    if ds != [] {
      TailUnique(ds);
      DatedUnique(ds[1..]);
      if ds[0].data.createdAt.Some? {
        var r := Dated(ds[1..]);
        forall i | 0 <= i < |r| ensures r[i].key != ds[0].key {
          var m :| 0 <= m < |ds[1..]| && ds[1..][m] == r[i];
        }
        ConsUnique(ds[0], r);
      }
    }
  }

  /** A document appended with a timestamp comes back last from the query. */
  lemma {:induction false} DatedAppend(ds: seq<Doc<CommentData>>, d: Doc<CommentData>)
    requires d.data.createdAt.Some?
    ensures Dated(ds + [d]) == Dated(ds) + [d]
  {
    if ds == [] {
      assert [] + [d] == [d];
    } else {
      assert (ds + [d])[1..] == ds[1..] + [d];
      DatedAppend(ds[1..], d);
    }
  }

  /** A document appended without a timestamp is not returned by the query. */
  lemma {:induction false} DatedAppendUndated(ds: seq<Doc<CommentData>>, d: Doc<CommentData>)
    requires d.data.createdAt.None?
    ensures Dated(ds + [d]) == Dated(ds)
  {
    if ds == [] {
      assert [] + [d] == [d];
    } else {
      assert (ds + [d])[1..] == ds[1..] + [d];
      DatedAppendUndated(ds[1..], d);
    }
  }

  /** Deleting a document and then querying gives what querying and then dropping that key gives. */
  lemma {:induction false} DatedRemoveKey(ds: seq<Doc<CommentData>>, key: string)
    ensures Dated(RemoveKey(ds, key)) == RemoveKey(Dated(ds), key)
  {
    if ds != [] {
      DatedRemoveKey(ds[1..], key);
      if ds[0].key != key {
        assert RemoveKey(ds, key) == [ds[0]] + RemoveKey(ds[1..], key);
        assert ([ds[0]] + RemoveKey(ds[1..], key))[1..] == RemoveKey(ds[1..], key);
        if ds[0].data.createdAt.Some? {
          assert ([ds[0]] + Dated(ds[1..]))[1..] == Dated(ds[1..]);
        }
      } else if ds[0].data.createdAt.Some? {
        assert ([ds[0]] + Dated(ds[1..]))[1..] == Dated(ds[1..]);
      }
    }
  }

  /** `res.map(...)`: every document normalised, in the order the store returned them. */
  function NormaliseAll(ds: seq<Doc<CommentData>>): (cs: seq<Comment>)
    ensures |cs| == |ds|
    ensures forall i :: 0 <= i < |ds| ==> cs[i] == Normalise(ds[i])
  {
    if ds == [] then [] else [Normalise(ds[0])] + NormaliseAll(ds[1..])
  }

  /** Normalising one more document appends its normal form. */
  lemma NormaliseAllAppend(ds: seq<Doc<CommentData>>, d: Doc<CommentData>)
    ensures NormaliseAll(ds + [d]) == NormaliseAll(ds) + [Normalise(d)]
  {
    var a, b := NormaliseAll(ds + [d]), NormaliseAll(ds) + [Normalise(d)];
    forall i | 0 <= i < |a| ensures a[i] == b[i] {
      assert (ds + [d])[i] == if i < |ds| then ds[i] else d;
    }
  }

  /** Normalisation keeps the document keys, so unique keys give distinct ids. */
  lemma NormaliseAllKeepsDistinct(ds: seq<Doc<CommentData>>)
    requires UniqueKeys(ds)
    ensures DistinctIds(NormaliseAll(ds))
  {
  }

  /** Normalising twice changes nothing. */
  lemma NormaliseIdempotent(d: Doc<CommentData>)
    ensures Normalise(Stored(Normalise(d))) == Normalise(d)
  {
  }

  // ---------------------------------------------------------------------------
  // Lookup by id, and the parent chain
  // ---------------------------------------------------------------------------

  /** No two comments share an id (the store's document keys are unique). */
  predicate DistinctIds(cs: seq<Comment>) {
    forall i, j :: 0 <= i < j < |cs| ==> cs[i].id != cs[j].id
  }

  /** The ids present in the list. */
  function Ids(cs: seq<Comment>): set<string> {
    set c | c in cs :: c.id
  }

  /** The first comment with the given id. */
  function Find(cs: seq<Comment>, id: string): (r: Option<Comment>)
    ensures r.Some? ==> r.value in cs && r.value.id == id
    ensures r.None? ==> forall c :: c in cs ==> c.id != id
  {
    if cs == [] then None
    else if cs[0].id == id then Some(cs[0])
    else Find(cs[1..], id)
  }

  /** With distinct ids, looking up a comment's own id finds that comment. */
  lemma {:induction false} FindDistinct(cs: seq<Comment>, c: Comment)
    requires DistinctIds(cs) && c in cs
    ensures Find(cs, c.id) == Some(c)
  {
    if cs[0] != c {
      assert c in cs[1..];
      assert DistinctIds(cs[1..]) by {
        forall i, j | 0 <= i < j < |cs| - 1 ensures cs[1..][i].id != cs[1..][j].id {
          assert cs[1..][i] == cs[i + 1] && cs[1..][j] == cs[j + 1];
        }
      }
      var k :| 0 <= k < |cs| && cs[k] == c;
      assert cs[0].id != c.id;
      FindDistinct(cs[1..], c);
    }
  }

  /**
   * Following `n` parent links up from `c` reaches a comment whose own `parentId` is
   * `top`. `Below(cs, c, None, n)` says `c` hangs `n` levels under the top level.
   */
  ghost predicate Below(cs: seq<Comment>, c: Comment, top: Option<string>, n: nat)
    decreases n
  {
    if n == 0 then c.parentId == top
    else
      c.parentId.Some? && Find(cs, c.parentId.value).Some?
      && Below(cs, Find(cs, c.parentId.value).value, top, n - 1)
  }

  /** `c`'s chain of ancestors has length `n` and ends at a top-level comment. */
  ghost predicate ChainLength(cs: seq<Comment>, c: Comment, n: nat) {
    Below(cs, c, None, n)
  }

  /** `c`'s chain of ancestors ends at a top-level comment. */
  ghost predicate Reachable(cs: seq<Comment>, c: Comment) {
    exists n: nat :: ChainLength(cs, c, n)
  }

  /** The length of a comment's ancestor chain is determined by the comment. */
  lemma {:induction false} ChainLengthUnique(cs: seq<Comment>, c: Comment, m: nat, n: nat)
    requires ChainLength(cs, c, m) && ChainLength(cs, c, n)
    ensures m == n
    decreases m
  {
    if m != 0 && n != 0 {
      ChainLengthUnique(cs, Find(cs, c.parentId.value).value, m - 1, n - 1);
    }
  }

  /** Going up a fixed number of links from a comment ends at one place. */
  lemma {:induction false} BelowFunctional(cs: seq<Comment>, c: Comment, t1: Option<string>, t2: Option<string>, n: nat)
    requires Below(cs, c, t1, n) && Below(cs, c, t2, n)
    ensures t1 == t2
    decreases n
  {
    if n != 0 {
      BelowFunctional(cs, Find(cs, c.parentId.value).value, t1, t2, n - 1);
    }
  }

  /** Parent links compose: `m + 1` links up to `k`, then `e` more from `k`. */
  lemma {:induction false} BelowCompose(cs: seq<Comment>, c: Comment, k: Comment, top: Option<string>, m: nat, e: nat)
    requires Find(cs, k.id) == Some(k)
    requires Below(cs, c, Some(k.id), m) && Below(cs, k, top, e)
    ensures Below(cs, c, top, e + 1 + m)
  {
    BelowChain(cs, c, k, top, m, e, e + 1 + m);
  }

  /** BelowCompose with the combined level `n` named, so that each step matches the next. */
  lemma {:induction false} BelowChain(cs: seq<Comment>, c: Comment, k: Comment, top: Option<string>, m: nat, e: nat, n: nat)
    requires Find(cs, k.id) == Some(k) && n == e + 1 + m
    requires Below(cs, c, Some(k.id), m) && Below(cs, k, top, e)
    ensures Below(cs, c, top, n)
    decreases m
  {
    if m == 0 {
      BelowStep(cs, c, top, n);
    } else {
      BelowChain(cs, Find(cs, c.parentId.value).value, k, top, m - 1, e, n - 1);
      BelowStep(cs, c, top, n);
    }
  }

  /** One step up: `c` is a level further from `top` than its parent. */
  lemma BelowStep(cs: seq<Comment>, c: Comment, top: Option<string>, n: nat)
    requires n >= 1 && c.parentId.Some? && Find(cs, c.parentId.value).Some?
    requires Below(cs, Find(cs, c.parentId.value).value, top, n - 1)
    ensures Below(cs, c, top, n)
  {
  }

  /** The inverse of BelowCompose: the topmost comment on the way up from `c`. */
  lemma {:induction false} TopAncestor(cs: seq<Comment>, c: Comment, top: Option<string>, n: nat) returns (k: Comment)
    requires n >= 1 && Below(cs, c, top, n)
    ensures k in cs && k.parentId == top && Below(cs, c, Some(k.id), n - 1)
    decreases n
  {
    var p := Find(cs, c.parentId.value).value;
    if n == 1 {
      k := p;
    } else {
      k := TopAncestor(cs, p, top, n - 1);
    }
  }

  // ---------------------------------------------------------------------------
  // Rendering (renderComments)
  // ---------------------------------------------------------------------------

  /** `comments.filter((c) => c.parentId === parentId)`. */
  function ChildrenOf(cs: seq<Comment>, parent: Option<string>): (kids: seq<Comment>)
    ensures forall c :: c in kids <==> c in cs && c.parentId == parent
    ensures IsSubsequence(kids, cs)
  {
    if cs == [] then []
    else if cs[0].parentId == parent then [cs[0]] + ChildrenOf(cs[1..], parent)
    else ChildrenOf(cs[1..], parent)
  }

  /** `a` is `b` with some elements left out, the rest in their original order. */
  predicate IsSubsequence<T(==)>(a: seq<T>, b: seq<T>)
    decreases |b|
  {
    if a == [] then true
    else if b == [] then false
    else if a[0] == b[0] then IsSubsequence(a[1..], b[1..])
    else IsSubsequence(a, b[1..])
  }

  /** The filter keeps ids distinct. */
  lemma {:induction false} ChildrenDistinct(cs: seq<Comment>, parent: Option<string>)
    requires DistinctIds(cs)
    ensures DistinctIds(ChildrenOf(cs, parent))
  {
    if cs != [] {
      var tail := cs[1..];
      assert DistinctIds(tail) by {
        forall i, j | 0 <= i < j < |tail| ensures tail[i].id != tail[j].id {
          assert tail[i] == cs[i + 1] && tail[j] == cs[j + 1];
        }
      }
      ChildrenDistinct(tail, parent);
      var rest := ChildrenOf(tail, parent);
      forall c | c in rest ensures c.id != cs[0].id {
        var k :| 0 <= k < |tail| && tail[k] == c;
        assert cs[k + 1] == c;
      }
    }
  }

  /**
   * `renderComments(parentId, depth)`: each comment whose `parentId` is `parent`, in list
   * order, at `depth`, each followed immediately by the rendering of its own replies at
   * `depth + 1`. `path` holds the ids of the comments being rendered on the way down; it
   * guards the one recursion the JavaScript never returns from (a child whose id is
   * already on the path), which no list with distinct ids triggers (RenderShape).
   */
  function Render(cs: seq<Comment>, parent: Option<string>, depth: nat, path: set<string>): (r: seq<Entry>)
    ensures forall e :: e in r ==> e.node in cs && e.depth >= depth
    decreases Ids(cs) - path, 1
  {
    RenderSiblings(cs, ChildrenOf(cs, parent), depth, path)
  }

  /** The `.map(...)` over one list of siblings. */
  function RenderSiblings(cs: seq<Comment>, kids: seq<Comment>, depth: nat, path: set<string>): (r: seq<Entry>)
    requires forall k :: k in kids ==> k in cs
    ensures forall e :: e in r ==> e.node in cs && e.depth >= depth
    ensures |r| >= |kids|
    decreases Ids(cs) - path, 0, |kids|
  {
    if kids == [] then []
    else
      var k := kids[0];
      var replies :=
        if k.id in path then []
        else
          assert k.id in Ids(cs) - path;
          Render(cs, Some(k.id), depth + 1, path + {k.id});
      [Entry(k, depth)] + replies + RenderSiblings(cs, kids[1..], depth, path)
  }

  /** `renderComments(null)`: the whole forest, starting from the top-level comments at depth 0. */
  function RenderComments(cs: seq<Comment>): (r: seq<Entry>)
    ensures forall e :: e in r ==> e.node in cs
    ensures DistinctIds(cs) ==> NoRepeats(r)
  {
    if DistinctIds(cs) then RenderShape(cs, None, 0, {}); Render(cs, None, 0, {})
    else Render(cs, None, 0, {})
  }

  /**
   * The header line `댓글 {comments.length}개` counts every comment held, rendered or not:
   * never fewer than the forest shows, and more exactly when some comment cannot be reached.
   */
  function HeaderCount(cs: seq<Comment>): (n: nat)
    ensures n == |cs|
    ensures DistinctIds(cs) ==> |RenderComments(cs)| <= n
    ensures DistinctIds(cs) ==> (|RenderComments(cs)| == n <==> forall i :: 0 <= i < |cs| ==> Reachable(cs, cs[i]))
  {
    if DistinctIds(cs) then HeaderBoundsForest(cs); |cs| else |cs|
  }

  // ---------------------------------------------------------------------------
  // What the rendering shows
  // ---------------------------------------------------------------------------

  /** No comment is rendered twice. */
  ghost predicate NoRepeats(r: seq<Entry>) {
    forall i, j :: 0 <= i < j < |r| ==> r[i].node != r[j].node
  }

  /**
   * The context a `renderComments(parent, depth)` call runs in: the parent comment sits at
   * level `depth - 1`, and every id on the path belongs to a comment above `depth`.
   */
  ghost predicate Ctx(cs: seq<Comment>, parent: Option<string>, depth: nat, path: set<string>) {
    && (parent.None? ==> depth == 0)
    && (parent.Some? ==>
          depth >= 1 && Find(cs, parent.value).Some?
          && ChainLength(cs, Find(cs, parent.value).value, depth - 1))
    && (forall a, j: nat :: a in cs && a.id in path && ChainLength(cs, a, j) ==> j < depth)
  }

  /** `c` is `n` levels under the sibling `k`, `n == 0` meaning `k` itself. */
  ghost predicate Under(cs: seq<Comment>, c: Comment, k: Comment, n: nat) {
    if n == 0 then c == k else Below(cs, c, Some(k.id), n - 1)
  }

  /** A child of the parent in context `Ctx` hangs exactly `depth` levels under the top. */
  lemma ChildLevel(cs: seq<Comment>, parent: Option<string>, depth: nat, path: set<string>, k: Comment)
    requires Ctx(cs, parent, depth, path) && k in cs && k.parentId == parent
    ensures ChainLength(cs, k, depth)
  {
    if parent.Some? {
      assert Below(cs, k, None, depth);
    }
  }

  /** The context of the recursive call on a child. */
  lemma ChildCtx(cs: seq<Comment>, parent: Option<string>, depth: nat, path: set<string>, k: Comment)
    requires DistinctIds(cs) && Ctx(cs, parent, depth, path) && k in cs && k.parentId == parent
    ensures k.id !in path
    ensures Ctx(cs, Some(k.id), depth + 1, path + {k.id})
  {
    ChildLevel(cs, parent, depth, path, k);
    FindDistinct(cs, k);
    forall a, j: nat | a in cs && a.id in path + {k.id} && ChainLength(cs, a, j) ensures j < depth + 1 {
      if a.id !in path {
        FindDistinct(cs, a);
        ChainLengthUnique(cs, k, j, depth);
      }
    }
  }

  /** Every comment in `r` hangs under `parent`, at its own level. */
  ghost predicate ShowsOnlyUnder(cs: seq<Comment>, r: seq<Entry>, parent: Option<string>, depth: nat) {
    forall e :: e in r ==>
      ChainLength(cs, e.node, e.depth) && e.depth >= depth && Below(cs, e.node, parent, e.depth - depth)
  }

  /** Every comment hanging under `parent` is in `r`, at its own level. */
  ghost predicate ShowsAllUnder(cs: seq<Comment>, r: seq<Entry>, parent: Option<string>, depth: nat) {
    forall c, d: nat :: c in cs && d >= depth && Below(cs, c, parent, d - depth) ==> Entry(c, d) in r
  }

  /** Every comment in `r` is one of the siblings `kids` or under one of them. */
  ghost predicate SiblingsSound(cs: seq<Comment>, kids: seq<Comment>, depth: nat, r: seq<Entry>) {
    forall e :: e in r ==>
      ChainLength(cs, e.node, e.depth) && e.depth >= depth
      && exists k :: k in kids && Under(cs, e.node, k, e.depth - depth)
  }

  /** Every sibling and every comment under one of them is in `r`. */
  ghost predicate SiblingsComplete(cs: seq<Comment>, kids: seq<Comment>, depth: nat, r: seq<Entry>) {
    forall c, d: nat, k :: k in kids && c in cs && d >= depth && Under(cs, c, k, d - depth) ==> Entry(c, d) in r
  }

  /** Two renderings share no comment. */
  ghost predicate Apart(a: seq<Entry>, b: seq<Entry>) {
    forall x, y :: x in a && y in b ==> x.node != y.node
  }

  lemma NoRepeatsJoin(a: seq<Entry>, b: seq<Entry>)
    requires NoRepeats(a) && NoRepeats(b) && Apart(a, b)
    ensures NoRepeats(a + b)
  {
    var r := a + b;
    forall i, j | 0 <= i < j < |r| ensures r[i].node != r[j].node {
      if j < |a| {
        assert r[i] == a[i] && r[j] == a[j];
      } else if i >= |a| {
        assert r[i] == b[i - |a|] && r[j] == b[j - |a|];
      } else {
        assert r[i] in a && r[j] in b;
      }
    }
  }

  lemma DistinctTail(kids: seq<Comment>)
    requires kids != [] && DistinctIds(kids)
    ensures DistinctIds(kids[1..])
    ensures forall x :: x in kids[1..] ==> x.id != kids[0].id
  {
    var rest := kids[1..];
    forall i, j | 0 <= i < j < |rest| ensures rest[i].id != rest[j].id {
      assert rest[i] == kids[i + 1] && rest[j] == kids[j + 1];
    }
    forall x | x in rest ensures x.id != kids[0].id {
      var i :| 0 <= i < |rest| && rest[i] == x;
      assert kids[i + 1] == x;
    }
  }

  /** A comment under a sibling hangs under the siblings' parent. */
  lemma UnderSibling(cs: seq<Comment>, parent: Option<string>, k: Comment, c: Comment, n: nat)
    requires DistinctIds(cs) && k in cs && k.parentId == parent && Under(cs, c, k, n)
    ensures Below(cs, c, parent, n)
  {
    if n > 0 {
      FindDistinct(cs, k);
      BelowCompose(cs, c, k, parent, n - 1, 0);
    }
  }

  /** A comment under `parent` is a child of `parent` or under one. */
  lemma SiblingAbove(cs: seq<Comment>, parent: Option<string>, c: Comment, n: nat) returns (k: Comment)
    requires c in cs && Below(cs, c, parent, n)
    ensures k in ChildrenOf(cs, parent) && Under(cs, c, k, n)
  {
    if n == 0 {
      k := c;
    } else {
      k := TopAncestor(cs, c, parent, n);
    }
  }

  /** From the siblings' view of a rendering to its view from the parent. */
  lemma ChildrenShape(cs: seq<Comment>, parent: Option<string>, depth: nat, r: seq<Entry>)
    requires DistinctIds(cs)
    requires SiblingsSound(cs, ChildrenOf(cs, parent), depth, r)
    requires SiblingsComplete(cs, ChildrenOf(cs, parent), depth, r)
    ensures ShowsOnlyUnder(cs, r, parent, depth) && ShowsAllUnder(cs, r, parent, depth)
  {
    var kids := ChildrenOf(cs, parent);
    forall e | e in r ensures Below(cs, e.node, parent, e.depth - depth) {
      var k :| k in kids && Under(cs, e.node, k, e.depth - depth);
      UnderSibling(cs, parent, k, e.node, e.depth - depth);
    }
    forall c, d: nat | c in cs && d >= depth && Below(cs, c, parent, d - depth) ensures Entry(c, d) in r {
      var k := SiblingAbove(cs, parent, c, d - depth);
    }
  }

  /**
   * The rendering of the replies to `parent`: exactly the comments under `parent`, each
   * at its own level, none repeated.
   */
  lemma {:induction false} RenderShape(cs: seq<Comment>, parent: Option<string>, depth: nat, path: set<string>)
    requires DistinctIds(cs) && Ctx(cs, parent, depth, path)
    ensures ShowsOnlyUnder(cs, Render(cs, parent, depth, path), parent, depth)
    ensures ShowsAllUnder(cs, Render(cs, parent, depth, path), parent, depth)
    ensures NoRepeats(Render(cs, parent, depth, path))
    decreases Ids(cs) - path, 1
  {
    ChildrenDistinct(cs, parent);
    SiblingsShape(cs, parent, ChildrenOf(cs, parent), depth, path);
    ChildrenShape(cs, parent, depth, Render(cs, parent, depth, path));
  }

  /** The facts about the rendering of the first sibling's replies that the joins below use. */
  ghost predicate RepliesOf(cs: seq<Comment>, k: Comment, depth: nat, replies: seq<Entry>) {
    ShowsOnlyUnder(cs, replies, Some(k.id), depth + 1) && ShowsAllUnder(cs, replies, Some(k.id), depth + 1)
  }

  lemma JoinSound(cs: seq<Comment>, k: Comment, rest: seq<Comment>, depth: nat, replies: seq<Entry>, tail: seq<Entry>)
    requires ChainLength(cs, k, depth) && RepliesOf(cs, k, depth, replies)
    requires SiblingsSound(cs, rest, depth, tail)
    ensures SiblingsSound(cs, [k] + rest, depth, [Entry(k, depth)] + replies + tail)
  {
    var kids := [k] + rest;
    var r := [Entry(k, depth)] + replies + tail;
    forall e | e in r ensures exists k' :: k' in kids && Under(cs, e.node, k', e.depth - depth) {
      assert k in kids;
      if e in replies {
        assert Under(cs, e.node, k, e.depth - depth);
      } else if e in tail {
        var k2 :| k2 in rest && Under(cs, e.node, k2, e.depth - depth);
        assert k2 in kids;
      } else {
        assert e == Entry(k, depth);
        assert Under(cs, e.node, k, 0);
      }
    }
  }

  lemma JoinComplete(cs: seq<Comment>, k: Comment, rest: seq<Comment>, depth: nat, replies: seq<Entry>, tail: seq<Entry>)
    requires RepliesOf(cs, k, depth, replies)
    requires SiblingsComplete(cs, rest, depth, tail)
    ensures SiblingsComplete(cs, [k] + rest, depth, [Entry(k, depth)] + replies + tail)
  {
    var kids := [k] + rest;
    var r := [Entry(k, depth)] + replies + tail;
    forall c, d: nat, k' | k' in kids && c in cs && d >= depth && Under(cs, c, k', d - depth) ensures Entry(c, d) in r {
      if k' != k {
        assert k' in rest;
        assert Entry(c, d) in tail;
      } else if d > depth {
        assert Entry(c, d) in replies;
      }
    }
  }

  lemma JoinNoRepeats(cs: seq<Comment>, parent: Option<string>, depth: nat, path: set<string>,
                      k: Comment, rest: seq<Comment>, replies: seq<Entry>, tail: seq<Entry>)
    requires DistinctIds(cs) && Ctx(cs, parent, depth, path)
    requires k in cs && k.parentId == parent && ChainLength(cs, k, depth)
    requires forall k2 :: k2 in rest ==> k2 in cs && k2.parentId == parent && k2.id != k.id
    requires RepliesOf(cs, k, depth, replies) && NoRepeats(replies)
    requires SiblingsSound(cs, rest, depth, tail) && NoRepeats(tail)
    ensures NoRepeats([Entry(k, depth)] + replies + tail)
  {
    var head := [Entry(k, depth)];
    forall e | e in replies ensures e.node != k {
      if e.node == k {
        ChainLengthUnique(cs, k, depth, e.depth);
      }
    }
    NoRepeatsJoin(head, replies);
    forall x, y | x in head + replies && y in tail ensures x.node != y.node {
      var k2 :| k2 in rest && Under(cs, y.node, k2, y.depth - depth);
      ChildLevel(cs, parent, depth, path, k2);
      if x.node == y.node {
        ChainLengthUnique(cs, x.node, x.depth, y.depth);
        if y.depth > depth && x.depth > depth {
          BelowFunctional(cs, x.node, Some(k.id), Some(k2.id), y.depth - depth - 1);
        }
      }
    }
    NoRepeatsJoin(head + replies, tail);
  }

  /** The rendering of a list of siblings: each sibling and the comments under it, none repeated. */
  lemma {:induction false} SiblingsShape(cs: seq<Comment>, parent: Option<string>, kids: seq<Comment>, depth: nat, path: set<string>)
    requires DistinctIds(cs) && Ctx(cs, parent, depth, path)
    requires forall k :: k in kids ==> k in cs && k.parentId == parent
    requires DistinctIds(kids)
    ensures SiblingsSound(cs, kids, depth, RenderSiblings(cs, kids, depth, path))
    ensures SiblingsComplete(cs, kids, depth, RenderSiblings(cs, kids, depth, path))
    ensures NoRepeats(RenderSiblings(cs, kids, depth, path))
    decreases Ids(cs) - path, 0, |kids|
  {
    if kids != [] {
      var k, rest := kids[0], kids[1..];
      DistinctTail(kids);
      ChildLevel(cs, parent, depth, path, k);
      ChildCtx(cs, parent, depth, path, k);
      var replies := Render(cs, Some(k.id), depth + 1, path + {k.id});
      RenderShape(cs, Some(k.id), depth + 1, path + {k.id});
      var tail := RenderSiblings(cs, rest, depth, path);
      SiblingsShape(cs, parent, rest, depth, path);
      assert RenderSiblings(cs, kids, depth, path) == [Entry(k, depth)] + replies + tail;
      assert kids == [k] + rest;
      JoinSound(cs, k, rest, depth, replies, tail);
      JoinComplete(cs, k, rest, depth, replies, tail);
      JoinNoRepeats(cs, parent, depth, path, k, rest, replies, tail);
    }
  }

  /** Every comment shown is reachable from the top level, at the length of its ancestor chain, and vice versa. */
  lemma RenderedIffReachable(cs: seq<Comment>, c: Comment, d: nat)
    requires DistinctIds(cs)
    ensures Entry(c, d) in RenderComments(cs) <==> c in cs && ChainLength(cs, c, d)
  {
    RenderShape(cs, None, 0, {});
  }

  /** How many times a comment is rendered. */
  function Visits(r: seq<Entry>, c: Comment): nat {
    if r == [] then 0 else (if r[0].node == c then 1 else 0) + Visits(r[1..], c)
  }

  lemma {:induction false} VisitsNoRepeats(r: seq<Entry>, c: Comment)
    requires NoRepeats(r)
    ensures Visits(r, c) == if exists e :: e in r && e.node == c then 1 else 0
  {
    if r != [] {
      var tail := r[1..];
      assert NoRepeats(tail) by {
        forall i, j | 0 <= i < j < |tail| ensures tail[i].node != tail[j].node {
          assert tail[i] == r[i + 1] && tail[j] == r[j + 1];
        }
      }
      VisitsNoRepeats(tail, c);
      if r[0].node == c {
        forall e | e in tail ensures e.node != c {
          var i :| 0 <= i < |tail| && tail[i] == e;
          assert r[i + 1] == e;
        }
      } else {
        assert forall e :: e in r && e.node == c ==> e in tail;
      }
    }
  }

  /** With distinct ids every reachable comment is rendered exactly once, every other one never. */
  lemma VisitedOnce(cs: seq<Comment>, c: Comment)
    requires DistinctIds(cs) && c in cs
    ensures Visits(RenderComments(cs), c) == if Reachable(cs, c) then 1 else 0
  {
    var r := RenderComments(cs);
    RenderShape(cs, None, 0, {});
    VisitsNoRepeats(r, c);
    if Reachable(cs, c) {
      var n: nat :| ChainLength(cs, c, n);
      assert Entry(c, n) in r;
    }
  }

  /** A reply whose parent id names no comment in the list is never rendered. */
  lemma OrphanNotRendered(cs: seq<Comment>, c: Comment, d: nat)
    requires DistinctIds(cs)
    requires c.parentId.Some? && c.parentId.value !in Ids(cs)
    ensures Entry(c, d) !in RenderComments(cs)
  {
    RenderedIffReachable(cs, c, d);
  }

  /** The comments a rendering shows. */
  ghost function Nodes(r: seq<Entry>): set<Comment> {
    set e | e in r :: e.node
  }

  /** The comments a list holds. */
  ghost function Members(cs: seq<Comment>): set<Comment> {
    set c | c in cs
  }

  lemma {:induction false} NodesCount(r: seq<Entry>)
    requires NoRepeats(r)
    ensures |Nodes(r)| == |r|
  {
    if r != [] {
      var tail := r[1..];
      assert NoRepeats(tail) by {
        forall i, j | 0 <= i < j < |tail| ensures tail[i].node != tail[j].node {
          assert tail[i] == r[i + 1] && tail[j] == r[j + 1];
        }
      }
      NodesCount(tail);
      assert Nodes(r) == {r[0].node} + Nodes(tail) by {
        forall x | x in Nodes(r) ensures x in {r[0].node} + Nodes(tail) {
          var e :| e in r && e.node == x;
          var i :| 0 <= i < |r| && r[i] == e;
          if i > 0 {
            assert tail[i - 1] == e;
          }
        }
      }
      assert r[0].node !in Nodes(tail) by {
        forall e | e in tail ensures e.node != r[0].node {
          var i :| 0 <= i < |tail| && tail[i] == e;
          assert r[i + 1] == e;
        }
      }
    }
  }

  lemma {:induction false} MembersCount(cs: seq<Comment>)
    requires DistinctIds(cs)
    ensures |Members(cs)| == |cs|
  {
    if cs != [] {
      var tail := cs[1..];
      assert DistinctIds(tail) by {
        forall i, j | 0 <= i < j < |tail| ensures tail[i].id != tail[j].id {
          assert tail[i] == cs[i + 1] && tail[j] == cs[j + 1];
        }
      }
      MembersCount(tail);
      assert Members(cs) == {cs[0]} + Members(tail) by {
        assert cs == [cs[0]] + tail;
      }
      assert cs[0] !in Members(tail) by {
        forall c | c in tail ensures c != cs[0] {
          var i :| 0 <= i < |tail| && tail[i] == c;
          assert cs[i + 1] == c;
        }
      }
    }
  }

  lemma SubsetCount(a: set<Comment>, b: set<Comment>)
    requires a <= b
    ensures |a| <= |b|
    ensures |a| == |b| ==> a == b
  {
    assert b == a + (b - a);
    assert a * (b - a) == {};
    if |a| == |b| {
      assert |b - a| == 0;
    }
  }

  /** A comment of the list is among those shown exactly when it is reachable from the top level. */
  lemma ShownIffReachable(cs: seq<Comment>, c: Comment)
    requires DistinctIds(cs) && c in cs
    ensures c in Nodes(RenderComments(cs)) <==> Reachable(cs, c)
  {
    var r := RenderComments(cs);
    if c in Nodes(r) {
      var e :| e in r && e.node == c;
      RenderedIffReachable(cs, c, e.depth);
    }
    if Reachable(cs, c) {
      var n: nat :| ChainLength(cs, c, n);
      RenderedIffReachable(cs, c, n);
      assert Entry(c, n) in r;
    }
  }

  /**
   * The header `댓글 {comments.length}개` never counts fewer comments than the forest shows,
   * and it counts exactly as many only when every comment's parent chain reaches the top level.
   */
  lemma HeaderBoundsForest(cs: seq<Comment>)
    requires DistinctIds(cs)
    ensures |RenderComments(cs)| <= |cs|
    ensures |RenderComments(cs)| == |cs| <==> forall i :: 0 <= i < |cs| ==> Reachable(cs, cs[i])
  {
    var r := RenderComments(cs);
    NodesCount(r);
    MembersCount(cs);
    assert Nodes(r) <= Members(cs);
    SubsetCount(Nodes(r), Members(cs));
    var all := forall i :: 0 <= i < |cs| ==> Reachable(cs, cs[i]);
    if all {
      forall c | c in Members(cs) ensures c in Nodes(r) {
        var i :| 0 <= i < |cs| && cs[i] == c;
        ShownIffReachable(cs, c);
      }
      assert Nodes(r) == Members(cs);
    }
    if |r| == |cs| {
      assert Nodes(r) == Members(cs);
      forall i | 0 <= i < |cs| ensures Reachable(cs, cs[i]) {
        assert cs[i] in Members(cs);
        ShownIffReachable(cs, cs[i]);
      }
    }
    assert |r| == |cs| <==> all;
  }

  // ---------------------------------------------------------------------------
  // Order: siblings in list order, each comment followed by its own replies
  // ---------------------------------------------------------------------------

  /** The comments rendered at nesting level `d`, in rendering order. */
  function AtDepth(r: seq<Entry>, d: nat): seq<Comment> {
    if r == [] then [] else (if r[0].depth == d then [r[0].node] else []) + AtDepth(r[1..], d)
  }

  lemma {:induction false} AtDepthConcat(a: seq<Entry>, b: seq<Entry>, d: nat)
    ensures AtDepth(a + b, d) == AtDepth(a, d) + AtDepth(b, d)
  {
    if a == [] {
      assert a + b == b;
    } else {
      var h := if a[0].depth == d then [a[0].node] else [];
      assert (a + b)[0] == a[0] && (a + b)[1..] == a[1..] + b;
      assert AtDepth(a + b, d) == h + AtDepth(a[1..] + b, d);
      AtDepthConcat(a[1..], b, d);
      assert AtDepth(a, d) == h + AtDepth(a[1..], d);
    }
  }

  lemma {:induction false} AtDepthNone(r: seq<Entry>, d: nat)
    requires forall e :: e in r ==> e.depth > d
    ensures AtDepth(r, d) == []
  {
    if r != [] {
      AtDepthNone(r[1..], d);
    }
  }

  /** At its own level, the rendering of a list of siblings lists exactly those siblings, in order. */
  lemma {:induction false} SiblingsInOrder(cs: seq<Comment>, kids: seq<Comment>, depth: nat, path: set<string>)
    requires forall k :: k in kids ==> k in cs
    ensures AtDepth(RenderSiblings(cs, kids, depth, path), depth) == kids
    decreases |kids|
  {
    if kids != [] {
      var k := kids[0];
      var replies := if k.id in path then [] else Render(cs, Some(k.id), depth + 1, path + {k.id});
      var tail := RenderSiblings(cs, kids[1..], depth, path);
      assert RenderSiblings(cs, kids, depth, path) == [Entry(k, depth)] + (replies + tail);
      AtDepthConcat([Entry(k, depth)], replies + tail, depth);
      AtDepthConcat(replies, tail, depth);
      AtDepthNone(replies, depth);
      SiblingsInOrder(cs, kids[1..], depth, path);
      assert AtDepth([Entry(k, depth)], depth) == [k];
    }
  }

  /**
   * `renderComments(parentId, depth)` lists at level `depth` exactly the comments whose
   * `parentId` is `parentId`, in the order of the flat list; every other comment it shows
   * is deeper.
   */
  lemma ChildrenInOrder(cs: seq<Comment>, parent: Option<string>, depth: nat, path: set<string>)
    ensures AtDepth(Render(cs, parent, depth, path), depth) == ChildrenOf(cs, parent)
    ensures IsSubsequence(ChildrenOf(cs, parent), cs)
  {
    SiblingsInOrder(cs, ChildrenOf(cs, parent), depth, path);
  }

  /** The top level of the forest: the comments with `parentId === null`, in list order, at depth 0. */
  lemma RootsInOrder(cs: seq<Comment>)
    ensures AtDepth(RenderComments(cs), 0) == ChildrenOf(cs, None)
    ensures forall e :: e in RenderComments(cs) && e.depth == 0 ==> e.node.parentId == None
  {
    ChildrenInOrder(cs, None, 0, {});
    forall e | e in RenderComments(cs) && e.depth == 0 ensures e.node.parentId == None {
      AtDepthMember(RenderComments(cs), e);
    }
  }

  lemma {:induction false} AtDepthMember(r: seq<Entry>, e: Entry)
    requires e in r
    ensures e.node in AtDepth(r, e.depth)
  {
    if r[0] != e {
      AtDepthMember(r[1..], e);
    }
  }

  /** The path only guards termination: with distinct ids the rendering does not depend on it. */
  lemma {:induction false} RenderPathFree(cs: seq<Comment>, parent: Option<string>, depth: nat, p1: set<string>, p2: set<string>)
    requires DistinctIds(cs) && Ctx(cs, parent, depth, p1) && Ctx(cs, parent, depth, p2)
    ensures Render(cs, parent, depth, p1) == Render(cs, parent, depth, p2)
    decreases Ids(cs) - p1, 1
  {
    SiblingsPathFree(cs, parent, ChildrenOf(cs, parent), depth, p1, p2);
  }

  lemma {:induction false} SiblingsPathFree(cs: seq<Comment>, parent: Option<string>, kids: seq<Comment>, depth: nat, p1: set<string>, p2: set<string>)
    requires DistinctIds(cs) && Ctx(cs, parent, depth, p1) && Ctx(cs, parent, depth, p2)
    requires forall k :: k in kids ==> k in cs && k.parentId == parent
    ensures RenderSiblings(cs, kids, depth, p1) == RenderSiblings(cs, kids, depth, p2)
    decreases Ids(cs) - p1, 0, |kids|
  {
    if kids != [] {
      var k := kids[0];
      ChildCtx(cs, parent, depth, p1, k);
      ChildCtx(cs, parent, depth, p2, k);
      RenderPathFree(cs, Some(k.id), depth + 1, p1 + {k.id}, p2 + {k.id});
      SiblingsPathFree(cs, parent, kids[1..], depth, p1, p2);
    }
  }

  /** `renderComments(c.id, d + 1)` called afresh: the replies shown under `c` rendered at level `d`. */
  function RepliesBlock(cs: seq<Comment>, e: Entry): seq<Entry> {
    Render(cs, Some(e.node.id), e.depth + 1, {})
  }

  /** Pre-order inside one call: every entry is followed immediately by the rendering of its replies. */
  lemma {:induction false} RenderPreOrder(cs: seq<Comment>, parent: Option<string>, depth: nat, path: set<string>, i: nat)
    requires DistinctIds(cs) && Ctx(cs, parent, depth, path)
    requires i < |Render(cs, parent, depth, path)|
    ensures RepliesFollow(cs, Render(cs, parent, depth, path), i)
    decreases Ids(cs) - path, 1, 0, 0
  {
    ChildrenDistinct(cs, parent);
    SiblingsPreOrder(cs, parent, ChildrenOf(cs, parent), depth, path, i);
  }

  /** What RenderPreOrder states, for the entry at index `i` of `r`. */
  ghost predicate RepliesFollow(cs: seq<Comment>, r: seq<Entry>, i: nat)
    requires i < |r|
  {
    var b := RepliesBlock(cs, r[i]);
    i + 1 + |b| <= |r| && r[i + 1..i + 1 + |b|] == b
  }

  /** A block that follows its entry inside a part of `r` also follows it in `r`. */
  lemma RepliesFollowShift(cs: seq<Comment>, r: seq<Entry>, pre: seq<Entry>, s: seq<Entry>, post: seq<Entry>, j: nat, i: nat)
    requires r == pre + s + post && i == |pre| + j
    requires j < |s| && RepliesFollow(cs, s, j)
    ensures RepliesFollow(cs, r, i)
  {
    assert r[i] == s[j];
    var b := RepliesBlock(cs, s[j]);
    assert r[i + 1..i + 1 + |b|] == s[j + 1..j + 1 + |b|];
  }

  /** The first sibling's replies follow it. */
  lemma FirstRepliesFollow(cs: seq<Comment>, parent: Option<string>, depth: nat, path: set<string>, k: Comment, tail: seq<Entry>)
    requires DistinctIds(cs) && Ctx(cs, parent, depth, path) && k in cs && k.parentId == parent
    requires k.id !in path && Ctx(cs, Some(k.id), depth + 1, path + {k.id})
    ensures RepliesFollow(cs, [Entry(k, depth)] + Render(cs, Some(k.id), depth + 1, path + {k.id}) + tail, 0)
  {
    ChildBlock(cs, depth, path, k);
    HeadFollows(cs, Entry(k, depth), Render(cs, Some(k.id), depth + 1, path + {k.id}), tail);
  }

  /** The replies rendered under a sibling inside the walk are the ones a fresh call renders. */
  lemma ChildBlock(cs: seq<Comment>, depth: nat, path: set<string>, k: Comment)
    requires DistinctIds(cs) && Ctx(cs, Some(k.id), depth + 1, path + {k.id})
    ensures RepliesBlock(cs, Entry(k, depth)) == Render(cs, Some(k.id), depth + 1, path + {k.id})
  {
    CtxWithoutPath(cs, Some(k.id), depth + 1, path + {k.id});
    RenderPathFree(cs, Some(k.id), depth + 1, {}, path + {k.id});
  }

  /** A context stays one with the path emptied. */
  lemma CtxWithoutPath(cs: seq<Comment>, parent: Option<string>, depth: nat, path: set<string>)
    requires Ctx(cs, parent, depth, path)
    ensures Ctx(cs, parent, depth, {})
  {
  }

  lemma HeadFollows(cs: seq<Comment>, e: Entry, replies: seq<Entry>, tail: seq<Entry>)
    requires RepliesBlock(cs, e) == replies
    ensures RepliesFollow(cs, [e] + replies + tail, 0)
  {
    var r := [e] + replies + tail;
    assert r[0] == e;
    assert r[1..1 + |replies|] == replies;
  }

  lemma {:induction false} SiblingsPreOrder(cs: seq<Comment>, parent: Option<string>, kids: seq<Comment>, depth: nat, path: set<string>, i: nat)
    requires DistinctIds(cs) && Ctx(cs, parent, depth, path)
    requires forall k :: k in kids ==> k in cs && k.parentId == parent
    requires i < |RenderSiblings(cs, kids, depth, path)|
    ensures RepliesFollow(cs, RenderSiblings(cs, kids, depth, path), i)
    decreases Ids(cs) - path, 0, |kids|, 1
  {
    var k := kids[0];
    ChildCtx(cs, parent, depth, path, k);
    var replies := Render(cs, Some(k.id), depth + 1, path + {k.id});
    var tail := RenderSiblings(cs, kids[1..], depth, path);
    SiblingsUnfold(cs, kids, depth, path);
    if i == 0 {
      FirstRepliesFollow(cs, parent, depth, path, k, tail);
    } else if i <= |replies| {
      PreOrderInReplies(cs, parent, kids, depth, path, i);
    } else {
      PreOrderInTail(cs, parent, kids, depth, path, i);
    }
  }

  /** An entry among the first sibling's replies. */
  lemma {:induction false} PreOrderInReplies(cs: seq<Comment>, parent: Option<string>, kids: seq<Comment>, depth: nat, path: set<string>, i: nat)
    requires DistinctIds(cs) && Ctx(cs, parent, depth, path)
    requires kids != [] && forall k :: k in kids ==> k in cs && k.parentId == parent
    requires kids[0].id !in path
    requires 1 <= i <= |Render(cs, Some(kids[0].id), depth + 1, path + {kids[0].id})|
    ensures RepliesFollow(cs, RenderSiblings(cs, kids, depth, path), i)
    decreases Ids(cs) - path, 0, |kids|, 0
  {
    ReplyPreOrder(cs, parent, depth, path, kids[0], i - 1);
    RepliesInSiblings(cs, kids, depth, path, i);
  }

  /** A block following an entry among the first sibling's replies also follows it in the siblings' rendering. */
  lemma RepliesInSiblings(cs: seq<Comment>, kids: seq<Comment>, depth: nat, path: set<string>, i: nat)
    requires kids != [] && kids[0].id !in path && forall k :: k in kids ==> k in cs
    requires 1 <= i <= |Render(cs, Some(kids[0].id), depth + 1, path + {kids[0].id})|
    requires RepliesFollow(cs, Render(cs, Some(kids[0].id), depth + 1, path + {kids[0].id}), i - 1)
    ensures RepliesFollow(cs, RenderSiblings(cs, kids, depth, path), i)
  {
    var k := kids[0];
    SiblingsUnfold(cs, kids, depth, path);
    RepliesFollowShift(cs, RenderSiblings(cs, kids, depth, path), [Entry(k, depth)], Render(cs, Some(k.id), depth + 1, path + {k.id}), RenderSiblings(cs, kids[1..], depth, path), i - 1, i);
  }

  /** Pre-order inside the replies of one sibling `k`. */
  lemma {:induction false} ReplyPreOrder(cs: seq<Comment>, parent: Option<string>, depth: nat, path: set<string>, k: Comment, j: nat)
    requires DistinctIds(cs) && Ctx(cs, parent, depth, path) && k in cs && k.parentId == parent
    requires k.id !in path && j < |Render(cs, Some(k.id), depth + 1, path + {k.id})|
    ensures RepliesFollow(cs, Render(cs, Some(k.id), depth + 1, path + {k.id}), j)
    decreases Ids(cs) - path, 0, 0, 0
  {
    ChildCtx(cs, parent, depth, path, k);
    assert k.id in Ids(cs) - path;
    RenderPreOrder(cs, Some(k.id), depth + 1, path + {k.id}, j);
  }

  /** An entry rendered for one of the later siblings. */
  lemma {:induction false} PreOrderInTail(cs: seq<Comment>, parent: Option<string>, kids: seq<Comment>, depth: nat, path: set<string>, i: nat)
    requires DistinctIds(cs) && Ctx(cs, parent, depth, path)
    requires kids != [] && forall k :: k in kids ==> k in cs && k.parentId == parent
    requires kids[0].id !in path
    requires 1 + |Render(cs, Some(kids[0].id), depth + 1, path + {kids[0].id})| <= i < |RenderSiblings(cs, kids, depth, path)|
    ensures RepliesFollow(cs, RenderSiblings(cs, kids, depth, path), i)
    decreases Ids(cs) - path, 0, |kids|, 0
  {
    var k := kids[0];
    var head := [Entry(k, depth)] + Render(cs, Some(k.id), depth + 1, path + {k.id});
    var tail := RenderSiblings(cs, kids[1..], depth, path);
    SiblingsUnfold(cs, kids, depth, path);
    var j := i - |head|;
    SiblingsPreOrder(cs, parent, kids[1..], depth, path, j);
    assert head + tail + [] == RenderSiblings(cs, kids, depth, path);
    RepliesFollowShift(cs, RenderSiblings(cs, kids, depth, path), head, tail, [], j, i);
  }

  /** One step of RenderSiblings for a first sibling off the path. */
  lemma SiblingsUnfold(cs: seq<Comment>, kids: seq<Comment>, depth: nat, path: set<string>)
    requires kids != [] && kids[0].id !in path && forall k :: k in kids ==> k in cs
    ensures RenderSiblings(cs, kids, depth, path)
      == [Entry(kids[0], depth)] + Render(cs, Some(kids[0].id), depth + 1, path + {kids[0].id}) + RenderSiblings(cs, kids[1..], depth, path)
  {
  }

  /**
   * The forest is a pre-order walk: each rendered comment is followed immediately by
   * `renderComments(comment.id, depth + 1)`, which lists its replies in list order.
   */
  lemma PreOrder(cs: seq<Comment>, i: nat)
    requires DistinctIds(cs) && i < |RenderComments(cs)|
    ensures var r := RenderComments(cs);
      var b := RepliesBlock(cs, r[i]);
      && i + 1 + |b| <= |r| && r[i + 1..i + 1 + |b|] == b
      && AtDepth(b, r[i].depth + 1) == ChildrenOf(cs, Some(r[i].node.id))
  {
    RenderPreOrder(cs, None, 0, {}, i);
    var r := RenderComments(cs);
    ChildrenInOrder(cs, Some(r[i].node.id), r[i].depth + 1, {});
  }

  // ---------------------------------------------------------------------------
  // Deleting a comment (the store removes one document, nothing else)
  // ---------------------------------------------------------------------------

  /** The list after the comment with key `id` is deleted: no cascade to its replies. */
  function Without(cs: seq<Comment>, id: string): (r: seq<Comment>)
    ensures forall c :: c in r <==> c in cs && c.id != id
    ensures IsSubsequence(r, cs)
  {
    if cs == [] then []
    else if cs[0].id == id then Without(cs[1..], id)
    else [cs[0]] + Without(cs[1..], id)
  }

  lemma {:induction false} WithoutDistinct(cs: seq<Comment>, id: string)
    requires DistinctIds(cs)
    ensures DistinctIds(Without(cs, id))
  {
    if cs != [] {
      var tail := cs[1..];
      assert DistinctIds(tail) by {
        forall i, j | 0 <= i < j < |tail| ensures tail[i].id != tail[j].id {
          assert tail[i] == cs[i + 1] && tail[j] == cs[j + 1];
        }
      }
      WithoutDistinct(tail, id);
      forall c | c in Without(tail, id) ensures c.id != cs[0].id {
        var k :| 0 <= k < |tail| && tail[k] == c;
        assert cs[k + 1] == c;
      }
    }
  }

  /**
   * Deleting a comment leaves its direct replies in the list but out of the forest: they
   * still count in the header, and are rendered nowhere.
   */
  lemma DeleteOrphansReplies(cs: seq<Comment>, b: Comment, c: Comment, d: nat)
    requires DistinctIds(cs) && b in cs && c in cs && c.parentId == Some(b.id) && c != b
    ensures c in Without(cs, b.id) && HeaderCount(Without(cs, b.id)) == |cs| - 1
    ensures Entry(c, d) !in RenderComments(Without(cs, b.id))
  {
    var rest := Without(cs, b.id);
    WithoutDistinct(cs, b.id);
    WithoutCount(cs, b);
    OrphanNotRendered(rest, c, d);
  }

  lemma {:induction false} WithoutCount(cs: seq<Comment>, b: Comment)
    requires DistinctIds(cs) && b in cs
    ensures |Without(cs, b.id)| == |cs| - 1
  {
    var tail := cs[1..];
    assert DistinctIds(tail) by {
      forall i, j | 0 <= i < j < |tail| ensures tail[i].id != tail[j].id {
        assert tail[i] == cs[i + 1] && tail[j] == cs[j + 1];
      }
    }
    if cs[0] == b {
      forall c | c in tail ensures c.id != b.id {
        var k :| 0 <= k < |tail| && tail[k] == c;
        assert cs[k + 1] == c;
      }
      WithoutAbsent(tail, b.id);
    } else {
      assert b in tail;
      WithoutCount(tail, b);
    }
  }

  lemma {:induction false} WithoutAbsent(cs: seq<Comment>, id: string)
    requires forall c :: c in cs ==> c.id != id
    ensures Without(cs, id) == cs
  {
    if cs != [] {
      WithoutAbsent(cs[1..], id);
    }
  }

  /** Reloading after the store deletes document `id` gives the list without that comment. */
  lemma {:induction false} NormaliseRemoveKey(ds: seq<Doc<CommentData>>, id: string)
    ensures NormaliseAll(RemoveKey(ds, id)) == Without(NormaliseAll(ds), id)
  {
    if ds != [] {
      NormaliseRemoveKey(ds[1..], id);
      assert NormaliseAll(ds)[1..] == NormaliseAll(ds[1..]);
      if ds[0].key != id {
        assert NormaliseAll(RemoveKey(ds, id)) == [Normalise(ds[0])] + NormaliseAll(RemoveKey(ds[1..], id));
      }
    }
  }

  // ---------------------------------------------------------------------------
  // A worked thread: A, a reply B to A, a reply C to B
  // ---------------------------------------------------------------------------

  function Sample(id: string, parent: Option<string>): Comment {
    Comment(id, "", "", "", None, parent)
  }

  /** A thread of three: A at the top, B replying to A, C replying to B. */
  function SampleThread(): seq<Comment> {
    [Sample("A", None), Sample("B", Some("A")), Sample("C", Some("B"))]
  }

  /** Each comment of the sample thread has exactly the child it was given. */
  lemma SampleChildren()
    ensures var cs := SampleThread();
      && ChildrenOf(cs, None) == [cs[0]] && ChildrenOf(cs, Some("A")) == [cs[1]]
      && ChildrenOf(cs, Some("B")) == [cs[2]] && ChildrenOf(cs, Some("C")) == []
  {
    var cs := SampleThread();
    assert cs[1..] == [cs[1], cs[2]] && cs[1..][1..] == [cs[2]];
    assert ChildrenOf([cs[2]], Some("B")) == [cs[2]];
    assert ChildrenOf([cs[1], cs[2]], Some("B")) == [cs[2]];
  }

  /** Below A the thread renders as B, C at depths 1, 2. */
  lemma SampleReplies()
    ensures var cs := SampleThread();
      Render(cs, Some("A"), 1, {"A"}) == [Entry(cs[1], 1), Entry(cs[2], 2)]
  {
    var cs := SampleThread();
    SampleChildren();
    var pc := {"A", "B"} + {"C"};
    assert Render(cs, Some("C"), 3, pc) == [];
    SiblingsUnfold(cs, [cs[2]], 2, {"A", "B"});
    assert Render(cs, Some("B"), 2, {"A", "B"}) == [Entry(cs[2], 2)];
    assert {"A"} + {"B"} == {"A", "B"};
    SiblingsUnfold(cs, [cs[1]], 1, {"A"});
  }

  /** From the top level the thread renders as A, B, C at depths 0, 1, 2. */
  lemma SampleForest()
    ensures var cs := SampleThread();
      Render(cs, None, 0, {}) == [Entry(cs[0], 0), Entry(cs[1], 1), Entry(cs[2], 2)]
  {
    var cs := SampleThread();
    SampleChildren();
    SampleReplies();
    assert {} + {"A"} == {"A"};
    SiblingsUnfold(cs, [cs[0]], 0, {});
    assert [cs[0]][1..] == [];
  }

  /** The thread renders as A, B, C at depths 0, 1, 2. */
  lemma ThreadExample()
    ensures var cs := SampleThread();
      RenderComments(cs) == [Entry(cs[0], 0), Entry(cs[1], 1), Entry(cs[2], 2)]
  {
    SampleForest();
  }

  /** Once B is deleted only A is shown, though two comments are counted. */
  lemma DeleteExample()
    ensures var a, b, c := Sample("A", None), Sample("B", Some("A")), Sample("C", Some("B"));
      && RenderComments(Without([a, b, c], "B")) == [Entry(a, 0)]
      && HeaderCount(Without([a, b, c], "B")) == 2
  {
    var a, b, c := Sample("A", None), Sample("B", Some("A")), Sample("C", Some("B"));
    var cs := [a, b, c];
    assert cs[1..] == [b, c] && cs[1..][1..] == [c];
    var ds := Without(cs, "B");
    assert Without([c], "B") == [c];
    assert Without([b, c], "B") == [c];
    assert ds == [a, c];
    assert ds[1..] == [c];
    assert ChildrenOf(ds, None) == [a];
    assert ChildrenOf(ds, Some("A")) == [];
    assert {} + {"A"} == {"A"};
    assert Render(ds, Some("A"), 1, {"A"}) == [];
    SiblingsUnfold(ds, [a], 0, {});
  }
}
