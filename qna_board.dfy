/**
 * The Q&A list page (pages/qna/index.tsx): the search filter, notices placed first,
 * the slice shown on the current page, the page count, and the handlers that move
 * between pages.
 */
module QnaBoard {
  import opened Wrappers
  import opened Store
  import opened Text

  /** A question as the list receives it; a missing `isNotice` is read as `false`. */
  datatype Post = Post(
    id: string,
    title: string,
    content: string,
    authorEmail: string,
    createdAt: Option<Timestamp>,
    isNotice: bool)

  const PostsPerPage: nat := 5
  const LoadFailed: string := "Q&A 게시글을 불러오는 중 오류가 발생했습니다."

  // ---------------------------------------------------------------------------
  // Filtering and the notice partition
  // ---------------------------------------------------------------------------

  /** `Array.prototype.filter`: the elements that pass, in their original order. */
  function Keep(ps: seq<Post>, f: Post -> bool): (r: seq<Post>)
    ensures |r| <= |ps|
    ensures forall i :: 0 <= i < |r| ==> r[i] in ps && f(r[i])
    ensures forall i :: 0 <= i < |ps| && f(ps[i]) ==> ps[i] in r
  {
    if ps == [] then []
    else if f(ps[0]) then [ps[0]] + Keep(ps[1..], f)
    else Keep(ps[1..], f)
  }

  /** The search: lower-cased title or lower-cased content contains the lower-cased term. */
  predicate Matches(p: Post, term: string) {
    Includes(Lower(p.title), Lower(term)) || Includes(Lower(p.content), Lower(term))
  }

  /** The posts that match the term, in their original order. */
  function Filtered(ps: seq<Post>, term: string): (r: seq<Post>)
    ensures |r| <= |ps|
    ensures forall i :: 0 <= i < |r| ==> r[i] in ps && Matches(r[i], term)
    ensures forall i :: 0 <= i < |ps| && Matches(ps[i], term) ==> ps[i] in r
  {
    Keep(ps, p => Matches(p, term))
  }

  predicate IsNotice(p: Post) {
    p.isNotice
  }

  predicate IsRegular(p: Post) {
    !p.isNotice
  }

  function Notices(ps: seq<Post>): seq<Post> {
    Keep(ps, IsNotice)
  }

  function Regulars(ps: seq<Post>): seq<Post> {
    Keep(ps, IsRegular)
  }

  /**
   * `[...noticePosts, ...normalPosts]`: as many posts as before, drawn from the list, the
   * notices taking exactly the leading positions.
   */
  function Combined(ps: seq<Post>): (r: seq<Post>)
    ensures |r| == |ps|
    ensures forall i :: 0 <= i < |r| ==> r[i] in ps
    ensures forall i :: 0 <= i < |r| ==> (r[i].isNotice <==> i < |Notices(ps)|)
  {
    SplitMultiset(ps);
    assert |multiset(Notices(ps) + Regulars(ps))| == |multiset(ps)|;
    Notices(ps) + Regulars(ps)
  }

  /** A post is listed exactly when its title or content contains the term, case aside. */
  lemma FilteredIff(ps: seq<Post>, term: string, p: Post)
    ensures p in Filtered(ps, term) <==> p in ps && Matches(p, term)
  {
    if p in Filtered(ps, term) {
      var r := Filtered(ps, term);
      var i :| 0 <= i < |r| && r[i] == p;
    }
    if p in ps && Matches(p, term) {
      var i :| 0 <= i < |ps| && ps[i] == p;
    }
  }

  lemma {:induction false} KeepAll(ps: seq<Post>, f: Post -> bool)
    requires forall i :: 0 <= i < |ps| ==> f(ps[i])
    ensures Keep(ps, f) == ps
  {
    if ps != [] {
      KeepAll(ps[1..], f);
    }
  }

  lemma {:induction false} KeepNone(ps: seq<Post>, f: Post -> bool)
    requires forall i :: 0 <= i < |ps| ==> !f(ps[i])
    ensures Keep(ps, f) == []
  {
    if ps != [] {
      KeepNone(ps[1..], f);
    }
  }

  lemma {:induction false} KeepConcat(a: seq<Post>, b: seq<Post>, f: Post -> bool)
    ensures Keep(a + b, f) == Keep(a, f) + Keep(b, f)
  {
    if a == [] {
      assert a + b == b;
    } else {
      assert (a + b)[1..] == a[1..] + b;
      KeepConcat(a[1..], b, f);
    }
  }

  /** The empty search term is contained in every string, so it keeps every post. */
  lemma EmptyTermKeepsAll(ps: seq<Post>)
    ensures Filtered(ps, "") == ps
  {
    forall i | 0 <= i < |ps| ensures Matches(ps[i], "") {
      assert OccursAt(Lower(ps[i].title), Lower(""), 0);
    }
    KeepAll(ps, p => Matches(p, ""));
  }

  lemma {:induction false} SplitMultiset(ps: seq<Post>)
    ensures multiset(Notices(ps)) + multiset(Regulars(ps)) == multiset(ps)
  {
    if ps != [] {
      SplitMultiset(ps[1..]);
      assert ps == [ps[0]] + ps[1..];
    }
  }

  /** The combined list holds the filtered posts, each as often as before. */
  lemma CombinedIsPermutation(ps: seq<Post>)
    ensures multiset(Combined(ps)) == multiset(ps)
    ensures |Combined(ps)| == |ps|
  {
    SplitMultiset(ps);
    assert |multiset(Combined(ps))| == |multiset(ps)|;
  }

  /** Every notice comes before every other post. */
  lemma NoticesFirst(ps: seq<Post>, i: nat, j: nat)
    requires i < j < |Combined(ps)| && Combined(ps)[j].isNotice
    ensures Combined(ps)[i].isNotice
  {
  }

  /**
   * The partition is stable: reading the notices, or the other posts, off the combined
   * list gives them in the order they had before.
   */
  lemma CombinedIsStable(ps: seq<Post>)
    ensures Notices(Combined(ps)) == Notices(ps)
    ensures Regulars(Combined(ps)) == Regulars(ps)
  {
    var n, m := Notices(ps), Regulars(ps);
    KeepConcat(n, m, IsNotice);
    KeepConcat(n, m, IsRegular);
    KeepAll(n, IsNotice);
    KeepNone(n, IsRegular);
    KeepNone(m, IsNotice);
    KeepAll(m, IsRegular);
    assert [] + m == m && n + [] == n;
  }

  // ---------------------------------------------------------------------------
  // Pagination
  // ---------------------------------------------------------------------------

  /** How `Array.prototype.slice` resolves an index argument on a sequence of length `n`. */
  function Resolve(i: int, n: nat): (k: nat)
    ensures k <= n
    ensures 0 <= i ==> k == if i < n then i else n
  {
    if i < 0 then (if n + i < 0 then 0 else n + i)
    else if i < n then i
    else n
  }

  /**
   * `s.slice(start, end)`: the elements from the resolved start up to, not including, the
   * resolved end, and nothing when the end does not lie past the start.
   */
  function JsSlice<T>(s: seq<T>, start: int, end: int): (r: seq<T>)
    ensures |r| == if Resolve(start, |s|) < Resolve(end, |s|) then Resolve(end, |s|) - Resolve(start, |s|) else 0
    ensures forall i :: 0 <= i < |r| ==> Resolve(start, |s|) + i < |s| && r[i] == s[Resolve(start, |s|) + i]
  {
    var from, to := Resolve(start, |s|), Resolve(end, |s|);
    if from < to then s[from..to] else []
  }

  function Min(a: int, b: int): int {
    if a < b then a else b
  }

  /**
   * `combinedPosts.slice(indexOfFirstPost, indexOfLastPost)` for `page`. Never more than
   * five posts, whatever the page number; for a positive page the posts at positions
   * `5 * (page - 1)` up to `5 * page`, cut at the end of the list.
   */
  function PageSlice<T>(s: seq<T>, page: int): (r: seq<T>)
    ensures |r| <= PostsPerPage
    ensures forall i :: 0 <= i < |r| ==> r[i] in s
    ensures page >= 1 ==> r == s[Min((page - 1) * PostsPerPage, |s|)..Min(page * PostsPerPage, |s|)]
  {
    JsSlice(s, page * PostsPerPage - PostsPerPage, page * PostsPerPage)
  }

  /** `Math.ceil(n / postsPerPage)`: the fewest pages that hold `n` posts. */
  function TotalPages(n: nat): (t: nat)
    ensures t * PostsPerPage >= n
    ensures t == 0 || (t - 1) * PostsPerPage < n
  {
    (n + PostsPerPage - 1) / PostsPerPage
  }

  /** Pages 1 to `k`, one after the other. */
  function PagesUpTo<T>(s: seq<T>, k: nat): seq<T> {
    if k == 0 then [] else PagesUpTo(s, k - 1) + PageSlice(s, k)
  }

  lemma {:induction false} PagesUpToPrefix<T>(s: seq<T>, k: nat)
    ensures PagesUpTo(s, k) == s[..Min(k * PostsPerPage, |s|)]
  {
    if k > 0 {
      PagesUpToPrefix(s, k - 1);
      var a, b := Min((k - 1) * PostsPerPage, |s|), Min(k * PostsPerPage, |s|);
      assert s[..a] + s[a..b] == s[..b];
    }
  }

  /** Pages 1 to `totalPages` together are the whole list, in order. */
  lemma PagesCover<T>(s: seq<T>)
    ensures PagesUpTo(s, TotalPages(|s|)) == s
  {
    PagesUpToPrefix(s, TotalPages(|s|));
  }

  /** Position `i` of page `page` is position `5 * (page - 1) + i` of the list, so no post is on two pages. */
  lemma PagePosition<T>(s: seq<T>, page: int, i: nat)
    requires page >= 1 && i < |PageSlice(s, page)|
    ensures (page - 1) * PostsPerPage + i < |s|
    ensures PageSlice(s, page)[i] == s[(page - 1) * PostsPerPage + i]
  {
  }

  /** A page from 1 on has posts exactly when it is no further than the last page. */
  lemma PageNonEmptyIff<T>(s: seq<T>, page: int)
    requires page >= 1
    ensures PageSlice(s, page) != [] <==> page <= TotalPages(|s|)
  {
    var t := TotalPages(|s|);
    if page <= t {
      assert (page - 1) * PostsPerPage <= (t - 1) * PostsPerPage;
    } else {
      assert t * PostsPerPage <= (page - 1) * PostsPerPage;
    }
  }

  // ---------------------------------------------------------------------------
  // The page component
  // ---------------------------------------------------------------------------

  /** The page's state: the loaded posts, the search box, the current page and the load error. */
  class QnaHome {
    var posts: seq<Post>
    var searchTerm: string
    var currentPage: int
    var error: string

    /** Pages are numbered from 1, and no handler takes the page below 1. */
    ghost predicate Valid()
      reads this
    {
      currentPage >= 1
    }

    constructor ()
      ensures Valid() && posts == [] && searchTerm == "" && currentPage == 1 && error == ""
    {
      posts := [];
      searchTerm := "";
      currentPage := 1;
      error := "";
    }

    /** `combinedPosts`. */
    function Listed(): seq<Post>
      reads this
    {
      Combined(Filtered(posts, searchTerm))
    }

    /** `totalPages`. */
    function Pages(): nat
      reads this
    {
      TotalPages(|Listed()|)
    }

    /** `currentPosts`: at most five posts, each a loaded post that matches the search. */
    function Shown(): (r: seq<Post>)
      reads this
      ensures |r| <= PostsPerPage
      ensures forall i :: 0 <= i < |r| ==> r[i] in posts && Matches(r[i], searchTerm)
    {
      PageSlice(Listed(), currentPage)
    }

    /** The current page is one the page buttons offer (page 1 when there are none). */
    predicate PageInRange()
      reads this
    {
      1 <= currentPage <= (if Pages() > 1 then Pages() else 1)
    }

    /** Prev, the page buttons and Next are rendered only when there is more than one page. */
    predicate ShowsPagination()
      reads this
    {
      Pages() > 1
    }

    /** "검색 결과가 없습니다." is shown when the current slice is empty. */
    predicate ShowsNoResults()
      reads this
    {
      Shown() == []
    }

    /** The effect that fetches `/api/qna`: `ok` says whether the request succeeded, `data` is its body. */
    method FetchPosts(ok: bool, data: seq<Post>)
      requires Valid()
      modifies this`posts, this`error
      ensures Valid() && searchTerm == old(searchTerm) && currentPage == old(currentPage)
      ensures ok ==> posts == data && error == old(error)
      ensures !ok ==> posts == old(posts) && error == LoadFailed
    {
      if ok {
        posts := data;
      } else {
        error := LoadFailed;
      }
    }

    /** `handlePrev`: one page back, unless already on page 1. */
    method HandlePrev()
      requires Valid()
      modifies this`currentPage
      ensures Valid()
      ensures currentPage == if old(currentPage) > 1 then old(currentPage) - 1 else old(currentPage)
      ensures old(PageInRange()) ==> PageInRange()
    {
      if currentPage > 1 {
        currentPage := currentPage - 1;
      }
    }

    /** `handleNext`: one page on, unless already on the last page. */
    method HandleNext()
      requires Valid()
      modifies this`currentPage
      ensures Valid()
      ensures currentPage == if old(currentPage) < Pages() then old(currentPage) + 1 else old(currentPage)
      ensures old(PageInRange()) ==> PageInRange()
    {
      if currentPage < Pages() {
        currentPage := currentPage + 1;
      }
    }

    /** A page button; the buttons are numbered 1 to `totalPages`. */
    method SelectPage(page: int)
      requires Valid() && 1 <= page <= Pages()
      modifies this`currentPage
      ensures Valid() && currentPage == page && PageInRange()
    {
      currentPage := page;
    }

    /** Typing in the search box: the term changes, the page number does not. */
    method SetSearchTerm(term: string)
      requires Valid()
      modifies this`searchTerm
      ensures Valid() && searchTerm == term && currentPage == old(currentPage) && posts == old(posts)
      ensures currentPage > Pages() ==> ShowsNoResults()
    {
      searchTerm := term;
      PageNonEmptyIff(Listed(), currentPage);
    }
  }

  /** On a page in range the list shows posts, and only when the page is past the last does it show none. */
  lemma NoResultsIffPastLastPage(ps: seq<Post>, term: string, page: int)
    requires page >= 1
    ensures PageSlice(Combined(Filtered(ps, term)), page) == [] <==> page > TotalPages(|Filtered(ps, term)|)
  {
    CombinedIsPermutation(Filtered(ps, term));
    PageNonEmptyIff(Combined(Filtered(ps, term)), page);
  }

  /** Six posts, only the first of which mentions "Dafny". */
  function SamplePosts(): seq<Post> {
    var hit, miss := Post("a", "Dafny", "", "", None, false), Post("b", "x", "", "", None, false);
    [hit, miss, miss, miss, miss, miss]
  }

  lemma SampleMatches()
    ensures Matches(SamplePosts()[0], "DAF")
    ensures forall i :: 1 <= i < 6 ==> !Matches(SamplePosts()[i], "DAF")
  {
    var ps := SamplePosts();
    assert Lower("DAF") == "daf" && Lower("Dafny") == "dafny" && Lower("x") == "x";
    assert OccursAt(Lower(ps[0].title), Lower("DAF"), 0);
    assert !Includes("x", "daf") && !Includes("", "daf");
  }

  lemma {:induction false} SampleFiltered()
    ensures Filtered(SamplePosts(), "DAF") == [SamplePosts()[0]]
  {
    var ps := SamplePosts();
    var f := p => Matches(p, "DAF");
    SampleMatches();
    KeepNone(ps[1..], f);
    assert f(ps[0]);
    assert Keep(ps, f) == [ps[0]] + Keep(ps[1..], f);
  }

  /**
   * With the second page open, the empty term shows the sixth post there; typing "DAF"
   * leaves one post, and the page, which is not reset, shows "no results".
   */
  lemma StalePageExample()
    ensures |PageSlice(Combined(Filtered(SamplePosts(), "")), 2)| == 1
    ensures PageSlice(Combined(Filtered(SamplePosts(), "DAF")), 2) == []
  {
    var ps := SamplePosts();
    EmptyTermKeepsAll(ps);
    CombinedIsPermutation(ps);
    LastOnSecondPage(Combined(Filtered(ps, "")));
    SampleFiltered();
    NoResultsIffPastLastPage(ps, "DAF", 2);
  }

  lemma LastOnSecondPage<T>(s: seq<T>)
    requires |s| == 6
    ensures |PageSlice(s, 2)| == 1
  {
  }
}
