# Community board core, modelled in Dafny

This project models the sequential logic inside a Next.js community board that stores its data in Firebase.

- **Q&A comment thread.** The flat list of comments is loaded from the store and normalised. `renderComments` then draws it as a forest of replies. The component holds two pieces of state: the `comments` list and the id whose reply form is open (`replyingTo`). It also has a confirm-gated delete and the `💬 댓글 N개` header.
- **Q&A list page.** Posts are filtered by a case-insensitive search on title or content. Notices go first. Five posts are shown per page. The Prev, Next and page buttons move between pages.
- **Three submission forms.** These are the comment form, the question form and the free-board post form. Each one runs guards in order, builds the record it sends, and sets an error or navigates afterwards.
- **Login panel.** It covers the e-mail login decision chain, the names shown for sign-in methods, the messages for error codes, and what the Google, GitHub and anonymous handlers show.

## Module layout

| module | file | holds |
|---|---|---|
| `Wrappers` | wrappers.dfy | `Option` and `Result` |
| `Text` | text.dfy | the JavaScript string built-ins used: `toLowerCase` (ASCII), `includes`, `trim`, `join`, `${}` and `x \|\| null` |
| `Store` | store.dfy | a document collection (`Doc`, `Collection`): `getDocs`, `addDoc` and `deleteDoc` |
| `Session` | session.dfy | the signed-in user, `user.email \|\| "익명"` and `user?.uid` |
| `CommentTree` | comment_tree.dfy | comments, normalisation, `renderComments` and every theorem about the forest |
| `CommentListView` | comment_list.dfy | the comment list component as a class, plus its buttons |
| `CommentForm` | comment_form.dfy | the comment form's validator, and the form as a class |
| `QnaBoard` | qna_board.dfy | the filter/partition/pagination pipeline, and the list page as a class |
| `QnaWrite` | qna_write.dfy | the question form |
| `FreeWrite` | free_write.dfy | the free-board post form |
| `Login` | login.dfy | the login panel |

### How the comment forest is modelled

- The recursion in `renderComments(parentId, depth)` is `CommentTree.Render`.
- `Render` carries the set of ids on the current path and does not descend into a child whose id is already on it. Without that guard the JavaScript can recurse forever, and that happens only on lists with repeated ids. `RenderPathFree` shows that with distinct ids the guard never changes the result. The store's document keys supply distinct ids: `DatedUnique`, `NormaliseAllKeepsDistinct` and `LoadComments` carry them through.
- "Hangs `n` levels under the top" is `ChainLength`. It follows parent ids through `Find`, which returns the first comment with that id.

### How the pages are modelled

- Each page component is a class. Its fields are the component's state variables, and its methods are the handlers.
- Anything external is a parameter of the handler that triggers it: an answer from the authentication service, a read, write or delete the store rejects, the store's `ignoreUndefinedProperties` setting, a `confirm()` result, whether a callback was passed, the client clock.
- `calls`, the ghost counter of store writes, lets each handler's contract say whether the store was touched.
- `navigatedTo` records `router.push`. The `alert()` text is returned as an out-parameter.

## Model

| member | source | states |
|---|---|---|
| Text.Lower | pages/qna/index.tsx:41-42 | lower-cases character by character: the same length, with ASCII A–Z mapped to a–z and every other character kept |
| Text.Includes | pages/qna/index.tsx:41-42 | `s.includes(t)` is true exactly when `t` occurs in `s` at some start index |
| Text.TrimStart | components/QnaCommentForm.tsx:25 | the result is a suffix of the input; everything dropped is whitespace, and the result does not start with whitespace |
| Text.TrimEnd | components/QnaCommentForm.tsx:25 | the result is a prefix of the input; everything dropped is whitespace, and the result does not end with whitespace |
| Text.Trim | components/QnaCommentForm.tsx:25 | `trim()` gives a piece of the input that is empty or starts and ends with a non-whitespace character, everything dropped before and after it being whitespace |
| Text.TrimEmptyIffBlank | components/QnaCommentForm.tsx:25 | `!content.trim()` holds exactly when every character of the content is ECMAScript whitespace |
| Text.Join | components/Login.tsx:35-45 | `join` of no names is "", of one name is that name; the length is the total of the parts plus one separator between each two; the first part is a prefix |
| Text.JoinAppend | components/Login.tsx:35-45 | joining one more part appends the separator and that part, which fixes the joined string part by part |
| Text.JoinExample | components/Login.tsx:35-45 | `["a", "b"].join(",")` is `"a,b"` |
| Text.Interpolated | components/Login.tsx:28 | a template literal writes a string as itself and a missing one as "null" |
| Text.OrNull | components/QnaCommentList.tsx:39 | `v \|\| null` is non-null exactly when `v` is a non-empty string, and then equals `v` |
| Text.OrElse | components/QnaCommentForm.tsx:33 | `v \|\| fallback` is `v` when it is a non-empty string, and the fallback when it is null or "" |
| Store.RemoveKey | services/qnaApi.ts:85-90 | deleting a key keeps exactly the documents with other keys, and never produces a longer list |
| Store.FreshKey | services/qnaApi.ts:70-71 | the key `addDoc` assigns is held by no document already in the collection |
| Store.RemoveKeyCount | services/qnaApi.ts:85-90 | with unique keys, a delete removes one document when the key is present and none when it is not |
| Store.RemoveKeyUnique | services/qnaApi.ts:85-90 | a delete keeps the keys unique |
| Store.Collection.Fetch | services/qnaApi.ts:75-81 | a successful `getDocs` returns the stored documents, whose keys are unique; a rejected one returns nothing |
| Store.Collection.Add | services/qnaApi.ts:60-72 | one write request; on success the data is appended under a fresh key, on failure nothing is stored |
| Store.Collection.Delete | services/qnaApi.ts:85-90 | one write request; when it succeeds exactly the document with that key goes, and the length drops by one exactly when it was present; a rejected one removes nothing |
| Session.AuthorEmail | components/QnaCommentForm.tsx:33 | the user's e-mail when it is a non-empty string; "익명" when there is no user, no e-mail, or an empty one |
| Session.Uid | pages/write.tsx:30 | `user?.uid` is defined exactly when a user is signed in, and is that user's uid |
| CommentTree.Normalise | components/QnaCommentList.tsx:33-40 | the id is the document key; a missing content, author e-mail or author id becomes ""; `createdAt` is kept; the parent is non-null exactly when the stored parent is a non-empty string |
| CommentTree.Stored | components/QnaCommentList.tsx:33-40 | a normalised comment stored with every field present normalises back to itself |
| CommentTree.Dated | services/qnaApi.ts:76-79 | the query ordered by `createdAt` returns exactly the stored documents that have a `createdAt`, as a subsequence of the stored list, so in stored order |
| CommentTree.DatedUnique | services/qnaApi.ts:76-80 | leaving out the documents without a timestamp keeps the keys unique |
| CommentTree.DatedRemoveKey | services/qnaApi.ts:76-90 | querying after a delete gives the earlier query's answer without that key |
| CommentTree.DatedAppend | services/qnaApi.ts:70-79 | a document written with a timestamp comes back last from the query |
| CommentTree.DatedAppendUndated | services/qnaApi.ts:70-79 | a document written without a timestamp leaves the query's answer as it was |
| CommentTree.NormaliseAll | components/QnaCommentList.tsx:32-41 | `res.map(...)` keeps the length and order, and normalises each document in place |
| CommentTree.NormaliseAllAppend | components/QnaCommentList.tsx:33-40 | normalising a list with one more document appends that document's normal form |
| CommentTree.NormaliseAllKeepsDistinct | components/QnaCommentList.tsx:33-34 | unique document keys give comments with distinct ids |
| CommentTree.NormaliseIdempotent | components/QnaCommentList.tsx:33-40 | normalising a normalised comment again changes nothing |
| CommentTree.ChildrenOf | components/QnaCommentList.tsx:59-60 | `filter((c) => c.parentId === parentId)` keeps exactly the comments with that parent, in list order |
| CommentTree.Render | components/QnaCommentList.tsx:58-106 | every entry a call shows is a comment of the list at the call's depth or deeper |
| CommentTree.RenderSiblings | components/QnaCommentList.tsx:59-105 | every entry the `.map` shows is a comment of the list at that depth or deeper, and there is at least one entry per sibling |
| CommentTree.RenderComments | components/QnaCommentList.tsx:117 | `renderComments(null)` shows only comments of the list, and with distinct ids none twice |
| CommentTree.HeaderCount | components/QnaCommentList.tsx:116-117 | the header counts every comment held; with distinct ids it is never below the number shown, and it equals it exactly when every comment's parent chain reaches the top level |
| CommentTree.RenderShape | components/QnaCommentList.tsx:58-106 | `renderComments(parent, depth)` shows exactly the comments under `parent`, each at the length of its ancestor chain, none twice |
| CommentTree.SiblingsShape | components/QnaCommentList.tsx:59-105 | the `.map` over one list of siblings shows each sibling and everything under it, and nothing else, none twice |
| CommentTree.RenderedIffReachable | components/QnaCommentList.tsx:58-106 | with distinct ids, a comment appears at depth `d` exactly when its chain of parents reaches the top level in `d` steps |
| CommentTree.VisitedOnce | components/QnaCommentList.tsx:58-106 | with distinct ids, a comment is rendered once if its parent chain reaches the top level, and never otherwise |
| CommentTree.OrphanNotRendered | components/QnaCommentList.tsx:58-61 | a reply whose parent id names no comment in the list is rendered at no depth |
| CommentTree.ShownIffReachable | components/QnaCommentList.tsx:58-117 | with distinct ids, a comment of the list is shown somewhere exactly when its parent chain reaches the top level |
| CommentTree.HeaderBoundsForest | components/QnaCommentList.tsx:116-117 | with distinct ids, the forest has at most as many entries as the list has comments, and exactly as many when every comment is reachable |
| CommentTree.SiblingsInOrder | components/QnaCommentList.tsx:59-61 | at their own level, the rendering of a list of siblings lists exactly those siblings in order |
| CommentTree.ChildrenInOrder | components/QnaCommentList.tsx:58-61 | at level `depth`, a call lists exactly the children of its parent, in the order of the flat list |
| CommentTree.RootsInOrder | components/QnaCommentList.tsx:117 | depth 0 of the page holds exactly the comments with a null parent, in list order |
| CommentTree.RenderPathFree | components/QnaCommentList.tsx:58-106 | with distinct ids, the path guard has no effect on what is rendered |
| CommentTree.RenderPreOrder | components/QnaCommentList.tsx:61-103 | inside one call, every shown comment is followed immediately by the rendering of its replies |
| CommentTree.PreOrder | components/QnaCommentList.tsx:58-106 | each rendered comment is followed immediately by `renderComments(comment.id, depth + 1)`, and that block's top level is the comment's children in list order |
| CommentTree.Without | services/qnaApi.ts:85-90 | the list after a delete holds exactly the comments with other ids, in their old order |
| CommentTree.DeleteOrphansReplies | components/QnaCommentList.tsx:52-56 | deleting a comment keeps its direct replies in the list and in the header count, and renders them nowhere |
| CommentTree.WithoutCount | components/QnaCommentList.tsx:116 | deleting a present comment lowers the header count by exactly one |
| CommentTree.NormaliseRemoveKey | components/QnaCommentList.tsx:52-56 | reloading after the store deletes document `id` gives the old list without comment `id` |
| CommentTree.ThreadExample | components/QnaCommentList.tsx:58-106 | the thread A ← B ← C renders as A, B, C at depths 0, 1, 2 |
| CommentTree.DeleteExample | components/QnaCommentList.tsx:52-56 | after B is deleted from that thread, only A is rendered, yet the header says 2 |
| CommentListView.CanReply | components/QnaCommentList.tsx:72-79 | the reply button shows exactly when `user?.uid` is defined, that is, when someone is signed in |
| CommentListView.CanDelete | components/QnaCommentList.tsx:80-87 | the delete button shows exactly when `user?.uid` is the comment's author id; whoever sees it also sees the reply button |
| CommentListView.NoAuthorNoDelete | components/QnaCommentList.tsx:37-87 | a comment stored without an author id offers its delete button to no user with a non-empty uid |
| CommentListView.FormsShown | components/QnaCommentList.tsx:90 | no reply form is shown when `replyingTo` is null |
| CommentListView.OneReplyForm | components/QnaCommentList.tsx:90-101 | with distinct ids, at most one rendered comment shows its reply form |
| CommentListView.CommentList.constructor | components/QnaCommentList.tsx:28-29 | the list starts empty with no reply form open |
| CommentListView.CommentList.LoadComments | components/QnaCommentList.tsx:31-42 | after a successful read the list is replaced wholesale by the normalised documents the query returns, whose ids are distinct; after a rejected read it keeps what it held; the reply form is left alone |
| CommentListView.CommentList.HandleDelete | components/QnaCommentList.tsx:52-56 | without confirmation nothing changes and the store is not called; with it, one delete request; if it is rejected nothing is reloaded; if it succeeds that document goes, and the reloaded list is the old query's without that comment, or the stale list when the reload is rejected |
| CommentListView.CommentList.StartReply | components/QnaCommentList.tsx:74 | the reply form opens under that comment and closes any other |
| CommentListView.CommentList.CommentAdded | components/QnaCommentList.tsx:95-98 | after a reply is posted, the form closes and the list is reloaded from the store, or kept when the reload is rejected |
| CommentListView.CommentList.Header | components/QnaCommentList.tsx:116-117 | the header number is the length of the held list; with distinct ids it is never below the number of comments shown under it, and equals it exactly when every comment is reachable |
| CommentListView.CommentList.Shown | components/QnaCommentList.tsx:90-117 | the forest under the header shows only held comments; with distinct ids none twice, and at most one of them with its reply form open |
| CommentForm.CheckComment | components/QnaCommentForm.tsx:20-37 | fails exactly when nobody is signed in or the content is all whitespace, with login checked first; otherwise the record has the untrimmed content, the e-mail fallback, the uid, the client time and `parentId \|\| null` |
| CommentForm.SubmittedReadsBack | components/QnaCommentForm.tsx:31-37 | a submitted comment reads back from the store as the comment that was written |
| CommentForm.SubmittedIsListedLast | components/QnaCommentForm.tsx:31-37 | a submitted comment carries its time, so the reloaded list is the earlier one with that comment appended |
| CommentForm.ReplyHangsUnderParent | components/QnaCommentForm.tsx:36 | a reply form's comment reads back with the replied-to comment as parent |
| CommentForm.CommentFormState.constructor | components/QnaCommentForm.tsx:13-14 | the form starts with empty content and no error |
| CommentForm.CommentFormState.SetContent | components/QnaCommentForm.tsx:50 | typing replaces the content and leaves the error |
| CommentForm.CommentFormState.HandleSubmit | components/QnaCommentForm.tsx:16-44 | clears the error; a failed guard sets its message with no store call; otherwise one write: on success the content is emptied and the callback fires if given, on failure the error is set, the content kept, and no callback fires |
| QnaBoard.Keep | pages/qna/index.tsx:40 | `filter` keeps the elements that pass and only those, never more than the input |
| QnaBoard.Filtered | pages/qna/index.tsx:40-43 | the filtered list holds only posts of the list that match, and every matching post, never more than the list |
| QnaBoard.FilteredIff | pages/qna/index.tsx:40-43 | a post is listed exactly when its lower-cased title or content contains the lower-cased term |
| QnaBoard.EmptyTermKeepsAll | pages/qna/index.tsx:40-43 | the empty search term keeps every post, in order |
| QnaBoard.Combined | pages/qna/index.tsx:45-47 | the combined list is as long as the filtered one, holds only its posts, and a position holds a notice exactly when it is among the first `noticePosts.length` |
| QnaBoard.CombinedIsPermutation | pages/qna/index.tsx:45-47 | notices-then-others holds the filtered posts, each as often as before |
| QnaBoard.NoticesFirst | pages/qna/index.tsx:45-47 | every notice comes before every other post |
| QnaBoard.CombinedIsStable | pages/qna/index.tsx:45-47 | both the notices and the other posts keep their relative order |
| QnaBoard.Resolve | pages/qna/index.tsx:50 | `slice` clamps a non-negative index to the length, and resolves any index into `0..length` |
| QnaBoard.JsSlice | pages/qna/index.tsx:50 | `slice(start, end)` has `end - start` elements after resolving both indices (none when the end is not past the start), and element `i` is element `start + i` of the input |
| QnaBoard.PageSlice | pages/qna/index.tsx:48-50 | a page never has more than five posts, all from the list; for page `p ≥ 1` it is positions `5(p-1)` to `5p` of the combined list, cut at its end |
| QnaBoard.TotalPages | pages/qna/index.tsx:51 | `ceil(n / 5)`: the fewest pages of five that hold `n` posts |
| QnaBoard.PagesCover | pages/qna/index.tsx:48-51 | pages 1 to `totalPages`, taken in order, are the whole combined list |
| QnaBoard.PagePosition | pages/qna/index.tsx:48-50 | entry `i` of page `p` is entry `5(p-1)+i` of the list, so no post is on two pages |
| QnaBoard.PageNonEmptyIff | pages/qna/index.tsx:48-51 | a page from 1 on has posts exactly when it is no further than `totalPages` |
| QnaBoard.QnaHome.constructor | pages/qna/index.tsx:21-25 | no posts, an empty search term, page 1 and no error |
| QnaBoard.QnaHome.Shown | pages/qna/index.tsx:40-50 | `currentPosts` has at most five posts, each a loaded post that matches the search term |
| QnaBoard.QnaHome.FetchPosts | pages/qna/index.tsx:27-38 | a successful fetch replaces the posts; a failed one keeps them and sets the load error |
| QnaBoard.QnaHome.HandlePrev | pages/qna/index.tsx:54-56 | goes one page back only from above page 1, keeps the page at least 1, and keeps it within `1..max(1, totalPages)` |
| QnaBoard.QnaHome.HandleNext | pages/qna/index.tsx:58-60 | goes one page on only below `totalPages`, and keeps the page within `1..max(1, totalPages)` |
| QnaBoard.QnaHome.SelectPage | pages/qna/index.tsx:109-112 | a page button sets that page, which is within range |
| QnaBoard.QnaHome.SetSearchTerm | pages/qna/index.tsx:85-86 | the term changes but the page does not; if the page is now past the last one, "no results" is shown |
| QnaBoard.NoResultsIffPastLastPage | pages/qna/index.tsx:93-94 | "검색 결과가 없습니다." shows exactly when the current page is past the last page of the filtered list |
| QnaBoard.StalePageExample | pages/qna/index.tsx:85-94 | six posts, page 2 open: with no term page 2 shows one post; after typing "DAF", which keeps one post, page 2 shows none |
| QnaWrite.CheckQuestion | pages/qna/write.tsx:19-34 | fails exactly when nobody is signed in or a field is empty, with login checked first and nothing trimmed; otherwise the record has the fields, the e-mail fallback and the uid |
| QnaWrite.BlankFieldsAccepted | pages/qna/write.tsx:23 | a blank title and a blank content pass the guard |
| QnaWrite.QnaWritePage.constructor | pages/qna/write.tsx:12-14 | empty fields and no error |
| QnaWrite.QnaWritePage.HandleSubmit | pages/qna/write.tsx:16-41 | a failed guard sets its message with no store call; otherwise one write: on success the record is stored, the alert is shown and the page goes to /qna, with the error not cleared; on failure the error is set and the page stays |
| FreeWrite.CheckPost | pages/write.tsx:20-32 | fails exactly when a field is empty, with no login check; otherwise the record has the fields, `user?.uid` and the e-mail fallback |
| FreeWrite.SignedOutPostsAnonymously | pages/write.tsx:30-31 | for a signed-out visitor the guard builds a record with author "익명" and no author id |
| FreeWrite.SignedOutRefusedByDefault | pages/write.tsx:26-32 | the store takes the record exactly when a user is signed in or `ignoreUndefinedProperties` is set, since a signed-out `authorId` is `undefined` |
| FreeWrite.WritePage.constructor | pages/write.tsx:12-14 | empty fields and no error |
| FreeWrite.WritePage.HandleSubmit | pages/write.tsx:17-40 | a failed guard sets its message with no store call; a record with an `undefined` author id that the store refuses sets the failure message with nothing written; otherwise one write: on success the record is stored, the alert is shown and the page goes to /; on failure the error is set and the page stays |
| Login.ReadableName | components/Login.tsx:107-117 | google.com reads Google, github.com reads GitHub, password reads 이메일/비밀번호, and any other method reads as itself |
| Login.GithubReadableName | components/Login.tsx:70-76 | the GitHub handler reads Google exactly for google.com, and "sss" for every other method |
| Login.MapNames | components/Login.tsx:35-45 | `map` gives one name per method, in the same order |
| Login.ErrorMessage | components/Login.tsx:128-134 | the two known error codes have their own messages; every other code has the generic one |
| Login.MapNamesAppend | components/Login.tsx:35-45 | mapping one more method appends its name |
| Login.Readable | components/Login.tsx:35-45 | the names of no methods read "", of one method that method's name |
| Login.ReadableAppend | components/Login.tsx:35-45 | one more method appends ", " and its name, which fixes the listed text method by method |
| Login.GithubReadable | components/Login.tsx:70-76 | in the GitHub handler no methods read "", one method its GitHub-handler name |
| Login.GithubReadableAppend | components/Login.tsx:70-76 | one more method appends ", " and its GitHub-handler name |
| Login.ReadableExample | components/Login.tsx:35-76 | google.com and github.com read "Google, GitHub" in the Google handler and "Google, sss" in the GitHub one |
| Login.ReadableListsEveryMethod | components/Login.tsx:107-118 | the list of names starts with the first method's name, is that name alone for one method, and is separated by ", " when there are more |
| Login.EmailLogin | components/Login.tsx:89-137 | an empty field makes no provider call; otherwise the methods are looked up and sign-in is attempted exactly when they include "password"; the error for each failure path; navigation and the success alert exactly when sign-in succeeds, and only then is the error empty |
| Login.PopupLogin | components/Login.tsx:22-55 | success alerts the display name and navigates; an existing account with an e-mail looks up its methods and lists their names; a closed popup shows nothing; any other error shows the generic alert |
| Login.PopupHandlersAgreeOnGoogle | components/Login.tsx:57-86 | the Google and GitHub handlers behave the same when every listed method is google.com |
| Login.AnonymousLogin | components/Login.tsx:139-150 | success alerts and navigates, failure alerts the error message and stays |
| Login.LoginForm.constructor | components/Login.tsx:16-18 | the fields and the error start empty |
| Login.LoginForm.LoginWithEmail | components/Login.tsx:89-137 | the form's error, the alert, the navigation and the provider calls it makes are those `EmailLogin` decides |

## Left out

- The Firebase and Firestore SDKs are not modelled. The outcomes they decide are parameters. These are: a read, write or delete the store rejects; the sign-in methods of an e-mail; a sign-in result; a thrown error code; and the store's `ignoreUndefinedProperties` setting.
- Store.Collection.Fetch: documents come back in the order they were added. For the comment query `orderBy('createdAt', 'asc')`, this order stands for timestamp order, under the assumption that timestamps increase. The query's other effect, leaving out documents without `createdAt`, is modelled as `CommentTree.Dated`. The list page does not use the store: it receives the body of its `/api/qna` request as a parameter.
- Store.Collection.Add: the key is a deterministic fresh key, not Firestore's random auto-id. Only its freshness is relied on.
- `serverTimestamp()`, `new Date()`, `formatDate` and `toLocaleString` are left out. They depend on clocks and locale. The client time is a parameter of the comment form.
- Text.Lower: lower-cases ASCII letters only. Unicode case mapping is not modelled.
- Search highlighting in the post item is not modelled. It builds a regular expression from user input.
- Effects, routing, `alert`, `confirm`, `console` and the JSX layout are left out. `router.push` is recorded as `navigatedTo`, the alert text as a returned value, and `confirm()` as a parameter.
- The remaining UI files are not part of this model: header, header select, logout button, app and document shells, `next.config.ts`, the sign-up page, the post and question detail and edit pages, and the home page's subscription. The same applies to the near-copies of the error-code map in `pages/index.tsx` and `pages/login.tsx`.
- CommentTree.Render: on a list with repeated ids it stops at an id already on the current path, where the JavaScript would recurse forever. Every theorem about rendering assumes distinct ids, which the store's unique keys supply.
- Login.EmailLogin: a `null` answer from the method lookup is not modelled; the answer is always a list.
- Login.PopupLogin: an error thrown by the method lookup inside the popup handlers' `catch` is not modelled.
- CommentTree.Normalise: the comment's id is the document key. In `{ id: doc.id, ...doc.data() }` a stored field named `id` would override the key; the model's comment data has no such field, and no writer in the modelled core stores one.
- services/firebase.ts, where the store instance and its settings are made, is not part of this model.
- QnaBoard.Post: a missing `isNotice` is read as `false`. A missing title or content is not modelled; the filter needs both to be strings.
- The rule that the pagination controls show only when `totalPages > 1` is the predicate `QnaHome.ShowsPagination`. It has no contract of its own.
- The comment list is loaded on request only; no realtime subscription is modelled.
- CommentListView.CommentList: each handler, including the `loadComments()` it does not await (after the delete, and in `onCommentAdded`), is modelled as one step whose read completes before the next event. So are the first load and `reload()`. Two reloads in flight at once are not modelled. When the older one resolves last, it overwrites the newer list with a stale one, and nothing corrects it until the next reload. Every contract of the class holds reload by reload.
