/** The comments service: comments and replies under a post, the three
    paginated listings, and the author-only update and delete. */
module Comments {
  import opened Common
  import opened Store

  const Deleted: string := "정상적으로 삭제되었습니다"
  const DefaultPage: int := 1
  const DefaultLimit: int := 10

  /** The request body of `createComment`; `parentCommentId` is set for a reply. */
  datatype CreateCommentDto = CreateCommentDto(comment: string, parentCommentId: Option<int>)

  /** The query of the listings; a parameter left out takes its default. */
  datatype Query = Query(page: Option<int>, limit: Option<int>)

  /** A listed comment with its `_count.replies`. */
  datatype Listed = Listed(comment: Comment, replyCount: nat)

  /** A top-level comment with its replies and their count. */
  datatype Thread = Thread(comment: Comment, replies: seq<Comment>, replyCount: nat)

  /** The `data` object of a listing. */
  datatype Page<T> = Page(items: seq<T>, totalCount: nat, page: int, limit: int, totalPages: nat)

  /** `if (parentCommentId)`: present and not 0. */
  predicate IsReply(dto: CreateCommentDto)
  {
    dto.parentCommentId.Some? && dto.parentCommentId.value != 0
  }

  /** The filter `{ postId, parentCommentId: null }`. */
  function TopLevelIn(postId: int): Comment -> bool
  {
    (c: Comment) => c.postId == postId && c.parentCommentId.None?
  }

  /** The filter `{ parentCommentId }`. */
  function ReplyTo(parentId: int): Comment -> bool
  {
    (c: Comment) => c.parentCommentId == Some(parentId)
  }

  /** Every reply points at an older comment, and lives under the same post
      as its parent as long as the parent exists. */
  ghost predicate RepliesShareParentPost(comments: map<int, Comment>)
  {
    && (forall k :: k in comments && comments[k].parentCommentId.Some? ==> comments[k].parentCommentId.value < k)
    && (forall k :: k in comments && comments[k].parentCommentId.Some? && comments[k].parentCommentId.value in comments ==>
          comments[comments[k].parentCommentId.value].postId == comments[k].postId)
  }

  /** The comment table and the new row after `createComment`. */
  function AddComment(comments: Table<Comment>, posts: map<int, Post>, postId: int, userId: int, dto: CreateCommentDto)
    : (r: (Table<Comment>, Result<Comment>))
    requires CommentsValid(comments)
    ensures CommentsValid(r.0)
    // the post check comes first, then the two parent checks, each leaving the table as it was
    ensures postId !in posts ==> r == (comments, Err(Exception(NotFound, PostNotFound(postId))))
    ensures (postId in posts && IsReply(dto) && dto.parentCommentId.value !in comments.rows) ==>
      r == (comments, Err(Exception(NotFound, CommentNotFound(dto.parentCommentId.value))))
    ensures (postId in posts && IsReply(dto) && dto.parentCommentId.value in comments.rows
             && comments.rows[dto.parentCommentId.value].postId != postId) ==>
      r == (comments, Err(Exception(NotFound, ParentNotInPost(dto.parentCommentId.value, postId))))
    ensures r.1.Ok? <==>
      postId in posts && (IsReply(dto) ==> dto.parentCommentId.value in comments.rows && comments.rows[dto.parentCommentId.value].postId == postId)
    // on success exactly one row is added
    ensures r.1.Ok? ==>
      && comments.nextId !in comments.rows
      && r.0.rows.Keys == comments.rows.Keys + {comments.nextId} && r.0.nextId == comments.nextId + 1
      && r.1.value == r.0.rows[comments.nextId]
      && r.1.value == Comment(comments.nextId, dto.comment, postId, userId, dto.parentCommentId)
      && forall k :: k in comments.rows ==> r.0.rows[k] == comments.rows[k]
  {
    if postId !in posts then
      (comments, Err(Exception(NotFound, PostNotFound(postId))))
    else if IsReply(dto) && dto.parentCommentId.value !in comments.rows then
      (comments, Err(Exception(NotFound, CommentNotFound(dto.parentCommentId.value))))
    else if IsReply(dto) && comments.rows[dto.parentCommentId.value].postId != postId then
      (comments, Err(Exception(NotFound, ParentNotInPost(dto.parentCommentId.value, postId))))
    else
      var row := Comment(comments.nextId, dto.comment, postId, userId, dto.parentCommentId);
      InsertKeepsWellFormed(comments, (c: Comment) => c.id, row);
      (Insert(comments, row), Ok(row))
  }

  /** Creating a comment keeps every reply under its parent's post. */
  lemma AddCommentKeepsThreads(comments: Table<Comment>, posts: map<int, Post>, postId: int, userId: int, dto: CreateCommentDto)
    requires CommentsValid(comments) && RepliesShareParentPost(comments.rows)
    ensures RepliesShareParentPost(AddComment(comments, posts, postId, userId, dto).0.rows)
  {
    var (after, r) := AddComment(comments, posts, postId, userId, dto);
    if r.Ok? {
      var n := comments.nextId;
      forall k | k in after.rows && after.rows[k].parentCommentId.Some? && after.rows[k].parentCommentId.value in after.rows
        ensures after.rows[after.rows[k].parentCommentId.value].postId == after.rows[k].postId
      {
        var p := after.rows[k].parentCommentId.value;
        if k == n {
          // `p` is 0 (never a key) or was checked against the post
          assert p != 0 ==> p in comments.rows && comments.rows[p].postId == postId;
          assert p != n;
        } else {
          assert p != n;
        }
      }
    }
  }

  /** The comment table and the updated row after `updateComment`. */
  function EditComment(comments: Table<Comment>, commentId: int, userId: int, text: string)
    : (r: (Table<Comment>, Result<Comment>))
    requires CommentsValid(comments)
    ensures CommentsValid(r.0)
    ensures commentId !in comments.rows ==> r == (comments, Err(Exception(NotFound, CommentNotFound(commentId))))
    ensures (commentId in comments.rows && comments.rows[commentId].authorId != userId) ==>
      r == (comments, Err(Exception(Forbidden, NotAuthor)))
    ensures r.1.Ok? <==> commentId in comments.rows && comments.rows[commentId].authorId == userId
    // only the text of that one comment changes
    ensures r.1.Ok? ==>
      && r.0.rows.Keys == comments.rows.Keys && r.0.nextId == comments.nextId
      && r.1.value == r.0.rows[commentId]
      && r.1.value == comments.rows[commentId].(comment := text)
      && forall k :: k in comments.rows && k != commentId ==> r.0.rows[k] == comments.rows[k]
  {
    if commentId !in comments.rows then
      (comments, Err(Exception(NotFound, CommentNotFound(commentId))))
    else if comments.rows[commentId].authorId != userId then
      (comments, Err(Exception(Forbidden, NotAuthor)))
    else
      var row := comments.rows[commentId].(comment := text);
      (comments.(rows := comments.rows[commentId := row]), Ok(row))
  }

  /** The comment table after `deleteComment`. */
  function RemoveComment(comments: Table<Comment>, commentId: int, userId: int): (r: (Table<Comment>, Result<string>))
    requires CommentsValid(comments)
    ensures CommentsValid(r.0)
    ensures commentId !in comments.rows ==> r == (comments, Err(Exception(NotFound, CommentNotFound(commentId))))
    ensures (commentId in comments.rows && comments.rows[commentId].authorId != userId) ==>
      r == (comments, Err(Exception(Forbidden, NotAuthor)))
    ensures r.1.Ok? <==> commentId in comments.rows && comments.rows[commentId].authorId == userId
    ensures r.1.Ok? ==>
      && r.1.value == Deleted
      && r.0.rows.Keys == comments.rows.Keys - {commentId} && r.0.nextId == comments.nextId
      && forall k :: k in r.0.rows ==> r.0.rows[k] == comments.rows[k]
  {
    if commentId !in comments.rows then
      (comments, Err(Exception(NotFound, CommentNotFound(commentId))))
    else if comments.rows[commentId].authorId != userId then
      (comments, Err(Exception(Forbidden, NotAuthor)))
    else
      (Delete(comments, commentId), Ok(Deleted))
  }

  /** Only the author can change or delete a comment: anyone else gets an
      error and leaves the table as it was. */
  lemma OnlyAuthorChanges(comments: Table<Comment>, commentId: int, userId: int, text: string)
    requires CommentsValid(comments)
    ensures EditComment(comments, commentId, userId, text).0 != comments ==>
      commentId in comments.rows && comments.rows[commentId].authorId == userId
    ensures RemoveComment(comments, commentId, userId).0 != comments ==>
      commentId in comments.rows && comments.rows[commentId].authorId == userId
  {
  }

  /** Editing and deleting keep every reply under its parent's post. */
  lemma EditAndRemoveKeepThreads(comments: Table<Comment>, commentId: int, userId: int, text: string)
    requires CommentsValid(comments) && RepliesShareParentPost(comments.rows)
    ensures RepliesShareParentPost(EditComment(comments, commentId, userId, text).0.rows)
    ensures RepliesShareParentPost(RemoveComment(comments, commentId, userId).0.rows)
  {
  }

  // ---------------------------------------------------------------------
  // Pagination

  /** `const { page = 1, limit = 10 } = queryDto`. */
  function PageNumber(q: Query): int
  {
    if q.page.Some? then q.page.value else DefaultPage
  }

  function Limit(q: Query): int
  {
    if q.limit.Some? then q.limit.value else DefaultLimit
  }

  /** Page and limit, when given, are at least 1. */
  predicate QueryOk(q: Query)
  {
    (q.page.Some? ==> q.page.value >= 1) && (q.limit.Some? ==> q.limit.value >= 1)
  }

  /** `skip = (page - 1) * limit`. */
  function Skip(q: Query): nat
    requires QueryOk(q)
  {
    (PageNumber(q) - 1) * Limit(q)
  }

  /** `Math.ceil(n / d)` on integers: the least number of pages of `d` items
      that hold `n` items. */
  function CeilDiv(n: nat, d: int): (q: nat)
    requires d >= 1
    ensures q * d >= n
    ensures q == 0 || (q - 1) * d < n
  {
    var q := (n + d - 1) / d;
    var r := (n + d - 1) % d;
    assert n + d - 1 == q * d + r;
    q
  }

  /** `skip` and `take` applied to a full listing. */
  function Window<T>(all: seq<T>, skip: nat, take: nat): (w: seq<T>)
    ensures skip >= |all| ==> w == []
    ensures skip < |all| ==> |w| == (if skip + take <= |all| then take else |all| - skip)
    ensures forall i :: 0 <= i < |w| ==> skip + i < |all| && w[i] == all[skip + i]
  {
    if skip >= |all| then [] else if skip + take <= |all| then all[skip..skip + take] else all[skip..]
  }

  /** The same page with other items (the listing's rows with their counts or replies). */
  function Fill<T, U>(p: Page<T>, items: seq<U>): Page<U>
  {
    Page(items, p.totalCount, p.page, p.limit, p.totalPages)
  }

  /** A full listing cut into the requested page. */
  function Paged<T>(all: seq<T>, q: Query): (p: Page<T>)
    requires QueryOk(q)
    ensures p.totalCount == |all| && p.page == PageNumber(q) && p.limit == Limit(q)
    // the pages hold every item, and no page is wasted
    ensures p.totalPages * Limit(q) >= |all| && (p.totalPages == 0 || (p.totalPages - 1) * Limit(q) < |all|)
    // the page is a run of consecutive items, at most `limit` of them
    ensures |p.items| <= Limit(q)
    ensures forall i :: 0 <= i < |p.items| ==> Skip(q) + i < |all| && p.items[i] == all[Skip(q) + i]
  {
    Page(Window(all, Skip(q), Limit(q)), |all|, PageNumber(q), Limit(q), CeilDiv(|all|, Limit(q)))
  }

  lemma MulMonotone(a: int, b: int, d: int)
    requires a <= b && d >= 0
    ensures a * d <= b * d
  {
    var c := b - a;
    assert b * d == a * d + c * d;
  }

  /** A requested page holds comments exactly when it is one of the
      `totalPages` pages. */
  lemma PageNonEmptyIff<T>(all: seq<T>, q: Query)
    requires QueryOk(q)
    ensures Paged(all, q).items != [] <==> PageNumber(q) <= Paged(all, q).totalPages
  {
    var n, d, page := |all|, Limit(q), PageNumber(q);
    var total := CeilDiv(n, d);
    if page <= total {
      MulMonotone(page - 1, total - 1, d);
    } else {
      MulMonotone(total, page - 1, d);
    }
  }

  /** Every comment of a listing shows up on page `i / limit + 1`, which is
      never beyond `totalPages`. */
  lemma EveryItemOnItsPage<T>(all: seq<T>, limit: int, i: int)
    requires limit >= 1 && 0 <= i < |all|
    ensures var q := Query(Some(i / limit + 1), Some(limit));
      && i / limit + 1 <= Paged(all, q).totalPages
      && Paged(all, q).items[i % limit] == all[i]
  {
    var q := Query(Some(i / limit + 1), Some(limit));
    assert Skip(q) == (i / limit) * limit;
    assert i == (i / limit) * limit + i % limit;
    PageNonEmptyIff(all, q);
  }

  // ---------------------------------------------------------------------
  // Listings

  /** The comments a filter matches, newest (highest id) first: the
      `findMany` with `orderBy: { createdAt: 'desc' }` before `skip`/`take`. */
  function Matches(comments: Table<Comment>, keep: Comment -> bool): (r: seq<Comment>)
    requires CommentsValid(comments)
    ensures forall c :: c in r <==> c in comments.rows.Values && keep(c)
    ensures forall i, j :: 0 <= i < j < |r| ==> r[i].id > r[j].id
    ensures |r| == |Matching(comments.rows, comments.nextId, keep)|
  {
    var ids := Select(comments.rows, comments.nextId, keep);
    SelectCountsMatches(comments.rows, comments.nextId, keep);
    var r := RowsOf(comments.rows, ids);
    forall c | c in comments.rows.Values && keep(c)
      ensures c in r
    {
      var k :| k in comments.rows && comments.rows[k] == c;
      var i :| 0 <= i < |ids| && ids[i] == k;
      assert r[i] == c;
    }
    r
  }

  /** `_count.replies`. */
  function ReplyCount(comments: Table<Comment>, id: int): nat
    requires CommentsValid(comments)
  {
    |Matches(comments, ReplyTo(id))|
  }

  function WithCount(comments: Table<Comment>, c: Comment): Listed
    requires CommentsValid(comments)
  {
    Listed(c, ReplyCount(comments, c.id))
  }

  function WithReplies(comments: Table<Comment>, c: Comment): Thread
    requires CommentsValid(comments)
  {
    Thread(c, Matches(comments, ReplyTo(c.id)), ReplyCount(comments, c.id))
  }

  function CountEach(comments: Table<Comment>, cs: seq<Comment>): (r: seq<Listed>)
    requires CommentsValid(comments)
    ensures |r| == |cs| && forall i :: 0 <= i < |cs| ==> r[i] == WithCount(comments, cs[i])
  {
    seq(|cs|, i requires 0 <= i < |cs| => WithCount(comments, cs[i]))
  }

  function RepliesEach(comments: Table<Comment>, cs: seq<Comment>): (r: seq<Thread>)
    requires CommentsValid(comments)
    ensures |r| == |cs| && forall i :: 0 <= i < |cs| ==> r[i] == WithReplies(comments, cs[i])
  {
    seq(|cs|, i requires 0 <= i < |cs| => WithReplies(comments, cs[i]))
  }

  class CommentsService {
    const prisma: Prisma

    constructor (prisma: Prisma)
      ensures this.prisma == prisma
    {
      this.prisma := prisma;
    }

    /** `createComment` */
    method CreateComment(postId: int, userId: int, dto: CreateCommentDto) returns (r: Result<Comment>)
      requires prisma.Valid()
      modifies prisma`comment
      ensures prisma.Valid()
      ensures (prisma.comment, r) == AddComment(old(prisma.comment), prisma.post.rows, postId, userId, dto)
    {
      if postId !in prisma.post.rows {
        return Err(Exception(NotFound, PostNotFound(postId)));
      }
      if IsReply(dto) {
        var parentId := dto.parentCommentId.value;
        if parentId !in prisma.comment.rows {
          return Err(Exception(NotFound, CommentNotFound(parentId)));
        }
        if prisma.comment.rows[parentId].postId != postId {
          return Err(Exception(NotFound, ParentNotInPost(parentId, postId)));
        }
      }
      var row := Comment(prisma.comment.nextId, dto.comment, postId, userId, dto.parentCommentId);
      prisma.comment := Insert(prisma.comment, row);
      r := Ok(row);
    }

    /** `getCommentsByPostId`: one page of the post's top-level comments,
        newest first, and the count of all of them. */
    method GetCommentsByPostId(postId: int, q: Query) returns (r: Result<Page<Listed>>)
      requires prisma.Valid() && QueryOk(q)
      ensures r.Err? <==> postId !in prisma.post.rows
      ensures r.Err? ==> r.error == Exception(NotFound, PostNotFound(postId))
      ensures r.Ok? ==>
        var all := Matches(prisma.comment, TopLevelIn(postId));
        var window := Paged(all, q);
        && r.value.totalCount == |Matching(prisma.comment.rows, prisma.comment.nextId, TopLevelIn(postId))|
        && r.value == Fill(window, CountEach(prisma.comment, window.items))
    {
      if postId !in prisma.post.rows {
        return Err(Exception(NotFound, PostNotFound(postId)));
      }
      var all := Matches(prisma.comment, TopLevelIn(postId));
      var page := Paged(all, q);
      r := Ok(Fill(page, CountEach(prisma.comment, page.items)));
    }

    /** `getRepliesByParentCommentId`: one page of the replies to a comment. */
    method GetRepliesByParentCommentId(parentId: int, q: Query) returns (r: Result<Page<Listed>>)
      requires prisma.Valid() && QueryOk(q)
      ensures r.Err? <==> parentId !in prisma.comment.rows
      ensures r.Err? ==> r.error == Exception(NotFound, CommentNotFound(parentId))
      ensures r.Ok? ==>
        var all := Matches(prisma.comment, ReplyTo(parentId));
        var window := Paged(all, q);
        && r.value.totalCount == |Matching(prisma.comment.rows, prisma.comment.nextId, ReplyTo(parentId))|
        && r.value == Fill(window, CountEach(prisma.comment, window.items))
    {
      if parentId !in prisma.comment.rows {
        return Err(Exception(NotFound, CommentNotFound(parentId)));
      }
      var all := Matches(prisma.comment, ReplyTo(parentId));
      var page := Paged(all, q);
      r := Ok(Fill(page, CountEach(prisma.comment, page.items)));
    }

    /** `getCommentsAndRepliesByPostId`: one page of the post's top-level
        comments, each with its replies. */
    method GetCommentsAndRepliesByPostId(postId: int, q: Query) returns (r: Result<Page<Thread>>)
      requires prisma.Valid() && QueryOk(q)
      ensures r.Err? <==> postId !in prisma.post.rows
      ensures r.Err? ==> r.error == Exception(NotFound, PostNotFound(postId))
      ensures r.Ok? ==>
        var all := Matches(prisma.comment, TopLevelIn(postId));
        var window := Paged(all, q);
        && r.value.totalCount == |Matching(prisma.comment.rows, prisma.comment.nextId, TopLevelIn(postId))|
        && r.value == Fill(window, RepliesEach(prisma.comment, window.items))
    {
      if postId !in prisma.post.rows {
        return Err(Exception(NotFound, PostNotFound(postId)));
      }
      var all := Matches(prisma.comment, TopLevelIn(postId));
      var page := Paged(all, q);
      r := Ok(Fill(page, RepliesEach(prisma.comment, page.items)));
    }

    /** `updateComment`: the comment with its reply count, as `data`. */
    method UpdateComment(commentId: int, userId: int, text: string) returns (r: Result<Reply<Listed>>)
      requires prisma.Valid()
      modifies prisma`comment
      ensures prisma.Valid()
      ensures prisma.comment == EditComment(old(prisma.comment), commentId, userId, text).0
      ensures var result := EditComment(old(prisma.comment), commentId, userId, text).1;
        r == if result.Ok? then Ok(Reply(None, Some(WithCount(prisma.comment, result.value)))) else Err(result.error)
    {
      if commentId !in prisma.comment.rows {
        return Err(Exception(NotFound, CommentNotFound(commentId)));
      }
      if prisma.comment.rows[commentId].authorId != userId {
        return Err(Exception(Forbidden, NotAuthor));
      }
      var row := prisma.comment.rows[commentId].(comment := text);
      prisma.comment := prisma.comment.(rows := prisma.comment.rows[commentId := row]);
      r := Ok(Reply(None, Some(WithCount(prisma.comment, row))));
    }

    /** `deleteComment` */
    method DeleteComment(commentId: int, userId: int) returns (r: Result<string>)
      requires prisma.Valid()
      modifies prisma`comment
      ensures prisma.Valid()
      ensures (prisma.comment, r) == RemoveComment(old(prisma.comment), commentId, userId)
    {
      if commentId !in prisma.comment.rows {
        return Err(Exception(NotFound, CommentNotFound(commentId)));
      }
      if prisma.comment.rows[commentId].authorId != userId {
        return Err(Exception(Forbidden, NotAuthor));
      }
      prisma.comment := Delete(prisma.comment, commentId);
      r := Ok(Deleted);
    }
  }
}
