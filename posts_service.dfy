/** The posts service: create, read one, read all, and the find-then-act
    update and removal. */
module Posts {
  import opened Common
  import opened Store

  const Created: string := "게시글 생성에 성공했습니다."
  const Found: string := "게시글을 찾았습니다."
  const Updated: string := "게시글 수정에 성공했습니다."
  const Removed: string := "게시글 삭제에 성공했습니다."

  datatype CreatePostDto = CreatePostDto(communityId: int, authorId: int, title: string, content: string)

  /** `postId` of the body is not read by the service: the route's id decides. */
  datatype UpdatePostDto = UpdatePostDto(postId: int, title: string, content: string)

  /** The post table after `PostsService.create`. */
  function AddPost(posts: Table<Post>, dto: CreatePostDto): (r: Table<Post>)
    requires PostsValid(posts)
    ensures PostsValid(r)
    ensures r.rows.Keys == posts.rows.Keys + {posts.nextId} && posts.nextId !in posts.rows
    ensures r.nextId == posts.nextId + 1
    ensures r.rows[posts.nextId] == Post(posts.nextId, dto.title, dto.content, dto.authorId, dto.communityId)
    ensures forall k :: k in posts.rows ==> r.rows[k] == posts.rows[k]
  {
    var row := Post(posts.nextId, dto.title, dto.content, dto.authorId, dto.communityId);
    InsertKeepsWellFormed(posts, (p: Post) => p.id, row);
    Insert(posts, row)
  }

  /** The post table and the updated row after `PostsService.update`. */
  function EditPost(posts: Table<Post>, id: int, dto: UpdatePostDto): (r: (Table<Post>, Result<Post>))
    requires PostsValid(posts)
    ensures PostsValid(r.0)
    ensures id !in posts.rows ==> r == (posts, Err(Exception(BadRequest, PostMissing)))
    ensures id in posts.rows ==>
      && r.0.rows.Keys == posts.rows.Keys && r.0.nextId == posts.nextId
      && r.1 == Ok(r.0.rows[id])
      && r.0.rows[id] == posts.rows[id].(title := dto.title, content := dto.content)
      && forall k :: k in posts.rows && k != id ==> r.0.rows[k] == posts.rows[k]
  {
    if id !in posts.rows then
      (posts, Err(Exception(BadRequest, PostMissing)))
    else
      var row := posts.rows[id].(title := dto.title, content := dto.content);
      (posts.(rows := posts.rows[id := row]), Ok(row))
  }

  /** The post table after `PostsService.remove`. */
  function RemovePost(posts: Table<Post>, id: int): (r: (Table<Post>, Result<string>))
    requires PostsValid(posts)
    ensures PostsValid(r.0)
    ensures id !in posts.rows ==> r == (posts, Err(Exception(NotFound, PostMissing)))
    ensures id in posts.rows ==>
      && r.1 == Ok(Removed)
      && r.0.rows.Keys == posts.rows.Keys - {id} && r.0.nextId == posts.nextId
      && forall k :: k in r.0.rows ==> r.0.rows[k] == posts.rows[k]
  {
    if id !in posts.rows then (posts, Err(Exception(NotFound, PostMissing)))
    else (Delete(posts, id), Ok(Removed))
  }

  /** A post, once created, can be edited and then removed, and the table is
      as before the creation apart from the consumed id. */
  lemma CreateEditRemove(posts: Table<Post>, dto: CreatePostDto, edit: UpdatePostDto)
    requires PostsValid(posts)
    ensures var created := AddPost(posts, dto);
      var (edited, r) := EditPost(created, posts.nextId, edit);
      && r.Ok? && r.value.title == edit.title && r.value.content == edit.content
      && r.value.authorId == dto.authorId && r.value.communityId == dto.communityId
      && RemovePost(edited, posts.nextId).0.rows == posts.rows
  {
    var created := AddPost(posts, dto);
    var edited := EditPost(created, posts.nextId, edit).0;
    assert RemovePost(edited, posts.nextId).0.rows == posts.rows;
  }

  class PostsService {
    const prisma: Prisma

    constructor (prisma: Prisma)
      ensures this.prisma == prisma
    {
      this.prisma := prisma;
    }

    /** `PostsService.create`: one row in, a message out (the check of the
        created row cannot fail, since `create` returns the row or throws). */
    method Create(dto: CreatePostDto) returns (r: Result<string>)
      requires prisma.Valid()
      modifies prisma`post
      ensures prisma.Valid()
      ensures r == Ok(Created) && prisma.post == AddPost(old(prisma.post), dto)
    {
      prisma.post := AddPost(prisma.post, dto);
      r := Ok(Created);
    }

    /** `PostsService.findOne` */
    method FindOne(id: int) returns (r: Result<Reply<Post>>)
      requires prisma.Valid()
      ensures r.Err? <==> id !in prisma.post.rows
      ensures r.Err? ==> r.error == Exception(BadRequest, PostMissing)
      ensures r.Ok? ==> r.value == Reply(Some(Found), Some(prisma.post.rows[id])) && r.value.data.value.id == id
    {
      if id !in prisma.post.rows {
        return Err(Exception(BadRequest, PostMissing));
      }
      r := Ok(Reply(Some(Found), Some(prisma.post.rows[id])));
    }

    /** `PostsService.findAll`: every post, each once. An array is always
        truthy, so the "no posts yet" reply is never given, not even for an
        empty table. */
    method FindAll() returns (r: Reply<seq<Post>>)
      requires prisma.Valid()
      ensures r.message == Some(Found) && r.data.Some?
      ensures |r.data.value| == |prisma.post.rows|
      ensures forall p :: p in r.data.value <==> p in prisma.post.rows.Values
      ensures forall i, j :: 0 <= i < j < |r.data.value| ==> r.data.value[i].id != r.data.value[j].id
    {
      var ids := Select(prisma.post.rows, prisma.post.nextId, (p: Post) => true);
      var posts := RowsOf(prisma.post.rows, ids);
      SelectCountsMatches(prisma.post.rows, prisma.post.nextId, (p: Post) => true);
      assert Matching(prisma.post.rows, prisma.post.nextId, (p: Post) => true) == prisma.post.rows.Keys;
      forall p | p in prisma.post.rows.Values
        ensures p in posts
      {
        var k :| k in prisma.post.rows && prisma.post.rows[k] == p;
        var i :| 0 <= i < |ids| && ids[i] == k;
        assert posts[i] == p;
      }
      r := Reply(Some(Found), Some(posts));
    }

    /** `PostsService.update`: find by id, then update title and content. */
    method Update(id: int, dto: UpdatePostDto) returns (r: Result<Reply<Post>>)
      requires prisma.Valid()
      modifies prisma`post
      ensures prisma.Valid()
      ensures prisma.post == EditPost(old(prisma.post), id, dto).0
      ensures var result := EditPost(old(prisma.post), id, dto).1;
        r == if result.Ok? then Ok(Reply(Some(Updated), Some(result.value))) else Err(result.error)
    {
      if id !in prisma.post.rows {
        return Err(Exception(BadRequest, PostMissing));
      }
      var row := prisma.post.rows[id].(title := dto.title, content := dto.content);
      prisma.post := prisma.post.(rows := prisma.post.rows[id := row]);
      r := Ok(Reply(Some(Updated), Some(row)));
    }

    /** `PostsService.remove`: find by id, then delete. */
    method Remove(id: int) returns (r: Result<string>)
      requires prisma.Valid()
      modifies prisma`post
      ensures prisma.Valid()
      ensures (prisma.post, r) == RemovePost(old(prisma.post), id)
    {
      if id !in prisma.post.rows {
        return Err(Exception(NotFound, PostMissing));
      }
      prisma.post := Delete(prisma.post, id);
      r := Ok(Removed);
    }
  }
}
