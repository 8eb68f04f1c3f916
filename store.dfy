/** The database the services reach through the ORM, as in-memory tables.
    Every table has an auto-increment integer primary key starting at 1; a
    transaction is one atomic step. Only the columns the services read or
    write are modelled. */
module Store {
  import opened Common

  datatype User = User(
    id: int,
    email: string,
    name: Option<string>,
    image: Option<string>,
    refreshToken: Option<string>)

  datatype Post = Post(id: int, title: string, content: string, authorId: int, communityId: int)

  /** `parentCommentId` is null for a top-level comment and the parent's id for a reply. */
  datatype Comment = Comment(
    id: int,
    comment: string,
    postId: int,
    authorId: int,
    parentCommentId: Option<int>)

  /** `members` is the many-to-many member relation of the community. */
  datatype Community = Community(
    id: int,
    creatorId: int,
    name: string,
    description: Option<string>,
    slug: string,
    members: set<int>)

  datatype Rule = Rule(id: int, communityId: int, title: string, description: string)

  datatype Role = Role(id: int, name: string)

  datatype CommunityRole = CommunityRole(id: int, userId: int, communityId: int, roleId: int)

  /** A table: its rows by primary key, and the next key the auto-increment hands out. */
  datatype Table<T> = Table(rows: map<int, T>, nextId: int)

  function Empty<T>(): Table<T>
  {
    Table(map[], 1)
  }

  /** Keys are in `[1, nextId)` and every row carries its own key. */
  ghost predicate WellFormed<T>(t: Table<T>, key: T -> int)
  {
    && 1 <= t.nextId
    && forall k :: k in t.rows ==> 1 <= k < t.nextId && key(t.rows[k]) == k
  }

  /** `create`: the row goes in under the next key. */
  function Insert<T>(t: Table<T>, row: T): Table<T>
  {
    Table(t.rows[t.nextId := row], t.nextId + 1)
  }

  /** `delete where id`. */
  function Delete<T>(t: Table<T>, id: int): Table<T>
  {
    t.(rows := t.rows - {id})
  }

  lemma InsertKeepsWellFormed<T>(t: Table<T>, key: T -> int, row: T)
    requires WellFormed(t, key) && key(row) == t.nextId
    ensures WellFormed(Insert(t, row), key)
    ensures t.nextId !in t.rows
  {
  }

  /** The keys in `[1, below)` whose rows satisfy `keep`, largest key first:
      a `findMany` with a filter, newest row first. */
  function Select<T>(rows: map<int, T>, below: int, keep: T -> bool): (ids: seq<int>)
    decreases below
    ensures forall i :: 0 <= i < |ids| ==> ids[i] in rows && 1 <= ids[i] < below && keep(rows[ids[i]])
    ensures forall k :: k in rows && 1 <= k < below && keep(rows[k]) ==> k in ids
    ensures forall i, j :: 0 <= i < j < |ids| ==> ids[i] > ids[j]
  {
    if below <= 1 then []
    else
      var rest := Select(rows, below - 1, keep);
      if below - 1 in rows && keep(rows[below - 1]) then [below - 1] + rest else rest
  }

  /** The rows a `where` filter matches, as a set of keys. */
  ghost function Matching<T>(rows: map<int, T>, below: int, keep: T -> bool): set<int>
  {
    set k | k in rows && 1 <= k < below && keep(rows[k])
  }

  /** Widening the range by one key adds at most that key. */
  lemma MatchingStep<T>(rows: map<int, T>, below: int, keep: T -> bool)
    requires below > 1
    ensures below - 1 !in Matching(rows, below - 1, keep)
    ensures Matching(rows, below, keep) ==
      Matching(rows, below - 1, keep) + (if below - 1 in rows && keep(rows[below - 1]) then {below - 1} else {})
  {
  }

  /** `count` with the same filter as `findMany` gives the length of the full listing. */
  lemma {:induction false} SelectCountsMatches<T>(rows: map<int, T>, below: int, keep: T -> bool)
    decreases below
    ensures |Select(rows, below, keep)| == |Matching(rows, below, keep)|
  {
    if below > 1 {
      SelectCountsMatches(rows, below - 1, keep);
      MatchingStep(rows, below, keep);
    } else {
      assert Matching(rows, below, keep) == {};
    }
  }

  /** The rows behind a list of keys. */
  function RowsOf<T>(rows: map<int, T>, ids: seq<int>): (r: seq<T>)
    requires forall i :: 0 <= i < |ids| ==> ids[i] in rows
    ensures |r| == |ids| && forall i :: 0 <= i < |ids| ==> r[i] == rows[ids[i]]
  {
    seq(|ids|, i requires 0 <= i < |ids| => rows[ids[i]])
  }

  /** No two users share an email (the column is unique). */
  ghost predicate EmailsUnique(users: map<int, User>)
  {
    forall a, b :: a in users && b in users && users[a].email == users[b].email ==> a == b
  }

  /** No two communities share a slug (the column is unique). */
  ghost predicate SlugsUnique(communities: map<int, Community>)
  {
    forall a, b :: a in communities && b in communities && communities[a].slug == communities[b].slug ==> a == b
  }

  /** No two roles share a name (the column is unique). */
  ghost predicate RoleNamesUnique(roles: map<int, Role>)
  {
    forall a, b :: a in roles && b in roles && roles[a].name == roles[b].name ==> a == b
  }

  ghost predicate UsersValid(t: Table<User>)
  {
    WellFormed(t, (u: User) => u.id) && EmailsUnique(t.rows)
  }

  ghost predicate PostsValid(t: Table<Post>)
  {
    WellFormed(t, (p: Post) => p.id)
  }

  ghost predicate CommentsValid(t: Table<Comment>)
  {
    WellFormed(t, (c: Comment) => c.id)
  }

  ghost predicate CommunitiesValid(t: Table<Community>)
  {
    WellFormed(t, (c: Community) => c.id) && SlugsUnique(t.rows)
  }

  ghost predicate RulesValid(t: Table<Rule>)
  {
    WellFormed(t, (r: Rule) => r.id)
  }

  ghost predicate RolesValid(t: Table<Role>)
  {
    WellFormed(t, (r: Role) => r.id) && RoleNamesUnique(t.rows)
  }

  ghost predicate CommunityRolesValid(t: Table<CommunityRole>)
  {
    WellFormed(t, (r: CommunityRole) => r.id)
  }

  /** The ORM client: one field per table (`prisma.user`, `prisma.post`, ...). */
  class Prisma {
    var user: Table<User>
    var post: Table<Post>
    var comment: Table<Comment>
    var community: Table<Community>
    var rule: Table<Rule>
    var role: Table<Role>
    var communityRole: Table<CommunityRole>

    ghost predicate Valid()
      reads this
    {
      && UsersValid(user)
      && PostsValid(post)
      && CommentsValid(comment)
      && CommunitiesValid(community)
      && RulesValid(rule)
      && RolesValid(role)
      && CommunityRolesValid(communityRole)
    }

    /** An empty database holding only the given roles. */
    constructor (roles: Table<Role>)
      requires RolesValid(roles)
      ensures Valid() && role == roles
      ensures user == Empty() && post == Empty() && comment == Empty()
      ensures community == Empty() && rule == Empty() && communityRole == Empty()
    {
      user, post, comment := Empty(), Empty(), Empty();
      community, rule, role, communityRole := Empty(), Empty(), roles, Empty();
    }
  }
}
