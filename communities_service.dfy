/** The communities service: atomic creation with its slug, per-creator and
    role checks, update with rules replacement, lookup, and joining. */
module Communities {
  import opened Common
  import opened Store

  const Created: string := "커뮤니티 생성에 성공했습니다."
  const Updated: string := "커뮤니티 수정에 성공했습니다."
  const Found: string := "조회에 성공했습니다."
  const Joined: string := "커뮤니티 가입에 성공했습니다."
  const MaxCommunitiesPerUser: int := 3
  const AdminRole: string := "admin"

  /** A rule as the request gives it. */
  datatype RuleDto = RuleDto(title: string, description: string)

  datatype CreateCommunityDto = CreateCommunityDto(
    creatorId: int,
    name: string,
    description: Option<string>,
    slug: string,
    rules: Option<seq<RuleDto>>)

  datatype UpdateCommunityDto = UpdateCommunityDto(description: Patch<string>, rules: Patch<seq<RuleDto>>)

  datatype JoinCommunityDto = JoinCommunityDto(communityId: int, userId: int)

  /** A community with the `communityRoles` that `findOne` includes. */
  datatype CommunityDetail = CommunityDetail(community: Community, roles: seq<CommunityRole>)

  /** The tables that creation and update write, taken as one atomic unit. */
  datatype Tables = Tables(community: Table<Community>, rule: Table<Rule>, communityRole: Table<CommunityRole>)

  ghost predicate TablesValid(t: Tables)
  {
    CommunitiesValid(t.community) && RulesValid(t.rule) && CommunityRolesValid(t.communityRole)
  }

  /** `findUnique({ where: { slug } })` finds a row. */
  predicate SlugTaken(communities: map<int, Community>, slug: string)
  {
    exists k | k in communities :: communities[k].slug == slug
  }

  /** The communities a user created (`count({ where: { creatorId } })` is its size). */
  function CreatedBy(communities: map<int, Community>, creatorId: int): set<int>
  {
    set k | k in communities && communities[k].creatorId == creatorId
  }

  /** No user has created more than the allowed number of communities. */
  ghost predicate WithinCreatorLimit(communities: map<int, Community>)
  {
    forall creatorId :: |CreatedBy(communities, creatorId)| <= MaxCommunitiesPerUser
  }

  /** `role.findUnique({ where: { name } })`: the key of the role with that name. */
  function FindRole(roles: Table<Role>, name: string): (r: Option<int>)
    requires RolesValid(roles)
    ensures r.Some? <==> exists k | k in roles.rows :: roles.rows[k].name == name
    ensures r.Some? ==> r.value in roles.rows && roles.rows[r.value].name == name
  {
    var ids := Select(roles.rows, roles.nextId, (role: Role) => role.name == name);
    if ids == [] then None else Some(ids[0])
  }

  /** `rules: { create: [...] }`: the rules go in one after the other, in order. */
  function InsertRules(rules: Table<Rule>, communityId: int, dtos: seq<RuleDto>): (r: Table<Rule>)
    requires RulesValid(rules)
    decreases |dtos|
    ensures RulesValid(r)
    ensures r.nextId == rules.nextId + |dtos|
    ensures forall k :: k in r.rows <==> k in rules.rows || rules.nextId <= k < r.nextId
    ensures forall k :: k in rules.rows ==> r.rows[k] == rules.rows[k]
    ensures forall i :: 0 <= i < |dtos| ==>
      r.rows[rules.nextId + i] == Rule(rules.nextId + i, communityId, dtos[i].title, dtos[i].description)
    ensures forall k :: k in r.rows && k !in rules.rows ==> r.rows[k].communityId == communityId
  {
    if dtos == [] then rules
    else
      var row := Rule(rules.nextId, communityId, dtos[0].title, dtos[0].description);
      InsertKeepsWellFormed(rules, (r: Rule) => r.id, row);
      var rest := InsertRules(Insert(rules, row), communityId, dtos[1..]);
      assert forall i :: 1 <= i < |dtos| ==> dtos[i] == dtos[1..][i - 1];
      rest
  }

  /** `rules: { deleteMany: {} }` on one community: every rule of it goes. */
  function DeleteRulesOf(rules: Table<Rule>, communityId: int): (r: Table<Rule>)
    requires RulesValid(rules)
    ensures RulesValid(r) && r.nextId == rules.nextId
    ensures forall k :: k in r.rows <==> k in rules.rows && rules.rows[k].communityId != communityId
    ensures forall k :: k in r.rows ==> r.rows[k] == rules.rows[k]
  {
    rules.(rows := map k | k in rules.rows && rules.rows[k].communityId != communityId :: rules.rows[k])
  }

  /** The tables after `CommunitiesService.create`, all in one transaction. */
  function CreateCommunity(t: Tables, roles: Table<Role>, dto: CreateCommunityDto): (r: (Tables, Result<string>))
    requires TablesValid(t) && RolesValid(roles)
    ensures TablesValid(r.0)
    // the checks in their order; a failure leaves every table as it was
    ensures r.1.Err? ==> r.0 == t
    ensures SlugTaken(t.community.rows, dto.slug) ==> r.1 == Err(Exception(BadRequest, SlugInUse(dto.slug)))
    ensures (!SlugTaken(t.community.rows, dto.slug) && |CreatedBy(t.community.rows, dto.creatorId)| >= MaxCommunitiesPerUser) ==>
      r.1 == Err(Exception(BadRequest, CommunityLimitReached))
    ensures (!SlugTaken(t.community.rows, dto.slug) && |CreatedBy(t.community.rows, dto.creatorId)| < MaxCommunitiesPerUser
             && FindRole(roles, AdminRole).None?) ==>
      r.1 == Err(Exception(InternalServerError, AdminRoleMissing))
    ensures r.1.Ok? <==>
      && !SlugTaken(t.community.rows, dto.slug)
      && |CreatedBy(t.community.rows, dto.creatorId)| < MaxCommunitiesPerUser
      && FindRole(roles, AdminRole).Some?
    // on success: one community with the creator as its only member, its rules, and one admin role
    ensures r.1.Ok? ==>
      var id := t.community.nextId;
      && r.1.value == Created
      && id !in t.community.rows
      && r.0.community.rows.Keys == t.community.rows.Keys + {id} && r.0.community.nextId == id + 1
      && r.0.community.rows[id] == Community(id, dto.creatorId, dto.name, dto.description, dto.slug, {dto.creatorId})
      && (forall k :: k in t.community.rows ==> r.0.community.rows[k] == t.community.rows[k])
      && r.0.rule == InsertRules(t.rule, id, if dto.rules.Some? then dto.rules.value else [])
      && t.communityRole.nextId !in t.communityRole.rows
      && r.0.communityRole.rows.Keys == t.communityRole.rows.Keys + {t.communityRole.nextId}
      && r.0.communityRole.nextId == t.communityRole.nextId + 1
      && r.0.communityRole.rows[t.communityRole.nextId] ==
         CommunityRole(t.communityRole.nextId, dto.creatorId, id, FindRole(roles, AdminRole).value)
      && (forall k :: k in t.communityRole.rows ==> r.0.communityRole.rows[k] == t.communityRole.rows[k])
  {
    if SlugTaken(t.community.rows, dto.slug) then
      (t, Err(Exception(BadRequest, SlugInUse(dto.slug))))
    else if |CreatedBy(t.community.rows, dto.creatorId)| >= MaxCommunitiesPerUser then
      (t, Err(Exception(BadRequest, CommunityLimitReached)))
    else
      var admin := FindRole(roles, AdminRole);
      if admin.None? then
        (t, Err(Exception(InternalServerError, AdminRoleMissing)))
      else
        var id := t.community.nextId;
        var community := Community(id, dto.creatorId, dto.name, dto.description, dto.slug, {dto.creatorId});
        InsertKeepsWellFormed(t.community, (c: Community) => c.id, community);
        var grant := CommunityRole(t.communityRole.nextId, dto.creatorId, id, admin.value);
        InsertKeepsWellFormed(t.communityRole, (c: CommunityRole) => c.id, grant);
        var rules := InsertRules(t.rule, id, if dto.rules.Some? then dto.rules.value else []);
        (Tables(Insert(t.community, community), rules, Insert(t.communityRole, grant)), Ok(Created))
  }

  /** Adding a community under a fresh key adds that key to its creator's set only. */
  lemma CreatedByAfterAdd(rows: map<int, Community>, id: int, c: Community, creatorId: int)
    requires id !in rows
    ensures CreatedBy(rows[id := c], creatorId) == CreatedBy(rows, creatorId) + (if c.creatorId == creatorId then {id} else {})
  {
  }

  /** Creation never takes a user above the limit on created communities. */
  lemma {:induction false} CreateKeepsCreatorLimit(t: Tables, roles: Table<Role>, dto: CreateCommunityDto)
    requires TablesValid(t) && RolesValid(roles) && WithinCreatorLimit(t.community.rows)
    ensures WithinCreatorLimit(CreateCommunity(t, roles, dto).0.community.rows)
  {
    var (after, r) := CreateCommunity(t, roles, dto);
    if r.Ok? {
      var id := t.community.nextId;
      var c := after.community.rows[id];
      assert after.community.rows == t.community.rows[id := c];
      forall creatorId
        ensures |CreatedBy(after.community.rows, creatorId)| <= MaxCommunitiesPerUser
      {
        CreatedByAfterAdd(t.community.rows, id, c, creatorId);
        var before := CreatedBy(t.community.rows, creatorId);
        if creatorId == dto.creatorId {
          assert id !in before;
          assert |before + {id}| == |before| + 1;
        }
      }
    }
  }

  /** A slug names one community: creating a second community with a slug
      already taken is refused. */
  lemma CreateTakesSlug(t: Tables, roles: Table<Role>, dto: CreateCommunityDto, other: CreateCommunityDto)
    requires TablesValid(t) && RolesValid(roles)
    requires CreateCommunity(t, roles, dto).1.Ok? && other.slug == dto.slug
    ensures CreateCommunity(CreateCommunity(t, roles, dto).0, roles, other).1 == Err(Exception(BadRequest, SlugInUse(dto.slug)))
  {
    var after := CreateCommunity(t, roles, dto).0;
    assert after.community.rows[t.community.nextId].slug == dto.slug;
  }

  /** The part of an update shared by the code as written and the corrected
      version: the description patch, and the rules of an array. */
  function Apply(t: Tables, id: int, description: Patch<string>, rules: Option<seq<RuleDto>>): (r: Tables)
    requires TablesValid(t) && id in t.community.rows
    ensures TablesValid(r)
  {
    var c := t.community.rows[id];
    var c' := c.(description := Patched(c.description, description));
    var rule := if rules.Some? then InsertRules(DeleteRulesOf(t.rule, id), id, rules.value) else t.rule;
    t.(community := t.community.(rows := t.community.rows[id := c']), rule := rule)
  }

  /** `CommunitiesService.update` as written: a `rules` of `null` reaches
      `dtoRules.map` and throws a TypeError, so the branch meant to clear the
      rules is never taken. */
  function UpdateCommunityAsWritten(t: Tables, id: int, dto: UpdateCommunityDto): (r: (Tables, Result<Community>))
    requires TablesValid(t)
    ensures TablesValid(r.0)
    ensures id !in t.community.rows ==> r == (t, Err(Exception(NotFound, CommunityMissing)))
    ensures (id in t.community.rows && dto.rules.Null?) ==> r == (t, Err(Exception(InternalServerError, TypeError)))
    ensures !dto.rules.Null? ==> r == UpdateCommunity(t, id, dto)
  {
    if id !in t.community.rows then (t, Err(Exception(NotFound, CommunityMissing)))
    else if dto.rules.Null? then (t, Err(Exception(InternalServerError, TypeError)))
    else UpdateCommunity(t, id, dto)
  }

  /** `CommunitiesService.update` as intended: `null` clears the rules like an
      empty array does. */
  function UpdateCommunity(t: Tables, id: int, dto: UpdateCommunityDto): (r: (Tables, Result<Community>))
    requires TablesValid(t)
    ensures TablesValid(r.0)
    ensures id !in t.community.rows ==> r == (t, Err(Exception(NotFound, CommunityMissing)))
    ensures r.1.Ok? <==> id in t.community.rows
    ensures r.1.Ok? ==>
      // the community's row: only the description is patched
      && r.0.community.rows.Keys == t.community.rows.Keys && r.0.community.nextId == t.community.nextId
      && r.1.value == r.0.community.rows[id]
      && r.1.value == t.community.rows[id].(description := Patched(t.community.rows[id].description, dto.description))
      && (forall k :: k in t.community.rows && k != id ==> r.0.community.rows[k] == t.community.rows[k])
      && r.0.communityRole == t.communityRole
      // rules left out: unchanged
      && (dto.rules.Omitted? ==> r.0.rule == t.rule)
      // rules given (or `null`, as empty): delete this community's rules, then insert the new ones
      && (!dto.rules.Omitted? ==>
            r.0.rule == InsertRules(DeleteRulesOf(t.rule, id), id, if dto.rules.Given? then dto.rules.value else []))
      // rules of other communities: unchanged
      && (forall k :: k in t.rule.rows && t.rule.rows[k].communityId != id ==>
            k in r.0.rule.rows && r.0.rule.rows[k] == t.rule.rows[k])
  {
    if id !in t.community.rows then (t, Err(Exception(NotFound, CommunityMissing)))
    else
      var rules := match dto.rules
        case Omitted => None
        case Null => Some([])
        case Given(given) => Some(given);
      var t' := Apply(t, id, dto.description, rules);
      (t', Ok(t'.community.rows[id]))
  }

  /** An array of rules replaces the community's rules: afterwards its rules
      are exactly the given ones, in order, under fresh keys. */
  lemma {:induction false} UpdateReplacesRules(t: Tables, id: int, dto: UpdateCommunityDto)
    requires TablesValid(t) && id in t.community.rows && dto.rules.Given?
    ensures var after := UpdateCommunity(t, id, dto).0;
      var n := t.rule.nextId;
      var given := dto.rules.value;
      && (forall k :: k in after.rule.rows && after.rule.rows[k].communityId == id ==> n <= k < n + |given|)
      && (forall k :: k in after.rule.rows && k !in t.rule.rows ==> after.rule.rows[k].communityId == id)
      && (forall i :: 0 <= i < |given| ==>
            n + i in after.rule.rows && after.rule.rows[n + i] == Rule(n + i, id, given[i].title, given[i].description))
  {
    var after := UpdateCommunity(t, id, dto).0;
    var cleared := DeleteRulesOf(t.rule, id);
    assert after.rule == InsertRules(cleared, id, dto.rules.value);
    forall k | k in after.rule.rows && k !in t.rule.rows
      ensures after.rule.rows[k].communityId == id
    {
      assert k !in cleared.rows;
    }
  }

  /** `null` and an empty array both leave the community without rules. */
  lemma {:induction false} NullRulesClear(t: Tables, id: int, description: Patch<string>)
    requires TablesValid(t) && id in t.community.rows
    ensures var after := UpdateCommunity(t, id, UpdateCommunityDto(description, Null)).0;
      && after == UpdateCommunity(t, id, UpdateCommunityDto(description, Given([]))).0
      && forall k :: k in after.rule.rows ==> after.rule.rows[k].communityId != id
  {
    var after := UpdateCommunity(t, id, UpdateCommunityDto(description, Null)).0;
    assert after.rule == InsertRules(DeleteRulesOf(t.rule, id), id, []);
  }

  /** As written, the same request throws and changes nothing. */
  lemma NullRulesThrowAsWritten(t: Tables, id: int, description: Patch<string>)
    requires TablesValid(t) && id in t.community.rows
    ensures UpdateCommunityAsWritten(t, id, UpdateCommunityDto(description, Null)) ==
      (t, Err(Exception(InternalServerError, TypeError)))
    ensures UpdateCommunity(t, id, UpdateCommunityDto(description, Null)).1.Ok?
  {
  }

  /** The community table after `CommunitiesService.join`. */
  function JoinCommunity(communities: Table<Community>, dto: JoinCommunityDto): (r: (Table<Community>, Result<string>))
    requires CommunitiesValid(communities)
    ensures CommunitiesValid(r.0)
    ensures dto.communityId !in communities.rows ==> r == (communities, Err(Exception(BadRequest, NoSuchCommunity)))
    ensures (dto.communityId in communities.rows && dto.userId in communities.rows[dto.communityId].members) ==>
      r == (communities, Err(Exception(BadRequest, AlreadyMember)))
    ensures r.1.Ok? <==> dto.communityId in communities.rows && dto.userId !in communities.rows[dto.communityId].members
    ensures r.1.Ok? ==>
      && r.1.value == Joined
      && r.0.rows.Keys == communities.rows.Keys && r.0.nextId == communities.nextId
      && r.0.rows[dto.communityId].members == communities.rows[dto.communityId].members + {dto.userId}
      && r.0.rows[dto.communityId] == communities.rows[dto.communityId].(members := r.0.rows[dto.communityId].members)
      && forall k :: k in communities.rows && k != dto.communityId ==> r.0.rows[k] == communities.rows[k]
  {
    if dto.communityId !in communities.rows then
      (communities, Err(Exception(BadRequest, NoSuchCommunity)))
    else
      var c := communities.rows[dto.communityId];
      if dto.userId in c.members then
        (communities, Err(Exception(BadRequest, AlreadyMember)))
      else
        var c' := c.(members := c.members + {dto.userId});
        (communities.(rows := communities.rows[dto.communityId := c']), Ok(Joined))
  }

  /** Joining twice: the second attempt is refused and changes nothing. */
  lemma JoinTwice(communities: Table<Community>, dto: JoinCommunityDto)
    requires CommunitiesValid(communities)
    requires JoinCommunity(communities, dto).1.Ok?
    ensures var once := JoinCommunity(communities, dto).0;
      JoinCommunity(once, dto) == (once, Err(Exception(BadRequest, AlreadyMember)))
  {
  }

  class CommunitiesService {
    const prisma: Prisma

    constructor (prisma: Prisma)
      ensures this.prisma == prisma
    {
      this.prisma := prisma;
    }

    /** `CommunitiesService.create`: the checks and the three writes as one transaction. */
    method Create(dto: CreateCommunityDto) returns (r: Result<string>)
      requires prisma.Valid()
      modifies prisma`community, prisma`rule, prisma`communityRole
      ensures prisma.Valid()
      ensures (Tables(prisma.community, prisma.rule, prisma.communityRole), r) ==
        CreateCommunity(old(Tables(prisma.community, prisma.rule, prisma.communityRole)), prisma.role, dto)
    {
      var t := Tables(prisma.community, prisma.rule, prisma.communityRole);
      var result := CreateCommunity(t, prisma.role, dto);
      prisma.community, prisma.rule, prisma.communityRole := result.0.community, result.0.rule, result.0.communityRole;
      r := result.1;
    }

    /** `CommunitiesService.update` as the code runs it: `null` rules throw
        before anything is written. */
    method Update(id: int, dto: UpdateCommunityDto) returns (r: Result<Reply<Community>>)
      requires prisma.Valid()
      modifies prisma`community, prisma`rule
      ensures prisma.Valid()
      ensures var (t, result) := UpdateCommunityAsWritten(old(Tables(prisma.community, prisma.rule, prisma.communityRole)), id, dto);
        && prisma.community == t.community && prisma.rule == t.rule
        && r == if result.Ok? then Ok(Reply(Some(Updated), Some(result.value))) else Err(result.error)
    {
      var t := Tables(prisma.community, prisma.rule, prisma.communityRole);
      var result := UpdateCommunityAsWritten(t, id, dto);
      prisma.community, prisma.rule := result.0.community, result.0.rule;
      r := if result.1.Ok? then Ok(Reply(Some(Updated), Some(result.1.value))) else Err(result.1.error);
    }

    /** `CommunitiesService.findAll`: every community, each once. */
    method FindAll() returns (r: seq<Community>)
      requires prisma.Valid()
      ensures |r| == |prisma.community.rows|
      ensures forall c :: c in r <==> c in prisma.community.rows.Values
    {
      var keep := (c: Community) => true;
      var ids := Select(prisma.community.rows, prisma.community.nextId, keep);
      r := RowsOf(prisma.community.rows, ids);
      SelectCountsMatches(prisma.community.rows, prisma.community.nextId, keep);
      assert Matching(prisma.community.rows, prisma.community.nextId, keep) == prisma.community.rows.Keys;
      forall c | c in prisma.community.rows.Values
        ensures c in r
      {
        var k :| k in prisma.community.rows && prisma.community.rows[k] == c;
        var i :| 0 <= i < |ids| && ids[i] == k;
        assert r[i] == c;
      }
    }

    /** `CommunitiesService.findOne`: the community with its members and its role grants. */
    method FindOne(id: int) returns (r: Result<Reply<CommunityDetail>>)
      requires prisma.Valid()
      ensures r.Err? <==> id !in prisma.community.rows
      ensures r.Err? ==> r.error == Exception(BadRequest, NoSuchCommunity)
      ensures r.Ok? ==>
        && r.value.message == Some(Found) && r.value.data.Some?
        && r.value.data.value.community == prisma.community.rows[id]
        && (forall g :: g in r.value.data.value.roles <==> g in prisma.communityRole.rows.Values && g.communityId == id)
        // each grant once
        && forall i, j :: 0 <= i < j < |r.value.data.value.roles| ==> r.value.data.value.roles[i].id != r.value.data.value.roles[j].id
    {
      if id !in prisma.community.rows {
        return Err(Exception(BadRequest, NoSuchCommunity));
      }
      var keep := (g: CommunityRole) => g.communityId == id;
      var ids := Select(prisma.communityRole.rows, prisma.communityRole.nextId, keep);
      var roles := RowsOf(prisma.communityRole.rows, ids);
      forall g | g in prisma.communityRole.rows.Values && g.communityId == id
        ensures g in roles
      {
        var k :| k in prisma.communityRole.rows && prisma.communityRole.rows[k] == g;
        var i :| 0 <= i < |ids| && ids[i] == k;
        assert roles[i] == g;
      }
      r := Ok(Reply(Some(Found), Some(CommunityDetail(prisma.community.rows[id], roles))));
    }

    /** `CommunitiesService.join` */
    method Join(dto: JoinCommunityDto) returns (r: Result<string>)
      requires prisma.Valid()
      modifies prisma`community
      ensures prisma.Valid()
      ensures (prisma.community, r) == JoinCommunity(old(prisma.community), dto)
    {
      if dto.communityId !in prisma.community.rows {
        return Err(Exception(BadRequest, NoSuchCommunity));
      }
      var c := prisma.community.rows[dto.communityId];
      if dto.userId in c.members {
        return Err(Exception(BadRequest, AlreadyMember));
      }
      prisma.community := prisma.community.(rows := prisma.community.rows[dto.communityId := c.(members := c.members + {dto.userId})]);
      r := Ok(Joined);
    }
  }
}
