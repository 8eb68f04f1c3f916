/** Sign-up through the Google login route: find-or-create of a user keyed by
    email. */
module Auths {
  import opened Common
  import opened Store

  const SignedUp: string := "가입에 성공 했습니다."
  const AlreadyRegistered: string := "이미 가입된 이메일 입니다."

  /** The request body; `name` and `image` may be left out. */
  datatype CreateAuthDto = CreateAuthDto(email: string, name: Option<string>, image: Option<string>)

  /** `findUnique({ where: { email } })` finds a row. */
  predicate HasEmail(users: map<int, User>, email: string)
  {
    exists k | k in users :: users[k].email == email
  }

  /** The row `create` inserts: only email, name and image are set. */
  function NewUser(id: int, dto: CreateAuthDto): User
  {
    User(id, dto.email, dto.name, dto.image, None)
  }

  /** The user table and the message after `AuthsService.create`. */
  function FindOrCreate(users: Table<User>, dto: CreateAuthDto): (r: (Table<User>, string))
    requires UsersValid(users)
    ensures UsersValid(r.0)
    ensures HasEmail(r.0.rows, dto.email)
    ensures r.1 == SignedUp <==> !HasEmail(users.rows, dto.email)
    ensures r.1 == AlreadyRegistered <==> HasEmail(users.rows, dto.email)
    ensures HasEmail(users.rows, dto.email) ==> r.0 == users
    ensures !HasEmail(users.rows, dto.email) ==>
      && r.0.rows.Keys == users.rows.Keys + {users.nextId} && r.0.nextId == users.nextId + 1
      && users.nextId !in users.rows
      && r.0.rows[users.nextId] == NewUser(users.nextId, dto)
      && forall k :: k in users.rows ==> r.0.rows[k] == users.rows[k]
  {
    if HasEmail(users.rows, dto.email) then
      (users, AlreadyRegistered)
    else
      var users' := Insert(users, NewUser(users.nextId, dto));
      InsertKeepsWellFormed(users, (u: User) => u.id, NewUser(users.nextId, dto));
      assert users'.rows[users.nextId].email == dto.email;
      (users', SignedUp)
  }

  /** Signing up twice with one email changes nothing the second time. */
  lemma FindOrCreateIdempotent(users: Table<User>, dto: CreateAuthDto)
    requires UsersValid(users)
    ensures var (once, _) := FindOrCreate(users, dto);
      FindOrCreate(once, dto) == (once, AlreadyRegistered)
  {
  }

  /** Whatever sequence of sign-ups runs, an email still names at most one
      user (`UsersValid`), no row is lost, and every email signed up is
      registered. */
  lemma {:induction false} FindOrCreateAll(users: Table<User>, dtos: seq<CreateAuthDto>)
    requires UsersValid(users)
    decreases |dtos|
    ensures var users' := FindOrCreateEach(users, dtos);
      && UsersValid(users')
      && users.rows.Keys <= users'.rows.Keys
      && forall i :: 0 <= i < |dtos| ==> HasEmail(users'.rows, dtos[i].email)
  {
    if dtos != [] {
      var (next, _) := FindOrCreate(users, dtos[0]);
      FindOrCreateAll(next, dtos[1..]);
      var users' := FindOrCreateEach(next, dtos[1..]);
      assert users' == FindOrCreateEach(users, dtos);
      forall i | 0 <= i < |dtos|
        ensures HasEmail(users'.rows, dtos[i].email)
      {
        if i == 0 {
          var k :| k in next.rows && next.rows[k].email == dtos[0].email;
          assert k in users'.rows && users'.rows[k] == next.rows[k] by {
            FindOrCreateEachKeepsRows(next, dtos[1..]);
          }
        } else {
          assert dtos[i] == dtos[1..][i - 1];
        }
      }
    }
  }

  /** A run of sign-ups, one after the other. */
  function FindOrCreateEach(users: Table<User>, dtos: seq<CreateAuthDto>): Table<User>
    requires UsersValid(users)
    decreases |dtos|
  {
    if dtos == [] then users else FindOrCreateEach(FindOrCreate(users, dtos[0]).0, dtos[1..])
  }

  /** Sign-ups never change or remove an existing row. */
  lemma {:induction false} FindOrCreateEachKeepsRows(users: Table<User>, dtos: seq<CreateAuthDto>)
    requires UsersValid(users)
    decreases |dtos|
    ensures var users' := FindOrCreateEach(users, dtos);
      forall k :: k in users.rows ==> k in users'.rows && users'.rows[k] == users.rows[k]
  {
    if dtos != [] {
      FindOrCreateEachKeepsRows(FindOrCreate(users, dtos[0]).0, dtos[1..]);
    }
  }

  class AuthsService {
    const prisma: Prisma

    constructor (prisma: Prisma)
      ensures this.prisma == prisma
    {
      this.prisma := prisma;
    }

    /** `AuthsService.create`: look the email up, insert a row when absent.
        Neither path throws; the message tells them apart. */
    method Create(dto: CreateAuthDto) returns (message: string)
      requires prisma.Valid()
      modifies prisma`user
      ensures prisma.Valid()
      ensures (prisma.user, message) == FindOrCreate(old(prisma.user), dto)
    {
      var user := HasEmail(prisma.user.rows, dto.email);
      if !user {
        prisma.user := Insert(prisma.user, NewUser(prisma.user.nextId, dto));
        message := SignedUp;
      } else {
        message := AlreadyRegistered;
      }
    }
  }
}
