/** The users service: find-then-act update and removal, and lookup by email.
    None of them throws; the message tells success from failure. */
module Users {
  import opened Common
  import opened Store
  import Auths

  const UpdateOk: string := "수정에 성공 했습니다."
  const UpdateFailed: string := "수정에 실패 했습니다."
  const FindOk: string := "조회에 성공했습니다."
  const NoSuchUser: string := "존재하지 않는 유저입니다."
  const RemoveOk: string := "삭제에 성공했습니다."
  const RemoveFailed: string := "삭제에 실패했습니다."

  /** The request body of `update`; a field left out is not written, a `null` one is cleared. */
  datatype UpdateUserDto = UpdateUserDto(email: string, name: Patch<string>, image: Patch<string>)

  /** `data: { name, image }`: each column patched, the rest of the row kept. */
  function Renamed(u: User, dto: UpdateUserDto): User
  {
    u.(name := Patched(u.name, dto.name), image := Patched(u.image, dto.image))
  }

  /** The user table and the message after `UsersService.update`. */
  function UpdateByEmail(users: Table<User>, dto: UpdateUserDto): (r: (Table<User>, string))
    requires UsersValid(users)
    ensures UsersValid(r.0)
    ensures r.1 == UpdateOk <==> Auths.HasEmail(users.rows, dto.email)
    ensures r.1 == UpdateFailed <==> !Auths.HasEmail(users.rows, dto.email)
    ensures r.0.nextId == users.nextId && r.0.rows.Keys == users.rows.Keys
    // the email key of every row is left alone
    ensures forall k :: k in users.rows ==> r.0.rows[k].email == users.rows[k].email
    // the row with that email has the new name and image; every other row is untouched
    ensures forall k :: k in users.rows && users.rows[k].email == dto.email ==>
      r.0.rows[k] == Renamed(users.rows[k], dto)
    ensures forall k :: k in users.rows && users.rows[k].email != dto.email ==>
      r.0.rows[k] == users.rows[k]
  {
    if Auths.HasEmail(users.rows, dto.email) then
      var rows := map k | k in users.rows :: if users.rows[k].email == dto.email then Renamed(users.rows[k], dto) else users.rows[k];
      (users.(rows := rows), UpdateOk)
    else
      (users, UpdateFailed)
  }

  /** The user table and the message after `UsersService.remove`. */
  function RemoveById(users: Table<User>, id: int): (r: (Table<User>, string))
    requires UsersValid(users)
    ensures UsersValid(r.0)
    ensures r.1 == RemoveOk <==> id in users.rows
    ensures r.1 == RemoveFailed <==> id !in users.rows
    ensures r.0.rows.Keys == users.rows.Keys - {id} && r.0.nextId == users.nextId
    ensures forall k :: k in r.0.rows ==> r.0.rows[k] == users.rows[k]
  {
    if id in users.rows then (Delete(users, id), RemoveOk) else (users, RemoveFailed)
  }

  /** An update never creates or removes a user, so removal after update and
      update after removal leave the same rows, for any user and any update. */
  lemma RemoveAfterUpdate(users: Table<User>, dto: UpdateUserDto, id: int)
    requires UsersValid(users)
    ensures RemoveById(UpdateByEmail(users, dto).0, id).0.rows ==
            UpdateByEmail(RemoveById(users, id).0, dto).0.rows
  {
    var a := RemoveById(UpdateByEmail(users, dto).0, id).0.rows;
    var b := UpdateByEmail(RemoveById(users, id).0, dto).0.rows;
    var removed := RemoveById(users, id).0;
    assert a.Keys == b.Keys;
    forall k | k in a
      ensures a[k] == b[k]
    {
      if users.rows[k].email == dto.email {
        // the row itself still carries the email after the removal
        assert Auths.HasEmail(removed.rows, dto.email) by {
          assert k in removed.rows && removed.rows[k].email == dto.email;
        }
      }
    }
  }

  class UsersService {
    const prisma: Prisma

    constructor (prisma: Prisma)
      ensures this.prisma == prisma
    {
      this.prisma := prisma;
    }

    /** `UsersService.update`: find by email, then update that row. */
    method Update(dto: UpdateUserDto) returns (message: string)
      requires prisma.Valid()
      modifies prisma`user
      ensures prisma.Valid()
      ensures (prisma.user, message) == UpdateByEmail(old(prisma.user), dto)
    {
      if Auths.HasEmail(prisma.user.rows, dto.email) {
        var k :| k in prisma.user.rows && prisma.user.rows[k].email == dto.email;
        ghost var before := prisma.user;
        prisma.user := prisma.user.(rows := prisma.user.rows[k := Renamed(prisma.user.rows[k], dto)]);
        ghost var spec := UpdateByEmail(before, dto).0;
        forall j | j in before.rows
          ensures prisma.user.rows[j] == spec.rows[j]
        {
          assert before.rows[j].email == dto.email ==> j == k;
        }
        assert prisma.user.rows == spec.rows;
        message := UpdateOk;
      } else {
        message := UpdateFailed;
      }
    }

    /** `UsersService.findOne`: the user as `data`, or a message alone. */
    method FindOne(email: string) returns (r: Reply<User>)
      requires prisma.Valid()
      ensures r.data.Some? <==> Auths.HasEmail(prisma.user.rows, email)
      ensures r.data.Some? ==>
        r.message == Some(FindOk) && r.data.value.email == email && r.data.value in prisma.user.rows.Values
      ensures r.data.None? ==> r == Say(NoSuchUser)
    {
      if Auths.HasEmail(prisma.user.rows, email) {
        var k :| k in prisma.user.rows && prisma.user.rows[k].email == email;
        r := Reply(Some(FindOk), Some(prisma.user.rows[k]));
      } else {
        r := Say(NoSuchUser);
      }
    }

    /** `UsersService.remove`: find by id, then delete that row. */
    method Remove(id: int) returns (message: string)
      requires prisma.Valid()
      modifies prisma`user
      ensures prisma.Valid()
      ensures (prisma.user, message) == RemoveById(old(prisma.user), id)
    {
      if id in prisma.user.rows {
        prisma.user := Delete(prisma.user, id);
        message := RemoveOk;
      } else {
        message := RemoveFailed;
      }
    }
  }
}
