/** The user rules of the database-backed server
    (src/.../user/service/UserService.java): lookup, creation with a
    required email, the partial update with its email-conflict check, and
    deletion. */
module UserService {
  import opened Common
  import opened Entities
  import Store

  /** The name and email a client sends; None is a null field. */
  datatype UserDto = UserDto(name: Option<string>, email: Option<string>)

  /** getUser(id): NotFound when no user has the id. */
  function GetUser(users: map<int, User>, id: int): (r: Result<User>)
    ensures r.Err? <==> id !in users
    ensures r.Err? ==> r.error == NotFound
    ensures r.Ok? ==> r.value == users[id]
  {
    if id in users then Ok(users[id]) else Err(NotFound)
  }

  /** existsByEmail(email). */
  function ExistsByEmail(users: map<int, User>, email: string): (r: bool)
    ensures r <==> exists k :: k in users && users[k].email == Some(email)
  {
    exists k :: k in users && users[k].email == Some(email)
  }

  /** createUser: a null email is refused with BadRequest before anything is
      saved; otherwise the user is saved under the next user id. */
  method CreateUser(repo: Store.Repository, dto: UserDto) returns (r: Result<User>)
    requires repo.Valid()
    modifies repo`users, repo`nextUserId
    ensures repo.Valid()
    ensures dto.email.None? ==> r == Err(BadRequest)
    ensures dto.email.Some? ==> r == Ok(User(old(repo.nextUserId), dto.name, dto.email))
    ensures r.Ok? ==> repo.users == old(repo.users)[r.value.id := r.value]
                      && r.value.id !in old(repo.users)
                      && repo.nextUserId == old(repo.nextUserId) + 1
    ensures r.Err? ==> repo.users == old(repo.users) && repo.nextUserId == old(repo.nextUserId)
  {
    if dto.email.None? {
      return Err(BadRequest);
    }
    var user := User(repo.nextUserId, dto.name, dto.email);
    repo.users := repo.users[user.id := user];
    repo.nextUserId := repo.nextUserId + 1;
    r := Ok(user);
  }

  /** updateUser(dto, id): NotFound when the user is missing; a non-null name
      replaces the stored one; a non-null email replaces the stored one unless
      some user already has it, the user itself included, which is a Conflict
      and saves nothing. */
  method UpdateUser(repo: Store.Repository, dto: UserDto, id: int) returns (r: Result<User>)
    requires repo.Valid()
    modifies repo`users
    ensures repo.Valid()
    ensures id !in old(repo.users) ==> r == Err(NotFound)
    ensures id in old(repo.users) && dto.email.Some? && ExistsByEmail(old(repo.users), dto.email.value) ==>
              r == Err(Conflict)
    ensures id in old(repo.users) && dto.email.Some? && dto.email == old(repo.users)[id].email ==>
              r == Err(Conflict)
    ensures r.Ok? <==> id in old(repo.users) &&
                       (dto.email.Some? ==> !ExistsByEmail(old(repo.users), dto.email.value))
    ensures r.Ok? ==> var u := old(repo.users)[id];
                      r.value.id == id &&
                      r.value.name == (if dto.name.Some? then dto.name else u.name) &&
                      r.value.email == (if dto.email.Some? then dto.email else u.email) &&
                      repo.users == old(repo.users)[id := r.value]
    ensures r.Err? ==> repo.users == old(repo.users)
    ensures EmailsDistinct(old(repo.users)) ==> EmailsDistinct(repo.users)
  {
    if id !in repo.users {
      return Err(NotFound);
    }
    var user := repo.users[id];
    if dto.name.Some? {
      user := user.(name := dto.name);
    }
    if dto.email.Some? {
      if ExistsByEmail(repo.users, dto.email.value) {
        return Err(Conflict);
      }
      user := user.(email := dto.email);
    }
    repo.users := repo.users[id := user];
    r := Ok(user);
  }

  /** deleteUser(id): the user as it was before the deletion, which removes
      it; NotFound when it is missing. */
  method DeleteUser(repo: Store.Repository, id: int) returns (r: Result<User>)
    requires repo.Valid()
    modifies repo`users
    ensures repo.Valid()
    ensures r == GetUser(old(repo.users), id)
    ensures r.Ok? ==> repo.users == old(repo.users) - {id} && id !in repo.users
    ensures r.Err? ==> repo.users == old(repo.users)
  {
    r := GetUser(repo.users, id);
    if r.Ok? {
      repo.users := repo.users - {id};
    }
  }
}
