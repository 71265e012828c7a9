/** `AuthServiceImpl.register`: a new user with a unique username and the single role
    ROLE_REGULAR. */
module AuthService {
  import opened Domain
  import opened Repositories
  import opened Mapping
  import opened Store

  const UsernameTaken := "Username already exists"
  const Registered := "User registered successfully"

  /** The user `register` saves, or the exception it throws: a taken username is refused first,
      then a missing ROLE_REGULAR row. `roles` is the role table. */
  function RegisterOutcome(users: seq<User>, roles: seq<RoleName>, dto: RegisterDto): (r: Result<User>)
    requires UsersConsistent(users)
    ensures ExistsByUsername(users, dto.username) ==> r == Err(BadRequest(UsernameTaken))
    ensures !ExistsByUsername(users, dto.username) && RoleRegular !in roles ==>
              r == Err(ResourceNotFound("Role", "name", ByText("ROLE_REGULAR")))
    ensures r.Ok? <==> !ExistsByUsername(users, dto.username) && RoleRegular in roles
    ensures r.Ok? ==>
              && r.value.id == |users| + 1
              && r.value.username == dto.username && r.value.firstName == dto.firstName
              && r.value.lastName == dto.lastName && r.value.designation == dto.designation
              && r.value.phoneNumber == dto.phoneNumber
              && r.value.roles == {RoleRegular}
              && r.value.manager.None?
    ensures r.Ok? ==> UserConsistent(users, r.value)
  {
    if ExistsByUsername(users, dto.username) then Err(BadRequest(UsernameTaken))
    else if RoleRegular !in roles then Err(ResourceNotFound("Role", "name", ByText("ROLE_REGULAR")))
    else Ok(User(|users| + 1, dto.username, dto.firstName, dto.lastName, dto.designation, dto.phoneNumber,
                 {RoleRegular}, None))
  }

  /** `register` on the database: on success the new user is appended and the response carries
      its DTO; on failure nothing changes. */
  method Register(db: Database, dto: RegisterDto) returns (result: Result<ApiResponse>)
    requires db.Valid()
    modifies db`users
    ensures db.Valid()
    ensures match RegisterOutcome(old(db.users), db.roles, dto)
            case Ok(u) =>
              && db.users == old(db.users) + [u]
              && result == Ok(ApiResponse(true, Registered, Some(ToUserDto(db.users, u))))
            case Err(f) => db.users == old(db.users) && result == Err(f)
  {
    if ExistsByUsername(db.users, dto.username) {
      return Err(BadRequest(UsernameTaken));
    }
    var user := User(|db.users| + 1, dto.username, dto.firstName, dto.lastName, dto.designation, dto.phoneNumber,
                     {}, None);
    if RoleRegular !in db.roles {
      return Err(ResourceNotFound("Role", "name", ByText("ROLE_REGULAR")));
    }
    var roles: set<RoleName> := {};
    roles := roles + {RoleRegular};
    user := user.(roles := roles);
    AppendUser(db.users, db.requests, user);
    db.users := db.users + [user];
    var userDto := ToUserDto(db.users, user);
    result := Ok(ApiResponse(true, Registered, Some(userDto)));
  }

  /** After a successful registration the new name finds exactly the new user, and the same
      name cannot be registered again. */
  lemma {:induction false} RegisteredUserIsFound(users: seq<User>, roles: seq<RoleName>, dto: RegisterDto, again: RegisterDto)
    requires UsersConsistent(users)
    requires RegisterOutcome(users, roles, dto).Ok?
    requires again.username == dto.username
    ensures UsersConsistent(users + [RegisterOutcome(users, roles, dto).value])
    ensures FindByUsername(users + [RegisterOutcome(users, roles, dto).value], dto.username)
            == Some(RegisterOutcome(users, roles, dto).value)
    ensures RegisterOutcome(users + [RegisterOutcome(users, roles, dto).value], roles, again)
            == Err(BadRequest(UsernameTaken))
  {
    var u := RegisterOutcome(users, roles, dto).value;
    AppendUser(users, [], u);
    var after := users + [u];
    FindByUsernameUnique(after, |users|);
    assert after[|users|] == u;
  }
}
