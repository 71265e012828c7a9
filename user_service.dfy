/** `UserServiceImpl`: the scoped user lists, role replacement and manager assignment. */
module UserService {
  import opened Domain
  import opened Seqs
  import opened Repositories
  import opened Mapping
  import opened Store

  /** The exception thrown when the authenticated name has no user row. */
  function CallerNotFound(actor: Actor): Failure
  {
    ResourceNotFound("User", "username", ByText(actor.username))
  }

  /** The exception thrown when no user has the given id. */
  function UserNotFound(id: int): Failure
  {
    ResourceNotFound("User", "id", ByNumber(id))
  }

  // ------------------------------------------------------------------ views

  /** `getAllUsers`: every user for a caller with the ADMIN authority; otherwise exactly the
      users whose manager is the caller. */
  function AllUsers(users: seq<User>, actor: Actor): (r: Result<seq<UserDto>>)
    requires UsersConsistent(users)
    ensures RoleAdmin in actor.authorities ==> r.Ok? && |r.value| == |users|
    ensures RoleAdmin in actor.authorities ==> forall u :: u in users ==> ToUserDto(users, u) in r.value
    ensures RoleAdmin !in actor.authorities ==> r == Subordinates(users, actor)
  {
    if RoleAdmin in actor.authorities then Ok(ToUserDtos(users, users))
    else Subordinates(users, actor)
  }

  /** `getSubordinates`: the users whose manager is the caller. */
  function Subordinates(users: seq<User>, actor: Actor): (r: Result<seq<UserDto>>)
    requires UsersConsistent(users)
    ensures r.Err? <==> !ExistsByUsername(users, actor.username)
    ensures r.Err? ==> r.failure == CallerNotFound(actor)
    ensures r.Ok? ==>
              forall d :: d in r.value <==>
                exists u :: u in users && u.manager == CallerId(users, actor) && d == ToUserDto(users, u)
  {
    match FindByUsername(users, actor.username)
    case None => Err(CallerNotFound(actor))
    case Some(manager) => Ok(ToUserDtos(users, FindByManagerId(users, manager.id)))
  }

  /** `getUserById`. */
  function UserById(users: seq<User>, id: int): (r: Result<UserDto>)
    requires UsersConsistent(users)
    ensures r.Err? <==> !(1 <= id <= |users|)
    ensures r.Err? ==> r.failure == UserNotFound(id)
    ensures r.Ok? ==> users[id - 1] in users && r.value == ToUserDto(users, users[id - 1])
  {
    match FindUserById(users, id)
    case None => Err(UserNotFound(id))
    case Some(u) => Ok(ToUserDto(users, u))
  }

  // ------------------------------------------------------------------ role replacement

  /** `Role.RoleName.valueOf` on a name that is not a constant throws this. */
  function NoEnumConstant(roleName: string): Failure
  {
    Unexpected("No enum constant com.investment.entity.Role.RoleName." + roleName)
  }

  /** `updateUserRole`: the checks in the source's order, and on success the target user with
      its role set replaced by the single new role. `roles` is the role table. */
  function UpdateRoleOutcome(users: seq<User>, roles: seq<RoleName>, actor: Actor, userId: int, roleName: string)
    : (r: Result<User>)
    requires UsersConsistent(users)
    ensures RoleAdmin !in actor.authorities ==> r == Err(AccessDenied("Only admin can update user roles"))
    ensures RoleAdmin in actor.authorities && !ExistsByUsername(users, actor.username) ==>
              r == Err(CallerNotFound(actor))
    ensures RoleAdmin in actor.authorities && ExistsByUsername(users, actor.username) && !(1 <= userId <= |users|) ==>
              r == Err(UserNotFound(userId))
    ensures r.Ok? <==>
              && RoleAdmin in actor.authorities
              && ExistsByUsername(users, actor.username)
              && 1 <= userId <= |users|
              && users[userId - 1].username != actor.username
              && ParseRoleName(roleName).Some? && ParseRoleName(roleName).value in roles
              && (RoleAdmin in users[userId - 1].roles ==> ParseRoleName(roleName) == Some(RoleAdmin))
    ensures r.Ok? ==> r.value == users[userId - 1].(roles := {ParseRoleName(roleName).value})
    ensures r.Ok? ==> UserConsistent(users, r.value)
  {
    if RoleAdmin !in actor.authorities then Err(AccessDenied("Only admin can update user roles"))
    else
      match FindByUsername(users, actor.username)
      case None => Err(CallerNotFound(actor))
      case Some(currentAdmin) =>
        match FindUserById(users, userId)
        case None => Err(UserNotFound(userId))
        case Some(user) =>
          if user.id == currentAdmin.id then Err(AccessDenied("Admin cannot change their own role"))
          else
            match ParseRoleName(roleName)
            case None => Err(NoEnumConstant(roleName))
            case Some(role) =>
              if role !in roles then Err(ResourceNotFound("Role", "name", ByText(roleName)))
              else if RoleAdmin in user.roles && role != RoleAdmin then
                Err(AccessDenied("Cannot demote an admin to another role"))
              else
                assert UserConsistent(users, user);
                Ok(user.(roles := {role}))
  }

  /** An admin's attempt on their own row always fails, whatever the role asked for. */
  lemma AdminCannotChangeOwnRole(users: seq<User>, roles: seq<RoleName>, actor: Actor, roleName: string)
    requires UsersConsistent(users)
    requires RoleAdmin in actor.authorities
    requires ExistsByUsername(users, actor.username)
    ensures UpdateRoleOutcome(users, roles, actor, CallerId(users, actor).value, roleName)
            == Err(AccessDenied("Admin cannot change their own role"))
  {
  }

  /** A user holding ROLE_ADMIN keeps it: once the earlier checks pass, a request for any other
      role is refused with the demotion message. */
  lemma AdminsCannotBeDemoted(
    users: seq<User>, roles: seq<RoleName>, actor: Actor, userId: int, role: RoleName)
    requires UsersConsistent(users)
    requires RoleAdmin in actor.authorities && ExistsByUsername(users, actor.username)
    requires 1 <= userId <= |users| && users[userId - 1].username != actor.username
    requires RoleAdmin in users[userId - 1].roles
    requires role != RoleAdmin && role in roles
    ensures UpdateRoleOutcome(users, roles, actor, userId, RoleNameText(role))
            == Err(AccessDenied("Cannot demote an admin to another role"))
  {
  }

  /** `updateUserRole` on the database: the target's row is replaced and nothing else changes. */
  method UpdateUserRole(db: Database, actor: Actor, userId: int, roleName: string) returns (result: Result<()>)
    requires db.Valid()
    modifies db`users
    ensures db.Valid()
    ensures match UpdateRoleOutcome(old(db.users), db.roles, actor, userId, roleName)
            case Ok(u) => db.users == old(db.users)[userId - 1 := u] && result == Ok(())
            case Err(f) => db.users == old(db.users) && result == Err(f)
  {
    if RoleAdmin !in actor.authorities {
      return Err(AccessDenied("Only admin can update user roles"));
    }
    var currentAdmin := FindByUsername(db.users, actor.username);
    if currentAdmin.None? {
      return Err(CallerNotFound(actor));
    }
    var user := FindUserById(db.users, userId);
    if user.None? {
      return Err(UserNotFound(userId));
    }
    if user.value.id == currentAdmin.value.id {
      return Err(AccessDenied("Admin cannot change their own role"));
    }
    var role := ParseRoleName(roleName);
    if role.None? {
      return Err(NoEnumConstant(roleName));
    }
    if role.value !in db.roles {
      return Err(ResourceNotFound("Role", "name", ByText(roleName)));
    }
    var isAdmin := RoleAdmin in user.value.roles;
    if isAdmin && role.value != RoleAdmin {
      return Err(AccessDenied("Cannot demote an admin to another role"));
    }
    var updated := user.value.(roles := {role.value});
    assert Ok(updated) == UpdateRoleOutcome(db.users, db.roles, actor, userId, roleName);
    ReplaceUser(db.users, db.requests, updated);
    db.users := db.users[userId - 1 := updated];
    result := Ok(());
  }

  /** The ids of a list of users. */
  function Ids(us: seq<User>): (ids: seq<int>)
    ensures |ids| == |us|
  {
    Map(us, (u: User) => u.id)
  }

  /** A role change, a demotion of a manager included, leaves every manager's subordinate list
      as it was: the manager links are not touched. */
  lemma {:induction false} RoleChangeKeepsSubordinates(
    users: seq<User>, roles: seq<RoleName>, actor: Actor, userId: int, roleName: string, managerId: int)
    requires UsersConsistent(users)
    requires UpdateRoleOutcome(users, roles, actor, userId, roleName).Ok?
    ensures Ids(FindByManagerId(users[userId - 1 := UpdateRoleOutcome(users, roles, actor, userId, roleName).value], managerId))
         == Ids(FindByManagerId(users, managerId))
  {
    var u := UpdateRoleOutcome(users, roles, actor, userId, roleName).value;
    FilterMapUpdate(users, userId - 1, u, (x: User) => x.manager == Some(managerId), (x: User) => x.id);
  }

  // ------------------------------------------------------------------ manager assignment

  /** `assignManager`: the checks in the source's order, and on success the target user with its
      manager link set to `managerId` (`None`, the JSON null, clears it). */
  function AssignManagerOutcome(users: seq<User>, actor: Actor, userId: int, managerId: Option<int>)
    : (r: Result<User>)
    requires UsersConsistent(users)
    ensures RoleAdmin !in actor.authorities ==> r == Err(AccessDenied("Only admin can assign managers"))
    ensures RoleAdmin in actor.authorities && !(1 <= userId <= |users|) ==> r == Err(UserNotFound(userId))
    ensures (RoleAdmin in actor.authorities && 1 <= userId <= |users| && managerId.Some? &&
             !(1 <= managerId.value <= |users|)) ==> r == Err(UserNotFound(managerId.value))
    ensures (RoleAdmin in actor.authorities && 1 <= userId <= |users| &&
             (managerId.Some? ==> 1 <= managerId.value <= |users|) &&
             RoleRegular !in users[userId - 1].roles) ==>
              r == Err(AccessDenied("Only regular users can be assigned managers"))
    ensures (RoleAdmin in actor.authorities && 1 <= userId <= |users| && RoleRegular in users[userId - 1].roles &&
             managerId.Some? && 1 <= managerId.value <= |users| &&
             RoleManager !in users[managerId.value - 1].roles) ==>
              r == Err(AccessDenied("The assigned manager must have MANAGER role"))
    ensures r.Ok? <==>
              && RoleAdmin in actor.authorities
              && 1 <= userId <= |users|
              && RoleRegular in users[userId - 1].roles
              && (managerId.Some? ==> 1 <= managerId.value <= |users| && RoleManager in users[managerId.value - 1].roles)
    ensures r.Ok? ==> r.value == users[userId - 1].(manager := managerId)
    ensures r.Ok? ==> UserConsistent(users, r.value)
  {
    if RoleAdmin !in actor.authorities then Err(AccessDenied("Only admin can assign managers"))
    else
      match FindUserById(users, userId)
      case None => Err(UserNotFound(userId))
      case Some(user) =>
        var manager :=
          match managerId
          case None => Ok(None)
          case Some(mid) =>
            match FindUserById(users, mid)
            case None => Err(UserNotFound(mid))
            case Some(m) => Ok(Some(m));
        if manager.Err? then Err(manager.failure)
        else if RoleRegular !in user.roles then Err(AccessDenied("Only regular users can be assigned managers"))
        else if manager.value.Some? && RoleManager !in manager.value.value.roles then
          Err(AccessDenied("The assigned manager must have MANAGER role"))
        else
          assert UserConsistent(users, user);
          SingleRoleDistinct(users, user, manager.value);
          Ok(user.(manager := managerId))
  }

  /** Each user holds one role, so a user holding ROLE_REGULAR is not the user holding
      ROLE_MANAGER: a successful assignment never makes a user its own manager. */
  lemma SingleRoleDistinct(users: seq<User>, user: User, manager: Option<User>)
    requires UsersConsistent(users)
    requires user in users && RoleRegular in user.roles
    requires manager.Some? ==> manager.value in users && RoleManager in manager.value.roles
    ensures manager.Some? ==> manager.value.id != user.id
  {
    if manager.Some? {
      assert UserConsistent(users, user) && UserConsistent(users, manager.value);
      assert user.roles == {RoleRegular} by { SingletonHolds(user.roles, RoleRegular); }
      assert manager.value.roles == {RoleManager} by { SingletonHolds(manager.value.roles, RoleManager); }
      var i :| 0 <= i < |users| && users[i] == user;
      var j :| 0 <= j < |users| && users[j] == manager.value;
    }
  }

  lemma SingletonHolds(s: set<RoleName>, r: RoleName)
    requires |s| == 1 && r in s
    ensures s == {r}
  {
    assert |s - {r}| == 0;
  }

  /** Asking to make a user their own manager is refused: either the user is not REGULAR or,
      being REGULAR, not a MANAGER. */
  lemma NoSelfManagement(users: seq<User>, actor: Actor, userId: int)
    requires UsersConsistent(users)
    ensures AssignManagerOutcome(users, actor, userId, Some(userId)).Err?
  {
  }

  /** `assignManager` on the database: only the target's manager link changes. */
  method AssignManager(db: Database, actor: Actor, userId: int, managerId: Option<int>) returns (result: Result<()>)
    requires db.Valid()
    modifies db`users
    ensures db.Valid()
    ensures match AssignManagerOutcome(old(db.users), actor, userId, managerId)
            case Ok(u) => db.users == old(db.users)[userId - 1 := u] && result == Ok(())
            case Err(f) => db.users == old(db.users) && result == Err(f)
  {
    if RoleAdmin !in actor.authorities {
      return Err(AccessDenied("Only admin can assign managers"));
    }
    var user := FindUserById(db.users, userId);
    if user.None? {
      return Err(UserNotFound(userId));
    }
    var manager: Option<User> := None;
    if managerId.Some? {
      manager := FindUserById(db.users, managerId.value);
      if manager.None? {
        return Err(UserNotFound(managerId.value));
      }
    }
    var isUserRegular := RoleRegular in user.value.roles;
    if !isUserRegular {
      return Err(AccessDenied("Only regular users can be assigned managers"));
    }
    if manager.Some? {
      var isManagerAManager := RoleManager in manager.value.roles;
      if !isManagerAManager {
        return Err(AccessDenied("The assigned manager must have MANAGER role"));
      }
    }
    var updated := user.value.(manager := managerId);
    assert Ok(updated) == AssignManagerOutcome(db.users, actor, userId, managerId);
    ReplaceUser(db.users, db.requests, updated);
    db.users := db.users[userId - 1 := updated];
    result := Ok(());
  }
}
