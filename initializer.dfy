/** `DatabaseInitializer.run`: seeds the three role rows and the `admin` account, each only when
    it is missing, so that running it again changes nothing. */
module Initializer {
  import opened Domain
  import opened Repositories
  import opened Store

  /** The role table after `save` of `r` when `findByName(r)` is empty. */
  function WithRole(roles: seq<RoleName>, r: RoleName): (rs: seq<RoleName>)
    ensures r in rs
    ensures forall x :: x in roles ==> x in rs
    ensures forall x :: x in rs ==> x in roles || x == r
    ensures r in roles ==> rs == roles
  {
    if r in roles then roles else roles + [r]
  }

  /** `initRoles`: ROLE_REGULAR, then ROLE_MANAGER, then ROLE_ADMIN. */
  function SeededRoles(roles: seq<RoleName>): (rs: seq<RoleName>)
  {
    WithRole(WithRole(WithRole(roles, RoleRegular), RoleManager), RoleAdmin)
  }

  /** After seeding every role exists, no role is added twice, and the rows already there keep
      their places. */
  lemma {:induction false} SeededRolesComplete(roles: seq<RoleName>)
    ensures forall r: RoleName :: r in SeededRoles(roles)
    ensures roles <= SeededRoles(roles)
    ensures forall r: RoleName :: multiset(SeededRoles(roles))[r] == if r in roles then multiset(roles)[r] else 1
  {
    var r1 := WithRole(roles, RoleRegular);
    var r2 := WithRole(r1, RoleManager);
    var r3 := WithRole(r2, RoleAdmin);
    forall r: RoleName
      ensures multiset(r3)[r] == if r in roles then multiset(roles)[r] else 1
    {
      WithRoleCounts(roles, RoleRegular, r);
      WithRoleCounts(r1, RoleManager, r);
      WithRoleCounts(r2, RoleAdmin, r);
    }
  }

  lemma WithRoleCounts(roles: seq<RoleName>, added: RoleName, r: RoleName)
    ensures multiset(WithRole(roles, added))[r] ==
            if r == added && added !in roles then 1 else multiset(roles)[r]
  {
    if added !in roles {
      assert multiset(roles + [added]) == multiset(roles) + multiset{added};
      assert multiset(roles)[added] == 0;
    }
  }

  /** Seeding the roles twice is seeding them once. */
  lemma SeededRolesIdempotent(roles: seq<RoleName>)
    ensures SeededRoles(SeededRoles(roles)) == SeededRoles(roles)
  {
    SeededRolesComplete(roles);
  }

  /** The account `createAdminAccount` builds, under the id the database gives it. */
  function AdminAccount(id: int): User
  {
    User(id, "admin", "Admin", "User", "System Administrator", "1234567890", {RoleAdmin}, None)
  }

  const AdminRoleMissing := "Admin role not found"

  /** `createAdminAccount`: `Ok(None)` when a user named `admin` exists, the new account when it
      does not and the ADMIN role row exists, and the `RuntimeException` otherwise. */
  function AdminOutcome(users: seq<User>, roles: seq<RoleName>): (r: Result<Option<User>>)
    ensures ExistsByUsername(users, "admin") ==> r == Ok(None)
    ensures !ExistsByUsername(users, "admin") && RoleAdmin !in roles ==> r == Err(Unexpected(AdminRoleMissing))
    ensures !ExistsByUsername(users, "admin") && RoleAdmin in roles ==> r == Ok(Some(AdminAccount(|users| + 1)))
    ensures r.Ok? && r.value.Some? ==>
              && !ExistsByUsername(users, "admin")
              && r.value.value == AdminAccount(|users| + 1)
              && r.value.value.roles == {RoleAdmin}
  {
    if ExistsByUsername(users, "admin") then Ok(None)
    else if RoleAdmin !in roles then Err(Unexpected(AdminRoleMissing))
    else Ok(Some(AdminAccount(|users| + 1)))
  }

  /** The tables after `run`, and whether it threw. */
  datatype Seeding = Seeding(users: seq<User>, roles: seq<RoleName>, failure: Option<Failure>)

  function RunOutcome(users: seq<User>, roles: seq<RoleName>): (s: Seeding)
    ensures s.roles == SeededRoles(roles)
    ensures s.failure.None?
    ensures ExistsByUsername(s.users, "admin")
    ensures ExistsByUsername(users, "admin") ==> s.users == users
    ensures !ExistsByUsername(users, "admin") ==> s.users == users + [AdminAccount(|users| + 1)]
  {
    SeededRolesComplete(roles);
    var seeded := SeededRoles(roles);
    match AdminOutcome(users, seeded)
    case Ok(None) => Seeding(users, seeded, None)
    case Ok(Some(admin)) =>
      assert (users + [admin])[|users|] == admin;
      Seeding(users + [admin], seeded, None)
    case Err(f) => Seeding(users, seeded, Some(f))
  }

  /** Running the initializer on its own output changes nothing. */
  lemma RunIdempotent(users: seq<User>, roles: seq<RoleName>)
    ensures var once := RunOutcome(users, roles);
            RunOutcome(once.users, once.roles) == once
  {
    var once := RunOutcome(users, roles);
    SeededRolesIdempotent(roles);
  }

  /** `initRoles` on the database. */
  method InitRoles(db: Database)
    modifies db`roles
    ensures db.roles == SeededRoles(old(db.roles))
  {
    if RoleRegular !in db.roles {
      db.roles := db.roles + [RoleRegular];
    }
    if RoleManager !in db.roles {
      db.roles := db.roles + [RoleManager];
    }
    if RoleAdmin !in db.roles {
      db.roles := db.roles + [RoleAdmin];
    }
  }

  /** `createAdminAccount` on the database. */
  method CreateAdminAccount(db: Database) returns (result: Result<()>)
    requires db.Valid()
    modifies db`users
    ensures db.Valid()
    ensures match AdminOutcome(old(db.users), db.roles)
            case Ok(None) => db.users == old(db.users) && result == Ok(())
            case Ok(Some(admin)) => db.users == old(db.users) + [admin] && result == Ok(())
            case Err(f) => db.users == old(db.users) && result == Err(f)
  {
    if !ExistsByUsername(db.users, "admin") {
      var admin := User(|db.users| + 1, "admin", "Admin", "User", "System Administrator", "1234567890", {}, None);
      if RoleAdmin !in db.roles {
        return Err(Unexpected(AdminRoleMissing));
      }
      admin := admin.(roles := {RoleAdmin});
      AppendUser(db.users, db.requests, admin);
      db.users := db.users + [admin];
    }
    result := Ok(());
  }

  /** `run`: roles first, then the admin account. */
  method Run(db: Database)
    requires db.Valid()
    modifies db`roles, db`users
    ensures db.Valid()
    ensures db.users == RunOutcome(old(db.users), old(db.roles)).users
    ensures db.roles == RunOutcome(old(db.users), old(db.roles)).roles
  {
    InitRoles(db);
    SeededRolesComplete(old(db.roles));
    var r := CreateAdminAccount(db);
  }
}
