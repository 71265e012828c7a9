/** The query methods of `UserRepository` and `InvestmentRequestRepository`, as functions over
    the tables. A table is the sequence of its rows in id order; ids are generated by the
    database (IDENTITY, starting at 1) and rows are never deleted, so row `i` has id `i + 1`. */
module Repositories {
  import opened Domain
  import opened Seqs

  // ---------------------------------------------------------------- users

  predicate UserIdsSequential(users: seq<User>)
  {
    forall i :: 0 <= i < |users| ==> users[i].id == i + 1
  }

  /** `@Column(unique = true)` on `User.username`. */
  predicate UsernamesUnique(users: seq<User>)
  {
    forall i, j :: 0 <= i < j < |users| ==> users[i].username != users[j].username
  }

  /** `findById`: the user with that id, if there is one. */
  function FindUserById(users: seq<User>, id: int): (r: Option<User>)
    requires UserIdsSequential(users)
    ensures r.Some? ==> r.value in users && r.value.id == id
    ensures r.Some? <==> 1 <= id <= |users|
    ensures r.Some? ==> r.value == users[id - 1]
    ensures r.None? ==> forall u :: u in users ==> u.id != id
  {
    if 1 <= id <= |users| then Some(users[id - 1]) else None
  }

  /** `findByUsername`: a user with that username, if there is one. */
  function FindByUsername(users: seq<User>, username: string): (r: Option<User>)
    ensures r.Some? ==> r.value in users && r.value.username == username
    ensures r.None? <==> forall u :: u in users ==> u.username != username
  {
    if users == [] then None
    else if users[0].username == username then Some(users[0])
    else
      var r := FindByUsername(users[1..], username);
      assert forall u :: u in users ==> u == users[0] || u in users[1..];
      r
  }

  /** Usernames are unique, so the user `findByUsername` returns is THE user with that name. */
  lemma {:induction false} FindByUsernameUnique(users: seq<User>, i: int)
    requires UsernamesUnique(users)
    requires 0 <= i < |users|
    ensures FindByUsername(users, users[i].username) == Some(users[i])
  {
    if i > 0 {
      assert users[0].username != users[i].username;
      assert UsernamesUnique(users[1..]) by {
        forall a, b | 0 <= a < b < |users| - 1
          ensures users[1..][a].username != users[1..][b].username
        {
          assert users[1..][a] == users[a + 1] && users[1..][b] == users[b + 1];
        }
      }
      FindByUsernameUnique(users[1..], i - 1);
    }
  }

  /** `existsByUsername`. */
  function ExistsByUsername(users: seq<User>, username: string): (b: bool)
    ensures b <==> FindByUsername(users, username).Some?
  {
    exists i :: 0 <= i < |users| && users[i].username == username
  }

  /** The id of the caller's row, looked up by the authenticated name (`findByUsername(...).getId()`
      in both services). */
  function CallerId(users: seq<User>, actor: Actor): (r: Option<int>)
    requires UserIdsSequential(users)
    ensures r.Some? <==> ExistsByUsername(users, actor.username)
    ensures r.Some? ==> 1 <= r.value <= |users| && users[r.value - 1].username == actor.username
  {
    match FindByUsername(users, actor.username)
    case None => None
    case Some(u) =>
      assert 1 <= u.id <= |users| && users[u.id - 1] == u by { var i :| 0 <= i < |users| && users[i] == u; }
      Some(u.id)
  }

  /** `findByManagerId`: the users whose manager is the given user, in table order. */
  function FindByManagerId(users: seq<User>, managerId: int): (r: seq<User>)
    ensures forall u :: u in r <==> u in users && u.manager == Some(managerId)
    ensures Subsequence(r, users)
  {
    FilterIsSubsequence(users, (u: User) => u.manager == Some(managerId));
    Filter(users, (u: User) => u.manager == Some(managerId))
  }

  /** `findAllRegularUsers`: the users holding ROLE_REGULAR. */
  function FindAllRegularUsers(users: seq<User>): (r: seq<User>)
    ensures forall u :: u in r <==> u in users && RoleRegular in u.roles
    ensures Subsequence(r, users)
  {
    FilterIsSubsequence(users, (u: User) => RoleRegular in u.roles);
    Filter(users, (u: User) => RoleRegular in u.roles)
  }

  /** `findAllManagers`: the users holding ROLE_MANAGER. */
  function FindAllManagers(users: seq<User>): (r: seq<User>)
    ensures forall u :: u in r <==> u in users && RoleManager in u.roles
    ensures Subsequence(r, users)
  {
    FilterIsSubsequence(users, (u: User) => RoleManager in u.roles);
    Filter(users, (u: User) => RoleManager in u.roles)
  }

  // ---------------------------------------------------------------- investment requests

  predicate RequestIdsSequential(requests: seq<InvestmentRequest>)
  {
    forall i :: 0 <= i < |requests| ==> requests[i].id == i + 1
  }

  /** `findById` on the request table. */
  function FindRequestById(requests: seq<InvestmentRequest>, id: int): (r: Option<InvestmentRequest>)
    requires RequestIdsSequential(requests)
    ensures r.Some? ==> r.value in requests && r.value.id == id
    ensures r.Some? <==> 1 <= id <= |requests|
    ensures r.Some? ==> r.value == requests[id - 1]
    ensures r.None? ==> forall q :: q in requests ==> q.id != id
  {
    if 1 <= id <= |requests| then Some(requests[id - 1]) else None
  }

  /** `ir.user.manager.id`: the id of the request owner's manager, if the owner has one. */
  function OwnerManager(users: seq<User>, q: InvestmentRequest): (m: Option<int>)
    requires UserIdsSequential(users)
    ensures m.Some? ==> exists u :: u in users && u.id == q.owner && u.manager == m
    ensures forall u :: u in users && u.id == q.owner ==> m == u.manager
  {
    match FindUserById(users, q.owner)
    case Some(u) => u.manager
    case None => None
  }

  /** `findByUserId`: the requests the given user owns, in table order. */
  function FindByUserId(requests: seq<InvestmentRequest>, userId: int): (r: seq<InvestmentRequest>)
    ensures forall q :: q in r <==> q in requests && q.owner == userId
    ensures Subsequence(r, requests)
  {
    FilterIsSubsequence(requests, (q: InvestmentRequest) => q.owner == userId);
    Filter(requests, (q: InvestmentRequest) => q.owner == userId)
  }

  /** `findByUserManagerId`: the requests whose owner's manager is the given user, whatever their
      status. A request whose owner has no manager is in no such list. */
  function FindByUserManagerId(requests: seq<InvestmentRequest>, users: seq<User>, managerId: int)
    : (r: seq<InvestmentRequest>)
    requires UserIdsSequential(users)
    ensures forall q :: q in r <==> q in requests && OwnerManager(users, q) == Some(managerId)
    ensures forall q :: q in r ==> OwnerManager(users, q).Some?
    ensures Subsequence(r, requests)
  {
    FilterIsSubsequence(requests, (q: InvestmentRequest) => OwnerManager(users, q) == Some(managerId));
    Filter(requests, (q: InvestmentRequest) => OwnerManager(users, q) == Some(managerId))
  }

  /** `findByStatus`: the requests in the given state, in table order. */
  function FindByStatus(requests: seq<InvestmentRequest>, status: Status): (r: seq<InvestmentRequest>)
    ensures forall q :: q in r <==> q in requests && q.status == status
    ensures Subsequence(r, requests)
  {
    FilterIsSubsequence(requests, (q: InvestmentRequest) => q.status == status);
    Filter(requests, (q: InvestmentRequest) => q.status == status)
  }
}
