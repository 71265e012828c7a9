/** `mapToResponseDto` (InvestmentRequestServiceImpl) and `mapToUserDto` (written out twice in the
    source, identically, in UserServiceImpl and AuthServiceImpl; defined once here). */
module Mapping {
  import opened Domain
  import opened Repositories

  /** The user ids a request refers to exist (the foreign keys of its owner and moderator). */
  predicate RequestRefsResolve(users: seq<User>, q: InvestmentRequest)
  {
    && 1 <= q.owner <= |users|
    && (q.moderator.Some? ==> 1 <= q.moderator.value <= |users|)
  }

  /** The manager id a user refers to exists (the `manager_id` foreign key). */
  predicate ManagerResolves(users: seq<User>, u: User)
  {
    u.manager.Some? ==> 1 <= u.manager.value <= |users|
  }

  /** `mapToResponseDto`: the request's own fields, its owner's id and username, and the
      moderator's id and username exactly when a moderator is set. */
  function ToResponse(users: seq<User>, q: InvestmentRequest): (d: InvestmentResponseDto)
    requires UserIdsSequential(users) && RequestRefsResolve(users, q)
    ensures d.id == q.id && d.title == q.title && d.description == q.description && d.amount == q.amount
    ensures d.status == StatusText(q.status) && d.createdAt == q.createdAt && d.moderatedAt == q.moderatedAt
    ensures d.userId == q.owner && Some(d.username) == OwnerName(users, q)
    ensures d.moderatorId == q.moderator
    ensures d.moderatorName.Some? <==> q.moderator.Some?
    ensures q.moderator.Some? ==>
              exists m :: m in users && m.id == q.moderator.value && d.moderatorName == Some(m.username)
  {
    var owner := users[q.owner - 1];
    InvestmentResponseDto(
      q.id, q.title, q.description, q.amount, StatusText(q.status), q.createdAt, q.moderatedAt,
      owner.id, owner.username,
      q.moderator,
      match q.moderator
      case Some(m) => Some(users[m - 1].username)
      case None => None)
  }

  /** The username of a request's owner, by id. */
  function OwnerName(users: seq<User>, q: InvestmentRequest): Option<string>
    requires UserIdsSequential(users)
  {
    match FindUserById(users, q.owner)
    case Some(u) => Some(u.username)
    case None => None
  }

  /** `.stream().map(this::mapToResponseDto).collect(...)`. */
  function ToResponses(users: seq<User>, qs: seq<InvestmentRequest>): (ds: seq<InvestmentResponseDto>)
    requires UserIdsSequential(users)
    requires forall q :: q in qs ==> RequestRefsResolve(users, q)
    ensures |ds| == |qs|
    ensures forall i :: 0 <= i < |qs| ==> ds[i] == ToResponse(users, qs[i])
    ensures forall q :: q in qs ==> ToResponse(users, q) in ds
    ensures forall d :: d in ds ==> exists q :: q in qs && d == ToResponse(users, q)
  {
    if qs == [] then []
    else
      var rest := ToResponses(users, qs[1..]);
      [ToResponse(users, qs[0])] + rest
  }

  /** `mapToUserDto`: the profile, the role names, and the manager's id and username exactly when
      the user has a manager. */
  function ToUserDto(users: seq<User>, u: User): (d: UserDto)
    requires UserIdsSequential(users) && ManagerResolves(users, u)
    ensures d.id == u.id && d.username == u.username && d.firstName == u.firstName
    ensures d.lastName == u.lastName && d.designation == u.designation && d.phoneNumber == u.phoneNumber
    ensures forall r: RoleName :: RoleNameText(r) in d.roles <==> r in u.roles
    ensures d.managerId == u.manager
    ensures d.managerName.Some? <==> u.manager.Some?
    ensures u.manager.Some? ==> d.managerName == Some(users[u.manager.value - 1].username)
  {
    UserDto(
      u.id, u.username, u.firstName, u.lastName, u.designation, u.phoneNumber,
      set r | r in u.roles :: RoleNameText(r),
      u.manager,
      match u.manager
      case Some(m) => Some(users[m - 1].username)
      case None => None)
  }

  /** `.stream().map(this::mapToUserDto).collect(...)`. */
  function ToUserDtos(users: seq<User>, us: seq<User>): (ds: seq<UserDto>)
    requires UserIdsSequential(users)
    requires forall u :: u in us ==> ManagerResolves(users, u)
    ensures |ds| == |us|
    ensures forall i :: 0 <= i < |us| ==> ds[i] == ToUserDto(users, us[i])
    ensures forall u :: u in us ==> ToUserDto(users, u) in ds
    ensures forall d :: d in ds ==> exists u :: u in us && d == ToUserDto(users, u)
  {
    if us == [] then []
    else
      var rest := ToUserDtos(users, us[1..]);
      [ToUserDto(users, us[0])] + rest
  }
}
