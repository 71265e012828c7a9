/** Entities, value types and wire records shared by the backend services and the UI. */
module Domain {

  datatype Option<+T> = None | Some(value: T)

  /** A reading of the server clock (`LocalDateTime.now()`); the model never does arithmetic on it. */
  type Timestamp = int

  /** A `BigDecimal` amount, as a whole number of minor units; the backend never inspects it. */
  type Amount = int

  /** `Role.RoleName`. */
  datatype RoleName = RoleRegular | RoleManager | RoleAdmin

  /** The enum constant's name, as `RoleName.toString()` gives it and as the UI receives it. */
  function RoleNameText(r: RoleName): string
  {
    match r
    case RoleRegular => "ROLE_REGULAR"
    case RoleManager => "ROLE_MANAGER"
    case RoleAdmin => "ROLE_ADMIN"
  }

  /** `Role.RoleName.valueOf(name)`: the constant whose name is exactly `name`; `None` where
      Java throws `IllegalArgumentException`. */
  function ParseRoleName(name: string): (r: Option<RoleName>)
    ensures r.Some? ==> RoleNameText(r.value) == name
    ensures r.None? ==> forall role: RoleName :: RoleNameText(role) != name
  {
    if name == "ROLE_REGULAR" then Some(RoleRegular)
    else if name == "ROLE_MANAGER" then Some(RoleManager)
    else if name == "ROLE_ADMIN" then Some(RoleAdmin)
    else None
  }

  /** `InvestmentRequest.Status`. */
  datatype Status = Pending | Approved | Rejected | Escalated

  /** `Status.toString()`, the `status` string of a response. */
  function StatusText(s: Status): string
  {
    match s
    case Pending => "PENDING"
    case Approved => "APPROVED"
    case Rejected => "REJECTED"
    case Escalated => "ESCALATED"
  }

  /** A row of the `users` table. `roles` is the `user_roles` join; `manager` the `manager_id` column. */
  datatype User = User(
    id: int,
    username: string,
    firstName: string,
    lastName: string,
    designation: string,
    phoneNumber: string,
    roles: set<RoleName>,
    manager: Option<int>)

  /** A row of the investment-request table; `owner` and `moderator` are user ids. */
  datatype InvestmentRequest = InvestmentRequest(
    id: int,
    title: string,
    description: string,
    amount: Amount,
    status: Status,
    createdAt: Timestamp,
    moderatedAt: Option<Timestamp>,
    owner: int,
    moderator: Option<int>)

  /** The authenticated principal: its name and the authorities carried by its token. */
  datatype Actor = Actor(username: string, authorities: set<RoleName>)

  /** The value a `ResourceNotFoundException` reports it looked for. */
  datatype LookupKey = ByText(text: string) | ByNumber(number: int)

  /** The exceptions the services throw. `Unexpected` stands for any exception no dedicated
      handler names (`IllegalArgumentException`, a bare `RuntimeException`). */
  datatype Failure =
    | ResourceNotFound(resource: string, field: string, key: LookupKey)
    | BadRequest(message: string)
    | AccessDenied(message: string)
    | Unexpected(message: string)

  /** A service call either returns a value or throws. */
  datatype Result<+T> = Ok(value: T) | Err(failure: Failure)

  /** `InvestmentRequestDto`, the body of a create call. */
  datatype InvestmentRequestDto = InvestmentRequestDto(title: string, description: string, amount: Amount)

  /** `InvestmentResponseDto`, also the UI's `InvestmentResponse`. Absent optional fields are JSON nulls. */
  datatype InvestmentResponseDto = InvestmentResponseDto(
    id: int,
    title: string,
    description: string,
    amount: Amount,
    status: string,
    createdAt: Timestamp,
    moderatedAt: Option<Timestamp>,
    userId: int,
    username: string,
    moderatorId: Option<int>,
    moderatorName: Option<string>)

  /** `RegisterDto` without its password (hashing is not modelled). */
  datatype RegisterDto = RegisterDto(
    username: string,
    firstName: string,
    lastName: string,
    designation: string,
    phoneNumber: string)

  /** `UserDto`, also the UI's `User`. */
  datatype UserDto = UserDto(
    id: int,
    username: string,
    firstName: string,
    lastName: string,
    designation: string,
    phoneNumber: string,
    roles: set<string>,
    managerId: Option<int>,
    managerName: Option<string>)

  /** `ApiResponse(success, message, data)`. */
  datatype ApiResponse = ApiResponse(success: bool, message: string, data: Option<UserDto>)
}
