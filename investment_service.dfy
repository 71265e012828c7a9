/** `InvestmentRequestServiceImpl`: creation, the four list views, and the approve / reject /
    escalate transitions with their role-and-hierarchy guards.

    Each transition is given twice: as a pure outcome over the tables before the call (what the
    lemmas below reason about) and as a method that performs the source's steps on the
    database and is proved to produce that outcome. */
module InvestmentService {
  import opened Domain
  import opened Repositories
  import opened Mapping
  import opened Store

  /** The exception thrown when the authenticated name has no user row. */
  function CallerNotFound(actor: Actor): Failure
  {
    ResourceNotFound("User", "username", ByText(actor.username))
  }

  /** The exception thrown when no request has the given id. */
  function RequestNotFound(id: int): Failure
  {
    ResourceNotFound("Investment Request", "id", ByNumber(id))
  }

  // ------------------------------------------------------------------ creation

  /** `createInvestmentRequest`: a new PENDING request owned by the caller, with no moderator and
      no moderation time; title, description and amount are stored as given, unchecked. */
  function CreateOutcome(
    users: seq<User>, requests: seq<InvestmentRequest>, actor: Actor, dto: InvestmentRequestDto, now: Timestamp)
    : (r: Result<InvestmentRequest>)
    requires UsersConsistent(users)
    ensures r.Err? <==> CallerId(users, actor).None?
    ensures r.Err? ==> r.failure == CallerNotFound(actor)
    ensures r.Ok? ==>
              && r.value.id == |requests| + 1
              && r.value.status == Pending
              && r.value.moderator.None? && r.value.moderatedAt.None?
              && Some(r.value.owner) == CallerId(users, actor)
              && r.value.title == dto.title && r.value.description == dto.description
              && r.value.amount == dto.amount && r.value.createdAt == now
    ensures r.Ok? ==> RequestConsistent(users, r.value)
  {
    match FindByUsername(users, actor.username)
    case None => Err(CallerNotFound(actor))
    case Some(u) =>
      assert 1 <= u.id <= |users| by { var i :| 0 <= i < |users| && users[i] == u; }
      Ok(InvestmentRequest(|requests| + 1, dto.title, dto.description, dto.amount, Pending, now, None, u.id, None))
  }

  method CreateInvestmentRequest(db: Database, actor: Actor, dto: InvestmentRequestDto, now: Timestamp)
    returns (result: Result<InvestmentResponseDto>)
    requires db.Valid()
    modifies db`requests
    ensures db.Valid()
    ensures match CreateOutcome(old(db.users), old(db.requests), actor, dto, now)
            case Ok(q) => db.requests == old(db.requests) + [q] && result == Ok(ToResponse(db.users, q))
            case Err(f) => db.requests == old(db.requests) && result == Err(f)
  {
    var user := FindByUsername(db.users, actor.username);
    if user.None? {
      return Err(CallerNotFound(actor));
    }
    var saved := InvestmentRequest(
      |db.requests| + 1, dto.title, dto.description, dto.amount, Pending, now, None, user.value.id, None);
    assert Ok(saved) == CreateOutcome(db.users, db.requests, actor, dto, now);
    AppendRequest(db.users, db.requests, saved);
    db.requests := db.requests + [saved];
    result := Ok(ToResponse(db.users, saved));
  }

  // ------------------------------------------------------------------ list views

  /** `getUserInvestmentRequests`: exactly the caller's own requests. */
  function MyRequests(users: seq<User>, requests: seq<InvestmentRequest>, actor: Actor)
    : (r: Result<seq<InvestmentResponseDto>>)
    requires Consistent(users, requests)
    ensures r.Err? <==> CallerId(users, actor).None?
    ensures r.Err? ==> r.failure == CallerNotFound(actor)
    ensures r.Ok? ==>
              forall d :: d in r.value <==>
                exists q :: q in requests && Some(q.owner) == CallerId(users, actor) && d == ToResponse(users, q)
  {
    match FindByUsername(users, actor.username)
    case None => Err(CallerNotFound(actor))
    case Some(u) => Ok(ToResponses(users, FindByUserId(requests, u.id)))
  }

  const ManagedDenied := "Only managers and admins can access managed requests"

  /** `getManagedInvestmentRequests`: for a MANAGER or ADMIN caller, exactly the requests whose
      owner's manager is the caller, in every state (escalated and decided ones included). */
  function ManagedRequests(users: seq<User>, requests: seq<InvestmentRequest>, actor: Actor)
    : (r: Result<seq<InvestmentResponseDto>>)
    requires Consistent(users, requests)
    ensures RoleManager !in actor.authorities && RoleAdmin !in actor.authorities ==>
              r == Err(AccessDenied(ManagedDenied))
    ensures RoleManager in actor.authorities || RoleAdmin in actor.authorities ==>
              (r.Err? <==> CallerId(users, actor).None?)
    ensures r.Ok? ==>
              forall d :: d in r.value <==>
                exists q :: q in requests && OwnerManager(users, q) == CallerId(users, actor) && d == ToResponse(users, q)
  {
    if RoleManager !in actor.authorities && RoleAdmin !in actor.authorities then
      Err(AccessDenied(ManagedDenied))
    else
      match FindByUsername(users, actor.username)
      case None => Err(CallerNotFound(actor))
      case Some(manager) =>
        Ok(ToResponses(users, FindByUserManagerId(requests, users, manager.id)))
  }

  const EscalatedDenied := "Only admins can access escalated requests"

  /** `getEscalatedInvestmentRequests`: for an ADMIN caller, exactly the ESCALATED requests. */
  function EscalatedRequests(users: seq<User>, requests: seq<InvestmentRequest>, actor: Actor)
    : (r: Result<seq<InvestmentResponseDto>>)
    requires Consistent(users, requests)
    ensures r.Ok? <==> RoleAdmin in actor.authorities
    ensures r.Err? ==> r.failure == AccessDenied(EscalatedDenied)
    ensures r.Ok? ==>
              forall d :: d in r.value <==> exists q :: q in requests && q.status == Escalated && d == ToResponse(users, q)
  {
    if RoleAdmin !in actor.authorities then Err(AccessDenied(EscalatedDenied))
    else Ok(ToResponses(users, FindByStatus(requests, Escalated)))
  }

  const AllDenied := "Only admins can access all investment requests"

  /** `getAllInvestmentRequests`: for an ADMIN caller, every request, in table order. */
  function AllRequests(users: seq<User>, requests: seq<InvestmentRequest>, actor: Actor)
    : (r: Result<seq<InvestmentResponseDto>>)
    requires Consistent(users, requests)
    ensures r.Ok? <==> RoleAdmin in actor.authorities
    ensures r.Err? ==> r.failure == AccessDenied(AllDenied)
    ensures r.Ok? ==> |r.value| == |requests|
    ensures r.Ok? ==>
              forall i :: 0 <= i < |requests| ==> requests[i] in requests && r.value[i] == ToResponse(users, requests[i])
  {
    if RoleAdmin !in actor.authorities then Err(AccessDenied(AllDenied))
    else Ok(ToResponses(users, requests))
  }

  // ------------------------------------------------------------------ transitions

  /** The transitions of the request state machine: PENDING may go to APPROVED, REJECTED or
      ESCALATED, ESCALATED to APPROVED or REJECTED; APPROVED and REJECTED are terminal. */
  predicate Step(from: Status, to: Status)
  {
    || (from == Pending && (to == Approved || to == Rejected || to == Escalated))
    || (from == Escalated && (to == Approved || to == Rejected))
  }

  /** `approveInvestmentRequest` or `rejectInvestmentRequest`. */
  datatype Verdict = Approve | Reject

  function VerdictStatus(v: Verdict): Status
  {
    match v
    case Approve => Approved
    case Reject => Rejected
  }

  function DeniedMessage(v: Verdict): string
  {
    match v
    case Approve => "You don't have permission to approve this request"
    case Reject => "You don't have permission to reject this request"
  }

  /** The guard shared by approve and reject: an ADMIN authority on an ESCALATED request, or a
      MANAGER authority on a PENDING request whose owner's manager is the caller. */
  predicate MayDecide(users: seq<User>, actor: Actor, moderatorId: int, q: InvestmentRequest)
    requires UserIdsSequential(users)
  {
    || (RoleAdmin in actor.authorities && q.status == Escalated)
    || (RoleManager in actor.authorities && q.status == Pending && OwnerManager(users, q) == Some(moderatorId))
  }

  /** The three fields a successful transition sets together. */
  function Moderated(q: InvestmentRequest, status: Status, moderatorId: int, now: Timestamp): InvestmentRequest
  {
    q.(status := status, moderatedAt := Some(now), moderator := Some(moderatorId))
  }

  /** Approve or reject request `id`: the caller is looked up first, then the request, then the
      guard decides. A request in the wrong state is refused with the same AccessDenied as a
      caller without the right. */
  function DecideOutcome(
    users: seq<User>, requests: seq<InvestmentRequest>, actor: Actor, id: int, verdict: Verdict, now: Timestamp)
    : (r: Result<InvestmentRequest>)
    requires Consistent(users, requests)
    ensures CallerId(users, actor).None? ==> r == Err(CallerNotFound(actor))
    ensures CallerId(users, actor).Some? && FindRequestById(requests, id).None? ==> r == Err(RequestNotFound(id))
    ensures r.Ok? <==>
              && CallerId(users, actor).Some?
              && FindRequestById(requests, id).Some?
              && MayDecide(users, actor, CallerId(users, actor).value, requests[id - 1])
    ensures r.Err? && CallerId(users, actor).Some? && FindRequestById(requests, id).Some? ==>
              r.failure == AccessDenied(DeniedMessage(verdict))
    ensures r.Ok? ==> r.value == Moderated(requests[id - 1], VerdictStatus(verdict), CallerId(users, actor).value, now)
    ensures r.Ok? ==> RequestConsistent(users, r.value)
  {
    match FindByUsername(users, actor.username)
    case None => Err(CallerNotFound(actor))
    case Some(moderator) =>
      match FindRequestById(requests, id)
      case None => Err(RequestNotFound(id))
      case Some(q) =>
        if MayDecide(users, actor, moderator.id, q) then
          assert 1 <= moderator.id <= |users| by { var i :| 0 <= i < |users| && users[i] == moderator; }
          Ok(Moderated(q, VerdictStatus(verdict), moderator.id, now))
        else
          Err(AccessDenied(DeniedMessage(verdict)))
  }

  /** Escalate request `id`. The checks run in the source's order: caller lookup, MANAGER
      authority, request lookup, PENDING state, then the owner's manager being the caller. */
  function EscalateOutcome(
    users: seq<User>, requests: seq<InvestmentRequest>, actor: Actor, id: int, now: Timestamp)
    : (r: Result<InvestmentRequest>)
    requires Consistent(users, requests)
    ensures CallerId(users, actor).None? ==> r == Err(CallerNotFound(actor))
    ensures CallerId(users, actor).Some? && RoleManager !in actor.authorities ==>
              r == Err(AccessDenied("Only managers can escalate requests"))
    ensures CallerId(users, actor).Some? && RoleManager in actor.authorities && FindRequestById(requests, id).None? ==>
              r == Err(RequestNotFound(id))
    ensures CallerId(users, actor).Some? && RoleManager in actor.authorities && FindRequestById(requests, id).Some? ==>
              && (requests[id - 1].status != Pending ==> r == Err(AccessDenied("Only pending requests can be escalated")))
              && (requests[id - 1].status == Pending && OwnerManager(users, requests[id - 1]) != CallerId(users, actor) ==>
                    r == Err(AccessDenied("You can only escalate requests from your subordinates")))
    ensures r.Ok? <==>
              && CallerId(users, actor).Some?
              && RoleManager in actor.authorities
              && FindRequestById(requests, id).Some?
              && requests[id - 1].status == Pending
              && OwnerManager(users, requests[id - 1]) == CallerId(users, actor)
    ensures r.Ok? ==> r.value == Moderated(requests[id - 1], Escalated, CallerId(users, actor).value, now)
    ensures r.Ok? ==> RequestConsistent(users, r.value)
  {
    match FindByUsername(users, actor.username)
    case None => Err(CallerNotFound(actor))
    case Some(moderator) =>
      if RoleManager !in actor.authorities then Err(AccessDenied("Only managers can escalate requests"))
      else
        match FindRequestById(requests, id)
        case None => Err(RequestNotFound(id))
        case Some(q) =>
          if q.status != Pending then Err(AccessDenied("Only pending requests can be escalated"))
          else if OwnerManager(users, q) != Some(moderator.id) then
            Err(AccessDenied("You can only escalate requests from your subordinates"))
          else
            assert 1 <= moderator.id <= |users| by { var i :| 0 <= i < |users| && users[i] == moderator; }
            Ok(Moderated(q, Escalated, moderator.id, now))
  }

  /** The steps of `approveInvestmentRequest` / `rejectInvestmentRequest` on the database. */
  method Decide(db: Database, actor: Actor, id: int, verdict: Verdict, now: Timestamp)
    returns (result: Result<InvestmentResponseDto>)
    requires db.Valid()
    modifies db`requests
    ensures db.Valid()
    ensures match DecideOutcome(old(db.users), old(db.requests), actor, id, verdict, now)
            case Ok(q) => db.requests == old(db.requests)[id - 1 := q] && result == Ok(ToResponse(db.users, q))
            case Err(f) => db.requests == old(db.requests) && result == Err(f)
  {
    var moderator := FindByUsername(db.users, actor.username);
    if moderator.None? {
      return Err(CallerNotFound(actor));
    }
    var found := FindRequestById(db.requests, id);
    if found.None? {
      return Err(RequestNotFound(id));
    }
    var request := found.value;
    var isAdmin := RoleAdmin in actor.authorities;
    var isManager := RoleManager in actor.authorities;
    var isEscalated := request.status == Escalated;
    var isPending := request.status == Pending;
    var owner := FindUserById(db.users, request.owner);
    var isUserSubordinate := owner.Some? && owner.value.manager == Some(moderator.value.id);
    if (isAdmin && isEscalated) || (isManager && isPending && isUserSubordinate) {
      request := Moderated(request, VerdictStatus(verdict), moderator.value.id, now);
      assert Ok(request) == DecideOutcome(db.users, db.requests, actor, id, verdict, now);
      ReplaceRequest(db.users, db.requests, request);
      db.requests := db.requests[id - 1 := request];
      result := Ok(ToResponse(db.users, request));
    } else {
      assert !MayDecide(db.users, actor, moderator.value.id, request);
      result := Err(AccessDenied(DeniedMessage(verdict)));
    }
  }

  /** `approveInvestmentRequest`. */
  method ApproveInvestmentRequest(db: Database, actor: Actor, id: int, now: Timestamp)
    returns (result: Result<InvestmentResponseDto>)
    requires db.Valid()
    modifies db`requests
    ensures db.Valid()
    ensures match DecideOutcome(old(db.users), old(db.requests), actor, id, Approve, now)
            case Ok(q) => db.requests == old(db.requests)[id - 1 := q] && result == Ok(ToResponse(db.users, q))
            case Err(f) => db.requests == old(db.requests) && result == Err(f)
  {
    result := Decide(db, actor, id, Approve, now);
  }

  /** `rejectInvestmentRequest`. */
  method RejectInvestmentRequest(db: Database, actor: Actor, id: int, now: Timestamp)
    returns (result: Result<InvestmentResponseDto>)
    requires db.Valid()
    modifies db`requests
    ensures db.Valid()
    ensures match DecideOutcome(old(db.users), old(db.requests), actor, id, Reject, now)
            case Ok(q) => db.requests == old(db.requests)[id - 1 := q] && result == Ok(ToResponse(db.users, q))
            case Err(f) => db.requests == old(db.requests) && result == Err(f)
  {
    result := Decide(db, actor, id, Reject, now);
  }

  /** `escalateInvestmentRequest`. */
  method EscalateInvestmentRequest(db: Database, actor: Actor, id: int, now: Timestamp)
    returns (result: Result<InvestmentResponseDto>)
    requires db.Valid()
    modifies db`requests
    ensures db.Valid()
    ensures match EscalateOutcome(old(db.users), old(db.requests), actor, id, now)
            case Ok(q) => db.requests == old(db.requests)[id - 1 := q] && result == Ok(ToResponse(db.users, q))
            case Err(f) => db.requests == old(db.requests) && result == Err(f)
  {
    var moderator := FindByUsername(db.users, actor.username);
    if moderator.None? {
      return Err(CallerNotFound(actor));
    }
    if RoleManager !in actor.authorities {
      return Err(AccessDenied("Only managers can escalate requests"));
    }
    var found := FindRequestById(db.requests, id);
    if found.None? {
      return Err(RequestNotFound(id));
    }
    var request := found.value;
    if request.status != Pending {
      return Err(AccessDenied("Only pending requests can be escalated"));
    }
    var owner := FindUserById(db.users, request.owner);
    var isUserSubordinate := owner.Some? && owner.value.manager == Some(moderator.value.id);
    if !isUserSubordinate {
      return Err(AccessDenied("You can only escalate requests from your subordinates"));
    }
    request := Moderated(request, Escalated, moderator.value.id, now);
    assert Ok(request) == EscalateOutcome(db.users, db.requests, actor, id, now);
    ReplaceRequest(db.users, db.requests, request);
    db.requests := db.requests[id - 1 := request];
    result := Ok(ToResponse(db.users, request));
  }

  // ------------------------------------------------------------------ properties of the lifecycle

  /** Approve and reject are refused or allowed together: they share one guard. */
  lemma ApproveAndRejectShareGuard(
    users: seq<User>, requests: seq<InvestmentRequest>, actor: Actor, id: int, now: Timestamp)
    requires Consistent(users, requests)
    ensures DecideOutcome(users, requests, actor, id, Approve, now).Ok?
        <==> DecideOutcome(users, requests, actor, id, Reject, now).Ok?
  {
  }

  /** Every successful transition follows the state machine. */
  lemma TransitionsFollowStateMachine(
    users: seq<User>, requests: seq<InvestmentRequest>, actor: Actor, id: int, verdict: Verdict, now: Timestamp)
    requires Consistent(users, requests)
    ensures DecideOutcome(users, requests, actor, id, verdict, now).Ok? ==>
              Step(requests[id - 1].status, DecideOutcome(users, requests, actor, id, verdict, now).value.status)
    ensures EscalateOutcome(users, requests, actor, id, now).Ok? ==>
              Step(requests[id - 1].status, EscalateOutcome(users, requests, actor, id, now).value.status)
  {
  }

  /** APPROVED and REJECTED are final: every approve, reject or escalate on such a request fails,
      and when caller and request exist it fails with AccessDenied (there is no separate
      "invalid transition" error). */
  lemma DecidedRequestsAreFinal(
    users: seq<User>, requests: seq<InvestmentRequest>, actor: Actor, id: int, verdict: Verdict, now: Timestamp)
    requires Consistent(users, requests)
    requires 1 <= id <= |requests|
    requires requests[id - 1].status == Approved || requests[id - 1].status == Rejected
    ensures DecideOutcome(users, requests, actor, id, verdict, now).Err?
    ensures EscalateOutcome(users, requests, actor, id, now).Err?
    ensures CallerId(users, actor).Some? ==>
              DecideOutcome(users, requests, actor, id, verdict, now).failure.AccessDenied?
              && EscalateOutcome(users, requests, actor, id, now).failure.AccessDenied?
  {
  }

  /** Once a request is approved or rejected, no later approve or reject by anyone succeeds:
      two decisions are never both applied. */
  lemma DecisionIsFinal(
    users: seq<User>, requests: seq<InvestmentRequest>, first: Actor, second: Actor, id: int,
    v1: Verdict, v2: Verdict, t1: Timestamp, t2: Timestamp)
    requires Consistent(users, requests)
    requires DecideOutcome(users, requests, first, id, v1, t1).Ok?
    ensures Consistent(users, requests[id - 1 := DecideOutcome(users, requests, first, id, v1, t1).value])
    ensures DecideOutcome(users, requests[id - 1 := DecideOutcome(users, requests, first, id, v1, t1).value],
                          second, id, v2, t2).Err?
  {
    var q := DecideOutcome(users, requests, first, id, v1, t1).value;
    ReplaceRequest(users, requests, q);
    DecidedRequestsAreFinal(users, requests[id - 1 := q], second, id, v2, t2);
  }

  /** After a manager escalates a request, no caller without the ADMIN authority (the escalating
      manager included) can approve or reject it, and an admin with a user row can. */
  lemma EscalationHandsDecisionToAdmins(
    users: seq<User>, requests: seq<InvestmentRequest>, manager: Actor, other: Actor, id: int,
    verdict: Verdict, t1: Timestamp, t2: Timestamp)
    requires Consistent(users, requests)
    requires EscalateOutcome(users, requests, manager, id, t1).Ok?
    ensures Consistent(users, requests[id - 1 := EscalateOutcome(users, requests, manager, id, t1).value])
    ensures RoleAdmin !in other.authorities ==>
              DecideOutcome(users, requests[id - 1 := EscalateOutcome(users, requests, manager, id, t1).value],
                            other, id, verdict, t2).Err?
    ensures RoleAdmin in other.authorities && CallerId(users, other).Some? ==>
              DecideOutcome(users, requests[id - 1 := EscalateOutcome(users, requests, manager, id, t1).value],
                            other, id, verdict, t2).Ok?
  {
    var q := EscalateOutcome(users, requests, manager, id, t1).value;
    ReplaceRequest(users, requests, q);
  }

  /** A caller holding only ROLE_REGULAR can never approve, reject or escalate any request,
      their own included. */
  lemma RegularCallersCannotModerate(
    users: seq<User>, requests: seq<InvestmentRequest>, actor: Actor, id: int, verdict: Verdict, now: Timestamp)
    requires Consistent(users, requests)
    requires actor.authorities == {RoleRegular}
    ensures DecideOutcome(users, requests, actor, id, verdict, now).Err?
    ensures EscalateOutcome(users, requests, actor, id, now).Err?
  {
  }

  /** Without the ADMIN authority, a caller who is not the owner's manager cannot approve,
      reject or escalate the request. */
  lemma OnlyTheOwnersManagerModeratesPending(
    users: seq<User>, requests: seq<InvestmentRequest>, actor: Actor, id: int, verdict: Verdict, now: Timestamp)
    requires Consistent(users, requests)
    requires 1 <= id <= |requests|
    requires RoleAdmin !in actor.authorities
    requires OwnerManager(users, requests[id - 1]) != CallerId(users, actor)
    ensures DecideOutcome(users, requests, actor, id, verdict, now).Err?
    ensures EscalateOutcome(users, requests, actor, id, now).Err?
  {
  }
}
