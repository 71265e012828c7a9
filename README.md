# Investment approval: a verified model of the request lifecycle and the user hierarchy

The system is an investment-approval application. A Spring backend stores users (each with one
role, REGULAR, MANAGER or ADMIN, and an optional manager) and investment requests (PENDING,
APPROVED, REJECTED or ESCALATED). A React client lists and moderates them.

This Dafny project models:

- the backend services: `InvestmentRequestServiceImpl`, `UserServiceImpl`,
  `AuthServiceImpl.register` and `DatabaseInitializer`;
- the repository queries they use;
- the exception-to-status mapping of `GlobalExceptionHandler`;
- the pure list and string logic of the client: the managed-requests page, the user search,
  the status filter, the assign-manager dialog, the investment card and the Indian currency
  formatter.

Layout, one module per file:

| file | module | models |
|---|---|---|
| `domain.dfy` | `Domain` | entities, DTOs, failures, role and status names |
| `seqs.dfy` | `Seqs` | order-preserving filter and map over sequences, with their laws |
| `repositories.dfy` | `Repositories` | `UserRepository` and `InvestmentRequestRepository` queries, and `findById` |
| `mapping.dfy` | `Mapping` | `mapToResponseDto` and `mapToUserDto` |
| `store.dfy` | `Store` | the three tables as a `Database` class, and the invariant every write keeps |
| `investment_service.dfy` | `InvestmentService` | create, the four list views, approve / reject / escalate |
| `user_service.dfy` | `UserService` | user views, role replacement, manager assignment |
| `auth_service.dfy` | `AuthService` | registration |
| `initializer.dfy` | `Initializer` | seeding of the roles and of the `admin` account |
| `errors.dfy` | `Errors` | exception kind to status code and error body |
| `managed_requests.dfy` | `ManagedRequests` | the admin fallback union, the status sections, `canModerateRequest` |
| `manage_users.dfy` | `ManageUsers` | the search filter and the role tabs |
| `my_investments.dfy` | `MyInvestments` | the status filter with its "ALL" value |
| `assign_manager.dfy` | `AssignManagerDialog` | manager candidates, initial selection, the submitted id |
| `currency.dfy` | `Currency` | `formatIndianCurrency`, from the `toFixed(2)` string onward |
| `investment_card.dfy` | `InvestmentCard` | the status badge, the button rules, the card's own formatter |

How the stateful services are modelled:

- The tables are `seq` fields of `Store.Database`: `users`, `requests` and `roles`.
- Ids are generated by the database and nothing is ever deleted, so the row with id `n` sits at
  index `n - 1`. `Store.Consistent` states this, together with:
  - usernames are unique;
  - every foreign key (owner, moderator, manager) points at an existing user;
  - every user holds exactly one role.
- Each state-changing service has two parts:
  - a pure outcome function over the tables before the call (for example
    `InvestmentService.DecideOutcome`), where the lemmas live;
  - a method that performs the source's steps on the `Database`. Its postcondition ties the new
    tables and the result to that outcome, and the method keeps `Valid()`.
- A failure is a `Domain.Failure` value. It carries the exception class and the exact message, so
  the order in which the source runs its checks can be seen in the results.
- The authenticated caller is an `Actor`: the token's username and its authorities.
- The clock is a `Timestamp` parameter.

Where the code and the written design disagree, the model follows the code:

- A manager's managed view keeps ESCALATED and decided requests. The query has no status filter.
- Approving, rejecting or escalating a request in the wrong state fails with `AccessDenied`
  (403). There is no separate "invalid transition" error.
- Create does not validate the title or the amount.
- Demoting a manager keeps their subordinates' manager links. Nothing is cleared or refused.
- A non-manager given as manager fails with `AccessDenied`, not with an invalid-argument error.
- Making a user their own manager has no check of its own. It is still always refused, because
  a REGULAR user cannot hold MANAGER (`UserService.NoSelfManagement`).
- The backend reads a `managerId` of 0 as a user id, not as "remove" (Findings, row 2).
- The moderator's name is not stored. It is looked up from the moderator's row when a response
  is built.

## Model

| member | source | states |
|---|---|---|
| `Domain.ParseRoleName` | src/main/java/com/investment/service/impl/UserServiceImpl.java:89 | `valueOf` gives the constant whose name is the string, and fails exactly when no constant has that name |
| `Repositories.FindUserById` | src/main/java/com/investment/service/impl/UserServiceImpl.java:115-116 | a user is found exactly when 1 <= id <= the table size, and it is the row with that id; otherwise no row has the id |
| `Repositories.FindByUsername` | src/main/java/com/investment/repository/UserRepository.java:12 | the user found has the name; nothing is found exactly when no user has it |
| `Repositories.FindByUsernameUnique` | src/main/java/com/investment/repository/UserRepository.java:12 | with unique usernames, looking up any row's name finds that very row |
| `Repositories.ExistsByUsername` | src/main/java/com/investment/repository/UserRepository.java:14 | true exactly when some user has the name |
| `Repositories.CallerId` | src/main/java/com/investment/service/impl/InvestmentRequestServiceImpl.java:37-38 | the caller has an id exactly when a user with the token's name exists, and it is the id of that user's row |
| `Repositories.FindByManagerId` | src/main/java/com/investment/repository/UserRepository.java:16 | exactly the users whose manager is the given id, in table order |
| `Repositories.FindAllRegularUsers` | src/main/java/com/investment/repository/UserRepository.java:18-19 | exactly the users holding ROLE_REGULAR, in table order |
| `Repositories.FindAllManagers` | src/main/java/com/investment/repository/UserRepository.java:21-22 | exactly the users holding ROLE_MANAGER, in table order |
| `Repositories.FindRequestById` | src/main/java/com/investment/service/impl/InvestmentRequestServiceImpl.java:102-103 | a request is found exactly when 1 <= id <= the table size, and it is the row with that id |
| `Repositories.OwnerManager` | src/main/java/com/investment/service/impl/InvestmentRequestServiceImpl.java:109-110 | when the owner's row exists the result is exactly that owner's manager link, and a manager id is given only in that case |
| `Repositories.FindByUserId` | src/main/java/com/investment/repository/InvestmentRequestRepository.java:12 | exactly the requests the user owns, in table order |
| `Repositories.FindByUserManagerId` | src/main/java/com/investment/repository/InvestmentRequestRepository.java:14-15 | exactly the requests whose owner's manager is the id, of every status; an owner without a manager never appears |
| `Repositories.FindByStatus` | src/main/java/com/investment/repository/InvestmentRequestRepository.java:17 | exactly the requests with the status, in table order |
| `Mapping.ToResponse` | src/main/java/com/investment/service/impl/InvestmentRequestServiceImpl.java:192-210 | the response copies the request's fields and its owner's id and name; it has a moderator id and name exactly when a moderator is set |
| `Mapping.ToResponses` | src/main/java/com/investment/service/impl/InvestmentRequestServiceImpl.java:61-63 | one response per request, in order, and no other |
| `Mapping.ToUserDto` | src/main/java/com/investment/service/impl/AuthServiceImpl.java:91-110 | the DTO copies the profile and the role names; it has a manager id and name exactly when the user has a manager, and then they are the manager's id and username |
| `Mapping.ToUserDtos` | src/main/java/com/investment/service/impl/UserServiceImpl.java:39-41 | one DTO per user, in order, and no other |
| `Store.ReplaceRequest` | src/main/java/com/investment/service/impl/InvestmentRequestServiceImpl.java:113-116 | saving a changed request whose references resolve keeps the tables consistent |
| `Store.AppendRequest` | src/main/java/com/investment/service/impl/InvestmentRequestServiceImpl.java:49 | saving a new request under the next id keeps the tables consistent |
| `Store.ReplaceUser` | src/main/java/com/investment/service/impl/UserServiceImpl.java:100-104 | saving a changed user with the same name and one role keeps the tables consistent |
| `Store.AppendUser` | src/main/java/com/investment/service/impl/AuthServiceImpl.java:85 | saving a new user with a fresh name under the next id keeps the tables consistent |
| `InvestmentService.CreateOutcome` | src/main/java/com/investment/service/impl/InvestmentRequestServiceImpl.java:34-52 | fails exactly when the caller has no row; otherwise the new request is PENDING, owned by the caller, unmoderated, under the next id, with title, description and amount as given |
| `InvestmentService.CreateInvestmentRequest` | src/main/java/com/investment/service/impl/InvestmentRequestServiceImpl.java:34-52 | appends the created request and returns its response, or changes nothing and returns the failure |
| `InvestmentService.MyRequests` | src/main/java/com/investment/service/impl/InvestmentRequestServiceImpl.java:55-64 | fails exactly when the caller has no row; otherwise the responses are exactly the responses of the requests the caller owns |
| `InvestmentService.ManagedRequests` | src/main/java/com/investment/service/impl/InvestmentRequestServiceImpl.java:67-81 | refused without MANAGER or ADMIN, fails without a caller row; otherwise exactly the responses of the requests whose owner's manager is the caller, escalated and decided ones included |
| `InvestmentService.EscalatedRequests` | src/main/java/com/investment/service/impl/InvestmentRequestServiceImpl.java:84-94 | succeeds exactly for ADMIN and then holds exactly the responses of the ESCALATED requests |
| `InvestmentService.AllRequests` | src/main/java/com/investment/service/impl/InvestmentRequestServiceImpl.java:180-190 | succeeds exactly for ADMIN and then holds the response of every request, in table order |
| `InvestmentService.DecideOutcome` | src/main/java/com/investment/service/impl/InvestmentRequestServiceImpl.java:97-120 | caller, then request, must exist; succeeds exactly for ADMIN on ESCALATED or MANAGER on PENDING of a subordinate, setting status, moderatedAt and moderator together; else AccessDenied |
| `InvestmentService.EscalateOutcome` | src/main/java/com/investment/service/impl/InvestmentRequestServiceImpl.java:149-177 | the checks in order: caller, MANAGER, request, PENDING, subordinate, each with its failure; success sets ESCALATED, moderatedAt and moderator |
| `InvestmentService.Decide` | src/main/java/com/investment/service/impl/InvestmentRequestServiceImpl.java:105-119 | on success only that request's row changes, to the outcome; on failure nothing changes |
| `InvestmentService.ApproveInvestmentRequest` | src/main/java/com/investment/service/impl/InvestmentRequestServiceImpl.java:97-120 | the approve call on the database follows the outcome with the APPROVED verdict |
| `InvestmentService.RejectInvestmentRequest` | src/main/java/com/investment/service/impl/InvestmentRequestServiceImpl.java:123-146 | the reject call on the database follows the outcome with the REJECTED verdict |
| `InvestmentService.EscalateInvestmentRequest` | src/main/java/com/investment/service/impl/InvestmentRequestServiceImpl.java:149-177 | on success only that request's row changes, to the escalated one; on failure nothing changes |
| `InvestmentService.ApproveAndRejectShareGuard` | src/main/java/com/investment/service/impl/InvestmentRequestServiceImpl.java:131-138 | approve succeeds exactly when reject would |
| `InvestmentService.TransitionsFollowStateMachine` | src/main/java/com/investment/service/impl/InvestmentRequestServiceImpl.java:112-113 | every successful approve, reject or escalate is a step of the four-state machine |
| `InvestmentService.DecidedRequestsAreFinal` | src/main/java/com/investment/service/impl/InvestmentRequestServiceImpl.java:107-119 | on an APPROVED or REJECTED request approve, reject and escalate fail, with AccessDenied once the caller exists |
| `InvestmentService.DecisionIsFinal` | src/main/java/com/investment/service/impl/InvestmentRequestServiceImpl.java:112-119 | after a successful decision no second approve or reject by anyone succeeds |
| `InvestmentService.EscalationHandsDecisionToAdmins` | src/main/java/com/investment/service/impl/InvestmentRequestServiceImpl.java:107-112 | after an escalation no caller without ADMIN can decide the request, and an ADMIN with a row can |
| `InvestmentService.RegularCallersCannotModerate` | src/main/java/com/investment/service/impl/InvestmentRequestServiceImpl.java:105-112 | a caller holding only ROLE_REGULAR can neither decide nor escalate |
| `InvestmentService.OnlyTheOwnersManagerModeratesPending` | src/main/java/com/investment/service/impl/InvestmentRequestServiceImpl.java:109-112 | without ADMIN, a caller who is not the owner's manager can neither decide nor escalate |
| `UserService.AllUsers` | src/main/java/com/investment/service/impl/UserServiceImpl.java:35-50 | every user for ADMIN; otherwise the caller's subordinates |
| `UserService.Subordinates` | src/main/java/com/investment/service/impl/UserServiceImpl.java:53-61 | fails exactly when the caller has no row; otherwise exactly the DTOs of the users whose manager is the caller |
| `UserService.UserById` | src/main/java/com/investment/service/impl/UserServiceImpl.java:64-69 | fails with user not found exactly when no row has the id; otherwise the DTO of that row |
| `UserService.UpdateRoleOutcome` | src/main/java/com/investment/service/impl/UserServiceImpl.java:72-105 | refused without ADMIN, then caller and target must exist; succeeds exactly for an ADMIN with a row, on another existing user, with an existing role that does not demote an ADMIN; the target's role set becomes exactly the new role |
| `UserService.AdminCannotChangeOwnRole` | src/main/java/com/investment/service/impl/UserServiceImpl.java:85-87 | an ADMIN's request on their own row fails with that message, whatever the role |
| `UserService.AdminsCannotBeDemoted` | src/main/java/com/investment/service/impl/UserServiceImpl.java:93-98 | once the earlier checks pass, giving a user holding ADMIN any other existing role fails with AccessDenied "Cannot demote an admin to another role" |
| `UserService.UpdateUserRole` | src/main/java/com/investment/service/impl/UserServiceImpl.java:72-105 | on success only the target's row changes, to the outcome; on failure nothing changes |
| `UserService.RoleChangeKeepsSubordinates` | src/main/java/com/investment/service/impl/UserServiceImpl.java:100-104 | after any role change, a manager's demotion included, every manager has the same subordinates |
| `UserService.AssignManagerOutcome` | src/main/java/com/investment/service/impl/UserServiceImpl.java:108-141 | refused without ADMIN, for a missing user or manager, for a non-REGULAR target and for a non-MANAGER manager, each with its own failure in the source's order; success exactly otherwise, setting only the manager link, and null clears it |
| `UserService.SingleRoleDistinct` | src/main/java/com/investment/service/impl/UserServiceImpl.java:123-137 | with one role per user, the REGULAR target and the MANAGER manager are different users |
| `UserService.NoSelfManagement` | src/main/java/com/investment/service/impl/UserServiceImpl.java:123-137 | making a user their own manager is always refused |
| `UserService.AssignManager` | src/main/java/com/investment/service/impl/UserServiceImpl.java:108-141 | on success only the target's row changes, to the outcome; on failure nothing changes |
| `AuthService.RegisterOutcome` | src/main/java/com/investment/service/impl/AuthServiceImpl.java:65-84 | a taken name fails with BadRequest first; otherwise the new user has the DTO's profile, role set exactly REGULAR and no manager |
| `AuthService.Register` | src/main/java/com/investment/service/impl/AuthServiceImpl.java:65-89 | on success appends the user and answers success with its DTO; on failure nothing changes |
| `AuthService.RegisteredUserIsFound` | src/main/java/com/investment/service/impl/AuthServiceImpl.java:66-68 | after registering, the name finds the new user and cannot be registered again |
| `Initializer.WithRole` | src/main/java/com/investment/config/DatabaseInitializer.java:36-40 | the role is present afterwards, the rows already there stay, and a present role is not added again |
| `Initializer.WithRoleCounts` | src/main/java/com/investment/config/DatabaseInitializer.java:36-40 | the role table gains one row of the role exactly when it was missing |
| `Initializer.SeededRolesComplete` | src/main/java/com/investment/config/DatabaseInitializer.java:35-53 | after seeding all three roles exist, the old rows are a prefix, and no role is added twice |
| `Initializer.SeededRolesIdempotent` | src/main/java/com/investment/config/DatabaseInitializer.java:35-53 | seeding the roles twice is seeding them once |
| `Initializer.AdminOutcome` | src/main/java/com/investment/config/DatabaseInitializer.java:55-78 | nothing when `admin` exists; otherwise the fixed account under the next id with role set exactly ADMIN when that role exists, and the error when it is missing |
| `Initializer.RunOutcome` | src/main/java/com/investment/config/DatabaseInitializer.java:29-33 | afterwards all roles are seeded and `admin` exists; the users change only by the new admin |
| `Initializer.RunIdempotent` | src/main/java/com/investment/config/DatabaseInitializer.java:29-33 | running the initializer again changes nothing |
| `Initializer.InitRoles` | src/main/java/com/investment/config/DatabaseInitializer.java:35-53 | the role table becomes the seeded one |
| `Initializer.CreateAdminAccount` | src/main/java/com/investment/config/DatabaseInitializer.java:55-78 | the user table follows the admin outcome |
| `Initializer.Run` | src/main/java/com/investment/config/DatabaseInitializer.java:29-33 | both tables become the run's outcome |
| `Errors.GetPath` | src/main/java/com/investment/exception/GlobalExceptionHandler.java:72-79 | "uri=" and the URI for a servlet request, "" otherwise |
| `Errors.StatusCode` | src/main/java/com/investment/exception/GlobalExceptionHandler.java:17-70 | 404 exactly for not-found, 400 for bad request, 403 for access denied, 401 for bad credentials and 500 for any other exception |
| `Errors.Handle` | src/main/java/com/investment/exception/GlobalExceptionHandler.java:17-70 | the body repeats the status code and carries the exception's message, or the fixed message for bad credentials |
| `Errors.StatusCodesDistinct` | src/main/java/com/investment/exception/GlobalExceptionHandler.java:17-70 | two kinds get the same code exactly when they are the same kind |
| `Errors.ServiceFailureResponse` | src/main/java/com/investment/exception/GlobalExceptionHandler.java:17-48 | a service failure is answered 404, 400, 403 or 500 with its own message; 403 exactly for AccessDenied, 404 exactly for not-found |
| `Errors.DecisionRefusalsAre403Or404` | src/main/java/com/investment/service/impl/InvestmentRequestServiceImpl.java:97-120 | a refused approve or reject is answered 403 or 404 |
| `Errors.EscalationRefusalsAre403Or404` | src/main/java/com/investment/service/impl/InvestmentRequestServiceImpl.java:149-170 | a refused escalation is answered 403 or 404 |
| `ManagedRequests.DistinctProperties` | ui/src/pages/investments/ManagedRequests.tsx:34-35 | the deduplicated ids are exactly the ids, each once, in order of first occurrence |
| `ManagedRequests.FindEach` | ui/src/pages/investments/ManagedRequests.tsx:35-37 | for each id, the first item of the combined list with that id |
| `ManagedRequests.UnionIds` | ui/src/pages/investments/ManagedRequests.tsx:33-37 | the union's ids are the distinct ids of escalated followed by managed |
| `ManagedRequests.UnionHasNoDuplicateIds` | ui/src/pages/investments/ManagedRequests.tsx:33-37 | no two items of the union share an id |
| `ManagedRequests.UnionCoversBothLists` | ui/src/pages/investments/ManagedRequests.tsx:33-37 | every id of either list is in the union, and every item of the union comes from one of them |
| `ManagedRequests.UnionKeepsFirstOccurrence` | ui/src/pages/investments/ManagedRequests.tsx:33-37 | each kept item is the first with its id, and the items come in order of first occurrence |
| `ManagedRequests.EscalatedCopyWins` | ui/src/pages/investments/ManagedRequests.tsx:33-36 | a request in both lists is kept as its escalated copy |
| `ManagedRequests.Loaded` | ui/src/pages/investments/ManagedRequests.tsx:25-41 | a non-admin sees the managed list; an admin sees all requests, or the union when that call fails |
| `ManagedRequests.SectionsAreExact` | ui/src/pages/investments/ManagedRequests.tsx:88-94 | each section holds exactly the items of its statuses, in list order |
| `ManagedRequests.SectionsDisjoint` | ui/src/pages/investments/ManagedRequests.tsx:88-94 | no item is in two sections |
| `ManagedRequests.SectionCounts` | ui/src/pages/investments/ManagedRequests.tsx:88-94 | a section holds an item as often as the list does when its status fits, otherwise never |
| `ManagedRequests.SectionsCover` | ui/src/pages/investments/ManagedRequests.tsx:88-94 | with the four backend statuses, the sections together are the list as a multiset |
| `ManagedRequests.CanModerateMatchesBackend` | ui/src/pages/investments/ManagedRequests.tsx:96-102 | for a single-role ADMIN on any request, or a single-role MANAGER on a request of a subordinate, the buttons show exactly when the backend would accept the decision |
| `ManageUsers.TrimEmptyIffAllSpace` | ui/src/pages/users/ManageUsers.tsx:41 | a term trims to "" exactly when all its characters are white space |
| `ManageUsers.ToLower` | ui/src/pages/users/ManageUsers.tsx:46-48 | same length, each character lower-cased |
| `ManageUsers.SearchUsers` | ui/src/pages/users/ManageUsers.tsx:40-52 | a blank term keeps the list; otherwise exactly the users whose username or names contain the lower-cased term, in list order |
| `ManageUsers.BlankSearchShowsAll` | ui/src/pages/users/ManageUsers.tsx:41-42 | a term of white space alone shows every user |
| `ManageUsers.SearchTermIsNotTrimmed` | ui/src/pages/users/ManageUsers.tsx:41-48 | "bob " does not find the user bob: the term keeps its spaces |
| `ManageUsers.RoleTab` | ui/src/pages/users/ManageUsers.tsx:64-74 | a tab holds exactly the filtered users holding its role, in order |
| `ManageUsers.SingleRoleUserInOneTab` | ui/src/pages/users/ManageUsers.tsx:64-74 | a user with one role appears in only one tab |
| `MyInvestments.FilterByStatus` | ui/src/pages/investments/MyInvestments.tsx:39-47 | "ALL" keeps the list; any other value keeps exactly the items with that status, in order |
| `MyInvestments.FilterByStatusIdempotent` | ui/src/pages/investments/MyInvestments.tsx:44 | filtering twice by a value is filtering once |
| `MyInvestments.StatusChoicesSplitList` | ui/src/pages/investments/MyInvestments.tsx:40-45 | each status choice shows an item as often as the list has it when the status matches, otherwise never |
| `AssignManagerDialog.Candidates` | ui/src/components/users/AssignManagerDialog.tsx:48-50 | exactly the fetched users holding ROLE_MANAGER other than the edited user, in fetched order |
| `AssignManagerDialog.EditedUserIsNoCandidate` | ui/src/components/users/AssignManagerDialog.tsx:49 | the edited user is never offered as their own manager |
| `AssignManagerDialog.InitialSelection` | ui/src/components/users/AssignManagerDialog.tsx:54-58 | the user's manager id when it is set and not 0, otherwise nothing |
| `AssignManagerDialog.SubmittedManagerId` | ui/src/components/users/AssignManagerDialog.tsx:76 | the selected id, or 0 when nothing is selected |
| `AssignManagerDialog.RemovalIsRejected` | ui/src/components/users/AssignManagerDialog.tsx:76 | "No Manager" reaches the backend as id 0 and fails with user not found, so the link stays |
| `AssignManagerDialog.SubmittedManagerIdFixed` | ui/src/components/users/AssignManagerDialog.tsx:76 | null when nothing is selected, the selection otherwise |
| `AssignManagerDialog.FixedRemovalClearsManager` | src/main/java/com/investment/service/impl/UserServiceImpl.java:118-139 | with null sent, removing a REGULAR user's manager succeeds and clears only that link |
| `AssignManagerDialog.FixedSubmitKeepsChoice` | ui/src/components/users/AssignManagerDialog.tsx:76 | the fixed value sends a chosen manager unchanged |
| `Currency.SplitAtPoint` | ui/src/lib/utils.ts:11 | neither part holds a '.'; with no '.' the decimal part is "undefined" |
| `Currency.SplitAtOnePoint` | ui/src/lib/utils.ts:11 | a string with one '.' splits into the text before and after it |
| `Currency.CommaBeforeDigits` | ui/src/lib/utils.ts:19 | on digits the expression matches exactly at inner positions followed by an even number of digits |
| `Currency.InsertCommas` | ui/src/lib/utils.ts:19 | the replace only inserts commas |
| `Currency.InsertCommasIsPairs` | ui/src/lib/utils.ts:19 | on digits the replace puts a comma before each pair counted from the right |
| `Currency.ShortWholeUnchanged` | ui/src/lib/utils.ts:13-21 | a whole part of at most three characters is kept as it is |
| `Currency.LongWholeEndsWithLastThree` | ui/src/lib/utils.ts:13-21 | a longer whole part ends with "," and its last three characters |
| `Currency.GroupWholeRemoveCommas` | ui/src/lib/utils.ts:13-21 | deleting the commas from the grouped whole part gives back the whole part |
| `Currency.NonNegativeGrouping` | ui/src/lib/utils.ts:13-21 | a digit string is grouped as pairs from the right, then "," and the last three |
| `Currency.FormatShape` | ui/src/lib/utils.ts:9-24 | the rupee sign, the grouped whole part, "." and the decimal part unchanged; without the commas, the input |
| `Currency.NegativeAmountGetsStrayComma` | ui/src/lib/utils.ts:13-21 | "-123.00" is formatted with a comma after the minus sign |
| `Currency.FormatSignedNegative` | ui/src/lib/utils.ts:9-24 | the corrected formatter shows a negative amount as the sign and the magnitude's formatting |
| `Currency.FormatSignedNonNegative` | ui/src/lib/utils.ts:9-24 | the corrected formatter agrees with the source on non-negative amounts |
| `Currency.GroupedDigitsLead` | ui/src/lib/utils.ts:19 | grouped digits begin with a digit, so no comma follows the sign |
| `InvestmentCard.StatusBadge` | ui/src/components/investments/InvestmentCard.tsx:23-43 | the fixed label and variant for the four statuses; the raw status with "outline" for any other |
| `InvestmentCard.BackendStatusesHaveDistinctLabels` | ui/src/components/investments/InvestmentCard.tsx:31-34 | each backend status has its own label, never the raw fallback |
| `InvestmentCard.EscalateButtonNeedsPending` | ui/src/components/investments/InvestmentCard.tsx:116-134 | the escalate button shows exactly for a moderatable PENDING card with a handler, and only beside approve and reject |
| `InvestmentCard.CardFormatDiffersOnlyInPrefix` | ui/src/components/investments/InvestmentCard.tsx:46-61 | the card's formatter is the shared one with a mis-encoded prefix |

## Left out

- Login, JWT issuing and checking, BCrypt and the stored password: they are framework calls. The
  caller is an `Actor` (the token's name and authorities), and the password is not modelled.
- The controllers and their `@PreAuthorize` gates. The services check the roles again, and the
  model keeps those checks.
- Concurrency. Each service call is atomic in the model. The source reads, checks and saves
  without a lock, so two concurrent decisions could both be applied; the model does not show this.
- Update in place and aliasing. The source changes a JPA entity and then saves it. The model
  replaces the row in a `seq`, so it does not show a change seen through another reference
  before the save.
- The list order of JPA queries. Lists are in table (id) order, which the source does not
  promise.
- Timestamps are opaque values from a clock parameter, with no date arithmetic.
- Amounts and floating point. `amount.toFixed(2)` is not modelled: the formatter starts from the
  fixed string. An amount is an opaque integer that the backend copies.
- React state, effects, toasts, routing and HTTP calls. Only the pure expressions of the pages
  are modelled. A failed fetch is `None` in `ManagedRequests.Loaded`.
- The user table and role dialog's display conditions. They repeat rules of the backend, which
  are modelled.
- `ManageUsers.ToLower`: lower-cases ASCII letters only. JavaScript's `toLowerCase` also maps
  other letters.
- `InvestmentCard.StatusBadge`: a status equal to a key of `Object.prototype` (such as
  "constructor") is not modelled. It would find an inherited value instead of the fallback.
- `UserService.UpdateRoleOutcome`: an unknown role name fails with the message Java's `valueOf`
  gives, as an unexpected (500) failure. That message is library behaviour.
- The message text of `ResourceNotFoundException` is not modelled. The failure keeps the resource,
  the field and the value, and `Errors.Handle` passes any message through.
- Null request fields, such as a missing `userId` in a body, are not modelled. Ids are always
  numbers.

## Findings

| source | as written | input that shows it | evidently intended | confidence | as-written member | corrected member |
|---|---|---|---|---|---|---|
| ui/src/lib/utils.ts:13-21 | the minus sign of a negative amount stays in `otherNumbers`, which is then followed by ","; the copy in `InvestmentCard.tsx:50-58` does the same | amount -123, `toFixed(2)` = "-123.00", gives "₹-,123.00" | the sign, then the grouped magnitude: "₹-123.00" | not executed | `Currency.NegativeAmountGetsStrayComma` | `Currency.FormatSignedNegative` |
| ui/src/components/users/AssignManagerDialog.tsx:76 | "No Manager" is sent as `managerId: 0`; the backend treats only null as removal and looks up user 0, which does not exist (`UserServiceImpl.java:118-121`) | an ADMIN selects "No Manager" for any existing user and saves | the link is cleared: null is sent, as the backend expects | not executed | `AssignManagerDialog.RemovalIsRejected` | `AssignManagerDialog.FixedRemovalClearsManager` |
