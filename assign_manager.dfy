/** The assign-manager dialog (ui/src/components/users/AssignManagerDialog.tsx): the manager
    candidates, the initial selection, and the manager id the dialog submits. */
module AssignManagerDialog {
  import opened Domain
  import opened Seqs
  import opened Repositories
  import opened Store
  import UserService

  /** The candidates: the fetched users holding ROLE_MANAGER, except the user being edited
      (with no user being edited, `u.id !== undefined` keeps every manager). */
  function Candidates(fetched: seq<UserDto>, editing: Option<UserDto>): (r: seq<UserDto>)
    ensures forall u :: u in r <==>
              u in fetched && "ROLE_MANAGER" in u.roles && (editing.None? || u.id != editing.value.id)
    ensures Subsequence(r, fetched)
  {
    var p := (u: UserDto) => "ROLE_MANAGER" in u.roles && (editing.None? || u.id != editing.value.id);
    FilterIsSubsequence(fetched, p);
    assert forall u :: u in fetched && p(u) ==> u in Filter(fetched, p) by {
      forall u | u in fetched && p(u) ensures u in Filter(fetched, p) {
        var i :| 0 <= i < |fetched| && fetched[i] == u;
      }
    }
    Filter(fetched, p)
  }

  /** The user being edited is never offered as their own manager. */
  lemma EditedUserIsNoCandidate(fetched: seq<UserDto>, editing: UserDto)
    ensures forall u :: u in Candidates(fetched, Some(editing)) ==> u.id != editing.id && "ROLE_MANAGER" in u.roles
  {
  }

  /** The selection when the dialog opens: the user's manager id when it is set and not 0
      (JavaScript's truthiness), otherwise nothing. */
  function InitialSelection(editing: Option<UserDto>): (r: Option<int>)
    ensures r.Some? <==> editing.Some? && editing.value.managerId.Some? && editing.value.managerId.value != 0
    ensures r.Some? ==> r == editing.value.managerId
  {
    if editing.Some? && editing.value.managerId.Some? && editing.value.managerId.value != 0 then
      editing.value.managerId
    else None
  }

  /** `selectedManagerId || 0`: the selected id, or 0 when nothing is selected. */
  function SubmittedManagerId(selected: Option<int>): (id: int)
    ensures selected.None? ==> id == 0
    ensures selected.Some? ==> id == selected.value
  {
    if selected.Some? && selected.value != 0 then selected.value else 0
  }

  /** "Remove manager" in the dialog sends 0, and the backend looks 0 up as a user id: ids start
      at 1, so the call fails with "User not found with id 0" and the link stays. */
  lemma RemovalIsRejected(users: seq<User>, actor: Actor, userId: int)
    requires UsersConsistent(users)
    requires RoleAdmin in actor.authorities && 1 <= userId <= |users|
    ensures UserService.AssignManagerOutcome(users, actor, userId, Some(SubmittedManagerId(None)))
            == Err(ResourceNotFound("User", "id", ByNumber(0)))
  {
  }

  /** The submitted value the backend reads as removal: JSON null when nothing is selected. */
  function SubmittedManagerIdFixed(selected: Option<int>): (id: Option<int>)
    ensures selected.None? ==> id.None?
    ensures selected.Some? && selected.value != 0 ==> id == selected
  {
    if selected.Some? && selected.value != 0 then selected else None
  }

  /** With null sent for "remove", removing the manager of a regular user succeeds and clears
      exactly that user's link. */
  lemma FixedRemovalClearsManager(users: seq<User>, actor: Actor, userId: int)
    requires UsersConsistent(users)
    requires RoleAdmin in actor.authorities && 1 <= userId <= |users|
    requires RoleRegular in users[userId - 1].roles
    ensures UserService.AssignManagerOutcome(users, actor, userId, SubmittedManagerIdFixed(None))
            == Ok(users[userId - 1].(manager := None))
  {
  }

  /** The fixed value still sends a chosen manager as it is. */
  lemma FixedSubmitKeepsChoice(m: int)
    requires m != 0
    ensures SubmittedManagerIdFixed(Some(m)) == Some(SubmittedManagerId(Some(m)))
  {
  }
}
