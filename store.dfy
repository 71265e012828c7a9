/** The database the services share: the user, investment-request and role tables, and the
    consistency every service call keeps. */
module Store {
  import opened Domain
  import opened Repositories
  import opened Mapping

  /** Every user holds exactly one role (registration, seeding and role replacement all store a
      one-element role set); a manager link names an existing user other than the user itself. */
  predicate UserConsistent(users: seq<User>, u: User)
  {
    && |u.roles| == 1
    && ManagerResolves(users, u)
    && u.manager != Some(u.id)
  }

  predicate UsersConsistent(users: seq<User>)
  {
    && UserIdsSequential(users)
    && UsernamesUnique(users)
    && forall u :: u in users ==> UserConsistent(users, u)
  }

  /** A request refers to existing users; it has a moderator exactly when it has left PENDING,
      and a moderation time exactly when it has a moderator (the three are set together). */
  predicate RequestConsistent(users: seq<User>, q: InvestmentRequest)
  {
    && RequestRefsResolve(users, q)
    && (q.status == Pending <==> q.moderator.None?)
    && (q.moderatedAt.None? <==> q.moderator.None?)
  }

  predicate RequestsConsistent(users: seq<User>, requests: seq<InvestmentRequest>)
  {
    && RequestIdsSequential(requests)
    && forall q :: q in requests ==> RequestConsistent(users, q)
  }

  predicate Consistent(users: seq<User>, requests: seq<InvestmentRequest>)
  {
    UsersConsistent(users) && RequestsConsistent(users, requests)
  }

  /** Saving a consistent, re-identified row over an existing one keeps the request table consistent. */
  lemma ReplaceRequest(users: seq<User>, requests: seq<InvestmentRequest>, q: InvestmentRequest)
    requires Consistent(users, requests)
    requires 1 <= q.id <= |requests| && RequestConsistent(users, q)
    ensures Consistent(users, requests[q.id - 1 := q])
  {
    var updated := requests[q.id - 1 := q];
    forall x | x in updated
      ensures RequestConsistent(users, x)
    {
      var i :| 0 <= i < |updated| && updated[i] == x;
      if i != q.id - 1 {
        assert x == requests[i];
      }
    }
  }

  /** Saving a consistent row under a new id keeps the request table consistent. */
  lemma AppendRequest(users: seq<User>, requests: seq<InvestmentRequest>, q: InvestmentRequest)
    requires Consistent(users, requests)
    requires q.id == |requests| + 1 && RequestConsistent(users, q)
    ensures Consistent(users, requests + [q])
  {
  }

  /** Saving a consistent user over an existing one, under the same id and username, keeps the
      tables consistent. */
  lemma ReplaceUser(users: seq<User>, requests: seq<InvestmentRequest>, u: User)
    requires Consistent(users, requests)
    requires 1 <= u.id <= |users| && u.username == users[u.id - 1].username
    requires UserConsistent(users, u)
    ensures Consistent(users[u.id - 1 := u], requests)
  {
    var updated := users[u.id - 1 := u];
    forall x | x in updated
      ensures UserConsistent(updated, x)
    {
      var i :| 0 <= i < |updated| && updated[i] == x;
      if i != u.id - 1 {
        assert x == users[i] && users[i] in users;
        assert UserConsistent(users, x);
      } else {
        assert x == u;
      }
    }
    forall q | q in requests
      ensures RequestConsistent(updated, q)
    {
    }
  }

  /** Saving a consistent user under a new id and an unused username keeps the tables consistent. */
  lemma AppendUser(users: seq<User>, requests: seq<InvestmentRequest>, u: User)
    requires Consistent(users, requests)
    requires u.id == |users| + 1 && !ExistsByUsername(users, u.username)
    requires UserConsistent(users, u)
    ensures Consistent(users + [u], requests)
  {
    var updated := users + [u];
    forall x | x in updated
      ensures UserConsistent(updated, x)
    {
      if x != u {
        assert x in users;
        assert UserConsistent(users, x);
      }
    }
    forall i, j | 0 <= i < j < |updated|
      ensures updated[i].username != updated[j].username
    {
      if j == |users| {
        assert updated[i] in users;
      }
    }
  }

  /** The persistent state behind the repositories. `roles` holds the role rows by name, in the
      order they were saved. */
  class Database {
    var users: seq<User>
    var requests: seq<InvestmentRequest>
    var roles: seq<RoleName>

    ghost predicate Valid()
      reads this
    {
      Consistent(users, requests)
    }

    /** An empty schema, before `DatabaseInitializer.run`. */
    constructor ()
      ensures Valid()
      ensures users == [] && requests == [] && roles == []
    {
      users := [];
      requests := [];
      roles := [];
    }
  }
}
