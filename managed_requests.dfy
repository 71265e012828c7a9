/** The managed-requests page (ui/src/pages/investments/ManagedRequests.tsx): what it loads, the
    admin's fallback union of the escalated and managed lists, the three status sections, and
    which cards offer the moderation buttons. */
module ManagedRequests {
  import opened Domain
  import opened Seqs
  import opened Repositories
  import opened Mapping
  import opened Store
  import InvestmentService

  type Item = InvestmentResponseDto

  function Ids(s: seq<Item>): (ids: seq<int>)
    ensures |ids| == |s|
    ensures forall i :: 0 <= i < |s| ==> ids[i] == s[i].id
  {
    Map(s, (x: Item) => x.id)
  }

  predicate NoDuplicates(ids: seq<int>)
  {
    forall i, j :: 0 <= i < j < |ids| ==> ids[i] != ids[j]
  }

  /** The index of the first occurrence of `x`. */
  function FirstIndex(ids: seq<int>, x: int): (i: nat)
    requires x in ids
    ensures i < |ids| && ids[i] == x
    ensures forall k :: 0 <= k < i ==> ids[k] != x
  {
    if ids[0] == x then 0 else 1 + FirstIndex(ids[1..], x)
  }

  /** `Array.from(new Set(ids))`: each id once, in the order of its first occurrence. */
  function Distinct(ids: seq<int>): (r: seq<int>)
    decreases |ids|
  {
    if ids == [] then []
    else
      var front := Distinct(ids[..|ids| - 1]);
      if ids[|ids| - 1] in front then front else front + [ids[|ids| - 1]]
  }

  /** `Distinct` keeps every id exactly once, and in the order of first occurrence. */
  lemma {:induction false} DistinctProperties(ids: seq<int>)
    ensures forall x :: x in Distinct(ids) <==> x in ids
    ensures NoDuplicates(Distinct(ids))
    ensures forall i, j :: 0 <= i < j < |Distinct(ids)| ==>
              FirstIndex(ids, Distinct(ids)[i]) < FirstIndex(ids, Distinct(ids)[j])
    decreases |ids|
  {
    if ids != [] {
      var init := ids[..|ids| - 1];
      var last := ids[|ids| - 1];
      DistinctProperties(init);
      assert ids == init + [last];
      forall x | x in init ensures FirstIndex(ids, x) == FirstIndex(init, x) {
        FirstIndexPrefix(init, last, x);
      }
      if last !in init {
        assert FirstIndex(ids, last) == |init|;
        forall i | 0 <= i < |Distinct(init)|
          ensures FirstIndex(ids, Distinct(init)[i]) < |init|
        {
          assert Distinct(init)[i] in init;
        }
      }
    }
  }

  lemma {:induction false} FirstIndexPrefix(init: seq<int>, last: int, x: int)
    requires x in init
    ensures FirstIndex(init + [last], x) == FirstIndex(init, x)
  {
    if init[0] != x {
      assert (init + [last])[1..] == init[1..] + [last];
      FirstIndexPrefix(init[1..], last, x);
    }
  }

  /** `combined.find((item) => item.id === id)` for each id, in order. */
  function FindEach(combined: seq<Item>, ids: seq<int>): (r: seq<Item>)
    requires forall x :: x in ids ==> x in Ids(combined)
    ensures |r| == |ids|
    ensures forall k :: 0 <= k < |ids| ==> r[k] == combined[FirstIndex(Ids(combined), ids[k])]
  {
    if ids == [] then [] else [combined[FirstIndex(Ids(combined), ids[0])]] + FindEach(combined, ids[1..])
  }

  /** The admin's fallback when the all-requests call fails: the escalated list followed by the
      managed list, with each id kept once. */
  function FallbackUnion(escalated: seq<Item>, managed: seq<Item>): (r: seq<Item>)
  {
    var combined := escalated + managed;
    DistinctProperties(Ids(combined));
    FindEach(combined, Distinct(Ids(combined)))
  }

  /** The union's ids are the distinct ids of the escalated list followed by the managed list. */
  lemma UnionIds(escalated: seq<Item>, managed: seq<Item>)
    ensures Ids(FallbackUnion(escalated, managed)) == Distinct(Ids(escalated + managed))
  {
    var combined := escalated + managed;
    var ids := Ids(combined);
    DistinctProperties(ids);
    var d := Distinct(ids);
    var r := FallbackUnion(escalated, managed);
    forall k | 0 <= k < |r| ensures Ids(r)[k] == d[k] {
      assert r[k] == combined[FirstIndex(ids, d[k])];
    }
  }

  /** No two items of the union have the same id. */
  lemma UnionHasNoDuplicateIds(escalated: seq<Item>, managed: seq<Item>)
    ensures NoDuplicates(Ids(FallbackUnion(escalated, managed)))
  {
    UnionIds(escalated, managed);
    DistinctProperties(Ids(escalated + managed));
  }

  /** Every item of either list has its id in the union, and the union holds no other item. */
  lemma UnionCoversBothLists(escalated: seq<Item>, managed: seq<Item>)
    ensures forall x :: x in escalated + managed ==> x.id in Ids(FallbackUnion(escalated, managed))
    ensures forall y :: y in FallbackUnion(escalated, managed) ==> y in escalated + managed
  {
    var combined := escalated + managed;
    var ids := Ids(combined);
    UnionIds(escalated, managed);
    DistinctProperties(ids);
    forall x | x in combined ensures x.id in Ids(FallbackUnion(escalated, managed)) {
      var i :| 0 <= i < |combined| && combined[i] == x;
      assert ids[i] == x.id;
    }
  }

  /** For each id the union keeps the first item with that id in the escalated list followed by
      the managed list, and the ids come in the order of their first occurrence. */
  lemma UnionKeepsFirstOccurrence(escalated: seq<Item>, managed: seq<Item>)
    ensures var r := FallbackUnion(escalated, managed);
            var ids := Ids(escalated + managed);
            forall k :: 0 <= k < |r| ==> r[k].id in ids && r[k] == (escalated + managed)[FirstIndex(ids, r[k].id)]
    ensures var r := FallbackUnion(escalated, managed);
            var ids := Ids(escalated + managed);
            forall i, j :: 0 <= i < j < |r| ==>
              (r[i].id in ids && r[j].id in ids && FirstIndex(ids, r[i].id) < FirstIndex(ids, r[j].id))
  {
    UnionIds(escalated, managed);
    DistinctProperties(Ids(escalated + managed));
  }

  /** A request present in both lists appears in the union as its escalated copy. */
  lemma EscalatedCopyWins(escalated: seq<Item>, managed: seq<Item>, x: Item, k: int)
    requires x in escalated
    requires 0 <= k < |FallbackUnion(escalated, managed)| && FallbackUnion(escalated, managed)[k].id == x.id
    ensures FallbackUnion(escalated, managed)[k] in escalated
  {
    var combined := escalated + managed;
    var ids := Ids(combined);
    UnionKeepsFirstOccurrence(escalated, managed);
    var i :| 0 <= i < |escalated| && escalated[i] == x;
    assert combined[i] == x && ids[i] == x.id;
    var f := FirstIndex(ids, x.id);
    assert f <= i;
    assert combined[f] == escalated[f];
  }

  /** What the page shows after loading: for an admin the all-requests list, or the fallback
      union when that call fails; for anyone else the managed list. `None` is a failed load (an
      error toast, the list left as it was). */
  function Loaded(isAdmin: bool, all: Option<seq<Item>>, escalated: Option<seq<Item>>, managed: Option<seq<Item>>)
    : (r: Option<seq<Item>>)
    ensures !isAdmin ==> r == managed
    ensures isAdmin && all.Some? ==> r == all
    ensures isAdmin && all.None? && escalated.Some? && managed.Some? ==>
              r == Some(FallbackUnion(escalated.value, managed.value))
    ensures isAdmin && all.None? && (escalated.None? || managed.None?) ==> r.None?
  {
    if isAdmin then
      if all.Some? then all
      else if escalated.Some? && managed.Some? then Some(FallbackUnion(escalated.value, managed.value))
      else None
    else managed
  }

  // ------------------------------------------------------------------ sections

  function PendingSection(s: seq<Item>): (r: seq<Item>)
  {
    Filter(s, (x: Item) => x.status == "PENDING")
  }

  function ProcessedSection(s: seq<Item>): (r: seq<Item>)
  {
    Filter(s, (x: Item) => x.status == "APPROVED" || x.status == "REJECTED")
  }

  function EscalatedSection(s: seq<Item>): (r: seq<Item>)
  {
    Filter(s, (x: Item) => x.status == "ESCALATED")
  }

  /** Each section holds exactly the items in its states, in the list's order. */
  lemma SectionsAreExact(s: seq<Item>)
    ensures forall x :: x in PendingSection(s) <==> x in s && x.status == "PENDING"
    ensures forall x :: x in ProcessedSection(s) <==> x in s && (x.status == "APPROVED" || x.status == "REJECTED")
    ensures forall x :: x in EscalatedSection(s) <==> x in s && x.status == "ESCALATED"
    ensures Subsequence(PendingSection(s), s) && Subsequence(ProcessedSection(s), s)
    ensures Subsequence(EscalatedSection(s), s)
  {
    FilterIsSubsequence(s, (x: Item) => x.status == "PENDING");
    FilterIsSubsequence(s, (x: Item) => x.status == "APPROVED" || x.status == "REJECTED");
    FilterIsSubsequence(s, (x: Item) => x.status == "ESCALATED");
    forall x | x in s && x.status == "PENDING" ensures x in PendingSection(s) {
      var i :| 0 <= i < |s| && s[i] == x;
    }
    forall x | x in s && (x.status == "APPROVED" || x.status == "REJECTED") ensures x in ProcessedSection(s) {
      var i :| 0 <= i < |s| && s[i] == x;
    }
    forall x | x in s && x.status == "ESCALATED" ensures x in EscalatedSection(s) {
      var i :| 0 <= i < |s| && s[i] == x;
    }
  }

  /** The sections share no item. */
  lemma SectionsDisjoint(s: seq<Item>)
    ensures multiset(PendingSection(s)) !! multiset(ProcessedSection(s))
    ensures multiset(PendingSection(s)) !! multiset(EscalatedSection(s))
    ensures multiset(ProcessedSection(s)) !! multiset(EscalatedSection(s))
  {
    var p := (x: Item) => x.status == "PENDING";
    var q := (x: Item) => x.status == "APPROVED" || x.status == "REJECTED";
    var e := (x: Item) => x.status == "ESCALATED";
    FilterDisjoint(s, p, q);
    FilterDisjoint(s, p, e);
    FilterDisjoint(s, q, e);
  }

  /** How often each section holds an item: as often as the list does when the status fits the
      section, otherwise never. */
  lemma SectionCounts(s: seq<Item>, x: Item)
    ensures multiset(PendingSection(s))[x] == if x.status == "PENDING" then multiset(s)[x] else 0
    ensures multiset(ProcessedSection(s))[x] ==
              if x.status == "APPROVED" || x.status == "REJECTED" then multiset(s)[x] else 0
    ensures multiset(EscalatedSection(s))[x] == if x.status == "ESCALATED" then multiset(s)[x] else 0
  {
    FilterCounts(s, (x: Item) => x.status == "PENDING", x);
    FilterCounts(s, (x: Item) => x.status == "APPROVED" || x.status == "REJECTED", x);
    FilterCounts(s, (x: Item) => x.status == "ESCALATED", x);
  }

  /** When every status is one of the four the backend sends, the sections together hold every
      item of the list, each as often as the list does. */
  lemma SectionsCover(s: seq<Item>)
    requires forall x :: x in s ==> x.status in {"PENDING", "APPROVED", "REJECTED", "ESCALATED"}
    ensures multiset(PendingSection(s)) + multiset(ProcessedSection(s)) + multiset(EscalatedSection(s))
            == multiset(s)
  {
    forall x
      ensures (multiset(PendingSection(s)) + multiset(ProcessedSection(s)) + multiset(EscalatedSection(s)))[x]
              == multiset(s)[x]
    {
      SectionCounts(s, x);
      if x !in s {
        assert multiset(s)[x] == 0;
      }
    }
  }

  /** `canModerateRequest`. */
  predicate CanModerate(isAdmin: bool, item: Item)
  {
    if isAdmin then item.status == "ESCALATED" else item.status == "PENDING"
  }

  /** For a caller holding a single authority, ADMIN or MANAGER, and a request the page lists for
      them (any request for an ADMIN, whose page shows all requests or the escalated ones; one
      whose owner's manager is the caller for a MANAGER), the page offers approve and reject
      exactly when the backend accepts them. */
  lemma CanModerateMatchesBackend(
    users: seq<User>, requests: seq<InvestmentRequest>, actor: Actor, id: int,
    verdict: InvestmentService.Verdict, now: Timestamp)
    requires Consistent(users, requests)
    requires actor.authorities == {RoleAdmin} || actor.authorities == {RoleManager}
    requires CallerId(users, actor).Some?
    requires 1 <= id <= |requests|
    requires actor.authorities == {RoleManager} ==> OwnerManager(users, requests[id - 1]) == CallerId(users, actor)
    requires RequestRefsResolve(users, requests[id - 1])
    ensures CanModerate(RoleAdmin in actor.authorities, ToResponse(users, requests[id - 1]))
            <==> InvestmentService.DecideOutcome(users, requests, actor, id, verdict, now).Ok?
  {
    var q := requests[id - 1];
    assert q in requests;
    StatusTextInjective(q.status, Escalated);
    StatusTextInjective(q.status, Pending);
  }

  lemma StatusTextInjective(s: Status, t: Status)
    ensures StatusText(s) == StatusText(t) <==> s == t
  {
  }
}
