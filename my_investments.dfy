/** The status filter of the my-investments page (ui/src/pages/investments/MyInvestments.tsx). */
module MyInvestments {
  import opened Domain
  import opened Seqs

  /** The select's value that means no filtering. */
  const All := "ALL"

  /** The list shown for a filter value: the whole list for "ALL", otherwise the items whose
      status string equals the value. */
  function FilterByStatus(items: seq<InvestmentResponseDto>, filter: string): (r: seq<InvestmentResponseDto>)
    ensures filter == All ==> r == items
    ensures filter != All ==> forall x :: x in r <==> x in items && x.status == filter
    ensures filter != All ==> Subsequence(r, items)
  {
    if filter == All then items
    else
      var p := (x: InvestmentResponseDto) => x.status == filter;
      FilterIsSubsequence(items, p);
      assert forall x :: x in items && p(x) ==> x in Filter(items, p) by {
        forall x | x in items && p(x) ensures x in Filter(items, p) {
          var i :| 0 <= i < |items| && items[i] == x;
        }
      }
      Filter(items, p)
  }

  /** Filtering an already filtered list by the same value changes nothing. */
  lemma FilterByStatusIdempotent(items: seq<InvestmentResponseDto>, filter: string)
    ensures FilterByStatus(FilterByStatus(items, filter), filter) == FilterByStatus(items, filter)
  {
    if filter != All {
      FilterIdempotent(items, (x: InvestmentResponseDto) => x.status == filter);
    }
  }

  /** The four non-"ALL" choices split the list: each item whose status is one the backend
      sends is shown under exactly one of them, as often as it occurs in the list. */
  lemma StatusChoicesSplitList(items: seq<InvestmentResponseDto>, x: InvestmentResponseDto, s: Status)
    ensures multiset(FilterByStatus(items, StatusText(s)))[x] == if x.status == StatusText(s) then multiset(items)[x] else 0
  {
    FilterCounts(items, (y: InvestmentResponseDto) => y.status == StatusText(s), x);
  }
}
