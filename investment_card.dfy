/** `InvestmentCard` (ui/src/components/investments/InvestmentCard.tsx): the status badge, when
    the action buttons show, and the card's own copy of the currency formatter. */
module InvestmentCard {
  import opened Domain
  import Currency

  datatype Variant = Default | Secondary | Destructive | Outline

  datatype Badge = Badge(text: string, variant: Variant)

  /** `StatusBadge`: the fixed entry for the four statuses, and the raw status with the outline
      variant for any other string. */
  function StatusBadge(status: string): (b: Badge)
    ensures status == "PENDING" ==> b == Badge("Pending", Outline)
    ensures status == "APPROVED" ==> b == Badge("Approved", Default)
    ensures status == "REJECTED" ==> b == Badge("Rejected", Destructive)
    ensures status == "ESCALATED" ==> b == Badge("Escalated", Secondary)
    ensures status !in {"PENDING", "APPROVED", "REJECTED", "ESCALATED"} ==> b == Badge(status, Outline)
  {
    if status == "PENDING" then Badge("Pending", Outline)
    else if status == "APPROVED" then Badge("Approved", Default)
    else if status == "REJECTED" then Badge("Rejected", Destructive)
    else if status == "ESCALATED" then Badge("Escalated", Secondary)
    else Badge(status, Outline)
  }

  /** Every status the backend sends gets its own label (`text`), never the raw fallback. */
  lemma BackendStatusesHaveDistinctLabels(s: Status, t: Status)
    ensures StatusBadge(StatusText(s)).text != StatusText(s)
    ensures StatusBadge(StatusText(s)).text == StatusBadge(StatusText(t)).text <==> s == t
  {
  }

  /** The approve and reject buttons. */
  predicate ShowDecisionButtons(canModerate: bool, status: string)
  {
    canModerate && (status == "PENDING" || status == "ESCALATED")
  }

  /** The escalate button, inside the same footer. */
  predicate ShowEscalateButton(canModerate: bool, status: string, hasOnEscalate: bool)
  {
    ShowDecisionButtons(canModerate, status) && status == "PENDING" && hasOnEscalate
  }

  /** The escalate button shows only with the decision buttons, only on a PENDING request, and
      only when the page passes an escalate handler. */
  lemma EscalateButtonNeedsPending(canModerate: bool, status: string, hasOnEscalate: bool)
    ensures ShowEscalateButton(canModerate, status, hasOnEscalate) <==>
              canModerate && status == "PENDING" && hasOnEscalate
    ensures ShowEscalateButton(canModerate, status, hasOnEscalate) ==> ShowDecisionButtons(canModerate, status)
  {
  }

  /** The prefix the card prints: the UTF-8 bytes of "₹" read as Windows-1252, "â‚¹". */
  const CardRupee := "\U{E2}\U{201A}\U{B9}"

  /** The card's `formatIndianCurrency`: the same steps as the shared one, another prefix. */
  function FormatCardCurrency(formatted: string): (r: string)
  {
    var (wholePart, decimalPart) := Currency.SplitAtPoint(formatted);
    CardRupee + Currency.GroupWhole(wholePart) + "." + decimalPart
  }

  /** The card's formatter groups exactly as the shared one does; only the prefix differs. */
  lemma CardFormatDiffersOnlyInPrefix(formatted: string)
    ensures |Currency.FormatIndianCurrency(formatted)| >= 1
    ensures FormatCardCurrency(formatted) == CardRupee + Currency.FormatIndianCurrency(formatted)[1..]
    ensures CardRupee != Currency.Rupee
  {
    var (w, d) := Currency.SplitAtPoint(formatted);
    var rest := Currency.GroupWhole(w) + "." + d;
    assert Currency.FormatIndianCurrency(formatted) == Currency.Rupee + rest;
    assert FormatCardCurrency(formatted) == CardRupee + rest;
    assert (Currency.Rupee + rest)[1..] == rest;
  }
}
