/** `formatIndianCurrency` (ui/src/lib/utils.ts), from the string `amount.toFixed(2)` onward:
    the whole part is split into its last three characters and the rest, and the rest gets a
    comma wherever the regular expression `\B(?=(\d{2})+(?!\d))` matches, that is before every
    group of two digits counted from the right. */
module Currency {
  import opened Domain

  const Rupee := "\U{20B9}"

  predicate IsDigit(c: char)
  {
    '0' <= c <= '9'
  }

  /** A character of the regular-expression class `\w`. */
  predicate IsWordChar(c: char)
  {
    IsDigit(c) || 'a' <= c <= 'z' || 'A' <= c <= 'Z' || c == '_'
  }

  predicate AllDigits(s: string)
  {
    forall i :: 0 <= i < |s| ==> IsDigit(s[i])
  }

  // ------------------------------------------------------------------ the split at the point

  /** The index of the first '.', if any. */
  function FirstDot(s: string): (r: Option<nat>)
    ensures r.Some? ==> r.value < |s| && s[r.value] == '.' && '.' !in s[..r.value]
    ensures r.None? ==> '.' !in s
  {
    if s == [] then None
    else if s[0] == '.' then Some(0)
    else
      match FirstDot(s[1..])
      case None => None
      case Some(i) =>
        assert s[..i + 1] == [s[0]] + s[1..][..i];
        Some(i + 1)
  }

  /** `const [wholePart, decimalPart] = formatted.split(".")`: the text before the first '.' and
      the text between it and the next '.' (or the end). With no '.', `decimalPart` is
      `undefined`, which the template literal prints as the word "undefined". */
  function SplitAtPoint(formatted: string): (parts: (string, string))
    ensures '.' !in parts.0
    ensures '.' in formatted ==> '.' !in parts.1
    ensures '.' !in formatted ==> parts == (formatted, "undefined")
  {
    match FirstDot(formatted)
    case None => (formatted, "undefined")
    case Some(i) =>
      var rest := formatted[i + 1..];
      match FirstDot(rest)
      case None =>
        assert formatted == formatted[..i] + "." + rest;
        (formatted[..i], rest)
      case Some(j) => (formatted[..i], rest[..j])
  }

  // ------------------------------------------------------------------ the regular expression

  /** `\B` at position `p` (between `s[p - 1]` and `s[p]`): the characters on both sides are
      both word characters or both not, the ends of the string counting as non-word. */
  predicate NotWordBoundary(s: string, p: nat)
    requires p <= |s|
  {
    (p > 0 && IsWordChar(s[p - 1])) == (p < |s| && IsWordChar(s[p]))
  }

  /** The number of consecutive digits starting at `p`. */
  function DigitRun(s: string, p: nat): (n: nat)
    requires p <= |s|
    ensures p + n <= |s|
    ensures forall k :: p <= k < p + n ==> IsDigit(s[k])
    ensures p + n < |s| ==> !IsDigit(s[p + n])
    decreases |s| - p
  {
    if p < |s| && IsDigit(s[p]) then 1 + DigitRun(s, p + 1) else 0
  }

  /** The lookahead `(?=(\d{2})+(?!\d))` at `p`: one or more pairs of digits and then no digit,
      that is, a run of digits of even, non-zero length. */
  predicate PairsToEnd(s: string, p: nat)
    requires p <= |s|
  {
    DigitRun(s, p) > 0 && DigitRun(s, p) % 2 == 0
  }

  /** Where the global replace of `\B(?=(\d{2})+(?!\d))` by "," matches: each match is empty, so
      the comma is inserted before `s[p]`. */
  predicate CommaBefore(s: string, p: nat)
    requires p <= |s|
  {
    NotWordBoundary(s, p) && PairsToEnd(s, p)
  }

  /** The replace applied to `s[p..]`, every position judged against the whole of `s`. */
  function InsertCommasFrom(s: string, p: nat): (r: string)
    requires p <= |s|
    decreases |s| - p
  {
    if p == |s| then ""
    else (if CommaBefore(s, p) then "," else "") + [s[p]] + InsertCommasFrom(s, p + 1)
  }

  /** `otherNumbers.replace(/\B(?=(\d{2})+(?!\d))/g, ",")`. */
  function InsertCommas(s: string): (r: string)
    ensures RemoveCommas(r) == RemoveCommas(s)
  {
    InsertCommasRemoved(s, 0);
    InsertCommasFrom(s, 0)
  }

  /** The string with every ',' deleted. */
  function RemoveCommas(s: string): (r: string)
  {
    if s == [] then [] else (if s[0] == ',' then [] else [s[0]]) + RemoveCommas(s[1..])
  }

  /** Deleting the commas from a string that has none changes nothing. */
  lemma {:induction false} RemoveCommasNone(s: string)
    requires ',' !in s
    ensures RemoveCommas(s) == s
  {
    if s != [] {
      assert ',' !in s[1..] by { assert forall c :: c in s[1..] ==> c in s; }
      RemoveCommasNone(s[1..]);
    }
  }

  lemma RemoveCommasAppend(a: string, b: string)
    ensures RemoveCommas(a + b) == RemoveCommas(a) + RemoveCommas(b)
  {
    if a == [] {
      assert a + b == b;
    } else {
      assert (a + b)[0] == a[0] && (a + b)[1..] == a[1..] + b;
      RemoveCommasAppend(a[1..], b);
    }
  }

  lemma {:induction false} InsertCommasRemoved(s: string, p: nat)
    requires p <= |s|
    ensures RemoveCommas(InsertCommasFrom(s, p)) == RemoveCommas(s[p..])
    decreases |s| - p
  {
    if p < |s| {
      InsertCommasRemoved(s, p + 1);
      var comma := if CommaBefore(s, p) then "," else "";
      assert RemoveCommas(comma) == "";
      RemoveCommasAppend(comma + [s[p]], InsertCommasFrom(s, p + 1));
      RemoveCommasAppend(comma, [s[p]]);
      assert s[p..] == [s[p]] + s[p + 1..];
      RemoveCommasAppend([s[p]], s[p + 1..]);
    }
  }

  /** On a string of digits the expression matches exactly at the inner positions that have an
      even number of digits after them. */
  lemma CommaBeforeDigits(s: string, p: nat)
    requires AllDigits(s) && p <= |s|
    ensures CommaBefore(s, p) <==> 0 < p < |s| && (|s| - p) % 2 == 0
  {
    DigitRunToEnd(s, p);
  }

  lemma {:induction false} DigitRunToEnd(s: string, p: nat)
    requires AllDigits(s) && p <= |s|
    ensures DigitRun(s, p) == |s| - p
    decreases |s| - p
  {
    if p < |s| {
      DigitRunToEnd(s, p + 1);
    }
  }

  // ------------------------------------------------------------------ reference grouping

  /** Indian grouping of a digit string, stated from the right: its last two digits form a
      group, and so on leftward, the first group keeping one or two digits. */
  function Pairs(d: string): (r: string)
    decreases |d|
  {
    if |d| <= 2 then d else Pairs(d[..|d| - 2]) + "," + d[|d| - 2..]
  }

  /** The regular expression groups a digit string exactly as `Pairs` does. */
  lemma {:induction false} InsertCommasIsPairs(d: string)
    requires AllDigits(d)
    ensures InsertCommas(d) == Pairs(d)
    decreases |d|
  {
    if |d| <= 2 {
      NoCommasInShortDigits(d, 0);
    } else {
      var e := d[..|d| - 2];
      InsertCommasIsPairs(e);
      InsertCommasSplit(d, 0);
    }
  }

  /** A digit string of at most two digits gets no comma. */
  lemma {:induction false} NoCommasInShortDigits(d: string, p: nat)
    requires AllDigits(d) && |d| <= 2 && p <= |d|
    ensures InsertCommasFrom(d, p) == d[p..]
    decreases |d| - p
  {
    if p < |d| {
      CommaBeforeDigits(d, p);
      NoCommasInShortDigits(d, p + 1);
      assert d[p..] == [d[p]] + d[p + 1..];
    }
  }

  /** Grouping a digit string is grouping all but its last two digits, then "," and those two. */
  lemma {:induction false} InsertCommasSplit(d: string, p: nat)
    requires AllDigits(d) && |d| > 2 && p <= |d| - 2
    ensures InsertCommasFrom(d, p) == InsertCommasFrom(d[..|d| - 2], p) + "," + d[|d| - 2..]
    decreases |d| - p
  {
    var e := d[..|d| - 2];
    if p == |d| - 2 {
      LastPairGrouping(d);
      assert InsertCommasFrom(e, p) == "";
      assert "" + "," + d[|d| - 2..] == "," + d[|d| - 2..];
    } else {
      InsertCommasSplit(d, p + 1);
      SameCommaWithoutLastPair(d, p);
      var comma := if CommaBefore(d, p) then "," else "";
      var rest := InsertCommasFrom(e, p + 1);
      assert InsertCommasFrom(d, p) == comma + [d[p]] + InsertCommasFrom(d, p + 1);
      assert InsertCommasFrom(e, p) == comma + [d[p]] + rest;
      PrependToSplit(comma + [d[p]], InsertCommasFrom(d, p + 1), rest, d[|d| - 2..]);
    }
  }

  /** Prepending to a string that is `b`, a comma and `t` gives the longer `b`, a comma and `t`. */
  lemma PrependToSplit(x: string, a: string, b: string, t: string)
    requires a == b + "," + t
    ensures x + a == (x + b) + "," + t
  {
  }

  /** Dropping the last two digits keeps the parity of the digits after `p`, so the expression
      matches at `p` in both strings or in neither. */
  lemma SameCommaWithoutLastPair(d: string, p: nat)
    requires AllDigits(d) && |d| > 2 && p < |d| - 2
    ensures CommaBefore(d, p) <==> CommaBefore(d[..|d| - 2], p)
    ensures d[..|d| - 2][p] == d[p]
  {
    var e := d[..|d| - 2];
    assert AllDigits(e);
    CommaBeforeDigits(d, p);
    CommaBeforeDigits(e, p);
  }

  /** The last two digits of a digit string longer than two get a comma before them. */
  lemma LastPairGrouping(d: string)
    requires AllDigits(d) && |d| > 2
    ensures InsertCommasFrom(d, |d| - 2) == "," + d[|d| - 2..]
  {
    var p := |d| - 2;
    LastDigitAlone(d);
    CommaBeforeDigits(d, p);
    assert InsertCommasFrom(d, p) == "," + [d[p]] + [d[p + 1]];
    assert d[p..] == [d[p], d[p + 1]];
  }

  /** The last digit of a digit string longer than one gets no comma before it. */
  lemma LastDigitAlone(d: string)
    requires AllDigits(d) && |d| > 1
    ensures InsertCommasFrom(d, |d| - 1) == [d[|d| - 1]]
  {
    CommaBeforeDigits(d, |d| - 1);
    assert InsertCommasFrom(d, |d|) == "";
  }

  // ------------------------------------------------------------------ the formatter

  /** `formattedWholePart`: the last three characters untouched, the rest grouped by the
      expression, and one comma between the two when the rest is not empty. */
  function GroupWhole(whole: string): (r: string)
  {
    var lastThree := if |whole| > 3 then whole[|whole| - 3..] else whole;
    var otherNumbers := if |whole| > 3 then whole[..|whole| - 3] else "";
    InsertCommas(otherNumbers) + (if otherNumbers != "" then "," else "") + lastThree
  }

  /** A whole part of at most three characters is kept as it is. */
  lemma ShortWholeUnchanged(whole: string)
    requires |whole| <= 3
    ensures GroupWhole(whole) == whole
  {
    assert InsertCommasFrom("", 0) == "";
  }

  /** A whole part longer than three characters ends with a comma and its last three. */
  lemma LongWholeEndsWithLastThree(whole: string)
    requires |whole| > 3
    ensures var r := GroupWhole(whole); |r| >= 4 && r[|r| - 4..] == "," + whole[|whole| - 3..]
  {
    var grouped := InsertCommas(whole[..|whole| - 3]);
    assert GroupWhole(whole) == grouped + ("," + whole[|whole| - 3..]);
  }

  /** Grouping only adds commas. */
  lemma GroupWholeRemoveCommas(whole: string)
    ensures RemoveCommas(GroupWhole(whole)) == RemoveCommas(whole)
  {
    if |whole| <= 3 {
      ShortWholeUnchanged(whole);
    } else {
      var lastThree := whole[|whole| - 3..];
      var otherNumbers := whole[..|whole| - 3];
      var grouped := InsertCommas(otherNumbers);
      assert whole == otherNumbers + lastThree;
      calc {
        RemoveCommas(GroupWhole(whole));
        { assert GroupWhole(whole) == grouped + ("," + lastThree); }
        RemoveCommas(grouped + ("," + lastThree));
        { RemoveCommasAppend(grouped, "," + lastThree); }
        RemoveCommas(grouped) + RemoveCommas("," + lastThree);
        { RemoveCommasAppend(",", lastThree); assert RemoveCommas(",") == ""; }
        RemoveCommas(otherNumbers) + RemoveCommas(lastThree);
        { RemoveCommasAppend(otherNumbers, lastThree); }
        RemoveCommas(whole);
      }
    }
  }

  /** `formatIndianCurrency`, given the string `amount.toFixed(2)`. */
  function FormatIndianCurrency(formatted: string): (r: string)
  {
    var (wholePart, decimalPart) := SplitAtPoint(formatted);
    Rupee + GroupWhole(wholePart) + "." + decimalPart
  }

  /** A string with exactly one '.' splits into the text before it and the text after it. */
  lemma SplitAtOnePoint(wholePart: string, decimalPart: string)
    requires '.' !in wholePart && '.' !in decimalPart
    ensures SplitAtPoint(wholePart + "." + decimalPart) == (wholePart, decimalPart)
  {
    var s := wholePart + "." + decimalPart;
    assert s[..|wholePart|] == wholePart && s[|wholePart|] == '.';
    assert FirstDot(s) == Some(|wholePart|);
    assert s[|wholePart| + 1..] == decimalPart;
  }

  /** The result is the rupee sign, the grouped whole part, the point and the decimal part as it
      was; removing the commas gives back the rupee sign and the input. */
  lemma FormatShape(wholePart: string, decimalPart: string)
    requires '.' !in wholePart && '.' !in decimalPart
    ensures FormatIndianCurrency(wholePart + "." + decimalPart) == Rupee + GroupWhole(wholePart) + "." + decimalPart
    ensures ',' !in wholePart && ',' !in decimalPart ==>
              RemoveCommas(FormatIndianCurrency(wholePart + "." + decimalPart)) == Rupee + wholePart + "." + decimalPart
  {
    SplitAtOnePoint(wholePart, decimalPart);
    if ',' !in wholePart && ',' !in decimalPart {
      var g := GroupWhole(wholePart);
      calc {
        RemoveCommas(Rupee + g + "." + decimalPart);
        { RemoveCommasAppend(Rupee + g + ".", decimalPart);
          RemoveCommasAppend(Rupee + g, ".");
          RemoveCommasAppend(Rupee, g); }
        RemoveCommas(Rupee) + RemoveCommas(g) + RemoveCommas(".") + RemoveCommas(decimalPart);
        { GroupWholeRemoveCommas(wholePart);
          RemoveCommasNone(wholePart); RemoveCommasNone(decimalPart);
          RemoveCommasNone(Rupee); RemoveCommasNone("."); }
        Rupee + wholePart + "." + decimalPart;
      }
    }
  }

  /** For a non-negative amount the whole part is a digit string, and the formatter gives the
      Indian grouping: the last three digits, and before them pairs counted from the right. */
  lemma NonNegativeGrouping(digits: string)
    requires AllDigits(digits) && |digits| > 3
    ensures GroupWhole(digits) == Pairs(digits[..|digits| - 3]) + "," + digits[|digits| - 3..]
  {
    var other := digits[..|digits| - 3];
    assert AllDigits(other);
    InsertCommasIsPairs(other);
  }

  // ------------------------------------------------------------------ the sign

  /** The whole part of a negative amount with three integer digits, "-123", gives "₹-,123.00":
      the minus sign is the only character before the last three, so it is taken for a leading
      group and followed by the separating comma. */
  lemma NegativeAmountGetsStrayComma()
    ensures FormatIndianCurrency("-123.00") == Rupee + ("-" + "," + "123") + "." + "00"
  {
    assert "-123" + "." + "00" == "-123.00";
    FormatShape("-123", "00");
    MinusTakenForAGroup();
  }

  /** The grouping step of the above: "-123" becomes "-,123". */
  lemma MinusTakenForAGroup()
    ensures GroupWhole("-123") == "-" + "," + "123"
  {
    assert !CommaBefore("-", 0);
    assert InsertCommasFrom("-", 1) == "";
    assert InsertCommas("-") == "-";
    assert "-123"[..1] == "-" && "-123"[1..] == "123";
  }

  /** The formatter with the sign kept apart: the digits after a leading '-' are grouped as a
      non-negative amount's would be. */
  function FormatSigned(formatted: string): (r: string)
  {
    var (wholePart, decimalPart) := SplitAtPoint(formatted);
    if |wholePart| > 0 && wholePart[0] == '-' then
      Rupee + "-" + GroupWhole(wholePart[1..]) + "." + decimalPart
    else
      Rupee + GroupWhole(wholePart) + "." + decimalPart
  }

  /** A negative amount is shown as the minus sign followed by its magnitude formatted as a
      non-negative amount would be. */
  lemma FormatSignedNegative(digits: string, decimalPart: string)
    requires AllDigits(digits) && '.' !in decimalPart
    ensures FormatSigned("-" + digits + "." + decimalPart)
            == Rupee + "-" + FormatIndianCurrency(digits + "." + decimalPart)[|Rupee|..]
  {
    var g := GroupWhole(digits);
    var tail := g + "." + decimalPart;
    UnsignedFormat(digits, decimalPart);
    assert FormatIndianCurrency(digits + "." + decimalPart)[|Rupee|..] == tail;
    SignedFormat(digits, decimalPart);
  }

  /** The formatter on the magnitude: the rupee sign, then the grouped digits and the decimals. */
  lemma UnsignedFormat(digits: string, decimalPart: string)
    requires AllDigits(digits) && '.' !in decimalPart
    ensures FormatIndianCurrency(digits + "." + decimalPart) == Rupee + (GroupWhole(digits) + "." + decimalPart)
  {
    NoPointInDigits(digits);
    SplitAtOnePoint(digits, decimalPart);
  }

  /** The signed formatter on a negative amount: the rupee sign, the minus sign, then the grouped
      digits and the decimals. */
  lemma SignedFormat(digits: string, decimalPart: string)
    requires AllDigits(digits) && '.' !in decimalPart
    ensures FormatSigned("-" + digits + "." + decimalPart)
            == Rupee + "-" + (GroupWhole(digits) + "." + decimalPart)
  {
    NoPointInDigits(digits);
    var signed := "-" + digits;
    assert '.' !in signed;
    assert signed[0] == '-' && signed[1..] == digits;
    SplitAtOnePoint(signed, decimalPart);
    assert "-" + digits + "." + decimalPart == signed + "." + decimalPart;
  }

  /** A non-negative amount is shown exactly as before. */
  lemma FormatSignedNonNegative(digits: string, decimalPart: string)
    requires AllDigits(digits) && '.' !in decimalPart
    ensures FormatSigned(digits + "." + decimalPart) == FormatIndianCurrency(digits + "." + decimalPart)
  {
    NoPointInDigits(digits);
    SplitAtOnePoint(digits, decimalPart);
    if |digits| > 0 {
      assert IsDigit(digits[0]);
    }
  }

  /** The grouped magnitude starts with its first digit, so no comma ever follows the sign. */
  lemma GroupedDigitsLead(digits: string)
    requires AllDigits(digits) && |digits| > 0
    ensures var g := GroupWhole(digits); |g| > 0 && g[0] == digits[0] && g[0] != ','
  {
    if |digits| > 3 {
      NonNegativeGrouping(digits);
      PairsStartsWithDigit(digits[..|digits| - 3]);
    } else {
      ShortWholeUnchanged(digits);
    }
    assert IsDigit(digits[0]);
  }

  lemma NoPointInDigits(digits: string)
    requires AllDigits(digits)
    ensures '.' !in digits
  {
    forall i | 0 <= i < |digits| ensures digits[i] != '.' { assert IsDigit(digits[i]); }
  }

  /** A grouped digit string starts with its first digit. */
  lemma {:induction false} PairsStartsWithDigit(d: string)
    requires AllDigits(d) && |d| > 0
    ensures |Pairs(d)| > 0 && Pairs(d)[0] == d[0]
    decreases |d|
  {
    if |d| > 2 {
      assert AllDigits(d[..|d| - 2]);
      PairsStartsWithDigit(d[..|d| - 2]);
    }
  }
}
