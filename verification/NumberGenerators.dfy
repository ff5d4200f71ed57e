/**
  The sequential numbers of sales, refunds and documents: the stored number that is last
  in string order, plus one, zero-padded to five digits.

  The three generators share one algorithm and differ only in their prefix, so it is
  modelled once over the set of numbers a tenant has stored.
*/
module NumberGenerators {
  import opened Wrappers
  import opened Decimals
  import opened DocumentTypes

  const WIDTH: nat := 5

  predicate StartsWith(s: string, prefix: string) {
    |prefix| <= |s| && s[..|prefix|] == prefix
  }

  /** The text stored for sequence number n. */
  function Number(prefix: string, n: nat): string {
    prefix + PadStart(ToString(n), WIDTH)
  }

  function Candidates(stored: set<string>, prefix: string): set<string> {
    set s <- stored | StartsWith(s, prefix)
  }

  lemma {:induction false} LastExists(c: set<string>)
    requires c != {}
    ensures exists m <- c :: forall x <- c :: LexLe(x, m)
  {
    var s :| s in c;
    var rest := c - {s};
    if rest == {} {
      LexTotal(s, s);
      assert c == {s};
    } else {
      LastExists(rest);
      var m :| m in rest && forall x <- rest :: LexLe(x, m);
      LexTotal(s, m);
      LexTotal(s, s);
      var best := if LexLe(s, m) then m else s;
      forall x <- c ensures LexLe(x, best) {
        if x in rest && best == s { LexTransitive(x, m, s); }
      }
    }
  }

  /** `findFirst({ startsWith: prefix }, orderBy: desc)`: the last match in string order. */
  function Latest(stored: set<string>, prefix: string): (latest: Option<string>)
    ensures latest.None? <==> Candidates(stored, prefix) == {}
    ensures latest.Some? ==> latest.value in Candidates(stored, prefix)
    ensures latest.Some? ==> forall x <- Candidates(stored, prefix) :: LexLe(x, latest.value)
  {
    var c := Candidates(stored, prefix);
    if c == {} then None
    else
      assert exists m <- c :: forall x <- c :: LexLe(x, m) by { LastExists(c); }
      assert forall a, b | LexLe(a, b) && LexLe(b, a) :: a == b by {
        forall a, b | LexLe(a, b) && LexLe(b, a) ensures a == b { LexTotal(a, b); }
      }
      var m :| m in c && forall x <- c :: LexLe(x, m);
      Some(m)
  }

  function Next(stored: set<string>, prefix: string): string {
    match Latest(stored, prefix)
    case None => Number(prefix, 1)
    case Some(last) =>
      match ParseInt(last[|prefix|..])
      case Some(n) => Number(prefix, n + 1)
      case None => prefix + "00NaN"
  }

  function SalePrefix(year: nat): string { "INV-" + ToString(year) + "-" }

  function RefundPrefix(year: nat): string { "REF-" + ToString(year) + "-" }

  function DocumentPrefix(t: DocumentType, year: nat): string {
    (match t case Quote => "QUO" case Proforma => "PRO" case Invoice => "INV") + "-" + ToString(year) + "-"
  }

  // ----- What is stored -----------------------------------------------------------------

  /** Everything stored under the prefix was generated: it is the text of a positive number. */
  ghost predicate WellNumbered(stored: set<string>, prefix: string) {
    forall s <- Candidates(stored, prefix) :: exists n: nat :: n > 0 && s == Number(prefix, n)
  }

  ghost predicate Has(stored: set<string>, prefix: string, n: nat) {
    Number(prefix, n) in stored
  }

  lemma NumberParses(prefix: string, n: nat)
    ensures StartsWith(Number(prefix, n), prefix)
    ensures ParseInt(Number(prefix, n)[|prefix|..]) == Some(n)
  {
    var text := PadStart(ToString(n), WIDTH);
    assert Number(prefix, n)[|prefix|..] == text;
    PadStartFacts(ToString(n), WIDTH);
    ValueOfToString(n);
    LeadingDigitsOfDigits(text);
  }

  lemma NumberIsInjective(prefix: string, m: nat, n: nat)
    requires Number(prefix, m) == Number(prefix, n)
    ensures m == n
  {
    NumberParses(prefix, m);
    NumberParses(prefix, n);
  }

  function Width(n: nat): nat {
    |PadStart(ToString(n), WIDTH)|
  }

  /** Numbers of one printed width are ordered as strings the way they are as numbers. */
  lemma NumbersOrdered(prefix: string, m: nat, n: nat)
    requires Width(m) == Width(n)
    ensures LexLe(Number(prefix, m), Number(prefix, n)) <==> m <= n
  {
    var a, b := PadStart(ToString(m), WIDTH), PadStart(ToString(n), WIDTH);
    PadStartFacts(ToString(m), WIDTH);
    PadStartFacts(ToString(n), WIDTH);
    ValueOfToString(m);
    ValueOfToString(n);
    LexIsNumericAtOneWidth(a, b);
    LexCommonPrefix(prefix, a, b);
  }

  /** Five characters up to 99999, one more at each further power of ten. */
  lemma WidthOf(n: nat, k: nat)
    requires n > 0
    ensures n < Pow10(5) ==> Width(n) == 5
    ensures k >= 5 ==> (Width(n) == k + 1 <==> Pow10(k) <= n < Pow10(k + 1))
  {
    PadStartFacts(ToString(n), WIDTH);
    ValueOfToString(n);
    if k >= 5 { ToStringLength(n, k); }
    if n < Pow10(5) && |ToString(n)| > 5 {
      ToStringLength(n, |ToString(n)| - 1);
      Pow10Monotone(5, |ToString(n)| - 1);
    }
  }

  lemma {:induction false} Pow10Monotone(j: nat, k: nat)
    requires j <= k
    ensures Pow10(j) <= Pow10(k)
    decreases k - j
  {
    if j < k { Pow10Monotone(j + 1, k); }
  }

  // ----- The next number ----------------------------------------------------------------

  /** The sequence number carried by the stored text that is last in string order. */
  ghost predicate IsLast(stored: set<string>, prefix: string, n: nat) {
    n > 0 && Latest(stored, prefix) == Some(Number(prefix, n))
  }

  lemma NextFollowsLast(stored: set<string>, prefix: string, n: nat)
    requires IsLast(stored, prefix, n)
    ensures Next(stored, prefix) == Number(prefix, n + 1)
  {
    NumberParses(prefix, n);
  }

  /**
    Up to 99999 the generator is right, whatever was deleted before: it answers one more
    than the largest stored number, a text that is not stored.
  */
  lemma NextIsMaxPlusOne(stored: set<string>, prefix: string, max: nat)
    requires WellNumbered(stored, prefix)
    requires forall n: nat | n > 0 && Has(stored, prefix, n) :: n <= max
    requires max > 0 ==> Has(stored, prefix, max)
    requires max <= 99999
    ensures Next(stored, prefix) == Number(prefix, max + 1)
    ensures Next(stored, prefix) !in stored
  {
    assert Pow10(5) == 100000;
    NumberParses(prefix, max);
    assert max > 0 ==> Number(prefix, max) in Candidates(stored, prefix);
    match Latest(stored, prefix) {
      case None =>
      case Some(s) =>
        var n: nat :| n > 0 && s == Number(prefix, n);
        assert Has(stored, prefix, n);
        WidthOf(n, 5);
        WidthOf(max, 5);
        NumbersOrdered(prefix, max, n);
        NextFollowsLast(stored, prefix, n);
    }
    assert !Has(stored, prefix, max + 1);
  }

  /**
    Exactly when the generator hands out a number that is already taken: the last text is
    all nines (99999, 999999, ...) and its successor 10^k is stored.
  */
  lemma CollidesIffAllNines(stored: set<string>, prefix: string, n: nat)
    requires WellNumbered(stored, prefix) && IsLast(stored, prefix, n)
    ensures Next(stored, prefix) in stored
       <==> exists k :: k >= 5 && n == Pow10(k) - 1 && Has(stored, prefix, Pow10(k))
  {
    NextFollowsLast(stored, prefix, n);
    if Has(stored, prefix, n + 1) {
      NumberParses(prefix, n + 1);
      assert Number(prefix, n + 1) in Candidates(stored, prefix);
      if Width(n) == Width(n + 1) {
        NumbersOrdered(prefix, n + 1, n);
        assert false;
      }
      WidthsDifferAtPowers(n);
    }
  }

  lemma WidthsDifferAtPowers(n: nat)
    requires n > 0 && Width(n) != Width(n + 1)
    ensures exists k :: k >= 5 && n == Pow10(k) - 1
  {
    PadStartFacts(ToString(n), WIDTH);
    PadStartFacts(ToString(n + 1), WIDTH);
    assert Pow10(5) == 100000;
    if n + 1 < Pow10(5) {
      WidthOf(n, 5);
      WidthOf(n + 1, 5);
      assert false;
    } else if n + 1 == Pow10(5) {
      assert n == Pow10(5) - 1;
    } else {
      var k := Width(n) - 1;
      ToStringLength(n, |ToString(n)| - 1);
      if |ToString(n)| <= 5 {
        Pow10Monotone(|ToString(n)|, 5);
        assert false;
      }
      WidthOf(n, k);
      WidthOf(n + 1, k);
      assert n == Pow10(k + 1) - 1;
    }
  }

  // ----- Runs ---------------------------------------------------------------------------

  /** A number is issued and stored, or a stored row is deleted. */
  datatype Event = Issue | Delete(number: string)

  function After(stored: set<string>, prefix: string, e: Event): set<string> {
    match e
    case Issue => stored + {Next(stored, prefix)}
    case Delete(s) => stored - {s}
  }

  function Run(stored: set<string>, prefix: string, events: seq<Event>): set<string> {
    if events == [] then stored else After(Run(stored, prefix, events[..|events| - 1]), prefix, events[|events| - 1])
  }

  /** Whatever is issued and deleted, all that is ever stored is numbered. */
  lemma {:induction false} RunsStayWellNumbered(stored: set<string>, prefix: string, events: seq<Event>)
    requires WellNumbered(stored, prefix)
    ensures WellNumbered(Run(stored, prefix, events), prefix)
    decreases |events|
  {
    if events != [] {
      var before := Run(stored, prefix, events[..|events| - 1]);
      RunsStayWellNumbered(stored, prefix, events[..|events| - 1]);
      NextIsANumber(before, prefix);
      forall s <- Candidates(Run(stored, prefix, events), prefix)
        ensures exists n: nat :: n > 0 && s == Number(prefix, n)
      {
        assert s in Candidates(before, prefix) || s == Next(before, prefix);
      }
    }
  }

  lemma NextIsANumber(stored: set<string>, prefix: string)
    requires WellNumbered(stored, prefix)
    ensures exists n: nat :: n > 0 && Next(stored, prefix) == Number(prefix, n)
  {
    match Latest(stored, prefix)
    case None =>
      var n: nat := 1;
      assert Next(stored, prefix) == Number(prefix, n);
    case Some(s) =>
      var n: nat :| n > 0 && s == Number(prefix, n);
      NextFollowsLast(stored, prefix, n);
      assert Next(stored, prefix) == Number(prefix, n + 1);
  }

  /** What is stored after k calls on an empty table, with no deletions. */
  function Issued(prefix: string, k: nat): set<string> {
    if k == 0 then {} else After(Issued(prefix, k - 1), prefix, Issue)
  }

  /** The numbers 1 to k. */
  function Segment(prefix: string, k: nat): set<string> {
    set n: nat | 1 <= n <= k :: Number(prefix, n)
  }

  lemma SegmentHas(prefix: string, k: nat, n: nat)
    requires n > 0
    ensures Has(Segment(prefix, k), prefix, n) <==> n <= k
  {
    if Has(Segment(prefix, k), prefix, n) {
      var m: nat :| 1 <= m <= k && Number(prefix, m) == Number(prefix, n);
      NumberIsInjective(prefix, m, n);
    }
  }

  lemma NextAfterSegment(prefix: string, k: nat)
    requires k <= 99999
    ensures Next(Segment(prefix, k), prefix) == Number(prefix, k + 1)
  {
    forall n: nat | n > 0 && Has(Segment(prefix, k), prefix, n) ensures n <= k { SegmentHas(prefix, k, n); }
    if k > 0 { SegmentHas(prefix, k, k); }
    NextIsMaxPlusOne(Segment(prefix, k), prefix, k);
  }

  lemma {:induction false} IssuedIsInitialSegment(prefix: string, k: nat)
    requires k <= 100000
    ensures Issued(prefix, k) == Segment(prefix, k)
    ensures k < 100000 ==> Next(Issued(prefix, k), prefix) == Number(prefix, k + 1)
  {
    if k > 0 { IssuedIsInitialSegment(prefix, k - 1); }
    if k < 100000 { NextAfterSegment(prefix, k); }
  }

  /** The bound is tight: call 100001 answers 100000 a second time, and so do all later calls. */
  lemma {:induction false} TheLimitIsTight(prefix: string, k: nat)
    requires k >= 100000
    ensures Next(Issued(prefix, k), prefix) == Number(prefix, 100000)
    ensures Number(prefix, 100000) in Issued(prefix, k)
    decreases k
  {
    if k > 100000 {
      TheLimitIsTight(prefix, k - 1);
      assert Issued(prefix, k) == Issued(prefix, k - 1);
    } else {
      LastOfAll(prefix, k, k - 1);
      IssuedIsInitialSegment(prefix, k);
      NextFollowsLast(Issued(prefix, k), prefix, k - 1);
    }
  }

  /** Among 1 .. 100000 the text of 99999 is the last. */
  lemma LastOfAll(prefix: string, limit: nat, nines: nat)
    requires limit == 100000 && nines == 99999
    ensures IsLast(Segment(prefix, limit), prefix, nines)
  {
    var stored := Segment(prefix, limit);
    NumberParses(prefix, nines);
    SegmentHas(prefix, limit, nines);
    assert Number(prefix, nines) in Candidates(stored, prefix);
    var s := Latest(stored, prefix).value;
    var n: nat :| 1 <= n <= limit && s == Number(prefix, n);
    NothingPassesNines(prefix, limit, nines, n);
  }

  lemma NothingPassesNines(prefix: string, limit: nat, nines: nat, n: nat)
    requires limit == 100000 && nines == 99999 && 1 <= n <= limit
    requires LexLe(Number(prefix, nines), Number(prefix, n))
    ensures n == nines
  {
    if n == limit {
      LimitComesBeforeNines(prefix, limit, nines);
      LexTotal(Number(prefix, nines), Number(prefix, n));
      NumberIsInjective(prefix, limit, nines);
    } else {
      assert Pow10(5) == limit;
      WidthOf(n, 5);
      WidthOf(nines, 5);
      NumbersOrdered(prefix, nines, n);
    }
  }

  lemma LimitComesBeforeNines(prefix: string, limit: nat, nines: nat)
    requires limit == 100000 && nines == 99999
    ensures LexLe(Number(prefix, limit), Number(prefix, nines))
  {
    assert ToString(10) == "10" && ToString(99) == "99";
    assert ToString(100) == "100" && ToString(999) == "999";
    assert ToString(1000) == "1000" && ToString(9999) == "9999";
    assert ToString(10000) == "10000" && ToString(99999) == "99999";
    assert ToString(100000) == "100000";
    LexCommonPrefix(prefix, "100000", "99999");
  }

  lemma DeletionStaysWellNumbered(stored: set<string>, prefix: string, s: string)
    requires WellNumbered(stored, prefix)
    ensures WellNumbered(stored - {s}, prefix)
  {
    assert Candidates(stored - {s}, prefix) <= Candidates(stored, prefix);
  }

  /**
    Exactly when a deleted draft's number is issued again by the next call: it was the
    newest, and its predecessor is still stored or it was the first.
  */
  lemma DeletedIsReissuedIff(stored: set<string>, prefix: string, max: nat, m: nat)
    requires WellNumbered(stored, prefix)
    requires forall n: nat | n > 0 && Has(stored, prefix, n) :: n <= max
    requires 0 < m <= max <= 99999 && Has(stored, prefix, m) && Has(stored, prefix, max)
    ensures Next(After(stored, prefix, Delete(Number(prefix, m))), prefix) == Number(prefix, m)
       <==> m == max && (m == 1 || Has(stored, prefix, m - 1))
  {
    var after := stored - {Number(prefix, m)};
    DeletionStaysWellNumbered(stored, prefix, Number(prefix, m));
    forall n: nat ensures Has(after, prefix, n) <==> n != m && Has(stored, prefix, n) {
      if Number(prefix, n) == Number(prefix, m) { NumberIsInjective(prefix, n, m); }
    }
    if m < max {
      NextIsMaxPlusOne(after, prefix, max);
      if Number(prefix, max + 1) == Number(prefix, m) { NumberIsInjective(prefix, max + 1, m); }
    } else {
      ReissuedWithoutNewest(after, prefix, m);
    }
  }

  /** With every stored number below m, the next one is m exactly when m - 1 is stored or m is 1. */
  lemma ReissuedWithoutNewest(stored: set<string>, prefix: string, m: nat)
    requires WellNumbered(stored, prefix) && 0 < m <= 99999
    requires forall n: nat | n > 0 && Has(stored, prefix, n) :: n < m
    ensures Next(stored, prefix) == Number(prefix, m) <==> m == 1 || Has(stored, prefix, m - 1)
  {
    if m == 1 || Has(stored, prefix, m - 1) {
      NextIsMaxPlusOne(stored, prefix, m - 1);
    } else {
      match Latest(stored, prefix) {
        case None =>
          if Number(prefix, 1) == Number(prefix, m) { NumberIsInjective(prefix, 1, m); }
        case Some(s) =>
          var n: nat :| n > 0 && s == Number(prefix, n);
          assert Has(stored, prefix, n);
          NextFollowsLast(stored, prefix, n);
          if Number(prefix, n + 1) == Number(prefix, m) { NumberIsInjective(prefix, n + 1, m); }
      }
    }
  }

  /** A number that does not start with another prefix does not disturb that prefix's sequence. */
  lemma OtherSequencesUndisturbed(stored: set<string>, number: string, q: string)
    requires !StartsWith(number, q)
    ensures Next(stored + {number}, q) == Next(stored, q)
  {
    assert Candidates(stored + {number}, q) == Candidates(stored, q);
    LatestDependsOnCandidates(stored + {number}, stored, q);
  }

  /** Quotes, proformas and invoices of one year are numbered independently. */
  lemma DocumentSequencesAreIndependent(stored: set<string>, a: DocumentType, b: DocumentType, year: nat, n: nat)
    requires a != b
    ensures Next(stored + {Number(DocumentPrefix(a, year), n)}, DocumentPrefix(b, year))
        == Next(stored, DocumentPrefix(b, year))
  {
    var p, q := DocumentPrefix(a, year), DocumentPrefix(b, year);
    assert p[0] != q[0] && |p| == |q|;
    assert Number(p, n)[..|q|] == p;
    OtherSequencesUndisturbed(stored, Number(p, n), q);
  }

  lemma DiffersAt(s: string, prefix: string, i: nat)
    requires i < |s| && i < |prefix| && s[i] != prefix[i]
    ensures !StartsWith(s, prefix)
  {
    if |prefix| <= |s| { assert s[..|prefix|][i] != prefix[i]; }
  }

  /** The hyphen behind the shorter of two digit strings meets a digit of the other. */
  lemma HyphenMeetsDigit(kind: string, y: string, o: string, text: string)
    requires AllDigits(y) && AllDigits(o) && y != o
    ensures !StartsWith(kind + y + "-" + text, kind + o + "-")
  {
    var s, prefix := kind + y + "-" + text, kind + o + "-";
    if |o| < |y| {
      assert s[|kind| + |o|] == y[|o|] && IsDigit(y[|o|]);
      DiffersAt(s, prefix, |kind| + |o|);
    } else if |y| < |o| {
      assert prefix[|kind| + |y|] == o[|y|] && IsDigit(o[|y|]);
      DiffersAt(s, prefix, |kind| + |y|);
    } else {
      var i :| 0 <= i < |y| && y[i] != o[i];
      DiffersAt(s, prefix, |kind| + i);
    }
  }

  /** A number of one year never starts with another year's prefix. */
  lemma YearIsInNumber(kind: string, year: nat, other: nat, n: nat)
    requires year != other
    ensures !StartsWith(Number(kind + ToString(year) + "-", n), kind + ToString(other) + "-")
  {
    ValueOfToString(year);
    ValueOfToString(other);
    if ToString(year) == ToString(other) { ToStringIsInjective(year, other); }
    HyphenMeetsDigit(kind, ToString(year), ToString(other), PadStart(ToString(n), WIDTH));
  }

  /** Sales and refunds of one year do not disturb the numbers of another. */
  lemma YearsAreIndependent(stored: set<string>, year: nat, other: nat, n: nat)
    requires year != other
    ensures Next(stored + {Number(SalePrefix(year), n)}, SalePrefix(other)) == Next(stored, SalePrefix(other))
    ensures Next(stored + {Number(RefundPrefix(year), n)}, RefundPrefix(other)) == Next(stored, RefundPrefix(other))
  {
    YearIsInNumber("INV-", year, other, n);
    YearIsInNumber("REF-", year, other, n);
    OtherSequencesUndisturbed(stored, Number(SalePrefix(year), n), SalePrefix(other));
    OtherSequencesUndisturbed(stored, Number(RefundPrefix(year), n), RefundPrefix(other));
  }

  lemma LatestDependsOnCandidates(a: set<string>, b: set<string>, prefix: string)
    requires Candidates(a, prefix) == Candidates(b, prefix)
    ensures Latest(a, prefix) == Latest(b, prefix)
  {
    if Latest(a, prefix).Some? {
      LexTotal(Latest(a, prefix).value, Latest(b, prefix).value);
    }
  }

  lemma OneIsPadded()
    ensures PadStart(ToString(1), WIDTH) == "00001"
  {
    assert ToString(1) == "1" && "0" + "1" == "01" && "0" + "01" == "001" && "0" + "001" == "0001";
    assert PadStart("1", WIDTH) == PadStart("01", WIDTH) == PadStart("001", WIDTH);
    assert "0" + "0001" == "00001" && PadStart("001", WIDTH) == PadStart("0001", WIDTH) == PadStart("00001", WIDTH);
  }

  lemma FirstNumberOf(prefix: string)
    ensures Next({}, prefix) == prefix + "00001"
  {
    OneIsPadded();
    assert Candidates({}, prefix) == {};
  }

  /** The first sale, refund and document numbers of a year. */
  lemma FirstNumbers(year: nat)
    ensures Next({}, SalePrefix(year)) == "INV-" + ToString(year) + "-" + "00001"
    ensures Next({}, RefundPrefix(year)) == "REF-" + ToString(year) + "-" + "00001"
    ensures Next({}, DocumentPrefix(Quote, year)) == "QUO" + "-" + ToString(year) + "-" + "00001"
    ensures Next({}, DocumentPrefix(Proforma, year)) == "PRO" + "-" + ToString(year) + "-" + "00001"
    ensures Next({}, DocumentPrefix(Invoice, year)) == "INV" + "-" + ToString(year) + "-" + "00001"
  {
    FirstNumberOf(SalePrefix(year));
    FirstNumberOf(RefundPrefix(year));
    FirstNumberOf(DocumentPrefix(Quote, year));
    FirstNumberOf(DocumentPrefix(Proforma, year));
    FirstNumberOf(DocumentPrefix(Invoice, year));
  }
}
