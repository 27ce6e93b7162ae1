/**
 The reverse case of the page oracle. It counts numbers down, while the catalogue sorts file names;
 the two agree exactly under a condition on the catalogue's size and the anchor.
 */
module ReversePages {
  import opened PageOrder
  import opened Pager
  import opened Sequences
  import opened Sorting

  /** Later names first. */
  ghost predicate Named(s: seq<nat>) {
    forall i, j :: 0 <= i < j < |s| ==> NamedBefore(s[j], s[i])
  }

  /** What the oracle returns for an anchor. */
  function Page(sequence: nat): seq<nat> {
    Take(Kept(FilenameReverse, Down(if sequence == 0 then 0 else sequence - 1)), PAGE_SIZE)
  }

  lemma PageIs(count: nat, anchor: Anchor)
    ensures Page(anchor.sequence) == Take(Kept(FilenameReverse, Candidates(FilenameReverse, count, anchor)), PAGE_SIZE)
  {
  }

  /** Every fifth row is kept. */
  lemma {:induction false} KeptDown(first: nat)
    ensures |Kept(FilenameReverse, Down(first))| == first / 5
    ensures forall k :: 0 <= k < first / 5 ==> Kept(FilenameReverse, Down(first))[k] == 5 * (first / 5 - k)
  {
    if first > 0 {
      KeptDown(first - 1);
      assert Down(first)[1..] == Down(first - 1);
      var rest := Kept(FilenameReverse, Down(first - 1));
      if first % 5 == 0 {
        assert Kept(FilenameReverse, Down(first)) == [first] + rest && first / 5 == (first - 1) / 5 + 1;
      } else {
        assert Kept(FilenameReverse, Down(first)) == rest && first / 5 == (first - 1) / 5;
      }
    }
  }

  /** How many rows the filter keeps before the anchor. */
  function KeptBefore(sequence: nat): nat { if sequence == 0 then 0 else (sequence - 1) / 5 }

  /** The last row of a full page, and zero for a shorter one. */
  function Floor(sequence: nat): nat {
    if KeptBefore(sequence) >= PAGE_SIZE then 5 * (KeptBefore(sequence) - PAGE_SIZE + 1) else 0
  }

  /** The page holds exactly the kept rows from its floor up to the anchor, downwards. */
  lemma PageHas(sequence: nat)
    ensures var n := KeptBefore(sequence);
            && |Page(sequence)| == (if n < PAGE_SIZE then n else PAGE_SIZE)
            && (forall k :: 0 <= k < |Page(sequence)| ==> Page(sequence)[k] == 5 * (n - k))
            && (n >= PAGE_SIZE ==> Page(sequence)[PAGE_SIZE - 1] == Floor(sequence))
    ensures forall i: nat :: i in Page(sequence) <==>
              1 <= i < sequence && Selects(FilenameReverse, i) && Floor(sequence) <= i
  {
    hide Kept, Down;
    var n, page := KeptBefore(sequence), Page(sequence);
    KeptDown(if sequence == 0 then 0 else sequence - 1);
    forall i: nat
      ensures i in page <==> 1 <= i < sequence && Selects(FilenameReverse, i) && Floor(sequence) <= i
    {
      if 1 <= i < sequence && i % 5 == 0 && Floor(sequence) <= i {
        assert page[n - i / 5] == i;
      }
    }
  }

  // ---------------------------------------------------------------- the sorted catalogue

  lemma SortedNamed(count: nat, anchor: Anchor, sorted: seq<nat>)
    requires SortedRows(sorted, FilenameReverse, count, anchor)
    ensures Named(sorted)
    ensures forall i: nat :: i in sorted <==>
              1 <= i <= count && Selects(FilenameReverse, i) && NamedBefore(i, anchor.sequence)
  {
    hide Precedes, NamedBefore, Selects, PositionOf;
    FollowingHas(FilenameReverse, count, anchor);
    SameElements(sorted, Following(FilenameReverse, count, anchor));
    forall i, j | 0 <= i < j < |sorted| ensures NamedBefore(sorted[j], sorted[i]) {
      RowsInNumbers(FilenameReverse, sorted[i], sorted[j]);
    }
  }

  /** A list in the same order, with nothing between its rows and the rest, is how the sorted list begins. */
  lemma {:induction false} PrefixOfNamed(page: seq<nat>, sorted: seq<nat>)
    requires Named(page) && Named(sorted) && forall i :: i in page ==> i in sorted
    requires forall i, p :: i in sorted && i !in page && p in page ==> NamedBefore(i, p)
    ensures page <= sorted
  {
    hide NamedBefore;
    if page != [] {
      assert page[0] in page && sorted[0] in sorted;
      FirstNamed(page, sorted[0]);
      FirstNamed(sorted, page[0]);
      NamedOrder(page[0], sorted[0], page[0]);
      assert sorted[0] == page[0];
      forall i
        ensures i in page[1..] <==> i in page && i != page[0]
        ensures i in sorted[1..] <==> i in sorted && i != page[0]
      {
        RestNamed(page, i);
        RestNamed(sorted, i);
      }
      PrefixOfNamed(page[1..], sorted[1..]);
      assert page == [page[0]] + page[1..] && sorted == [page[0]] + sorted[1..];
    }
  }

  lemma FirstNamed(s: seq<nat>, x: nat)
    requires Named(s) && s != []
    ensures x in s ==> x == s[0] || NamedBefore(x, s[0])
  {
  }

  lemma RestNamed(s: seq<nat>, x: nat)
    requires Named(s) && s != []
    ensures x in s[1..] <==> x in s && x != s[0]
  {
    hide NamedBefore;
    NamedOrder(s[0], s[0], s[0]);
    assert s == [s[0]] + s[1..];
    if x in s[1..] {
      var k :| 0 <= k < |s| - 1 && s[1..][k] == x;
      assert s[k + 1] == x;
    }
  }

  lemma NotEarlier(s: seq<nat>, n: nat)
    requires Named(s) && n < |s|
    ensures s[n] !in s[..n]
  {
    hide NamedBefore;
    forall k | 0 <= k < n ensures s[k] != s[n] {
      NamedOrder(s[n], s[n], s[n]);
      assert NamedBefore(s[n], s[k]);
    }
  }

  lemma TakeHas(s: seq<nat>, n: nat, k: nat)
    requires k < |s|
    ensures k < n ==> s[k] in Take(s, n)
    ensures forall x :: x in Take(s, n) ==> x in s
  {
    if k < n { assert Take(s, n)[k] == s[k]; }
  }

  /** If besides that a page shorter than two hundred leaves no row out, it is the sorted page. */
  lemma PageOfNamed(page: seq<nat>, sorted: seq<nat>)
    requires |page| <= PAGE_SIZE && Named(page) && Named(sorted) && forall i :: i in page ==> i in sorted
    requires forall i, p :: i in sorted && i !in page && p in page ==> NamedBefore(i, p)
    requires |page| < PAGE_SIZE ==> forall i :: i in sorted ==> i in page
    ensures page == Take(sorted, PAGE_SIZE)
  {
    hide NamedBefore;
    PrefixOfNamed(page, sorted);
    if |page| < |sorted| && |page| < PAGE_SIZE {
      assert sorted[|page|] in sorted;
      NotEarlier(sorted, |page|);
    }
  }

  /** A row of the catalogue that a right page leaves out comes behind its last row. */
  lemma LeftOut(sorted: seq<nat>, x: nat)
    requires Named(sorted) && x in sorted && x !in Take(sorted, PAGE_SIZE)
    ensures |sorted| > PAGE_SIZE && NamedBefore(x, sorted[PAGE_SIZE - 1])
  {
    hide NamedBefore;
    var k :| 0 <= k < |sorted| && sorted[k] == x;
    TakeHas(sorted, PAGE_SIZE, k);
  }

  // ---------------------------------------------------------------- anchors of up to twelve digits

  /** The filter keeps nothing between the catalogue's end and the anchor. */
  ghost predicate NothingBeyond(count: nat, sequence: nat) {
    forall i: nat :: count < i < sequence ==> !Selects(FilenameReverse, i)
  }

  /** A longer number whose first twelve digits fall in the page. */
  predicate Intrudes(j: nat, sequence: nat) {
    WIDEST <= j && Selects(FilenameReverse, j) && Floor(sequence) <= Leading(j, WidthOf(j, 12) - 12) < sequence
  }

  ghost predicate NoIntruder(count: nat, sequence: nat) {
    forall j: nat :: j <= count ==> !Intrudes(j, sequence)
  }

  /** The first number of thirteen digits intrudes on the page from just after its first twelve digits. */
  lemma FirstIntruder()
    ensures Intrudes(WIDEST, WIDEST / 10 + 1)
  {
    hide Length;
    LengthOfWidest();
    assert Leading(WIDEST, 1) == Leading(WIDEST / 10, 0);
  }

  lemma NamedLong(j: nat, p: nat)
    requires p < WIDEST <= j
    ensures NamedBefore(j, p) <==> Leading(j, WidthOf(j, 12) - 12) < p
  {
    hide Leading, Length;
    NamedShort(p, p);
    WideLength(j);
  }

  lemma PageNamed(sequence: nat)
    requires sequence < WIDEST
    ensures Named(Page(sequence))
  {
    hide Page, NamedBefore;
    PageHas(sequence);
    var page := Page(sequence);
    forall i, j | 0 <= i < j < |page| ensures NamedBefore(page[j], page[i]) {
      assert page[i] in page && page[j] in page;
      NamedShort(page[j], page[i]);
    }
  }

  /** A row of the sorted catalogue outside the page comes behind every row of it. */
  lemma Behind(count: nat, sequence: nat, i: nat, p: nat)
    requires sequence < WIDEST && NoIntruder(count, sequence)
    requires 1 <= i <= count && Selects(FilenameReverse, i) && NamedBefore(i, sequence) && i !in Page(sequence)
    ensures Floor(sequence) > 0
    ensures p in Page(sequence) ==> NamedBefore(i, p)
  {
    hide Page, NamedBefore, Leading, Floor;
    PageHas(sequence);
    if i < WIDEST {
      NamedShort(i, sequence);
      if p in Page(sequence) { NamedShort(i, p); }
    } else {
      NamedLong(i, sequence);
      assert !Intrudes(i, sequence);
      if p in Page(sequence) { NamedLong(i, p); }
    }
  }

  lemma ShortAnchorRight(count: nat, anchor: Anchor, sorted: seq<nat>)
    requires anchor.sequence < WIDEST && SortedRows(sorted, FilenameReverse, count, anchor)
    requires NothingBeyond(count, anchor.sequence) && NoIntruder(count, anchor.sequence)
    ensures Page(anchor.sequence) == Take(sorted, PAGE_SIZE)
  {
    hide Page, NamedBefore, SortedRows, NoIntruder, Selects;
    var a, page := anchor.sequence, Page(anchor.sequence);
    SortedNamed(count, anchor, sorted);
    PageHas(a);
    PageNamed(a);
    forall i | i in page ensures i in sorted { NamedShort(i, a); }
    forall i, p | i in sorted && i !in page && p in page ensures NamedBefore(i, p) { Behind(count, a, i, p); }
    if |page| < PAGE_SIZE {
      forall i | i in sorted ensures i in page {
        if i !in page { Behind(count, a, i, i); }
      }
    }
    PageOfNamed(page, sorted);
  }

  lemma BeyondWrong(count: nat, anchor: Anchor, sorted: seq<nat>, i: nat)
    requires SortedRows(sorted, FilenameReverse, count, anchor)
    requires count < i < anchor.sequence && Selects(FilenameReverse, i)
    ensures Page(anchor.sequence) != Take(sorted, PAGE_SIZE)
  {
    hide Page, NamedBefore, SortedRows;
    var a, page := anchor.sequence, Page(anchor.sequence);
    SortedNamed(count, anchor, sorted);
    PageHas(a);
    assert page[0] >= i && page[0] in page;
    if sorted != [] { TakeHas(sorted, PAGE_SIZE, 0); }
  }

  lemma IntruderWrong(count: nat, anchor: Anchor, sorted: seq<nat>, j: nat)
    requires anchor.sequence < WIDEST && SortedRows(sorted, FilenameReverse, count, anchor)
    requires j <= count && Intrudes(j, anchor.sequence)
    ensures Page(anchor.sequence) != Take(sorted, PAGE_SIZE)
  {
    hide Page, NamedBefore, SortedRows, Leading;
    var a, page := anchor.sequence, Page(anchor.sequence);
    SortedNamed(count, anchor, sorted);
    PageHas(a);
    NamedLong(j, a);
    if page == Take(sorted, PAGE_SIZE) {
      LeftOut(sorted, j);
      assert page[PAGE_SIZE - 1] == sorted[PAGE_SIZE - 1];
      NamedLong(j, Floor(a));
    }
  }

  // ---------------------------------------------------------------- longer anchors

  /** A tenth of a number, rounded down to a kept row. */
  function Tenth(a: nat): nat { 5 * (a / 50) }

  lemma TenthNear(a: nat)
    requires a >= 1000
    ensures a / 10 - 4 <= Tenth(a) <= a / 10 < a && Selects(FilenameReverse, Tenth(a)) && 1 <= Tenth(a)
  {
    var q, r := a / 50, a % 50;
    assert a == 50 * q + r;
    assert a / 10 == 5 * q + r / 10;
  }

  lemma FloorNear(a: nat)
    requires a >= WIDEST
    ensures a - 1001 <= Floor(a) <= a - 996
  {
    var n := (a - 1) / 5;
    assert a - 5 <= 5 * n <= a - 1;
  }

  lemma TenthsApart(a: nat, m: nat)
    requires m + 996 <= a
    ensures m / 10 < a / 10 - 4
  {
    assert 10 * (m / 10) <= m && a < 10 * (a / 10) + 10;
  }

  lemma OneDigitLess(a: nat)
    requires a > 0
    ensures Length(a) == Length(a / 10) + 1 && Leading(a, 1) == a / 10
    ensures Length(a / 10) > 0 ==> Pow10(Length(a / 10) - 1) <= a / 10
  {
    assert Leading(a, 1) == Leading(a / 10, 0);
  }

  lemma TenthLength(a: nat)
    requires a >= WIDEST
    ensures Length(Tenth(a)) == Length(a / 10)
  {
    hide Length, Leading, Pow10, Tenth, Selects;
    var j, w := Tenth(a), Length(a / 10);
    WideLength(a);
    TenthNear(a);
    OneDigitLess(a);
    LengthGrows(j, a / 10);
    if Length(j) < w {
      PowGrows(Length(j), w - 1);
      PowerOfTen(w - 1);
      FiveBelow(a, Pow10(w - 1) / 10);
    }
  }

  lemma LengthBelow(a: nat)
    requires a >= WIDEST
    ensures Length(Tenth(a)) + 1 == Length(a) && Extra(Tenth(a), a) == 1 && Leading(a, 1) == a / 10
  {
    hide Length, Leading, Pow10, Tenth;
    WideLength(a);
    OneDigitLess(a);
    TenthLength(a);
  }

  lemma PowerOfTen(n: nat)
    requires n > 0
    ensures Pow10(n) == 10 * (Pow10(n) / 10)
  {
    assert Pow10(n) == 10 * Pow10(n - 1);
  }

  lemma FiveBelow(a: nat, y: nat)
    requires 10 * y <= a / 10
    ensures 10 * y <= Tenth(a)
  {
    var q, r, t := a / 50, a % 50, a % 10;
    assert a == 50 * q + r && a == 10 * (a / 10) + t;
    assert 50 * (2 * y) <= a < 50 * (q + 1);
  }

  /** Cutting off a digit leaves at most a tenth. */
  lemma {:induction false} LeadingSmall(a: nat, d: nat)
    requires d > 0
    ensures Leading(a, d) <= a / 10
  {
    assert Leading(a, d) == Leading(a / 10, d - 1);
    LeadingAtMost(a / 10, d - 1);
  }

  lemma {:induction false} LeadingAtMost(a: nat, d: nat)
    ensures Leading(a, d) <= a
  {
    if d > 0 { LeadingAtMost(a / 10, d - 1); }
  }

  /** The last row of a page from there has as many digits as the anchor, or does not follow it at all. */
  lemma SameWidth(a: nat, m: nat)
    requires a >= WIDEST && a - 1001 <= m < a && NamedBefore(m, a)
    ensures WidthOf(m, 12) == WidthOf(a, 12)
  {
    hide Length, Leading;
    if Extra(m, a) > 0 { LeadingSmall(a, Extra(m, a)); }
    LengthGrows(m, a);
  }

  /** A tenth of the anchor is named between the page's last row and the anchor. */
  lemma TenthBetween(a: nat, m: nat)
    requires a >= WIDEST && m == Floor(a) && NamedBefore(m, a)
    ensures var j := Tenth(a);
            && 1 <= j < m < a && Selects(FilenameReverse, j)
            && NamedBefore(j, a) && NamedBefore(m, j)
  {
    hide Length, Pow10, Tenth, Floor, Selects;
    var j := Tenth(a);
    FloorNear(a);
    TenthNear(a);
    TenthsApart(a, m);
    LengthBelow(a);
    SameWidth(a, m);
    WideLength(a);
    LengthGrows(j, m);
    assert Extra(j, m) == 1;
    assert Leading(m, 1) == Leading(m / 10, 0) == m / 10 < j;
    NamedOrder(j, m, j);
  }

  lemma LongAnchorWrong(count: nat, anchor: Anchor, sorted: seq<nat>)
    requires anchor.sequence >= WIDEST && SortedRows(sorted, FilenameReverse, count, anchor)
    ensures Page(anchor.sequence) != Take(sorted, PAGE_SIZE)
  {
    hide Page, NamedBefore, SortedRows, Selects, Floor, Tenth;
    var a, page := anchor.sequence, Page(anchor.sequence);
    SortedNamed(count, anchor, sorted);
    PageHas(a);
    if page == Take(sorted, PAGE_SIZE) {
      var m, j := page[PAGE_SIZE - 1], Tenth(a);
      assert m == sorted[PAGE_SIZE - 1] && m in sorted;
      TenthBetween(a, m);
      assert j in sorted && j !in page;
      LeftOut(sorted, j);
      NamedOrder(j, m, j);
    }
  }

  // ---------------------------------------------------------------- every page

  /** Exactly when the oracle's page is right. */
  ghost predicate RightPage(c: Case, count: nat, sequence: nat) {
    c.FilenameReverse? ==> sequence < WIDEST && NothingBeyond(count, sequence) && NoIntruder(count, sequence)
  }

  /**
   The oracle's page is the first two hundred rows of the filtered and sorted catalogue: in every case
   but the reverse one always; there, exactly if the anchor has at most twelve digits, the filter keeps
   nothing between the catalogue's end and the anchor, and no longer number is named within the page.
   */
  lemma PageIsNaive(c: Case, count: nat, anchor: Anchor, sorted: seq<nat>)
    requires DayFits(c, anchor) && SortedRows(sorted, c, count, anchor)
    ensures Take(Kept(c, Candidates(c, count, anchor)), PAGE_SIZE) == Take(sorted, PAGE_SIZE)
            <==> RightPage(c, count, anchor.sequence)
  {
    hide Candidates, Kept, SortedRows, Page, Intrudes, Selects;
    if !c.FilenameReverse? {
      ForwardPage(c, count, anchor, sorted);
    } else {
      var a := anchor.sequence;
      PageIs(count, anchor);
      if a >= WIDEST {
        LongAnchorWrong(count, anchor, sorted);
      } else if RightPage(c, count, a) {
        ShortAnchorRight(count, anchor, sorted);
      } else if i: nat :| count < i < a && Selects(FilenameReverse, i) {
        BeyondWrong(count, anchor, sorted, i);
      } else {
        var j: nat :| j <= count && Intrudes(j, a);
        IntruderWrong(count, anchor, sorted, j);
      }
    }
  }

  /** Catalogues of up to twelve digits have no such numbers. */
  lemma NoIntruderBelow(count: nat, sequence: nat)
    requires count < WIDEST
    ensures NoIntruder(count, sequence)
  {
  }

  /** There the reverse page from beyond the catalogue is right exactly when the filter keeps nothing in between. */
  lemma ReversePageFromOutside(count: nat, anchor: Anchor, sorted: seq<nat>)
    requires count < anchor.sequence < WIDEST && SortedRows(sorted, FilenameReverse, count, anchor)
    ensures Take(Kept(FilenameReverse, Candidates(FilenameReverse, count, anchor)), PAGE_SIZE)
            == Take(sorted, PAGE_SIZE)
            <==> NothingBeyond(count, anchor.sequence)
  {
    hide Candidates, Kept, SortedRows, NothingBeyond;
    NoIntruderBelow(count, anchor.sequence);
    PageIsNaive(FilenameReverse, count, anchor, sorted);
  }

  const LATER: (nat, nat) -> bool := (i: nat, j: nat) => i == j || NamedBefore(j, i)

  lemma LaterOrders()
    ensures TotalPreorder(LATER)
  {
    forall i: nat, j: nat ensures LATER(i, j) || LATER(j, i) { NamedOrder(i, j, i); }
    forall i: nat, j: nat, k: nat | LATER(i, j) && LATER(j, k) ensures LATER(i, k) { NamedOrder(k, j, i); }
  }

  /** Every filtered catalogue has a sorted arrangement. */
  lemma NaiveExists(c: Case, count: nat, anchor: Anchor) returns (sorted: seq<nat>)
    requires DayFits(c, anchor)
    ensures SortedRows(sorted, c, count, anchor)
  {
    hide Precedes, Candidates, Kept, NamedBefore, Selects;
    if !c.FilenameReverse? {
      ForwardExists(c, count, anchor);
      sorted := Kept(c, Candidates(c, count, anchor));
    } else {
      var rows := Following(c, count, anchor);
      FollowingHas(c, count, anchor);
      sorted := Sort(rows, LATER);
      LaterOrders();
      SortSorts(rows, LATER);
      DistinctPermutation(rows, sorted);
      forall i, j | 0 <= i < j < |sorted| ensures Precedes(c, PositionOf(c, sorted[i]), PositionOf(c, sorted[j])) {
        assert LATER(sorted[i], sorted[j]);
        RowsInNumbers(c, sorted[i], sorted[j]);
      }
    }
  }

  /** From row 6, the page of an empty catalogue should be empty, but it holds row 5. */
  lemma ReversePageWrong()
    ensures SortedRows([], FilenameReverse, 0, Anchor(0, 6))
    ensures Take(Kept(FilenameReverse, Candidates(FilenameReverse, 0, Anchor(0, 6))), PAGE_SIZE) != Take([], PAGE_SIZE)
  {
    PageIs(0, Anchor(0, 6));
    BeyondWrong(0, Anchor(0, 6), [], 5);
  }
}
