/** The arithmetic page oracle: it walks strides of sequence numbers instead of sorting the catalogue. */
module Pager {
  import opened CatalogueQueries
  import opened PageOrder
  import opened Sequences
  import opened Sorting

  const PAGE_SIZE := 200

  /** Which rows of the synthetic catalogue a case's filter keeps. */
  predicate Selects(c: Case, i: nat) {
    match c
    case Browse => true
    case FolderRecursive => true
    case RatingSort => true
    case RatingFour => i % 6 == 4
    case CaptureRating => i % 6 == 4
    case FilenameReverse => i % 5 == 0
    case TextSearch => i % 5 == 0
    case Keyword => i % 7 == 1
    case WideKeyword => i % 10000 == 1000
    case Collection => i % 11 == 3
    case Mixed => i % 420 == 400 && 4 <= i % 28 < 19
    case TextCapture => i % 20 == 0
    case CameraLens => i % 12 == 4
    case DateCamera => i % 3 == 1 && 4 <= i % 28 < 19
    case LabelFlag => i % 6 == 4
    case Folder => i % 5 == 1
    case Conflicted => i % 97 == 0
  }

  lemma Modulo2(k: nat, r: nat)
    ensures (2 * k + r) % 2 == r % 2
  {
  }

  lemma Modulo3(k: nat, r: nat)
    ensures (3 * k + r) % 3 == r % 3
  {
  }

  lemma Modulo4(k: nat, r: nat)
    ensures (4 * k + r) % 4 == r % 4
  {
  }

  lemma Modulo5(k: nat, r: nat)
    ensures (5 * k + r) % 5 == r % 5
  {
  }

  lemma Modulo7(k: nat, r: nat)
    ensures (7 * k + r) % 7 == r % 7
  {
  }

  lemma Below12(r: nat)
    requires r < 12
    ensures r == 4 <==> r % 3 == 1 && r % 4 == 0
  {
  }

  lemma Twelfth(i: nat)
    ensures i % 12 == 4 <==> i % 3 == 1 && i % 4 == 0
  {
    Modulo3(4 * (i / 12), i % 12);
    Modulo4(3 * (i / 12), i % 12);
    Below12(i % 12);
  }

  lemma EvenFourth(i: nat)
    ensures i % 4 == 0 ==> i % 2 == 0
  {
    Modulo2(2 * (i / 4), i % 4);
  }

  lemma Below6(r: nat)
    requires r < 6
    ensures r == 4 <==> r % 3 == 1 && r % 2 == 0
  {
  }

  lemma Sixth(i: nat)
    ensures i % 6 == 4 <==> i % 3 == 1 && i % 2 == 0
  {
    Modulo3(2 * (i / 6), i % 6);
    Modulo2(3 * (i / 6), i % 6);
    Below6(i % 6);
  }

  lemma Below20(r: nat)
    requires r < 20
    ensures r == 0 <==> r % 5 == 0 && r % 4 == 0
  {
  }

  lemma Twentieth(i: nat)
    ensures i % 20 == 0 <==> i % 5 == 0 && i % 4 == 0
  {
    Modulo5(4 * (i / 20), i % 20);
    Modulo4(5 * (i / 20), i % 20);
    Below20(i % 20);
  }

  lemma Below21(k: nat)
    requires k < 21
    ensures k == 20 <==> 6 * k % 7 == 1 && 2 * k % 3 == 1
  {
  }

  lemma Below420(r: nat)
    requires r < 420 && r % 20 == 0
    ensures r == 400 <==> r % 7 == 1 && r % 3 == 1
  {
    var k := r / 20;
    assert r == 7 * (2 * k) + 6 * k && r == 3 * (6 * k) + 2 * k;
    Modulo7(2 * k, 6 * k);
    Modulo3(6 * k, 2 * k);
    Below21(k);
  }

  lemma Modulo20(k: nat, r: nat)
    ensures (20 * k + r) % 20 == r % 20
  {
  }

  /** The one remainder that fits twenty, seven and three at once. */
  lemma Remainder420(i: nat)
    ensures i % 420 == 400 <==> i % 20 == 0 && i % 7 == 1 && i % 3 == 1
  {
    var q, r := i / 420, i % 420;
    Modulo20(21 * q, r);
    Modulo7(60 * q, r);
    Modulo3(140 * q, r);
    if r % 20 == 0 { Below420(r); }
  }

  /** Which rows satisfy the query of a case. */
  predicate Asks(c: Case, i: nat) { Satisfies(FixtureRow(i), QueryOf(c)) }

  lemma AsksPlain(i: nat)
    ensures Asks(Browse, i) && Asks(RatingSort, i) && Asks(FolderRecursive, i)
  {
    hide FixtureRow, TextMatches, Belongs, TextLess, DateKey, UpperText;
    Anything(FixtureRow(i).title);
    FolderMembers(i);
  }

  lemma AsksNumber(i: nat)
    ensures Asks(RatingFour, i) == Asks(CaptureRating, i) == (i % 6 == 4)
    ensures Asks(Folder, i) == (i % 5 == 1)
  {
    hide FixtureRow, TextMatches, Belongs, TextLess, DateKey, UpperText;
    Anything(FixtureRow(i).title);
    Attributes(i);
  }

  lemma AsksMember(i: nat)
    ensures Asks(Collection, i) == (i % 11 == 3) && Asks(Conflicted, i) == (i % 97 == 0)
  {
    hide FixtureRow, TextMatches, Belongs, TextLess, DateKey, UpperText;
    Anything(FixtureRow(i).title);
    Attributes(i);
  }

  lemma AsksText(i: nat)
    ensures Asks(FilenameReverse, i) == Asks(TextSearch, i) == (i % 5 == 0)
    ensures Asks(TextCapture, i) == (i % 5 == 0 && i % 4 == 0)
    ensures Asks(Keyword, i) == (i % 7 == 1) && Asks(WideKeyword, i) == (i % 10000 == 1000)
  {
    hide FixtureRow, TextMatches, Belongs, TextLess, DateKey, UpperText, Sunset, SunsetStart;
    TitleBlue(i);
    LensZero(i);
    KeywordHeld(i);
  }

  lemma AsksCamera(i: nat)
    ensures Asks(CameraLens, i) == (i % 3 == 1 && i % 4 == 0 && i % 2 == 0)
    ensures Asks(DateCamera, i) == (i % 3 == 1 && 4 <= i % 28 < 19)
    ensures Asks(LabelFlag, i) == (i % 2 == 0 && i % 3 == 1)
  {
    hide FixtureRow, TextMatches, Belongs, TextLess, DateKey, UpperText;
    Attributes(i);
    TitleBlue(i);
    CameraOne(i);
    LensZero(i);
    FormatJpeg(i);
    LabelRed(i);
    DaysFit(i);
  }

  /** What the query of the mixed case asks, attribute by attribute. */
  lemma MixedParts(row: Row)
    ensures Satisfies(row, QueryOf(Mixed)) <==>
              && TextMatches(Sunset(), row.title) && Belongs(row.keywords, 3, false)
              && row.rating == 4 && row.flag == Pick
              && row.mark == "red" && row.make == "fixture" && row.camera == "camera1" && row.lens == "lens0"
              && row.format == UpperText("jpeg")
              && !TextLess(row.capture, DateKey("2024-01-05")) && TextLess(row.capture, DateKey("2024-01-20"))
  {
    hide TextMatches, Belongs, TextLess, DateKey, UpperText, Sunset;
  }

  lemma AsksMixed(i: nat)
    ensures Asks(Mixed, i) == (i % 5 == 0 && i % 7 == 1 && i % 6 == 4 && i % 3 == 1 && i % 2 == 0 && i % 4 == 0
                               && 4 <= i % 28 < 19)
  {
    hide FixtureRow, TextMatches, Belongs, TextLess, DateKey, UpperText, Sunset, Satisfies, QueryOf;
    MixedParts(FixtureRow(i));
    Attributes(i);
    TitleBlue(i);
    CameraOne(i);
    LensZero(i);
    FormatJpeg(i);
    LabelRed(i);
    DaysFit(i);
    KeywordHeld(i);
  }

  /** The filter keeps exactly the rows whose attributes satisfy the case's query. */
  lemma SelectsExactly(c: Case, i: nat)
    ensures Selects(c, i) <==> Satisfies(FixtureRow(i), QueryOf(c))
  {
    hide Satisfies, FixtureRow, QueryOf;
    AsksPlain(i);
    AsksNumber(i);
    AsksMember(i);
    AsksText(i);
    AsksCamera(i);
    AsksMixed(i);
    Twelfth(i);
    EvenFourth(i);
    Sixth(i);
    Twentieth(i);
    Remainder420(i);
    assert Asks(c, i) == Satisfies(FixtureRow(i), QueryOf(c));
    hide Asks;
  }

  lemma Attributes(i: nat)
    ensures var row := FixtureRow(i);
            && row.folder == 2 + i % 5 && row.make == "fixture" && row.rating == i % 6
            && (row.flag == Pick <==> i % 3 == 1) && ("fixture-collection" in row.collections <==> i % 11 == 3)
            && (row.conflicts != [] <==> i % 97 == 0)
  {
    hide FileText, DayText;
  }

  // ---------------------------------------------------------------- candidate generators

  /** `range(first, past, step)`. */
  function Stride(first: nat, past: nat, step: nat): seq<nat>
    requires step > 0
    decreases past - first
  {
    if first >= past then [] else [first] + Stride(first + step, past, step)
  }

  /** `range(first, 0, -1)`. */
  function Down(first: nat): seq<nat> { if first == 0 then [] else [first] + Down(first - 1) }

  /** How far the first row of a bucket lies above `lower`. */
  function Gap(m: nat, bucket: nat, lower: nat): nat {
    if m == 28 then (bucket - lower % 28) % 28 else if m == 6 then (bucket - lower % 6) % 6 else 0
  }

  /** The rows of one bucket from `lower` on. */
  function BucketRows(m: nat, bucket: nat, lower: nat, count: nat): seq<nat>
    requires m > 0
  {
    Stride(lower + Gap(m, bucket, lower), count + 1, m)
  }

  /** Bucket by bucket; only the anchor's own bucket starts after the anchor. */
  function Ordered(m: nat, bucket: nat, anchor: Anchor, count: nat): seq<nat>
    requires m > 0
    decreases m - bucket
  {
    if bucket >= m then []
    else BucketRows(m, bucket, if bucket == anchor.bucket then anchor.sequence + 1 else 1, count)
         + Ordered(m, bucket + 1, anchor, count)
  }

  function Candidates(c: Case, count: nat, anchor: Anchor): seq<nat> {
    if Buckets(c) > 1 then Ordered(Buckets(c), anchor.bucket, anchor, count)
    else if c.FilenameReverse? then Down(if anchor.sequence == 0 then 0 else anchor.sequence - 1)
    else Stride(anchor.sequence + 1, count + 1, 1)
  }

  function Kept(c: Case, s: seq<nat>): seq<nat> {
    if s == [] then [] else (if Selects(c, s[0]) then [s[0]] else []) + Kept(c, s[1..])
  }

  function Take(s: seq<nat>, n: nat): seq<nat> { if |s| <= n then s else s[..n] }

  /** The collection loop, which stops at a full page. */
  method ExpectedSequences(c: Case, count: nat, anchor: Anchor) returns (result: seq<nat>)
    ensures result == Take(Kept(c, Candidates(c, count, anchor)), PAGE_SIZE)
  {
    hide Selects, Candidates;
    var candidates := Candidates(c, count, anchor);
    result := [];
    for k := 0 to |candidates|
      invariant |result| < PAGE_SIZE
      invariant Kept(c, candidates) == result + Kept(c, candidates[k..])
    {
      var i := candidates[k];
      KeptNext(c, candidates, k);
      if Selects(c, i) {
        result := result + [i];
        if |result| == PAGE_SIZE { return; }
      }
    }
  }

  lemma KeptNext(c: Case, s: seq<nat>, k: nat)
    requires k < |s|
    ensures Kept(c, s[k..]) == (if Selects(c, s[k]) then [s[k]] else []) + Kept(c, s[k + 1..])
  {
    assert s[k..][1..] == s[k + 1..];
  }

  // ---------------------------------------------------------------- what the generators produce

  /** Strict page order, in numbers. */
  ghost predicate Increasing(s: seq<nat>, c: Case) {
    forall i, j :: 0 <= i < j < |s| ==> NumberedAfter(c, Bucket(s[i], Buckets(c)), s[i], s[j])
  }

  predicate Step(m: nat) { m == 28 || m == 6 || m == 1 }

  lemma InClass28(a: nat, i: nat)
    ensures (a + 28) % 28 == a % 28
    ensures a < i < a + 28 ==> i % 28 != a % 28
  {
  }

  lemma InClass6(a: nat, i: nat)
    ensures (a + 6) % 6 == a % 6
    ensures a < i < a + 6 ==> i % 6 != a % 6
  {
  }

  lemma InClass(a: nat, i: nat, m: nat)
    requires Step(m)
    ensures Bucket(a + m, m) == Bucket(a, m)
    ensures a < i < a + m ==> Bucket(i, m) != Bucket(a, m)
  {
    if m == 28 { InClass28(a, i); } else if m == 6 { InClass6(a, i); }
  }

  /** Exactly the numbers of one bucket in the range, in order. */
  lemma {:induction false} StrideHas(first: nat, past: nat, step: nat)
    requires Step(step)
    ensures forall i: nat :: i in Stride(first, past, step) <==>
              first <= i < past && Bucket(i, step) == Bucket(first, step)
    ensures forall i, j :: 0 <= i < j < |Stride(first, past, step)| ==>
              Stride(first, past, step)[i] < Stride(first, past, step)[j]
    decreases past - first
  {
    hide Bucket;
    if first < past {
      var rest := Stride(first + step, past, step);
      StrideHas(first + step, past, step);
      forall i: nat
        ensures i in Stride(first, past, step) <==> first <= i < past && Bucket(i, step) == Bucket(first, step)
      {
        InClass(first, i, step);
        assert i in Stride(first, past, step) <==> i == first || i in rest;
      }
      forall j | 0 <= j < |rest| ensures first < rest[j] { assert rest[j] in rest; }
    }
  }

  lemma FirstOf28(bucket: nat, lower: nat, i: nat)
    requires bucket < 28
    ensures (lower + (bucket - lower % 28) % 28) % 28 == bucket
    ensures lower <= i && i % 28 == bucket ==> lower + (bucket - lower % 28) % 28 <= i
  {
    var r := lower % 28;
    assert (bucket - r) % 28 == if bucket >= r then bucket - r else bucket - r + 28;
  }

  lemma FirstOf6(bucket: nat, lower: nat, i: nat)
    requires bucket < 6
    ensures (lower + (bucket - lower % 6) % 6) % 6 == bucket
    ensures lower <= i && i % 6 == bucket ==> lower + (bucket - lower % 6) % 6 <= i
  {
    var r := lower % 6;
    assert (bucket - r) % 6 == if bucket >= r then bucket - r else bucket - r + 6;
  }

  /** The stride starts at the first row of the bucket that is not below `lower`. */
  lemma FirstOfBucket(m: nat, bucket: nat, lower: nat, i: nat)
    requires Step(m) && bucket < m
    ensures Bucket(lower + Gap(m, bucket, lower), m) == bucket
    ensures lower <= i && Bucket(i, m) == bucket ==> lower + Gap(m, bucket, lower) <= i
  {
    if m == 28 { FirstOf28(bucket, lower, i); } else if m == 6 { FirstOf6(bucket, lower, i); }
  }

  lemma BucketRowsHas(m: nat, bucket: nat, lower: nat, count: nat)
    requires Step(m) && bucket < m
    ensures forall i: nat :: i in BucketRows(m, bucket, lower, count) <==> lower <= i <= count && Bucket(i, m) == bucket
    ensures var rows := BucketRows(m, bucket, lower, count); forall i, j :: 0 <= i < j < |rows| ==> rows[i] < rows[j]
  {
    hide Bucket, Gap;
    var first := lower + Gap(m, bucket, lower);
    StrideHas(first, count + 1, m);
    forall i: nat ensures i in BucketRows(m, bucket, lower, count) <==> lower <= i <= count && Bucket(i, m) == bucket {
      FirstOfBucket(m, bucket, lower, i);
    }
  }

  /** All rows that follow the anchor, in page order. */
  ghost predicate Exact(s: seq<nat>, c: Case, count: nat, anchor: Anchor) {
    && Increasing(s, c)
    && forall i: nat :: i in s <==> 1 <= i <= count && NumberedAfter(c, anchor.bucket, anchor.sequence, i)
  }

  lemma {:induction false} OrderedHas(c: Case, bucket: nat, anchor: Anchor, count: nat)
    requires Buckets(c) > 1 && anchor.bucket <= bucket
    ensures Increasing(Ordered(Buckets(c), bucket, anchor, count), c)
    ensures forall i: nat :: i in Ordered(Buckets(c), bucket, anchor, count) <==>
              1 <= i <= count && bucket <= Bucket(i, Buckets(c)) && NumberedAfter(c, anchor.bucket, anchor.sequence, i)
    decreases 28 - bucket
  {
    hide Bucket, Increasing, NumberedAfter;
    var m := Buckets(c);
    if bucket < m {
      var lower := if bucket == anchor.bucket then anchor.sequence + 1 else 1;
      var rows, rest := BucketRows(m, bucket, lower, count), Ordered(m, bucket + 1, anchor, count);
      BucketRowsHas(m, bucket, lower, count);
      OrderedHas(c, bucket + 1, anchor, count);
      JoinIncreasing(c, bucket, rows, rest);
      forall i: nat
        ensures lower <= i <= count && Bucket(i, m) == bucket <==>
                1 <= i <= count && Bucket(i, m) == bucket && NumberedAfter(c, anchor.bucket, anchor.sequence, i)
      {
        FromLower(c, bucket, anchor, i);
      }
    } else {
      forall i: nat ensures Bucket(i, m) < m { InBucket(i, m); }
      NoneIncreasing(c);
    }
  }

  lemma FromLower(c: Case, bucket: nat, anchor: Anchor, i: nat)
    requires Buckets(c) > 1 && anchor.bucket <= bucket
    ensures Bucket(i, Buckets(c)) == bucket ==>
              ((if bucket == anchor.bucket then anchor.sequence + 1 else 1) <= i <==>
               1 <= i && NumberedAfter(c, anchor.bucket, anchor.sequence, i))
  {
  }

  lemma InBucket(i: nat, m: nat)
    requires m > 0
    ensures Bucket(i, m) < m
  {
  }

  lemma NoneIncreasing(c: Case)
    ensures Increasing([], c)
  {
  }

  /** The rows of a bucket, then rows of later buckets. */
  lemma JoinIncreasing(c: Case, bucket: nat, rows: seq<nat>, rest: seq<nat>)
    requires Buckets(c) > 1 && Increasing(rest, c)
    requires forall i, j :: 0 <= i < j < |rows| ==> rows[i] < rows[j]
    requires forall i :: i in rows ==> Bucket(i, Buckets(c)) == bucket
    requires forall i :: i in rest ==> bucket < Bucket(i, Buckets(c))
    ensures Increasing(rows + rest, c)
  {
    hide Bucket;
    var m, all := Buckets(c), rows + rest;
    forall i, j | 0 <= i < j < |all| ensures NumberedAfter(c, Bucket(all[i], m), all[i], all[j]) {
      if j < |rows| {
        assert rows[i] in rows && rows[j] in rows;
      } else if i < |rows| {
        assert rows[i] in rows && rest[j - |rows|] in rest;
      } else {
        assert all[i] == rest[i - |rows|] && all[j] == rest[j - |rows|];
      }
    }
  }

  lemma {:induction false} DownHas(first: nat)
    ensures forall i: nat :: i in Down(first) <==> 1 <= i <= first
    ensures forall i, j :: 0 <= i < j < |Down(first)| ==> Down(first)[j] < Down(first)[i]
  {
    if first > 0 {
      DownHas(first - 1);
      var rest := Down(first - 1);
      forall j | 0 <= j < |rest| ensures rest[j] < first { assert rest[j] in rest; }
    }
  }

  lemma DownExact(c: Case, count: nat, anchor: Anchor)
    requires c.FilenameReverse? && anchor.sequence <= count + 1
    ensures Exact(Candidates(c, count, anchor), c, count, anchor)
  {
    hide Bucket;
    DownHas(if anchor.sequence == 0 then 0 else anchor.sequence - 1);
  }

  lemma PlainExact(c: Case, count: nat, anchor: Anchor)
    requires Buckets(c) == 1 && !c.FilenameReverse?
    ensures Exact(Candidates(c, count, anchor), c, count, anchor)
  {
    StrideHas(anchor.sequence + 1, count + 1, 1);
  }

  /**
   The generators list exactly the rows after the anchor, in page order. The reverse generator
   counts down without looking at the catalogue's size, so its anchor must lie inside it.
   */
  lemma CandidatesExact(c: Case, count: nat, anchor: Anchor)
    requires c.FilenameReverse? ==> anchor.sequence <= count + 1
    ensures Exact(Candidates(c, count, anchor), c, count, anchor)
  {
    if Buckets(c) > 1 {
      hide Bucket;
      OrderedHas(c, anchor.bucket, anchor, count);
    } else if c.FilenameReverse? {
      DownExact(c, count, anchor);
    } else {
      PlainExact(c, count, anchor);
    }
  }

  // ---------------------------------------------------------------- the naive page

  /** Filter: the rows of the catalogue that satisfy the query and follow the anchor in the serialised order. */
  ghost function Following(c: Case, count: nat, anchor: Anchor): seq<nat> {
    if count == 0 then []
    else
      Following(c, count - 1, anchor)
      + if Satisfies(FixtureRow(count), QueryOf(c)) && Precedes(c, AnchorPosition(c, anchor), PositionOf(c, count))
        then [count] else []
  }

  /** Sort: any arrangement of those rows by their serialised positions. */
  ghost predicate SortedRows(s: seq<nat>, c: Case, count: nat, anchor: Anchor) {
    && multiset(s) == multiset(Following(c, count, anchor))
    && forall i, j :: 0 <= i < j < |s| ==> Precedes(c, PositionOf(c, s[i]), PositionOf(c, s[j]))
  }

  lemma {:induction false} FollowingHas(c: Case, count: nat, anchor: Anchor)
    requires DayFits(c, anchor)
    ensures forall i: nat :: i in Following(c, count, anchor) <==>
              1 <= i <= count && Selects(c, i) && SerialAfter(c, anchor.bucket, anchor.sequence, i)
    ensures forall i, j :: 0 <= i < j < |Following(c, count, anchor)| ==>
              Following(c, count, anchor)[i] < Following(c, count, anchor)[j]
  {
    hide Selects, Satisfies, FixtureRow, SerialAfter, Precedes, AnchorPosition, PositionOf;
    if count > 0 {
      FollowingHas(c, count - 1, anchor);
      SelectsExactly(c, count);
      FollowsInNumbers(c, anchor, count);
      var front := Following(c, count - 1, anchor);
      forall i | 0 <= i < |front| ensures front[i] < count { assert front[i] in front; }
    }
  }

  lemma {:induction false} KeptHas(c: Case, s: seq<nat>)
    requires Increasing(s, c)
    ensures Increasing(Kept(c, s), c) && forall i :: i in Kept(c, s) <==> i in s && Selects(c, i)
  {
    hide Selects, Bucket;
    if s != [] {
      KeptHas(c, s[1..]);
      assert s == [s[0]] + s[1..];
      var rest := Kept(c, s[1..]);
      forall j | 0 <= j < |rest| ensures NumberedAfter(c, Bucket(s[0], Buckets(c)), s[0], rest[j]) {
        assert rest[j] in rest;
        var k :| 0 <= k < |s| - 1 && s[1..][k] == rest[j];
        assert s[k + 1] == rest[j];
      }
    }
  }

  lemma HeadFirst(c: Case, s: seq<nat>, x: nat)
    requires Increasing(s, c) && x in s
    ensures x == s[0] || NumberedAfter(c, Bucket(s[0], Buckets(c)), s[0], x)
    ensures x in s[1..] <==> x != s[0]
  {
    hide Bucket;
    var k :| 0 <= k < |s| && s[k] == x;
    assert k > 0 ==> s[1..][k - 1] == x;
    forall j | 0 <= j < |s| - 1 ensures s[1..][j] != s[0] { assert s[j + 1] == s[1..][j]; }
  }

  /** Two lists in strict page order with the same rows are the same list. */
  lemma {:induction false} SameOrdered(c: Case, s: seq<nat>, t: seq<nat>)
    requires Increasing(s, c) && Increasing(t, c) && forall i :: i in s <==> i in t
    ensures s == t
  {
    hide Bucket;
    assert s != [] ==> s[0] in s;
    assert t != [] ==> t[0] in t;
    if s != [] {
      HeadFirst(c, s, t[0]);
      HeadFirst(c, t, s[0]);
      assert s[0] == t[0];
      forall i ensures i in s[1..] <==> i in t[1..] {
        if i in s { HeadFirst(c, s, i); HeadFirst(c, t, i); }
        assert i in s[1..] ==> i in s;
        assert i in t[1..] ==> i in t;
      }
      SameOrdered(c, s[1..], t[1..]);
      assert s == [s[0]] + s[1..] && t == [t[0]] + t[1..];
    }
  }

  lemma SortedIncreasing(c: Case, s: seq<nat>)
    requires !c.FilenameReverse?
    requires forall i, j :: 0 <= i < j < |s| ==> Precedes(c, PositionOf(c, s[i]), PositionOf(c, s[j]))
    ensures Increasing(s, c)
  {
    hide Precedes, NumberedAfter, Bucket;
    forall i, j | 0 <= i < j < |s| ensures NumberedAfter(c, Bucket(s[i], Buckets(c)), s[i], s[j]) {
      RowsInNumbers(c, s[i], s[j]);
    }
  }

  /**
   The arithmetic page is the first two hundred rows of the filtered and sorted catalogue, in all cases but
   the reverse.
   */
  lemma ForwardPage(c: Case, count: nat, anchor: Anchor, sorted: seq<nat>)
    requires !c.FilenameReverse? && DayFits(c, anchor) && SortedRows(sorted, c, count, anchor)
    ensures Take(Kept(c, Candidates(c, count, anchor)), PAGE_SIZE) == Take(sorted, PAGE_SIZE)
  {
    hide Precedes, NumberedAfter, Bucket, Candidates, Selects;
    var kept := Kept(c, Candidates(c, count, anchor));
    CandidatesExact(c, count, anchor);
    KeptHas(c, Candidates(c, count, anchor));
    FollowingHas(c, count, anchor);
    SameElements(sorted, Following(c, count, anchor));
    assert forall i :: i in sorted <==> i in kept;
    SortedIncreasing(c, sorted);
    SameOrdered(c, kept, sorted);
  }

  /** The filtered catalogue does have a sorted arrangement: the candidates that the filter keeps. */
  lemma ForwardExists(c: Case, count: nat, anchor: Anchor)
    requires !c.FilenameReverse? && DayFits(c, anchor)
    ensures SortedRows(Kept(c, Candidates(c, count, anchor)), c, count, anchor)
  {
    hide Precedes, NumberedAfter, Bucket, Candidates, Selects;
    var kept, rows := Kept(c, Candidates(c, count, anchor)), Following(c, count, anchor);
    CandidatesExact(c, count, anchor);
    KeptHas(c, Candidates(c, count, anchor));
    FollowingHas(c, count, anchor);
    forall i, j | 0 <= i < j < |kept| ensures kept[i] != kept[j] { Irreflexive(c, kept[i]); }
    assert forall i :: i in kept <==> i in rows;
    DistinctMultiset(kept, rows);
    forall i, j | 0 <= i < j < |kept| ensures Precedes(c, PositionOf(c, kept[i]), PositionOf(c, kept[j])) {
      RowsInNumbers(c, kept[i], kept[j]);
    }
  }

  lemma Irreflexive(c: Case, i: nat)
    ensures !NumberedAfter(c, Bucket(i, Buckets(c)), i, i)
  {
  }
}
