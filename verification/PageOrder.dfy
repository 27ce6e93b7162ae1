/** The sort keys of the synthetic catalogue, as the cursor serialises them, and the order of its rows. */
module PageOrder {
  import opened Integers

  datatype Case =
    | Browse | RatingFour | RatingSort | CaptureRating | FilenameReverse | Keyword | WideKeyword | Collection | Mixed
    | TextSearch | TextCapture | CameraLens | DateCamera | LabelFlag | Folder | FolderRecursive | Conflicted

  datatype CursorKey = Integer(value: int) | Text(text: string)

  predicate ByDay(c: Case) { c.CaptureRating? || c.TextCapture? || c.DateCamera? }

  // ---------------------------------------------------------------- decimal text

  function Digit(d: nat): char
    requires d < 10
  {
    '0' + d as char
  }

  /** The last `width` decimal digits of `i`, with leading zeros. */
  function Digits(i: nat, width: nat): (s: string)
    ensures |s| == width
  {
    if width == 0 then "" else Digits(i / 10, width - 1) + [Digit(i % 10)]
  }

  function Pow10(n: nat): (p: nat)
    ensures p > 0
  {
    if n == 0 then 1 else 10 * Pow10(n - 1)
  }

  /** How many decimal digits `i` takes. */
  function Length(i: nat): (n: nat)
    ensures i < Pow10(n) && (n > 0 ==> Pow10(n - 1) <= i)
  {
    if i == 0 then 0 else Length(i / 10) + 1
  }

  /** Decimal text with leading zeros up to `width`; a longer number keeps all its digits. */
  function WidthOf(i: nat, width: nat): nat { Max(width, Length(i)) }

  function Padded(i: nat, width: nat): string { Digits(i, WidthOf(i, width)) }

  lemma {:induction false} PowGrows(n: nat, m: nat)
    requires n <= m
    ensures Pow10(n) <= Pow10(m)
  {
    if m > n {
      PowGrows(n, m - 1);
    }
  }

  /** A number is no longer than any power of ten above it. */
  lemma Narrow(i: nat, width: nat)
    requires i < Pow10(width)
    ensures WidthOf(i, width) == width && Padded(i, width) == Digits(i, width)
  {
    if Length(i) > width { PowGrows(width, Length(i) - 1); }
  }

  /** Strings compare by their first difference, a prefix before what it is a prefix of. */
  predicate TextLess(a: string, b: string) {
    if b == "" then false
    else if a == "" then true
    else if a[0] == b[0] then TextLess(a[1..], b[1..])
    else a[0] < b[0]
  }

  lemma {:induction false} SamePrefix(p: string, a: string, b: string)
    ensures TextLess(p + a, p + b) == TextLess(a, b)
  {
    if p == "" {
      assert p + a == a && p + b == b;
    } else {
      SamePrefix(p[1..], a, b);
      assert (p + a)[1..] == p[1..] + a && (p + b)[1..] == p[1..] + b;
    }
  }

  /** Between strings of one length, the last characters decide only a tie. */
  lemma {:induction false} LastDecides(a: string, b: string, s: string, t: string)
    requires |a| == |b|
    ensures TextLess(a + s, b + t) <==> TextLess(a, b) || (a == b && TextLess(s, t))
  {
    if a == "" {
      assert a + s == s && b + t == t;
    } else {
      LastDecides(a[1..], b[1..], s, t);
      assert (a + s)[1..] == a[1..] + s && (b + t)[1..] == b[1..] + t;
      assert a == b <==> a[0] == b[0] && a[1..] == b[1..] by {
        assert a == [a[0]] + a[1..] && b == [b[0]] + b[1..];
      }
    }
  }

  lemma TextIrreflexive(a: string)
    ensures !TextLess(a, a)
  {
    if a != "" { TextIrreflexive(a[1..]); }
  }

  lemma DigitOrder(d: nat, e: nat)
    requires d < 10 && e < 10
    ensures Digit(d) < Digit(e) <==> d < e
    ensures Digit(d) == Digit(e) <==> d == e
  {
  }

  /** Fixed-width decimals compare as text exactly as the numbers do. */
  lemma {:induction false} DigitsOrder(i: nat, j: nat, width: nat)
    requires i < Pow10(width) && j < Pow10(width)
    ensures TextLess(Digits(i, width), Digits(j, width)) <==> i < j
    ensures Digits(i, width) == Digits(j, width) <==> i == j
  {
    if width > 0 {
      var a, b, x, y := Digits(i / 10, width - 1), Digits(j / 10, width - 1), Digit(i % 10), Digit(j % 10);
      DigitsOrder(i / 10, j / 10, width - 1);
      DigitOrder(i % 10, j % 10);
      LastDecides(a, b, [x], [y]);
      assert TextLess([x], [y]) <==> x < y;
      assert (a + [x])[..width - 1] == a && (b + [y])[..width - 1] == b;
      assert (a + [x])[width - 1] == x && (b + [y])[width - 1] == y;
    }
  }

  // ---------------------------------------------------------------- keys

  function DayText(day: nat): string { "2024-01-" + Padded(day, 2) + "T12:00:00" }

  function FileText(sequence: nat): string { "file" + Padded(sequence, 12) + ".jpg" }

  function FixtureCursorKey(c: Case, sequence: nat): CursorKey {
    if ByDay(c) then Text(DayText(sequence % 28 + 1))
    else if c.RatingSort? then Integer(sequence % 6)
    else if c.FilenameReverse? then Text(FileText(sequence))
    else Integer(sequence)
  }

  predicate KeyLess(a: CursorKey, b: CursorKey) {
    match (a, b)
    case (Integer(m), Integer(n)) => m < n
    case (Text(s), Text(t)) => TextLess(s, t)
    case _ => false
  }

  /** Row position: the serialised key, then the sequence number. */
  datatype Position = Position(key: CursorKey, sequence: int)

  predicate PositionLess(p: Position, q: Position) {
    KeyLess(p.key, q.key) || (p.key == q.key && p.sequence < q.sequence)
  }

  function PositionOf(c: Case, i: nat): Position { Position(FixtureCursorKey(c, i), i) }

  /** The page order of a case: positions ascending, or descending for the reverse case. */
  predicate Precedes(c: Case, p: Position, q: Position) {
    if c.FilenameReverse? then PositionLess(q, p) else PositionLess(p, q)
  }

  // ---------------------------------------------------------------- the order in numbers

  /** How many different leading sort keys a case has, not counting keys that identify the row. */
  function Buckets(c: Case): nat { if ByDay(c) then 28 else if c.RatingSort? then 6 else 1 }

  /** The bucket a number falls in when there are `m` of them. */
  function Bucket(i: nat, m: nat): nat { if m == 28 then i % 28 else if m == 6 then i % 6 else 0 }

  const WIDEST := 1_000_000_000_000

  lemma Pow10Twelve()
    ensures Pow10(12) == WIDEST && Pow10(2) == 100
  {
    assert Pow10(3) == 1000 && Pow10(6) == 1000 * Pow10(3) && Pow10(9) == 1000 * Pow10(6)
           && Pow10(12) == 1000 * Pow10(9);
  }

  lemma DayTextOrder(d: nat, e: nat)
    requires d < 100 && e < 100
    ensures TextLess(DayText(d), DayText(e)) <==> d < e
    ensures DayText(d) == DayText(e) <==> d == e
  {
    Pow10Twelve();
    Narrow(d, 2);
    Narrow(e, 2);
    DigitsOrder(d, e, 2);
    WrappedOrder("2024-01-", Digits(d, 2), Digits(e, 2), "T12:00:00");
  }

  lemma WrappedOrder(p: string, a: string, b: string, s: string)
    requires |a| == |b|
    ensures TextLess(p + a + s, p + b + s) <==> TextLess(a, b)
    ensures p + a + s == p + b + s <==> a == b
  {
    assert p + a + s == p + (a + s) && p + b + s == p + (b + s);
    SamePrefix(p, a + s, b + s);
    LastDecides(a, b, s, s);
    TextIrreflexive(s);
    assert (p + a + s)[|p|..|p| + |a|] == a && (p + b + s)[|p|..|p| + |b|] == b;
  }

  /** An anchor: a position with a key of the case's kind, in the bucket it names. */
  datatype Anchor = Anchor(bucket: nat, sequence: nat)

  function AnchorKey(c: Case, a: Anchor): CursorKey {
    if ByDay(c) then Text(DayText(a.bucket + 1))
    else if c.RatingSort? then Integer(a.bucket)
    else if c.FilenameReverse? then Text(FileText(a.sequence))
    else Integer(a.sequence)
  }

  function AnchorPosition(c: Case, a: Anchor): Position { Position(AnchorKey(c, a), a.sequence) }

  predicate NumberedAfter(c: Case, bucket: nat, sequence: nat, i: nat) {
    if c.FilenameReverse? then i < sequence
    else if Buckets(c) == 1 then sequence < i
    else bucket < Bucket(i, Buckets(c)) || (bucket == Bucket(i, Buckets(c)) && sequence < i)
  }

  /** The same in serialised order: only file names can depart from their numbers. */
  predicate SerialAfter(c: Case, bucket: nat, sequence: nat, i: nat) {
    if c.FilenameReverse? then NamedBefore(i, sequence) else NumberedAfter(c, bucket, sequence, i)
  }

  /** The day in an anchor's key has two digits. */
  predicate DayFits(c: Case, a: Anchor) { ByDay(c) ==> a.bucket < 99 }

  /** Rows follow an anchor in serialised order exactly when their numbers say so. */
  lemma FollowsInNumbers(c: Case, a: Anchor, i: nat)
    requires DayFits(c, a)
    ensures Precedes(c, AnchorPosition(c, a), PositionOf(c, i)) <==> SerialAfter(c, a.bucket, a.sequence, i)
  {
    hide TextLess, DayText, FileText, NamedBefore;
    if ByDay(c) {
      DayTextOrder(a.bucket + 1, i % 28 + 1);
    } else if c.FilenameReverse? {
      NamedExact(i, a.sequence);
    }
  }

  /** A row is an anchor in its own bucket. */
  lemma RowIsAnchor(c: Case, i: nat)
    ensures AnchorPosition(c, Anchor(Bucket(i, Buckets(c)), i)) == PositionOf(c, i)
    ensures Bucket(i, Buckets(c)) < 99
  {
    hide DayText, FileText;
  }

  lemma RowsInNumbers(c: Case, i: nat, j: nat)
    ensures Precedes(c, PositionOf(c, i), PositionOf(c, j)) <==> SerialAfter(c, Bucket(i, Buckets(c)), i, j)
  {
    hide Precedes, AnchorPosition, PositionOf, Bucket, Buckets, SerialAfter;
    RowIsAnchor(c, i);
    FollowsInNumbers(c, Anchor(Bucket(i, Buckets(c)), i), j);
  }

  // ---------------------------------------------------------------- the day in a key

  /** `int(text)` of decimal digits. */
  function ReadNumber(s: string): int {
    if s == "" then 0 else 10 * ReadNumber(s[..|s| - 1]) + (s[|s| - 1] as int - '0' as int)
  }

  lemma {:induction false} DigitsReadBack(i: nat, width: nat)
    requires i < Pow10(width)
    ensures ReadNumber(Digits(i, width)) == i
  {
    if width > 0 {
      DigitsReadBack(i / 10, width - 1);
      assert Digits(i, width)[..width - 1] == Digits(i / 10, width - 1);
    }
  }

  /** The two characters the oracle takes from a key are the day. */
  lemma DayReadBack(d: nat)
    requires d < 100
    ensures |DayText(d)| >= 10 && ReadNumber(DayText(d)[8..10]) == d
  {
    hide ReadNumber;
    Pow10Twelve();
    Narrow(d, 2);
    DigitsReadBack(d, 2);
    assert DayText(d)[8..10] == Digits(d, 2);
  }

  /** So an anchor's bucket is the day in its key, less one. */
  lemma AnchorReadBack(c: Case, a: Anchor)
    requires ByDay(c) && DayFits(c, a)
    ensures var key := AnchorKey(c, a);
            key.Text? && |key.text| >= 10 && ReadNumber(key.text[8..10]) - 1 == a.bucket
  {
    hide DayText, ReadNumber;
    DayReadBack(a.bucket + 1);
  }

  // ---------------------------------------------------------------- file names beyond twelve digits

  /** A number without its last `d` digits. */
  function Leading(j: nat, d: nat): nat { if d == 0 then j else Leading(j / 10, d - 1) }

  lemma {:induction false} DigitsSplit(j: nat, w: nat, d: nat)
    ensures Digits(j, w + d) == Digits(Leading(j, d), w) + Digits(j, d)
  {
    hide Digit;
    if d > 0 {
      DigitsSplit(j / 10, w, d - 1);
      var lead, tail, last := Digits(Leading(j, d), w), Digits(j / 10, d - 1), [Digit(j % 10)];
      assert Digits(j, w + d) == Digits(j / 10, w + d - 1) + last;
      assert (lead + tail) + last == lead + (tail + last);
    }
  }

  lemma {:induction false} LeadingBelow(j: nat, w: nat, d: nat)
    requires j < Pow10(w + d)
    ensures Leading(j, d) < Pow10(w)
  {
    if d > 0 {
      assert Pow10(w + d) == 10 * Pow10(w + d - 1);
      LeadingBelow(j / 10, w, d - 1);
    }
  }

  lemma DigitsAreDigits(j: nat, d: nat)
    requires d > 0
    ensures Digits(j, d)[0] >= '0'
  {
    if d > 1 { DigitsAreDigits(j / 10, d - 1); }
  }

  lemma {:induction false} LengthGrows(i: nat, j: nat)
    requires i <= j
    ensures Length(i) <= Length(j)
  {
    if Length(i) > Length(j) { PowGrows(Length(j), Length(i) - 1); }
  }

  /** How many digits more the file name of `j` has. */
  function Extra(i: nat, j: nat): nat {
    if WidthOf(i, 12) < WidthOf(j, 12) then WidthOf(j, 12) - WidthOf(i, 12) else 0
  }

  /** The order of file names, told from the numbers: the longer one is cut to the length of the shorter. */
  predicate NamedBefore(i: nat, j: nat) {
    if i < j then i <= Leading(j, Extra(i, j)) else j < i && Leading(i, Extra(j, i)) < j
  }

  /**
   The file name of a smaller number comes first exactly when that number does not exceed the leading
   digits of the larger one, as many as it has itself. Up to twelve digits that is always so.
   */
  lemma FileTextExact(i: nat, j: nat)
    requires i < j
    ensures WidthOf(i, 12) + Extra(i, j) == WidthOf(j, 12)
    ensures TextLess(FileText(i), FileText(j)) <==> i <= Leading(j, Extra(i, j))
  {
    hide TextLess, Digits, Pow10, Length, FileText;
    LengthGrows(i, j);
    var w := WidthOf(i, 12);
    var d := WidthOf(j, 12) - w;
    PowGrows(Length(i), w);
    PowGrows(Length(j), w + d);
    DigitsSplit(j, w, d);
    LeadingBelow(j, w, d);
    assert Leading(j, 0) == j;
    var a, b, tail := Digits(i, w), Digits(Leading(j, d), w), Digits(j, d);
    DigitsOrder(i, Leading(j, d), w);
    FileTexts(i, a);
    FileTexts(j, b + tail);
    assert (b + tail) + ".jpg" == b + (tail + ".jpg");
    SamePrefix("file", a + ".jpg", b + (tail + ".jpg"));
    LastDecides(a, b, ".jpg", tail + ".jpg");
    TailDecides(j, d);
  }

  lemma FileTexts(i: nat, digits: string)
    requires digits == Padded(i, 12)
    ensures FileText(i) == "file" + (digits + ".jpg")
  {
    hide Padded;
  }

  /** A dot comes before every digit. */
  lemma TailDecides(j: nat, d: nat)
    ensures TextLess(".jpg", Digits(j, d) + ".jpg") <==> d > 0
  {
    if d == 0 {
      assert Digits(j, d) + ".jpg" == ".jpg";
      TextIrreflexive(".jpg");
    } else {
      DigitsAreDigits(j, d);
    }
  }

  lemma {:induction false} TextTotal(a: string, b: string)
    ensures TextLess(a, b) || TextLess(b, a) || a == b
    ensures !(TextLess(a, b) && TextLess(b, a))
  {
    if a != "" && b != "" {
      TextTotal(a[1..], b[1..]);
      assert a == [a[0]] + a[1..] && b == [b[0]] + b[1..];
    }
  }

  lemma {:induction false} TextTransitive(a: string, b: string, c: string)
    requires TextLess(a, b) && TextLess(b, c)
    ensures TextLess(a, c)
  {
    if a != "" && a[0] == b[0] == c[0] { TextTransitive(a[1..], b[1..], c[1..]); }
  }

  lemma NamesDiffer(i: nat, j: nat)
    requires i < j
    ensures FileText(i) != FileText(j)
  {
    hide Length, Pow10, Digits;
    var a, b := Padded(i, 12), Padded(j, 12);
    FileTexts(i, a);
    FileTexts(j, b);
    assert FileText(i)[4..4 + |a|] == a && FileText(j)[4..4 + |b|] == b;
    assert |FileText(i)| == |a| + 8 && |FileText(j)| == |b| + 8;
    if WidthOf(i, 12) == WidthOf(j, 12) {
      var w := WidthOf(i, 12);
      PowGrows(Length(i), w);
      PowGrows(Length(j), w);
      DigitsOrder(i, j, w);
    }
  }

  /** File names are in this order for numbers of any length, and no two share one. */
  lemma NamedExact(i: nat, j: nat)
    ensures TextLess(FileText(i), FileText(j)) <==> NamedBefore(i, j)
    ensures FileText(i) == FileText(j) <==> i == j
  {
    hide TextLess, FileText, Leading, Extra;
    if i == j {
      TextIrreflexive(FileText(i));
    } else {
      var low, high := Min(i, j), Max(i, j);
      FileTextExact(low, high);
      NamesDiffer(low, high);
      TextTotal(FileText(i), FileText(j));
    }
  }

  /** It is a total order. */
  lemma NamedOrder(i: nat, j: nat, k: nat)
    ensures NamedBefore(i, j) || NamedBefore(j, i) || i == j
    ensures !NamedBefore(i, i) && !(NamedBefore(i, j) && NamedBefore(j, i))
    ensures NamedBefore(i, j) && NamedBefore(j, k) ==> NamedBefore(i, k)
  {
    hide NamedBefore, TextLess, FileText;
    NamedExact(i, i);
    NamedExact(i, j);
    NamedExact(j, i);
    NamedExact(j, k);
    NamedExact(i, k);
    TextTotal(FileText(i), FileText(j));
    TextTotal(FileText(i), FileText(i));
    if TextLess(FileText(i), FileText(j)) && TextLess(FileText(j), FileText(k)) {
      TextTransitive(FileText(i), FileText(j), FileText(k));
    }
  }

  /** Up to twelve digits it is the order of the numbers. */
  lemma NamedShort(i: nat, j: nat)
    requires i < WIDEST && j < WIDEST
    ensures WidthOf(i, 12) == 12 && (NamedBefore(i, j) <==> i < j)
  {
    hide Length, Pow10;
    Pow10Twelve();
    Narrow(i, 12);
    Narrow(j, 12);
  }

  /** The first number of thirteen digits is named before the last one of twelve. */
  lemma ThirteenDigits()
    ensures NamedBefore(WIDEST, WIDEST - 1) && TextLess(FileText(WIDEST), FileText(WIDEST - 1))
  {
    hide TextLess, FileText, Length, Pow10;
    NamedShort(WIDEST - 1, WIDEST - 1);
    WideLength(WIDEST);
    assert Leading(WIDEST, 1) == Leading(WIDEST / 10, 0) < WIDEST - 1;
    LengthOfWidest();
    NamedExact(WIDEST, WIDEST - 1);
  }

  lemma WideLength(i: nat)
    requires WIDEST <= i
    ensures Length(i) >= 13 && WidthOf(i, 12) == Length(i)
  {
    hide Length, Pow10;
    Pow10Twelve();
    if Length(i) < 13 { PowGrows(Length(i), 12); }
  }

  lemma LengthOfWidest()
    ensures Length(WIDEST) == 13
  {
    hide Length, Pow10;
    Pow10Twelve();
    PowThirteen();
    WideLength(WIDEST);
    if Length(WIDEST) > 13 { PowGrows(13, Length(WIDEST) - 1); }
  }

  lemma PowThirteen()
    ensures Pow10(13) == 10 * Pow10(12)
  {
  }
}
