/**
 The rows of the synthetic catalogue and the queries put to it: which rows a query asks for, told from
 their attributes, and the key its sort gives them.
 */
module CatalogueQueries {
  import opened PageOrder
  import opened Results

  // ---------------------------------------------------------------- rows

  datatype Flag = Reject | Pick | Unflagged

  /** An attribute a row carries itself, or only through something above it. */
  datatype Membership = Membership(of: nat, direct: bool)

  datatype Row = Row(sequence: nat, folder: nat, folders: set<Membership>, filename: string, capture: string,
                     make: string, camera: string, lens: string, format: string, rating: nat, flag: Flag,
                     mark: string, conflicts: seq<string>, title: seq<string>, keywords: set<Membership>,
                     collections: set<string>)

  function Sunset(): seq<string> { ["blue", "sunset"] }

  function Mountain(): seq<string> { ["green", "mountain"] }

  function FixtureRow(i: nat): Row {
    Row(i, 2 + i % 5, {Membership(1, false), Membership(2 + i % 5, true)}, FileText(i), DayText(i % 28 + 1),
        "fixture", "camera" + [Digit(i % 3)], "lens" + [Digit(i % 4)], if i % 2 == 0 then "JPEG" else "DNG", i % 6,
        if i % 3 == 0 then Reject else if i % 3 == 1 then Pick else Unflagged,
        if i % 2 == 0 then "red" else "blue", if i % 97 == 0 then ["gps_latitude"] else [],
        if i % 5 == 0 then Sunset() else Mountain(),
        {Membership(1, false), Membership(2 + i % 7, true), Membership(9, false), Membership(10 + i % 10000, true)},
        if i % 11 == 3 then {"fixture-collection"} else {})
  }

  // ---------------------------------------------------------------- queries

  datatype Sorting = BySequence | ByFilename | ByRating | ByCapture

  datatype Query = Query(text: seq<string>, keyword: Option<nat>, keywordDirect: bool, folder: Option<nat>,
                         folderRecursive: bool, collection: Option<string>, dateFrom: Option<string>,
                         dateUntil: Option<string>, make: Option<string>, camera: Option<string>,
                         lens: Option<string>, format: Option<string>, rating: Option<nat>, flag: Option<Flag>,
                         mark: Option<string>, onlyConflicted: bool, sort: Sorting, descending: bool)

  const ANYTHING := Query([], None, false, None, false, None, None, None, None, None, None, None, None, None, None,
                          false, BySequence, false)

  /** The beginnings of its words. */
  function SunsetStart(): seq<string> { ["blu", "suns"] }

  function QueryOf(c: Case): Query {
    match c
    case Browse => ANYTHING
    case RatingSort => ANYTHING.(sort := ByRating)
    case RatingFour => ANYTHING.(rating := Some(4))
    case CaptureRating => ANYTHING.(rating := Some(4), sort := ByCapture)
    case FilenameReverse => ANYTHING.(text := SunsetStart(), sort := ByFilename, descending := true)
    case Keyword => ANYTHING.(keyword := Some(3), keywordDirect := true)
    case WideKeyword => ANYTHING.(keyword := Some(1010), keywordDirect := true)
    case Collection => ANYTHING.(collection := Some("fixture-collection"))
    case Mixed =>
      ANYTHING.(text := Sunset(), keyword := Some(3), rating := Some(4), flag := Some(Pick),
                mark := Some("red"), dateFrom := Some("2024-01-05"), dateUntil := Some("2024-01-20"),
                make := Some("fixture"), camera := Some("camera1"), lens := Some("lens0"), format := Some("jpeg"))
    case TextSearch => ANYTHING.(text := Sunset())
    case TextCapture => ANYTHING.(text := Sunset(), lens := Some("lens0"), sort := ByCapture)
    case CameraLens => ANYTHING.(camera := Some("camera1"), lens := Some("lens0"), format := Some("jpeg"))
    case DateCamera =>
      ANYTHING.(dateFrom := Some("2024-01-05"), dateUntil := Some("2024-01-20"), camera := Some("camera1"),
                sort := ByCapture)
    case LabelFlag => ANYTHING.(mark := Some("red"), flag := Some(Pick))
    case Folder => ANYTHING.(folder := Some(3))
    case FolderRecursive => ANYTHING.(folder := Some(1), folderRecursive := true)
    case Conflicted => ANYTHING.(onlyConflicted := true)
  }

  /** Every word of the query begins some word of the title. */
  predicate TextMatches(words: seq<string>, title: seq<string>) {
    forall i :: 0 <= i < |words| ==> exists j :: 0 <= j < |title| && words[i] <= title[j]
  }

  predicate Belongs(members: set<Membership>, of: nat, onlyDirect: bool) {
    Membership(of, true) in members || (!onlyDirect && Membership(of, false) in members)
  }

  /** The start of a day, as captures are written. */
  function DateKey(day: string): string { day + "T00:00:00" }

  function Upper(c: char): char { if 'a' <= c <= 'z' then ((c as int) - 32) as char else c }

  function UpperText(s: string): string { if s == "" then "" else [Upper(s[0])] + UpperText(s[1..]) }

  /** A filter that is not set admits everything. */
  predicate Is<T(==)>(filter: Option<T>, value: T) { filter.Some? ==> filter.value == value }

  predicate DatesFit(q: Query, capture: string) {
    && (q.dateFrom.Some? ==> !TextLess(capture, DateKey(q.dateFrom.value)))
    && (q.dateUntil.Some? ==> TextLess(capture, DateKey(q.dateUntil.value)))
  }

  predicate Satisfies(row: Row, q: Query) {
    && TextMatches(q.text, row.title)
    && (q.keyword.Some? ==> Belongs(row.keywords, q.keyword.value, q.keywordDirect))
    && (q.folder.Some? ==>
          if q.folderRecursive then Belongs(row.folders, q.folder.value, false) else row.folder == q.folder.value)
    && (q.collection.Some? ==> q.collection.value in row.collections)
    && DatesFit(q, row.capture)
    && Is(q.make, row.make) && Is(q.camera, row.camera) && Is(q.lens, row.lens)
    && (q.format.Some? ==> row.format == UpperText(q.format.value))
    && Is(q.rating, row.rating) && Is(q.flag, row.flag) && Is(q.mark, row.mark)
    && (q.onlyConflicted ==> row.conflicts != [])
  }

  /** The key a query's sort gives a row. */
  function SortKey(row: Row, q: Query): CursorKey {
    match q.sort
    case BySequence => Integer(row.sequence)
    case ByFilename => Text(row.filename)
    case ByRating => Integer(row.rating)
    case ByCapture => Text(row.capture)
  }

  /** The serialised keys of a case are those of its query, and only the reverse case descends. */
  lemma KeysOfQuery(c: Case, i: nat)
    ensures FixtureCursorKey(c, i) == SortKey(FixtureRow(i), QueryOf(c))
    ensures QueryOf(c).descending <==> c.FilenameReverse?
  {
    hide DayText, FileText;
  }

  // ---------------------------------------------------------------- single attributes

  lemma Numbered(prefix: string, d: nat, e: nat)
    requires d < 10 && e < 10
    ensures prefix + [Digit(d)] == prefix + [Digit(e)] <==> d == e
  {
    assert (prefix + [Digit(d)])[|prefix|] == Digit(d) && (prefix + [Digit(e)])[|prefix|] == Digit(e);
    DigitOrder(d, e);
  }

  lemma CameraOne(i: nat)
    ensures FixtureRow(i).camera == "camera1" <==> i % 3 == 1
  {
    Numbered("camera", i % 3, 1);
    assert "camera1" == "camera" + [Digit(1)];
  }

  lemma LensZero(i: nat)
    ensures FixtureRow(i).lens == "lens0" <==> i % 4 == 0
  {
    Numbered("lens", i % 4, 0);
    assert "lens0" == "lens" + [Digit(0)];
  }

  lemma FormatJpeg(i: nat)
    ensures FixtureRow(i).format == UpperText("jpeg") <==> i % 2 == 0
  {
    assert UpperText("g") == "G" && UpperText("eg") == "EG" && UpperText("peg") == "PEG";
    assert UpperText("jpeg") == "JPEG" && |"DNG"| == 3;
  }

  lemma LabelRed(i: nat)
    ensures FixtureRow(i).mark == "red" <==> i % 2 == 0
  {
    assert |"blue"| == 4 && |"red"| == 3;
  }

  lemma Begins(words: seq<string>, title: seq<string>)
    requires |words| == |title| == 2 && words[0] <= title[0] && words[1] <= title[1]
    ensures TextMatches(words, title)
  {
  }

  lemma BeginsNone(words: seq<string>, title: seq<string>)
    requires |words| > 0 && |title| == 2 && !(words[0] <= title[0]) && !(words[0] <= title[1])
    ensures !TextMatches(words, title)
  {
  }

  lemma BlueBegins()
    ensures TextMatches(Sunset(), Sunset()) && TextMatches(SunsetStart(), Sunset())
  {
    hide TextMatches;
    Begins(Sunset(), Sunset());
    Begins(SunsetStart(), Sunset());
  }

  lemma GreenBegins()
    ensures !TextMatches(Sunset(), Mountain()) && !TextMatches(SunsetStart(), Mountain())
  {
    hide TextMatches;
    OtherLetters();
    BeginsNone(Sunset(), Mountain());
    BeginsNone(SunsetStart(), Mountain());
  }

  lemma OtherLetters()
    ensures Sunset()[0][0] == SunsetStart()[0][0] == 'b' && Mountain()[0][0] == 'g' && Mountain()[1][0] == 'm'
  {
  }

  lemma TitleBlue(i: nat)
    ensures TextMatches(Sunset(), FixtureRow(i).title) <==> i % 5 == 0
    ensures TextMatches(SunsetStart(), FixtureRow(i).title) <==> i % 5 == 0
    ensures TextMatches([], FixtureRow(i).title)
  {
    hide TextMatches, Sunset, SunsetStart, Mountain;
    BlueBegins();
    GreenBegins();
    Anything(FixtureRow(i).title);
    TitleIs(i);
  }

  lemma Anything(title: seq<string>)
    ensures TextMatches([], title)
  {
  }

  lemma TitleIs(i: nat)
    ensures FixtureRow(i).title == if i % 5 == 0 then Sunset() else Mountain()
  {
    hide FileText, DayText, Sunset, Mountain;
  }

  /** Captures at noon against the start of a day. */
  lemma NoonBefore(d: nat, e: nat)
    requires d < 100 && e < 100
    ensures TextLess(DayText(d), DateKey("2024-01-" + Digits(e, 2))) <==> d < e
  {
    hide TextLess, Digits;
    Pow10Twelve();
    Narrow(d, 2);
    DigitsOrder(d, e, 2);
    var a, b := Digits(d, 2), Digits(e, 2);
    assert DayText(d) == "2024-01-" + (a + "T12:00:00") && DateKey("2024-01-" + b) == "2024-01-" + (b + "T00:00:00");
    SamePrefix("2024-01-", a + "T12:00:00", b + "T00:00:00");
    LastDecides(a, b, "T12:00:00", "T00:00:00");
    NoonAfterMidnight();
  }

  lemma NoonAfterMidnight()
    ensures !TextLess("T12:00:00", "T00:00:00")
  {
    assert "T12:00:00"[1..][0] == '1' && "T00:00:00"[1..][0] == '0';
  }

  /** Days from the fifth up to the twentieth. */
  lemma DaysFit(i: nat)
    ensures 4 <= i % 28 < 19 <==>
            !TextLess(FixtureRow(i).capture, DateKey("2024-01-05"))
            && TextLess(FixtureRow(i).capture, DateKey("2024-01-20"))
  {
    hide TextLess, DayText, DateKey;
    NoonBefore(i % 28 + 1, 5);
    NoonBefore(i % 28 + 1, 20);
    DayDigits();
  }

  lemma DayDigits()
    ensures "2024-01-" + Digits(5, 2) == "2024-01-05" && "2024-01-" + Digits(20, 2) == "2024-01-20"
  {
    assert Digits(5, 2) == Digits(0, 1) + [Digit(5)] && Digits(0, 1) == [Digit(0)];
    assert Digits(20, 2) == Digits(2, 1) + [Digit(0)] && Digits(2, 1) == [Digit(2)];
  }

  lemma KeywordIn(m: nat, n: nat, k: nat)
    requires k > 2 && k != 9
    ensures var members := {Membership(1, false), Membership(2 + m, true), Membership(9, false),
                            Membership(10 + n, true)};
            && (Belongs(members, k, true) <==> k == 2 + m || k == 10 + n)
            && (Belongs(members, k, false) <==> k == 2 + m || k == 10 + n)
  {
  }

  lemma KeywordHeld(i: nat)
    ensures Belongs(FixtureRow(i).keywords, 3, true) <==> i % 7 == 1
    ensures Belongs(FixtureRow(i).keywords, 3, false) <==> i % 7 == 1
    ensures Belongs(FixtureRow(i).keywords, 1010, true) <==> i % 10000 == 1000
  {
    hide FileText, DayText, Belongs;
    KeywordIn(i % 7, i % 10000, 3);
    KeywordIn(i % 7, i % 10000, 1010);
  }

  /** Every row lies below the root folder, and in one of the five. */
  lemma FolderMembers(i: nat)
    ensures Belongs(FixtureRow(i).folders, 1, false)
  {
    hide FileText, DayText;
  }
}
