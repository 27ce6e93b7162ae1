/** The JPEG metadata reader: admission of segments and reassembly of ICC and extended XMP. */
module JpegMetadata {
  import opened ByteStrings
  import opened Jpeg
  import opened Results

  const ICC_HEADER := Ascii("ICC_PROFILE") + [0]
  const STANDARD_HEADER := Ascii("http://ns.adobe.com/xap/1.0/") + [0]
  const EXTENSION_HEADER := Ascii("http://ns.adobe.com/xmp/extension/") + [0]
  const EXIF_HEADER := Ascii("Exif") + [0, 0]

  datatype Limits = Limits(pixels: nat, metadata: nat)
  datatype Chunk = Chunk(number: Byte, count: Byte, data: Bytes)
  datatype Part = Part(full: nat, offset: nat, data: Bytes)

  function Drop(s: Bytes, n: nat): Bytes { if |s| < n then [] else s[n..] }

  // ---------------------------------------------------------------- segments

  predicate IsSof(s: Segment) { s.marker == 0xc0 || s.marker == 0xc1 || s.marker == 0xc2 }

  predicate IsIcc(s: Segment) { s.marker == 0xe2 && ICC_HEADER <= s.data }

  predicate IsStandard(s: Segment) { s.marker == 0xe1 && STANDARD_HEADER <= s.data }

  predicate IsExtension(s: Segment) { s.marker == 0xe1 && EXTENSION_HEADER <= s.data }

  predicate IsExif(s: Segment) { s.marker == 0xe1 && EXIF_HEADER <= s.data }

  function Height(s: Segment): nat { FromBytes(Cut(s.data, 1, 3)) }

  function Width(s: Segment): nat { FromBytes(Cut(s.data, 3, 5)) }

  function ChunkOf(s: Segment): Chunk
    requires |s.data| >= 14
  {
    Chunk(s.data[12], s.data[13], s.data[14..])
  }

  function GuidOf(s: Segment): Bytes { Cut(Drop(s.data, 35), 0, 32) }

  function PartOf(s: Segment): Part {
    var part := Drop(s.data, 35);
    Part(FromBytes(Cut(part, 32, 36)), FromBytes(Cut(part, 36, 40)), Drop(part, 40))
  }

  /** What a segment must satisfy whatever came before it. */
  predicate Sane(s: Segment, limits: Limits) {
    && (IsSof(s) ==>
          |s.data| >= 6 && s.data[0] == 8 && Width(s) != 0 && Height(s) != 0 && Width(s) * Height(s) <= limits.pixels)
    && (IsIcc(s) ==> |s.data| >= 14 && 1 <= s.data[12] <= s.data[13])
    && (IsExtension(s) ==> PartOf(s).full <= METADATA_LIMIT && PartOf(s).offset + |PartOf(s).data| <= PartOf(s).full)
  }

  // ---------------------------------------------------------------- what the loop gathers

  /** The reader's variables; `guids` is the insertion order of the dictionary `extended`. */
  datatype State = State(
    total: nat, dimensions: Option<(nat, nat)>, icc: seq<Chunk>, standard: seq<Bytes>,
    guids: seq<Bytes>, extended: map<Bytes, seq<Part>>, exif: Option<Bytes>)

  const EMPTY := State(0, None, [], [], [], map[], None)

  predicate Numbered(icc: seq<Chunk>, number: Byte) { exists i :: 0 <= i < |icc| && icc[i].number == number }

  predicate Admit(st: State, s: Segment, limits: Limits) {
    && st.total + |s.data| <= limits.metadata
    && Sane(s, limits)
    && (IsIcc(s) ==> !Numbered(st.icc, s.data[12]))
    && (IsExif(s) ==> st.exif.None?)
  }

  function PartsUnder(extended: map<Bytes, seq<Part>>, guid: Bytes): seq<Part> {
    if guid in extended then extended[guid] else []
  }

  function Record(st: State, s: Segment): State
    requires IsIcc(s) ==> |s.data| >= 14
  {
    State(
      st.total + |s.data|,
      if IsSof(s) then Some((Width(s), Height(s))) else st.dimensions,
      if IsIcc(s) then st.icc + [ChunkOf(s)] else st.icc,
      if IsStandard(s) then st.standard + [Drop(s.data, 29)] else st.standard,
      if IsExtension(s) && GuidOf(s) !in st.extended then st.guids + [GuidOf(s)] else st.guids,
      if IsExtension(s)
      then st.extended[GuidOf(s) := PartsUnder(st.extended, GuidOf(s)) + [PartOf(s)]] else st.extended,
      if IsExif(s) then Some(Drop(s.data, 6)) else st.exif)
  }

  /** The state after `segments`, or None if one of them is refused. */
  function Fold(segments: seq<Segment>, limits: Limits): Option<State> {
    if segments == [] then Some(EMPTY)
    else
      var s := segments[|segments| - 1];
      match Fold(segments[..|segments| - 1], limits)
      case None => None
      case Some(st) => if Admit(st, s, limits) then Some(Record(st, s)) else None
  }

  predicate StartsImage(stream: Bytes) { |stream| >= 2 && stream[0] == 0xff && stream[1] == 0xd8 }

  /** What a stream gives: its segments, folded. */
  function Gathered(stream: Bytes, limits: Limits): Option<State> {
    if !StartsImage(stream) then None
    else
      match Scan(stream, 2)
      case None => None
      case Some(segments) => Fold(segments, limits)
  }

  lemma FoldStep(done: seq<Segment>, s: Segment, limits: Limits)
    requires Fold(done, limits).Some?
    ensures var st := Fold(done, limits).value;
            Fold(done + [s], limits) == if Admit(st, s, limits) then Some(Record(st, s)) else None
  {
    assert (done + [s])[..|done|] == done;
  }

  /** Nothing revives a refused prefix. */
  lemma {:induction false} RefusedStays(done: seq<Segment>, rest: seq<Segment>, limits: Limits)
    requires Fold(done, limits).None?
    ensures Fold(done + rest, limits).None?
    decreases |rest|
  {
    if rest == [] {
      assert done + rest == done;
    } else {
      RefusedStays(done, rest[..|rest| - 1], limits);
      assert (done + rest)[..|done + rest| - 1] == done + rest[..|rest| - 1];
    }
  }

  /** The segments still ahead of `at`, put after those already folded. */
  ghost predicate Ahead(stream: Bytes, done: seq<Segment>, at: nat) {
    && 2 <= at <= |stream|
    && Scan(stream, 2) == (match Scan(stream, at) case None => None case Some(rest) => Some(done + rest))
  }

  lemma ScanStep(stream: Bytes, at: nat, size: nat)
    requires at + 4 <= |stream| && stream[at] == 0xff && !Ends(stream[at + 1])
    requires size == FromBytes(Cut(stream, at + 2, at + 4)) && 2 <= size && at + 2 + size <= |stream|
    ensures Scan(stream, at) == match Scan(stream, at + 2 + size)
                                case None => None
                                case Some(rest) => Some([Segment(stream[at + 1], stream[at + 4..at + 2 + size])] + rest)
  {
    hide FromBytes;
  }

  lemma AheadStep(stream: Bytes, done: seq<Segment>, at: nat, size: nat)
    requires Ahead(stream, done, at) && at + 4 <= |stream| && stream[at] == 0xff && !Ends(stream[at + 1])
    requires size == FromBytes(Cut(stream, at + 2, at + 4)) && 2 <= size && at + 2 + size <= |stream|
    ensures Ahead(stream, done + [Segment(stream[at + 1], stream[at + 4..at + 2 + size])], at + 2 + size)
  {
    hide Scan, FromBytes;
    var s := Segment(stream[at + 1], stream[at + 4..at + 2 + size]);
    ScanStep(stream, at, size);
    var next := Scan(stream, at + 2 + size);
    if next.Some? { assert done + ([s] + next.value) == (done + [s]) + next.value; }
  }

  lemma AheadRefused(stream: Bytes, done: seq<Segment>, at: nat, limits: Limits)
    requires StartsImage(stream) && Ahead(stream, done, at) && Fold(done, limits).None?
    ensures Gathered(stream, limits).None?
  {
    var ahead := Scan(stream, at);
    if ahead.Some? {
      RefusedStays(done, ahead.value, limits);
    }
  }

  lemma AheadEnds(stream: Bytes, done: seq<Segment>, at: nat, limits: Limits)
    requires StartsImage(stream) && Ahead(stream, done, at)
    ensures Scan(stream, at) == None ==> Gathered(stream, limits) == None
    ensures Scan(stream, at) == Some([]) ==> Gathered(stream, limits) == Fold(done, limits)
  {
    hide Scan, Fold;
    assert done + [] == done;
  }

  lemma NoImage(stream: Bytes, limits: Limits)
    ensures !StartsImage(stream) ==> Gathered(stream, limits) == None
  {
  }

  /** The reading loop: one segment at a time, refused or recorded. */
  method Gather(stream: Bytes, limits: Limits) returns (r: Option<State>)
    ensures r == Gathered(stream, limits)
  {
    hide Scan, FromBytes, Fold, Admit, Record, Gathered, Ahead;
    NoImage(stream, limits);
    if !StartsImage(stream) { return None; }
    var at := 2;
    var st := EMPTY;
    ghost var done: seq<Segment> := [];
    Starting(stream);
    while true
      invariant at <= |stream| && Ahead(stream, done, at) && Fold(done, limits) == Some(st)
      decreases |stream| - at
    {
      Unfolded(stream, at);
      AheadEnds(stream, done, at, limits);
      if |stream| < at + 2 || stream[at] != 0xff { return None; }
      if Ends(stream[at + 1]) { return Some(st); }
      var size := FromBytes(Cut(stream, at + 2, at + 4));
      if size < 2 || |stream| < at + 4 || |stream| < at + 2 + size { return None; }
      var s := Segment(stream[at + 1], stream[at + 4..at + 2 + size]);
      AheadStep(stream, done, at, size);
      FoldStep(done, s, limits);
      at, done := at + 2 + size, done + [s];
      var next := Take(st, s, limits);
      if next.None? {
        AheadRefused(stream, done, at, limits);
        return None;
      }
      st := next.value;
    }
  }

  lemma Starting(stream: Bytes)
    requires |stream| >= 2
    ensures Ahead(stream, [], 2) && forall limits :: Fold([], limits) == Some(EMPTY)
  {
    var all := Scan(stream, 2);
    assert all.Some? ==> [] + all.value == all.value;
  }

  lemma Unfolded(stream: Bytes, at: nat)
    requires at <= |stream|
    ensures |stream| < at + 2 || stream[at] != 0xff ==> Scan(stream, at) == None
    ensures |stream| >= at + 2 && stream[at] == 0xff && Ends(stream[at + 1]) ==> Scan(stream, at) == Some([])
    ensures var size := FromBytes(Cut(stream, at + 2, at + 4));
            |stream| >= at + 2 && !Ends(stream[at + 1]) && (size < 2 || |stream| < at + 4 || |stream| < at + 2 + size)
            ==> Scan(stream, at) == None
  {
  }

  /** The body of the loop, on the reader's own variables. */
  method Take(st: State, s: Segment, limits: Limits) returns (r: Option<State>)
    ensures r == if Admit(st, s, limits) then Some(Record(st, s)) else None
  {
    hide FromBytes, Ascii, Cut;
    var total, dimensions, icc, exif := st.total + |s.data|, st.dimensions, st.icc, st.exif;
    var standard, guids, extended := st.standard, st.guids, st.extended;
    if total > limits.metadata { return None; }
    if IsSof(s) {
      if |s.data| < 6 || s.data[0] != 8 { return None; }
      if Width(s) == 0 || Height(s) == 0 || Width(s) * Height(s) > limits.pixels { return None; }
      dimensions := Some((Width(s), Height(s)));
    }
    if IsIcc(s) {
      if |s.data| < 14 { return None; }
      var chunk := ChunkOf(s);
      if Numbered(icc, chunk.number) || !(1 <= chunk.number <= chunk.count) { return None; }
      icc := icc + [chunk];
    }
    if IsStandard(s) {
      standard := standard + [Drop(s.data, 29)];
    }
    if IsExtension(s) {
      var guid, part := GuidOf(s), PartOf(s);
      if part.full > METADATA_LIMIT || part.offset + |part.data| > part.full { return None; }
      if guid !in extended {
        guids, extended := guids + [guid], extended[guid := []];
      }
      extended := extended[guid := extended[guid] + [part]];
    }
    if IsExif(s) {
      if exif.Some? { return None; }
      exif := Some(Drop(s.data, 6));
    }
    r := Some(State(total, dimensions, icc, standard, guids, extended, exif));
    assert r.value.extended == Record(st, s).extended;
  }
}
