/** From whole streams: exactly which segment lists are admitted, and what is read back from a written one. */
module JpegRoundTrip {
  import opened ByteStrings
  import opened Jpeg
  import opened JpegMetadata
  import opened JpegAssembly
  import opened JpegLaws
  import opened Results
  import opened Sequences

  // ---------------------------------------------------------------- what a list of segments carries

  function DataSize(segments: seq<Segment>): nat {
    if segments == [] then 0 else DataSize(segments[..|segments| - 1]) + |segments[|segments| - 1].data|
  }

  function IccChunks(segments: seq<Segment>): seq<Chunk> {
    if segments == [] then []
    else
      var s, front := segments[|segments| - 1], IccChunks(segments[..|segments| - 1]);
      if IsIcc(s) && |s.data| >= 14 then front + [ChunkOf(s)] else front
  }

  function Standards(segments: seq<Segment>): seq<Bytes> {
    if segments == [] then []
    else
      var s, front := segments[|segments| - 1], Standards(segments[..|segments| - 1]);
      if IsStandard(s) then front + [Drop(s.data, 29)] else front
  }

  function PartsFor(segments: seq<Segment>, guid: Bytes): seq<Part> {
    if segments == [] then []
    else
      var s, front := segments[|segments| - 1], PartsFor(segments[..|segments| - 1], guid);
      if IsExtension(s) && GuidOf(s) == guid then front + [PartOf(s)] else front
  }

  function ExifOf(segments: seq<Segment>): Option<Bytes> {
    if segments == [] then None
    else
      var s := segments[|segments| - 1];
      if IsExif(s) then Some(Drop(s.data, 6)) else ExifOf(segments[..|segments| - 1])
  }

  predicate AnySof(segments: seq<Segment>) { exists i :: 0 <= i < |segments| && IsSof(segments[i]) }

  predicate AnyExif(segments: seq<Segment>) { exists i :: 0 <= i < |segments| && IsExif(segments[i]) }

  /** The reader's admission, said of the list as a whole. */
  ghost predicate Accepts(segments: seq<Segment>, limits: Limits) {
    && DataSize(segments) <= limits.metadata
    && AllSane(segments, limits)
    && DistinctNumbers(IccChunks(segments))
    && OneExif(segments)
  }

  predicate AllSane(segments: seq<Segment>, limits: Limits) {
    forall i :: 0 <= i < |segments| ==> Sane(segments[i], limits)
  }

  predicate OneExif(segments: seq<Segment>) {
    forall i, j :: 0 <= i < j < |segments| ==> !(IsExif(segments[i]) && IsExif(segments[j]))
  }

  // ---------------------------------------------------------------- the loop gathers exactly that

  lemma {:induction false} FoldCollects(segments: seq<Segment>, limits: Limits)
    requires Fold(segments, limits).Some?
    ensures var st := Fold(segments, limits).value;
            && st.total == DataSize(segments) && st.icc == IccChunks(segments) && st.standard == Standards(segments)
            && (st.dimensions.Some? <==> AnySof(segments)) && (st.exif.Some? <==> AnyExif(segments))
            && st.exif == ExifOf(segments)
  {
    hide IsSof, IsIcc, IsStandard, IsExtension, IsExif, GuidOf, PartOf, Height, Width, ChunkOf;
    if segments != [] {
      var front, s := segments[..|segments| - 1], segments[|segments| - 1];
      FoldCollects(front, limits);
      assert segments == front + [s];
      assert AnySof(segments) <==> AnySof(front) || IsSof(s) by { AnyOfLast(front, s); }
      assert AnyExif(segments) <==> AnyExif(front) || IsExif(s) by { AnyOfLast(front, s); }
    }
  }

  lemma AnyOfLast(front: seq<Segment>, s: Segment)
    ensures AnySof(front + [s]) <==> AnySof(front) || IsSof(s)
    ensures AnyExif(front + [s]) <==> AnyExif(front) || IsExif(s)
  {
    hide IsSof, IsExif;
    var all := front + [s];
    assert all[|front|] == s && forall i :: 0 <= i < |front| ==> all[i] == front[i];
  }

  lemma {:induction false} FoldParts(segments: seq<Segment>, limits: Limits, guid: Bytes)
    requires Fold(segments, limits).Some?
    ensures PartsUnder(Fold(segments, limits).value.extended, guid) == PartsFor(segments, guid)
  {
    hide IsSof, IsIcc, IsStandard, IsExtension, IsExif, GuidOf, PartOf, Height, Width, ChunkOf;
    if segments != [] {
      FoldParts(segments[..|segments| - 1], limits, guid);
    }
  }

  lemma {:induction false} FoldGuids(segments: seq<Segment>, limits: Limits)
    requires Fold(segments, limits).Some?
    ensures Distinct(Fold(segments, limits).value.guids)
    ensures forall g :: g in Fold(segments, limits).value.guids <==> g in Fold(segments, limits).value.extended
  {
    hide IsSof, IsIcc, IsStandard, IsExtension, IsExif, GuidOf, PartOf, Height, Width, ChunkOf;
    if segments != [] {
      FoldGuids(segments[..|segments| - 1], limits);
    }
  }

  lemma DistinctLast(icc: seq<Chunk>, c: Chunk)
    ensures DistinctNumbers(icc + [c]) <==> DistinctNumbers(icc) && !Numbered(icc, c.number)
  {
    var all := icc + [c];
    assert all[|icc|] == c && forall i :: 0 <= i < |icc| ==> all[i] == icc[i];
  }

  lemma SaneLast(front: seq<Segment>, s: Segment, limits: Limits)
    ensures AllSane(front + [s], limits) <==> AllSane(front, limits) && Sane(s, limits)
  {
    hide Sane;
    var all := front + [s];
    assert all[|front|] == s && forall i :: 0 <= i < |front| ==> all[i] == front[i];
  }

  lemma ExifLast(front: seq<Segment>, s: Segment)
    ensures OneExif(front + [s]) <==> OneExif(front) && (IsExif(s) ==> !AnyExif(front))
  {
    hide IsExif;
    var all := front + [s];
    assert all[|front|] == s && forall i :: 0 <= i < |front| ==> all[i] == front[i];
  }

  lemma AcceptsLast(front: seq<Segment>, s: Segment, limits: Limits)
    ensures Accepts(front + [s], limits) <==>
            && Accepts(front, limits) && DataSize(front) + |s.data| <= limits.metadata && Sane(s, limits)
            && (IsIcc(s) && |s.data| >= 14 ==> !Numbered(IccChunks(front), s.data[12]))
            && (IsExif(s) ==> !AnyExif(front))
  {
    hide IsIcc, IsExif, Sane, Numbered, DistinctNumbers, AllSane, OneExif, AnyExif;
    var all := front + [s];
    assert all[..|front|] == front && all[|front|] == s;
    SaneLast(front, s, limits);
    ExifLast(front, s);
    if IsIcc(s) && |s.data| >= 14 { DistinctLast(IccChunks(front), ChunkOf(s)); }
  }

  /** The loop admits a list exactly when the list is admissible as a whole, in any order of its segments. */
  lemma {:induction false} FoldAccepts(segments: seq<Segment>, limits: Limits)
    ensures Fold(segments, limits).Some? <==> Accepts(segments, limits)
  {
    hide IsIcc, IsExif, IsStandard, IsExtension, IsSof, Numbered, DistinctNumbers, AnyExif, AnySof, Record;
    if segments == [] {
      assert DistinctNumbers([]) by { NoNumbers(); }
    } else {
      hide Accepts;
      var front, s := segments[..|segments| - 1], segments[|segments| - 1];
      FoldAccepts(front, limits);
      AcceptsLast(front, s, limits);
      assert segments == front + [s];
      if Fold(front, limits).Some? { FoldCollects(front, limits); }
    }
  }

  lemma NoNumbers()
    ensures DistinctNumbers([])
  {
  }

  // ---------------------------------------------------------------- the segments a writer emits

  function IccSegment(c: Chunk): Segment { Segment(0xe2, ICC_HEADER + [c.number, c.count] + c.data) }

  function ExtensionSegment(guid: Bytes, p: Part): Segment {
    Segment(0xe1, EXTENSION_HEADER + (guid + ToBytes(p.full, 4) + ToBytes(p.offset, 4) + p.data))
  }

  /** A written chunk is recognised and read as itself. */
  lemma ChunkWritten(c: Chunk)
    ensures IsIcc(IccSegment(c)) && |IccSegment(c).data| >= 14 && ChunkOf(IccSegment(c)) == c
  {
    hide Ascii;
    assert |ICC_HEADER| == 12;
    MiddleOf(ICC_HEADER, [c.number, c.count], c.data);
    var data := IccSegment(c).data;
    assert data[12..14] == [c.number, c.count] && data[12..14][0] == data[12] && data[12..14][1] == data[13];
  }

  /** A written extended part is recognised and read as itself, under its identifier. */
  lemma PartWritten(guid: Bytes, p: Part)
    requires |guid| == 32 && p.full < 0x1_0000_0000 && p.offset < 0x1_0000_0000
    ensures var s := ExtensionSegment(guid, p);
            IsExtension(s) && GuidOf(s) == guid && PartOf(s) == p
  {
    hide Ascii, ToBytes, FromBytes;
    assert |EXTENSION_HEADER| == 35;
    var full, offset := ToBytes(p.full, 4), ToBytes(p.offset, 4);
    var part := guid + full + offset + p.data;
    assert Drop(ExtensionSegment(guid, p).data, 35) == part;
    PartFields(guid, full, offset, p.data);
    Word32(p.full);
    Word32(p.offset);
  }

  lemma PartFields(guid: Bytes, full: Bytes, offset: Bytes, data: Bytes)
    requires |guid| == 32 && |full| == 4 && |offset| == 4
    ensures var part := guid + full + offset + data;
            && Cut(part, 0, 32) == guid && Cut(part, 32, 36) == full && Cut(part, 36, 40) == offset
            && Drop(part, 40) == data
  {
    var part := guid + full + offset + data;
    MiddleOf(guid, full, offset + data);
    MiddleOf(guid + full, offset, data);
    assert part == guid + full + (offset + data) == (guid + full) + offset + data;
    assert part[0..32] == guid && part[32..] == full + offset + data;
    assert data == [] ==> part[36..] == offset;
  }

  function StandardSegment(packet: Bytes): Segment { Segment(0xe1, STANDARD_HEADER + packet) }

  function ExifSegment(payload: Bytes): Segment { Segment(0xe1, EXIF_HEADER + payload) }

  /** A start of frame: eight bits a sample, the height before the width, and what describes the components. */
  function SofSegment(height: nat, width: nat, components: Bytes): Segment
    requires height < 0x1_0000 && width < 0x1_0000
  {
    Segment(0xc0, [8] + ToBytes(height, 2) + ToBytes(width, 2) + components)
  }

  /** A written standard packet is recognised and read as itself. */
  lemma StandardWritten(packet: Bytes)
    ensures IsStandard(StandardSegment(packet)) && Drop(StandardSegment(packet).data, 29) == packet
  {
    hide Ascii;
    assert |STANDARD_HEADER| == 29;
  }

  /** So is a written Exif payload. */
  lemma ExifWritten(payload: Bytes)
    ensures IsExif(ExifSegment(payload)) && Drop(ExifSegment(payload).data, 6) == payload
  {
    hide Ascii;
    assert |EXIF_HEADER| == 6;
  }

  /** A written frame is read with its own height and width, and admitted exactly when it has pixels, not too many. */
  lemma SofWritten(height: nat, width: nat, components: Bytes, limits: Limits)
    requires height < 0x1_0000 && width < 0x1_0000
    ensures var s := SofSegment(height, width, components);
            && IsSof(s) && Height(s) == height && Width(s) == width
            && (Sane(s, limits) <==> components != [] && 0 < width && 0 < height && width * height <= limits.pixels)
  {
    hide ToBytes, FromBytes;
    var h, w := ToBytes(height, 2), ToBytes(width, 2);
    Word16(height);
    Word16(width);
    MiddleOf([8], h, w + components);
    MiddleOf([8] + h, w, components);
    var data := SofSegment(height, width, components).data;
    assert data == [8] + h + (w + components) == ([8] + h) + w + components;
    assert Cut(data, 1, 3) == h && Cut(data, 3, 5) == w;
  }

  /** The one Exif segment of an admitted list is the one kept. */
  lemma {:induction false} ExifKept(segments: seq<Segment>, i: nat)
    requires i < |segments| && OneExif(segments) && IsExif(segments[i])
    ensures ExifOf(segments) == Some(Drop(segments[i].data, 6))
  {
    hide IsExif;
    var n := |segments| - 1;
    if i < n {
      assert !IsExif(segments[n]);
      ExifKept(segments[..n], i);
    }
  }

  lemma {:induction false} StandardKept(segments: seq<Segment>, i: nat)
    requires i < |segments| && IsStandard(segments[i])
    ensures Drop(segments[i].data, 29) in Standards(segments)
  {
    hide IsStandard;
    if i < |segments| - 1 { StandardKept(segments[..|segments| - 1], i); }
  }

  /** Whatever a writer wrote of the standard packets and of Exif is carried by the list. */
  lemma WrittenCarried(segments: seq<Segment>)
    requires OneExif(segments)
    ensures forall packet :: StandardSegment(packet) in segments ==> packet in Standards(segments)
    ensures forall payload :: ExifSegment(payload) in segments ==> ExifOf(segments) == Some(payload)
  {
    hide IsStandard, IsExif, Standards, ExifOf, StandardSegment, ExifSegment;
    forall packet | StandardSegment(packet) in segments ensures packet in Standards(segments) {
      var i :| 0 <= i < |segments| && segments[i] == StandardSegment(packet);
      StandardWritten(packet);
      StandardKept(segments, i);
    }
    forall payload | ExifSegment(payload) in segments ensures ExifOf(segments) == Some(payload) {
      var i :| 0 <= i < |segments| && segments[i] == ExifSegment(payload);
      ExifWritten(payload);
      ExifKept(segments, i);
    }
  }

  // ---------------------------------------------------------------- writing and reading back

  function Written(segments: seq<Segment>, end: Byte, rest: Bytes): Bytes {
    [0xff, 0xd8] + EncodeAll(segments) + [0xff, end] + rest
  }

  lemma GatheredWritten(segments: seq<Segment>, end: Byte, rest: Bytes, limits: Limits)
    requires Ends(end) && forall i :: 0 <= i < |segments| ==> Framed(segments[i])
    ensures Gathered(Written(segments, end, rest), limits) == Fold(segments, limits)
  {
    hide Scan, EncodeAll, Fold;
    ScanEncoded([0xff, 0xd8], segments, end, rest);
    var stream := Written(segments, end, rest);
    assert stream[0] == 0xff && stream[1] == 0xd8;
  }

  /** How extended packets were cut: under each identifier, pieces of a packet it identifies, the empty ones last. */
  ghost predicate WellSplit(segments: seq<Segment>, splits: map<Bytes, seq<Bytes>>, digest: Bytes -> Bytes) {
    forall g :: PartsFor(segments, g) != [] || g in splits ==>
      && g in splits && splits[g] != [] && EmptiesLast(splits[g])
      && multiset(PartsFor(segments, g)) == multiset(PartsOf(splits[g]))
      && digest(Join(splits[g])) == g && Linked(Standards(segments), g)
  }

  function Rejoined(guids: seq<Bytes>, splits: map<Bytes, seq<Bytes>>): seq<Bytes>
    requires forall i :: 0 <= i < |guids| ==> guids[i] in splits
  {
    if guids == [] then []
    else Rejoined(guids[..|guids| - 1], splits) + [Join(splits[guids[|guids| - 1]])]
  }

  lemma PacketOfGuid(
    st: State, segments: seq<Segment>, limits: Limits, splits: map<Bytes, seq<Bytes>>, digest: Bytes -> Bytes, g: Bytes)
    requires Fold(segments, limits) == Some(st) && WellSplit(segments, splits, digest)
    requires g in st.extended || g in splits
    ensures g in splits && Packet(PartsUnder(st.extended, g)) == Some(Join(splits[g])) && GroupAccepted(st, g, digest)
    ensures g in st.extended
  {
    hide PartsFor, Packet, EmptiesLast, PartsOf, Linked, Join, Record, Admit;
    FoldParts(segments, limits, g);
    FoldCollects(segments, limits);
    if g in st.extended {
      FoldGuids(segments, limits);
      FoldBacked(segments, limits);
      var i :| 0 <= i < |st.guids| && st.guids[i] == g;
      assert PartsUnder(st.extended, st.guids[i]) != [];
    }
    assert g in splits;
    SplitPacketReassembled(splits[g], PartsFor(segments, g));
    assert |multiset(PartsFor(segments, g))| == |multiset(PartsOf(splits[g]))|;
    PartsCount(splits[g]);
  }

  lemma PartsCount(pieces: seq<Bytes>)
    ensures |PartsOf(pieces)| == |pieces| && |multiset(PartsOf(pieces))| == |pieces|
  {
  }

  lemma {:induction false} PacketsRejoined(
    st: State, segments: seq<Segment>, limits: Limits, splits: map<Bytes, seq<Bytes>>, digest: Bytes -> Bytes, n: nat)
    requires Fold(segments, limits) == Some(st) && WellSplit(segments, splits, digest)
    requires n <= |st.guids| && forall i :: 0 <= i < |st.guids| ==> st.guids[i] in splits && st.guids[i] in st.extended
    ensures Packets(st, n, digest) == Some(Rejoined(st.guids[..n], splits))
  {
    hide Fold, WellSplit, GroupAccepted, Packet, Join;
    if n > 0 {
      PacketsRejoined(st, segments, limits, splits, digest, n - 1);
      PacketOfGuid(st, segments, limits, splits, digest, st.guids[n - 1]);
      assert st.guids[..n][..n - 1] == st.guids[..n - 1];
    }
  }

  /**
   * A written stream is read back: whatever the order of its segments, the profile and every extended packet
   * come out whole, behind the standard packets, and so does the Exif payload if there is one.
   */
  lemma MetadataReadBack(
    segments: seq<Segment>, limits: Limits, pieces: seq<Bytes>, splits: map<Bytes, seq<Bytes>>,
    digest: Bytes -> Bytes, links: seq<Bytes> -> set<Bytes>, end: Byte, rest: Bytes)
    returns (order: seq<Bytes>)
    requires Ends(end) && (forall i :: 0 <= i < |segments| ==> Framed(segments[i]))
    requires Accepts(segments, limits) && AnySof(segments)
    requires |pieces| <= 255 && multiset(IccChunks(segments)) == multiset(NumberedPieces(pieces))
    requires WellSplit(segments, splits, digest) && links(Standards(segments)) == splits.Keys
    ensures Distinct(order) && Elements(order) == splits.Keys
    ensures var r := Read(Written(segments, end, rest), limits, digest, links);
            && r.Some? && r.value.profile == Join(pieces)
            && r.value.packets == Standards(segments) + Rejoined(order, splits)
            && (forall packet :: StandardSegment(packet) in segments ==> packet in r.value.packets)
            && (forall payload :: ExifSegment(payload) in segments ==> r.value.exif == Some(payload))
            && (r.value.exif.Some? <==> AnyExif(segments))
  {
    hide Fold, Profile, WellSplit, Join, Written, Packets, NumberedPieces, Standards, IccChunks, AnySof, AnyExif,
         AllSane, DistinctNumbers, DataSize, OneExif, ExifOf, StandardSegment, ExifSegment;
    WrittenCarried(segments);
    GatheredWritten(segments, end, rest, limits);
    FoldAccepts(segments, limits);
    var st := Fold(segments, limits).value;
    FoldCollects(segments, limits);
    FoldGuids(segments, limits);
    SplitProfileReassembled(pieces, st.icc);
    order := st.guids;
    forall g ensures g in order <==> g in splits {
      if g in st.extended || g in splits { PacketOfGuid(st, segments, limits, splits, digest, g); }
    }
    PacketsRejoined(st, segments, limits, splits, digest, |order|);
    assert order[..|order|] == order;
  }

  // ---------------------------------------------------------------- and nothing else

  lemma {:induction false} PacketsAccepted(st: State, n: nat, digest: Bytes -> Bytes, i: nat)
    requires i < n <= |st.guids| && Packets(st, n, digest).Some?
    ensures |Packets(st, n, digest).value| == n && GroupAccepted(st, st.guids[i], digest)
    ensures Packets(st, n, digest).value[i] == Packet(PartsUnder(st.extended, st.guids[i])).value
  {
    hide GroupAccepted, Packet;
    if i < n - 1 {
      PacketsAccepted(st, n - 1, digest, i);
    } else if n > 1 {
      PacketsAccepted(st, n - 1, digest, 0);
    }
  }

  /** What an accepted stream must have carried. */
  lemma AcceptedStream(stream: Bytes, limits: Limits, digest: Bytes -> Bytes, links: seq<Bytes> -> set<Bytes>)
    returns (segments: seq<Segment>, end: nat, order: seq<Bytes>)
    requires Read(stream, limits, digest, links).Some?
    ensures 2 <= end && end + 2 <= |stream| && Ends(stream[end + 1])
    ensures stream[..end + 1] == [0xff, 0xd8] + EncodeAll(segments) + [0xff]
    ensures Accepts(segments, limits) && AnySof(segments)
    ensures Profile(IccChunks(segments)) == Some(Read(stream, limits, digest, links).value.profile)
    ensures Distinct(order) && Elements(order) == links(Standards(segments))
    ensures forall g :: g in order <==> PartsFor(segments, g) != []
    ensures var packets := Read(stream, limits, digest, links).value.packets;
            && |packets| == |Standards(segments)| + |order|
            && packets[..|Standards(segments)|] == Standards(segments)
            && forall i :: 0 <= i < |order| ==>
                 && Packet(PartsFor(segments, order[i])) == Some(packets[|Standards(segments)| + i])
                 && digest(packets[|Standards(segments)| + i]) == order[i] && Linked(Standards(segments), order[i])
  {
    hide Scan, Fold, Profile, Join, Accepts, Packets, Standards, IccChunks, AnySof, Packet, PartsFor;
    segments := Scan(stream, 2).value;
    end := ScanAccounts(stream, 2);
    SliceJoin(stream, 0, 2, end + 1);
    SliceJoin(stream, 2, end, end + 1);
    assert stream[0..2] == [0xff, 0xd8];
    FoldAccepts(segments, limits);
    FoldCollects(segments, limits);
    FoldGuids(segments, limits);
    FoldBacked(segments, limits);
    var st := Fold(segments, limits).value;
    order := st.guids;
    forall g ensures PartsUnder(st.extended, g) == PartsFor(segments, g) { FoldParts(segments, limits, g); }
    var packets := Packets(st, |order|, digest).value;
    PacketsLength(st, |order|, digest);
    forall i | 0 <= i < |order|
      ensures GroupAccepted(st, order[i], digest) && packets[i] == Packet(PartsUnder(st.extended, order[i])).value
    {
      PacketsAccepted(st, |order|, digest, i);
    }
  }

  lemma {:induction false} PacketsLength(st: State, n: nat, digest: Bytes -> Bytes)
    requires n <= |st.guids| && Packets(st, n, digest).Some?
    ensures |Packets(st, n, digest).value| == n
  {
    if n > 0 { PacketsLength(st, n - 1, digest); }
  }
}
