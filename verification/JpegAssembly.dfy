/** What the reader makes of the gathered chunks and parts once the segments are over. */
module JpegAssembly {
  import opened ByteStrings
  import opened Jpeg
  import opened JpegMetadata
  import opened Results
  import opened Sequences
  import opened Sorting

  // ---------------------------------------------------------------- ICC

  function Numbers(icc: seq<Chunk>): set<int> { set i | 0 <= i < |icc| :: icc[i].number as int }

  function UpTo(n: nat): set<int> { if n == 0 then {} else UpTo(n - 1) + {n} }

  /** The payload held under a number. */
  function DataOf(icc: seq<Chunk>, number: int): Bytes {
    if icc == [] then []
    else if icc[|icc| - 1].number == number then icc[|icc| - 1].data
    else DataOf(icc[..|icc| - 1], number)
  }

  function JoinChunks(icc: seq<Chunk>, n: nat): Bytes {
    if n == 0 then [] else JoinChunks(icc, n - 1) + DataOf(icc, n)
  }

  predicate Complete(icc: seq<Chunk>)
    requires icc != []
  {
    Numbers(icc) == UpTo(icc[0].count) && forall i :: 0 <= i < |icc| ==> icc[i].count == icc[0].count
  }

  function Profile(icc: seq<Chunk>): Option<Bytes> {
    if icc == [] then Some([]) else if !Complete(icc) then None else Some(JoinChunks(icc, icc[0].count))
  }

  method AssembleProfile(icc: seq<Chunk>) returns (r: Option<Bytes>)
    ensures r == Profile(icc)
  {
    if icc == [] { return Some([]); }
    var count := icc[0].count;
    if !Complete(icc) { return None; }
    var profile: Bytes := [];
    var i := 0;
    while i < count
      invariant 0 <= i <= count && profile == JoinChunks(icc, i)
    {
      i := i + 1;
      profile := profile + DataOf(icc, i);
    }
    return Some(profile);
  }

  // ---------------------------------------------------------------- extended XMP

  const BY_OFFSET: (Part, Part) -> bool := (a: Part, b: Part) => a.offset <= b.offset

  function Contents(parts: seq<Part>): seq<Bytes> { seq(|parts|, i requires 0 <= i < |parts| => parts[i].data) }

  function Body(parts: seq<Part>): Bytes { Join(Contents(parts)) }

  /** In this order, each part starts where the earlier ones end, and all agree on the full length. */
  ghost predicate Tiles(parts: seq<Part>) { forall k :: 0 <= k < |parts| ==> InPlace(parts, k) }

  ghost predicate InPlace(parts: seq<Part>, k: nat)
    requires k < |parts|
  {
    parts[k].offset == |Body(parts[..k])| && parts[k].full == parts[0].full
  }

  lemma BodyStep(parts: seq<Part>, k: nat)
    requires k < |parts|
    ensures Body(parts[..k + 1]) == Body(parts[..k]) + parts[k].data
  {
    assert Contents(parts[..k + 1])[..k] == Contents(parts[..k]);
  }

  ghost function Packet(parts: seq<Part>): Option<Bytes> {
    var ordered := Sort(parts, BY_OFFSET);
    if ordered != [] && Tiles(ordered) && |Body(ordered)| == ordered[0].full then Some(Body(ordered)) else None
  }

  lemma BodyEmpty()
    ensures Body([]) == []
  {
  }

  /** Sort by offset, then walk the parts with a running position. */
  method AssemblePacket(parts: seq<Part>) returns (r: Option<Bytes>)
    requires parts != []
    ensures r == Packet(parts)
  {
    hide Sort, Body;
    var ordered := Sort(parts, BY_OFFSET);
    assert ordered[..0] == [] && Body([]) == [] by { BodyEmpty(); }
    var position, blob: Bytes, k := 0, [], 0;
    while k < |ordered|
      invariant 0 <= k <= |ordered|
      invariant blob == Body(ordered[..k]) && position == |blob|
      invariant forall j :: 0 <= j < k ==> InPlace(ordered, j)
    {
      BodyStep(ordered, k);
      assert InPlace(ordered, k) <==> ordered[k].offset == position && ordered[k].full == ordered[0].full;
      if ordered[k].offset != position || ordered[k].full != ordered[0].full { return None; }
      position, blob, k := position + |ordered[k].data|, blob + ordered[k].data, k + 1;
    }
    assert ordered[..k] == ordered;
    if position != ordered[0].full { return None; }
    return Some(blob);
  }

  predicate HeldAt(packet: Bytes, guid: Bytes, i: nat)
    requires i + |guid| <= |packet|
  {
    packet[i..i + |guid|] == guid
  }

  predicate Contains(packet: Bytes, guid: Bytes) {
    exists i :: 0 <= i <= |packet| - |guid| && HeldAt(packet, guid, i)
  }

  predicate Linked(standard: seq<Bytes>, guid: Bytes) {
    exists i :: 0 <= i < |standard| && Contains(standard[i], guid)
  }

  ghost predicate GroupAccepted(st: State, guid: Bytes, digest: Bytes -> Bytes) {
    var packet := Packet(PartsUnder(st.extended, guid));
    packet.Some? && digest(packet.value) == guid && Linked(st.standard, guid)
  }

  /** The packets of the first `n` identifiers, in the order the identifiers first appeared. */
  ghost function Packets(st: State, n: nat, digest: Bytes -> Bytes): Option<seq<Bytes>>
    requires n <= |st.guids|
  {
    if n == 0 then Some([])
    else
      var guid := st.guids[n - 1];
      match Packets(st, n - 1, digest)
      case None => None
      case Some(front) =>
        if GroupAccepted(st, guid, digest) then Some(front + [Packet(PartsUnder(st.extended, guid)).value]) else None
  }

  lemma {:induction false} RefusedGroup(st: State, k: nat, n: nat, digest: Bytes -> Bytes)
    requires k <= n <= |st.guids| && Packets(st, k, digest).None?
    ensures Packets(st, n, digest).None?
  {
    hide GroupAccepted, Packet, PartsUnder;
    if k < n { RefusedGroup(st, k, n - 1, digest); }
  }

  // ---------------------------------------------------------------- the whole result

  datatype Metadata = Metadata(profile: Bytes, packets: seq<Bytes>, exif: Option<Bytes>)

  ghost function Finished(st: State, digest: Bytes -> Bytes, links: seq<Bytes> -> set<Bytes>): Option<Metadata> {
    if st.dimensions.None? || Profile(st.icc).None? then None
    else
      match Packets(st, |st.guids|, digest)
      case None => None
      case Some(packets) =>
        if links(st.standard) != Elements(st.guids) then None
        else Some(Metadata(Profile(st.icc).value, st.standard + packets, st.exif))
  }

  /** The metadata of a stream; the hash and the search for packet links are parameters. */
  ghost function Read(
    stream: Bytes, limits: Limits, digest: Bytes -> Bytes, links: seq<Bytes> -> set<Bytes>): Option<Metadata>
  {
    match Gathered(stream, limits)
    case None => None
    case Some(st) => Finished(st, digest, links)
  }

  /** No identifier is listed without parts under it. */
  predicate Backed(st: State) {
    forall i :: 0 <= i < |st.guids| ==> PartsUnder(st.extended, st.guids[i]) != []
  }

  method Finish(st: State, digest: Bytes -> Bytes, links: seq<Bytes> -> set<Bytes>) returns (r: Option<Metadata>)
    requires Backed(st)
    ensures r == Finished(st, digest, links)
  {
    hide Profile, Packet, Sort, Linked, PartsUnder;
    if st.dimensions.None? { return None; }
    var profile := AssembleProfile(st.icc);
    if profile.None? { return None; }
    var packets: seq<Bytes>, n := [], 0;
    while n < |st.guids|
      invariant 0 <= n <= |st.guids| && Packets(st, n, digest) == Some(packets)
    {
      var guid := st.guids[n];
      var packet := AssemblePacket(PartsUnder(st.extended, guid));
      if packet.None? || digest(packet.value) != guid || !Linked(st.standard, guid) {
        RefusedGroup(st, n + 1, |st.guids|, digest);
        return None;
      }
      packets, n := packets + [packet.value], n + 1;
    }
    if links(st.standard) != Elements(st.guids) { return None; }
    return Some(Metadata(profile.value, st.standard + packets, st.exif));
  }

  method ReadMetadata(
    stream: Bytes, limits: Limits, digest: Bytes -> Bytes, links: seq<Bytes> -> set<Bytes>)
    returns (r: Option<Metadata>)
    ensures r == Read(stream, limits, digest, links)
  {
    hide Finished, Record;
    var st := Gather(stream, limits);
    if st.None? { return None; }
    GatheredBacked(stream, limits);
    r := Finish(st.value, digest, links);
  }

  lemma GatheredBacked(stream: Bytes, limits: Limits)
    ensures Gathered(stream, limits).Some? ==> Backed(Gathered(stream, limits).value)
  {
    if Gathered(stream, limits).Some? {
      FoldBacked(Scan(stream, 2).value, limits);
    }
  }

  lemma {:induction false} FoldBacked(segments: seq<Segment>, limits: Limits)
    requires Fold(segments, limits).Some?
    ensures Backed(Fold(segments, limits).value)
    ensures forall g :: g in Fold(segments, limits).value.extended ==> g in Fold(segments, limits).value.guids
  {
    hide GuidOf, PartOf, Sane;
    if segments != [] {
      FoldBacked(segments[..|segments| - 1], limits);
    }
  }
}
