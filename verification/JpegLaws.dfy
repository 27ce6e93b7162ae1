/** Split metadata is read back whole, in any arrival order; and nothing else is accepted. */
module JpegLaws {
  import opened ByteStrings
  import opened JpegMetadata
  import opened JpegAssembly
  import opened Results
  import opened Sorting

  // ---------------------------------------------------------------- a profile in chunks

  function ChunkAt(pieces: seq<Bytes>, i: nat): Chunk
    requires i < |pieces| <= 255
  {
    Chunk(i + 1, |pieces|, pieces[i])
  }

  /** A profile cut into pieces, numbered from one (Annex B of ICC.1:2010). */
  function NumberedPieces(pieces: seq<Bytes>): seq<Chunk>
    requires |pieces| <= 255
  {
    seq(|pieces|, i requires 0 <= i < |pieces| => ChunkAt(pieces, i))
  }

  /** A held number gives the payload of a chunk that carries it. */
  lemma {:induction false} DataHeld(icc: seq<Chunk>, i: nat) returns (j: nat)
    requires i < |icc|
    ensures j < |icc| && icc[j].number == icc[i].number && DataOf(icc, icc[i].number) == icc[j].data
  {
    j := |icc| - 1;
    if icc[j].number != icc[i].number {
      j := DataHeld(icc[..j], i);
    }
  }

  lemma {:induction false} UpToMembers(n: nat)
    ensures forall i: int :: i in UpTo(n) <==> 1 <= i <= n
    ensures |UpTo(n)| == n
  {
    if n > 0 { UpToMembers(n - 1); }
  }

  lemma PieceHeld(pieces: seq<Bytes>, arrival: seq<Chunk>, i: nat)
    requires i < |pieces| <= 255 && multiset(arrival) == multiset(NumberedPieces(pieces))
    ensures DataOf(arrival, i + 1) == pieces[i] && i + 1 in Numbers(arrival)
  {
    SameElements(arrival, NumberedPieces(pieces));
    var sought := ChunkAt(pieces, i);
    assert NumberedPieces(pieces)[i] == sought && sought in NumberedPieces(pieces);
    var k :| 0 <= k < |arrival| && arrival[k] == sought;
    var j := DataHeld(arrival, k);
    assert arrival[j] in NumberedPieces(pieces);
    var m :| 0 <= m < |pieces| && NumberedPieces(pieces)[m] == arrival[j];
  }

  lemma ArrivalComplete(pieces: seq<Bytes>, arrival: seq<Chunk>)
    requires 0 < |pieces| <= 255 && multiset(arrival) == multiset(NumberedPieces(pieces))
    ensures arrival != [] && arrival[0].count == |pieces| && Complete(arrival)
  {
    SameElements(arrival, NumberedPieces(pieces));
    PieceHeld(pieces, arrival, 0);
    UpToMembers(|pieces|);
    forall k | 0 <= k < |arrival| ensures arrival[k].count == |pieces| && 1 <= arrival[k].number <= |pieces| {
      assert arrival[k] in NumberedPieces(pieces);
      var m :| 0 <= m < |pieces| && NumberedPieces(pieces)[m] == arrival[k];
    }
    forall n: int | n in UpTo(|pieces|) ensures n in Numbers(arrival) {
      PieceHeld(pieces, arrival, n - 1);
    }
    assert Numbers(arrival) == UpTo(|pieces|);
  }

  lemma {:induction false} JoinChunksIs(pieces: seq<Bytes>, icc: seq<Chunk>, n: nat)
    requires n <= |pieces| && forall i :: 0 <= i < n ==> DataOf(icc, i + 1) == pieces[i]
    ensures JoinChunks(icc, n) == Join(pieces[..n])
  {
    if n > 0 {
      JoinChunksIs(pieces, icc, n - 1);
      assert pieces[..n][..n - 1] == pieces[..n - 1];
    } else {
      assert pieces[..n] == [];
    }
  }

  /** Any cut of a profile into at most 255 pieces, in any arrival order, gives the profile back. */
  lemma SplitProfileReassembled(pieces: seq<Bytes>, arrival: seq<Chunk>)
    requires |pieces| <= 255 && multiset(arrival) == multiset(NumberedPieces(pieces))
    ensures Profile(arrival) == Some(Join(pieces))
  {
    assert |multiset(arrival)| == |arrival| == |pieces|;
    if pieces != [] {
      ArrivalComplete(pieces, arrival);
      forall i | 0 <= i < |pieces| ensures DataOf(arrival, i + 1) == pieces[i] {
        PieceHeld(pieces, arrival, i);
      }
      JoinChunksIs(pieces, arrival, |pieces|);
      assert pieces[..|pieces|] == pieces;
    }
  }

  ghost predicate DistinctNumbers(icc: seq<Chunk>) {
    forall i, j :: 0 <= i < j < |icc| ==> icc[i].number != icc[j].number
  }

  lemma {:induction false} NumbersCount(icc: seq<Chunk>)
    requires DistinctNumbers(icc)
    ensures |Numbers(icc)| == |icc|
  {
    if icc != [] {
      var last := |icc| - 1;
      NumbersCount(icc[..last]);
      assert Numbers(icc) == Numbers(icc[..last]) + {icc[last].number as int};
      assert icc[last].number as int !in Numbers(icc[..last]);
    }
  }

  /**
   The accepted numbers are exactly one to the common count, each once, and the profile is their payloads in
   order.
   */
  lemma AcceptedNumbersExact(icc: seq<Chunk>)
    requires icc != [] && DistinctNumbers(icc) && Profile(icc).Some?
    ensures |icc| == icc[0].count && forall i :: 0 <= i < |icc| ==> icc[i].count == |icc| && 1 <= icc[i].number <= |icc|
    ensures forall n: Byte :: 1 <= n <= |icc| ==> Numbered(icc, n)
    ensures Profile(icc).value == JoinChunks(icc, |icc|)
    ensures forall i :: 0 <= i < |icc| ==> DataOf(icc, icc[i].number) == icc[i].data
  {
    hide JoinChunks, DataOf, UpTo, DistinctNumbers;
    UpToMembers(icc[0].count);
    NumbersCount(icc);
    forall i | 0 <= i < |icc| ensures 1 <= icc[i].number <= |icc| && DataOf(icc, icc[i].number) == icc[i].data {
      assert icc[i].number as int in Numbers(icc);
      OnlyData(icc, i);
    }
    forall n: Byte | 1 <= n <= |icc| ensures Numbered(icc, n) {
      assert n as int in Numbers(icc);
    }
  }

  lemma OnlyData(icc: seq<Chunk>, i: nat)
    requires i < |icc| && DistinctNumbers(icc)
    ensures DataOf(icc, icc[i].number) == icc[i].data
  {
    var j := DataHeld(icc, i);
  }

  // ---------------------------------------------------------------- a packet in parts

  function PartAt(pieces: seq<Bytes>, i: nat): Part
    requires i < |pieces|
  {
    Part(|Join(pieces)|, |Join(pieces[..i])|, pieces[i])
  }

  /** A packet cut into pieces (section 1.1.3.1 of Part 3 of the XMP Specification). */
  function PartsOf(pieces: seq<Bytes>): seq<Part> {
    seq(|pieces|, i requires 0 <= i < |pieces| => PartAt(pieces, i))
  }

  /** No empty piece precedes a non-empty one. */
  predicate EmptiesLast(pieces: seq<Bytes>) {
    forall i, j :: 0 <= i < j < |pieces| && pieces[i] == [] ==> pieces[j] == []
  }

  lemma OffsetsIncrease(pieces: seq<Bytes>, i: nat, j: nat)
    requires i < j < |pieces|
    ensures |Join(pieces[..i])| + |pieces[i]| <= |Join(pieces[..j])|
  {
    JoinPrefix(pieces[..j], i + 1);
    assert pieces[..j][..i + 1] == pieces[..i + 1];
    assert pieces[..i + 1][..i] == pieces[..i];
  }

  lemma {:induction false} BodyOfParts(pieces: seq<Bytes>, n: nat)
    requires n <= |pieces|
    ensures Body(PartsOf(pieces)[..n]) == Join(pieces[..n])
  {
    if n > 0 {
      BodyOfParts(pieces, n - 1);
      BodyStep(PartsOf(pieces), n - 1);
      assert pieces[..n][..n - 1] == pieces[..n - 1];
    } else {
      assert pieces[..n] == [];
    }
  }

  lemma PartsTile(pieces: seq<Bytes>)
    ensures Tiles(PartsOf(pieces)) && Body(PartsOf(pieces)) == Join(pieces)
  {
    var parts := PartsOf(pieces);
    forall k | 0 <= k < |parts| ensures InPlace(parts, k) { BodyOfParts(pieces, k); }
    BodyOfParts(pieces, |pieces|);
    assert pieces[..|pieces|] == pieces && parts[..|pieces|] == parts;
  }

  lemma PartsSorted(pieces: seq<Bytes>)
    ensures SortedBy(PartsOf(pieces), BY_OFFSET)
  {
    var parts := PartsOf(pieces);
    forall i, j | 0 <= i < j < |parts| ensures parts[i].offset <= parts[j].offset {
      OffsetsIncrease(pieces, i, j);
    }
  }

  /** From an empty piece on, where all the others are empty, the offsets stay. */
  lemma {:induction false} EmptyTail(pieces: seq<Bytes>, i: nat, j: nat)
    requires i <= j < |pieces| && forall k :: i <= k < j ==> pieces[k] == []
    ensures |Join(pieces[..i])| == |Join(pieces[..j])|
  {
    if i < j {
      EmptyTail(pieces, i, j - 1);
      assert pieces[..j][..j - 1] == pieces[..j - 1];
    }
  }

  lemma TiedPieces(pieces: seq<Bytes>, i: nat, j: nat)
    requires EmptiesLast(pieces) && i < j < |pieces| && PartsOf(pieces)[i].offset == PartsOf(pieces)[j].offset
    ensures PartsOf(pieces)[i] == PartsOf(pieces)[j]
  {
    OffsetsIncrease(pieces, i, j);
    assert pieces[i] == [] && pieces[j] == [];
  }

  lemma PartsUntied(pieces: seq<Bytes>)
    requires EmptiesLast(pieces)
    ensures Untied(PartsOf(pieces), BY_OFFSET)
  {
    var parts := PartsOf(pieces);
    forall x, y | x in parts && y in parts && BY_OFFSET(x, y) && BY_OFFSET(y, x) ensures x == y {
      var i :| 0 <= i < |parts| && parts[i] == x;
      var j :| 0 <= j < |parts| && parts[j] == y;
      if i < j {
        TiedPieces(pieces, i, j);
      } else if j < i {
        TiedPieces(pieces, j, i);
      }
    }
  }

  /** Where empty pieces come last, every arrival order gives the packet back. */
  lemma SplitPacketReassembled(pieces: seq<Bytes>, arrival: seq<Part>)
    requires pieces != [] && EmptiesLast(pieces) && multiset(arrival) == multiset(PartsOf(pieces))
    ensures Packet(arrival) == Some(Join(pieces))
  {
    PartsSorted(pieces);
    PartsUntied(pieces);
    PartsTile(pieces);
    SortSorts(arrival, BY_OFFSET);
    SortedUnique(PartsOf(pieces), Sort(arrival, BY_OFFSET), BY_OFFSET);
    assert PartsOf(pieces)[0] == PartAt(pieces, 0);
  }

  lemma {:induction false} EmptyBefore(pieces: seq<Bytes>, i: nat, j: nat) returns (k: nat)
    requires i < j < |pieces| && pieces[i] == [] && pieces[j] != []
    ensures k + 1 < |pieces| && pieces[k] == [] && pieces[k + 1] != []
  {
    k := j - 1;
    if pieces[k] != [] {
      k := EmptyBefore(pieces, i, k);
    }
  }

  function Swapped(parts: seq<Part>, k: nat): (r: seq<Part>)
    requires k + 1 < |parts|
    ensures multiset(r) == multiset(parts)
  {
    parts[k := parts[k + 1]][k + 1 := parts[k]]
  }

  lemma SwappedSorted(parts: seq<Part>, k: nat)
    requires k + 1 < |parts| && SortedBy(parts, BY_OFFSET) && parts[k].offset == parts[k + 1].offset
    ensures SortedBy(Swapped(parts, k), BY_OFFSET)
  {
    var swapped := Swapped(parts, k);
    forall i, j | 0 <= i < j < |swapped| ensures BY_OFFSET(swapped[i], swapped[j]) {
      assert forall m :: 0 <= m < |parts| ==> swapped[m].offset == parts[m].offset;
      assert BY_OFFSET(parts[i], parts[j]);
    }
  }

  lemma SwappedGap(pieces: seq<Bytes>, k: nat)
    requires k + 1 < |pieces| && pieces[k] == [] && pieces[k + 1] != []
    ensures !Tiles(Swapped(PartsOf(pieces), k))
  {
    var parts := PartsOf(pieces);
    var swapped := Swapped(parts, k);
    assert swapped[..k] == parts[..k];
    BodyOfParts(pieces, k);
    BodyStep(swapped, k);
    assert !InPlace(swapped, k + 1);
  }

  /**
   Otherwise some arrival order is refused: the next non-empty part comes first and the stable sort leaves it
   there.
   */
  lemma EarlyEmptyRefused(pieces: seq<Bytes>) returns (arrival: seq<Part>)
    requires !EmptiesLast(pieces)
    ensures multiset(arrival) == multiset(PartsOf(pieces)) && Packet(arrival) == None
  {
    hide Tiles, Swapped;
    var i, j :| 0 <= i < j < |pieces| && pieces[i] == [] && pieces[j] != [];
    var k := EmptyBefore(pieces, i, j);
    var parts := PartsOf(pieces);
    arrival := Swapped(parts, k);
    PartsSorted(pieces);
    EmptyTail(pieces, k, k + 1);
    SwappedSorted(parts, k);
    SortedStays(arrival, BY_OFFSET);
    SwappedGap(pieces, k);
  }

  /** Whatever the order in which its parts arrive, the packet is given back. */
  ghost predicate AnyOrder(pieces: seq<Bytes>) {
    forall arrival :: multiset(arrival) == multiset(PartsOf(pieces)) ==> Packet(arrival) == Some(Join(pieces))
  }

  lemma ReassembledExactly(pieces: seq<Bytes>)
    requires pieces != []
    ensures AnyOrder(pieces) <==> EmptiesLast(pieces)
  {
    hide Packet, PartsOf, Join, EmptiesLast;
    if EmptiesLast(pieces) {
      forall arrival | multiset(arrival) == multiset(PartsOf(pieces)) ensures Packet(arrival) == Some(Join(pieces)) {
        SplitPacketReassembled(pieces, arrival);
      }
    } else {
      var arrival := EarlyEmptyRefused(pieces);
      assert Packet(arrival) != Some(Join(pieces));
    }
  }

  /** Three parts that are accepted in one order and refused in another. */
  lemma EmptyPieceRefused()
    ensures var first, empty, last: Part := Part(2, 0, [7]), Part(2, 1, []), Part(2, 1, [8]);
            && PartsOf([[7], [], [8]]) == [first, empty, last]
            && Packet([first, empty, last]) == Some([7, 8])
            && Packet([first, last, empty]) == None
  {
    hide PartsOf, Join, Body, Sort, Tiles;
    var first, empty, last: Part := Part(2, 0, [7]), Part(2, 1, []), Part(2, 1, [8]);
    EmptyPieceParts(first, empty, last);
    PartsTile([[7], [], [8]]);
    SortedStays([first, empty, last], BY_OFFSET);
    SortedStays([first, last, empty], BY_OFFSET);
    Adjacent(first, last, empty);
  }

  lemma EmptyPieceParts(first: Part, empty: Part, last: Part)
    requires first == Part(2, 0, [7]) && empty == Part(2, 1, []) && last == Part(2, 1, [8])
    ensures Join<Byte>([[7], [], [8]]) == [7, 8]
    ensures PartsOf([[7], [], [8]]) == [first, empty, last]
  {
    var pieces: seq<Bytes> := [[7], [], [8]];
    assert pieces[..1] == [[7]] && pieces[..2] == [[7], []] && pieces[..2][..1] == pieces[..1]
           && pieces[..1][..0] == [];
    assert Join(pieces[..0]) == [] && Join(pieces[..1]) == [7] && Join(pieces[..2]) == [7];
  }

  lemma Adjacent(a: Part, b: Part, c: Part)
    requires a.data != [] && b.data != [] && c.offset == |a.data|
    ensures !Tiles([a, b, c])
  {
    var parts := [a, b, c];
    BodyStep(parts, 0);
    BodyStep(parts, 1);
    assert parts[..0] == [] && Body([]) == [];
    assert !InPlace(parts, 2);
  }

  lemma BodyPrefix(parts: seq<Part>, n: nat)
    requires n <= |parts|
    ensures |Body(parts[..n])| <= |Body(parts)| && Body(parts)[..|Body(parts[..n])|] == Body(parts[..n])
  {
    assert Contents(parts)[..n] == Contents(parts[..n]);
    JoinPrefix(Contents(parts), n);
  }

  /** Where a part of an accepted packet lies, and that the later ones lie behind it. */
  lemma PartPlaced(ordered: seq<Part>, i: nat)
    requires i < |ordered| && Tiles(ordered) && |Body(ordered)| == ordered[0].full
    ensures ordered[i].full == |Body(ordered)| && ordered[i].offset + |ordered[i].data| <= |Body(ordered)|
    ensures Body(ordered)[ordered[i].offset..ordered[i].offset + |ordered[i].data|] == ordered[i].data
    ensures forall j :: i < j < |ordered| ==> ordered[i].offset + |ordered[i].data| <= ordered[j].offset
  {
    hide Body;
    assert InPlace(ordered, i);
    BodyStep(ordered, i);
    BodyPrefix(ordered, i + 1);
    forall j | i < j < |ordered| ensures ordered[i].offset + |ordered[i].data| <= ordered[j].offset {
      assert InPlace(ordered, j);
      BodyPrefix(ordered[..j], i + 1);
      assert ordered[..j][..i + 1] == ordered[..i + 1];
    }
  }

  predicate Holds(part: Part, k: nat) { part.offset <= k < part.offset + |part.data| }

  predicate Covered(parts: seq<Part>, k: nat) { exists i :: 0 <= i < |parts| && Holds(parts[i], k) }

  /** Each part ends before the next begins. */
  predicate Disjoint(ordered: seq<Part>) {
    forall i, j :: 0 <= i < j < |ordered| ==> ordered[i].offset + |ordered[i].data| <= ordered[j].offset
  }

  lemma {:induction false} ByteCovered(ordered: seq<Part>, n: nat, k: nat) returns (i: nat)
    requires n <= |ordered| && Tiles(ordered) && k < |Body(ordered[..n])|
    ensures i < n && Holds(ordered[i], k)
  {
    BodyEmpty();
    assert ordered[..0] == [];
    if n == 0 {
      assert false;
    } else {
      BodyStep(ordered, n - 1);
      assert InPlace(ordered, n - 1);
      if k < |Body(ordered[..n - 1])| {
        i := ByteCovered(ordered, n - 1, k);
      } else {
        i := n - 1;
      }
    }
  }

  /** Accepted parts tile the packet: each lies in it, they do not overlap, and no byte is left out. */
  lemma AcceptedPartsTile(parts: seq<Part>)
    requires Packet(parts).Some?
    ensures var blob := Packet(parts).value;
            && (forall p :: p in parts ==>
                  p.full == |blob| && p.offset + |p.data| <= |blob| && blob[p.offset..p.offset + |p.data|] == p.data)
            && (forall k :: 0 <= k < |blob| ==> Covered(parts, k))
            && (var ordered := Sort(parts, BY_OFFSET);
                && multiset(ordered) == multiset(parts)
                && Disjoint(ordered))
  {
    hide Sort, Tiles, Body;
    var ordered, blob := Sort(parts, BY_OFFSET), Packet(parts).value;
    SameElements(ordered, parts);
    forall i | 0 <= i < |ordered|
      ensures ordered[i].full == |blob| && ordered[i].offset + |ordered[i].data| <= |blob|
      ensures blob[ordered[i].offset..ordered[i].offset + |ordered[i].data|] == ordered[i].data
      ensures forall j :: i < j < |ordered| ==> ordered[i].offset + |ordered[i].data| <= ordered[j].offset
    {
      PartPlaced(ordered, i);
    }
    forall k | 0 <= k < |blob| ensures Covered(parts, k) {
      assert ordered[..|ordered|] == ordered;
      var i := ByteCovered(ordered, |ordered|, k);
      assert ordered[i] in parts;
    }
    forall p | p in parts
      ensures p.full == |blob| && p.offset + |p.data| <= |blob| && blob[p.offset..p.offset + |p.data|] == p.data
    {
      var i :| 0 <= i < |ordered| && ordered[i] == p;
    }
  }
}
