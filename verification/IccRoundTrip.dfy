/** What the tag writer writes, the tag reader accepts and maps back. */
module IccRoundTrip {
  import opened ByteStrings
  import opened IccTable
  import opened Sorting

  predicate HeaderFields(header: Bytes) {
    |header| == 128 && header[16..20] == [0x52, 0x47, 0x42, 0x20] && header[36..40] == [0x61, 0x63, 0x73, 0x70]
  }

  // ---------------------------------------------------------------- where things lie in the encoding

  lemma {:induction false} RowInTable(tags: seq<Tag>, start: nat, n: nat, i: nat)
    requires i < n <= |tags| && Signatures(tags)
    ensures 12 * i + 12 <= |TableOf(tags, start, n)|
            && TableOf(tags, start, n)[12 * i..12 * i + 12] == Row(tags, start, i)
  {
    hide Row;
    TableSize(tags, start, n);
    TableSize(tags, start, n - 1);
    var front := TableOf(tags, start, n - 1);
    if i < n - 1 {
      RowInTable(tags, start, n - 1, i);
      PrefixSlice(front, Row(tags, start, n - 1), 12 * i, 12 * i + 12);
    } else {
      MiddleOf(front, Row(tags, start, i), []);
      assert front + Row(tags, start, i) + [] == front + Row(tags, start, i);
    }
  }

  lemma PrefixSlice<T>(a: seq<T>, b: seq<T>, low: nat, high: nat)
    requires low <= high <= |a|
    ensures (a + b)[low..high] == a[low..high]
  {
  }

  lemma {:induction false} BodyGrows(tags: seq<Tag>, n: nat)
    requires n <= |tags|
    ensures |BodyOf(tags[..n])| <= |BodyOf(tags)| && BodyOf(tags)[..|BodyOf(tags[..n])|] == BodyOf(tags[..n])
  {
    if n < |tags| {
      var front := tags[..|tags| - 1];
      BodyGrows(front, n);
      assert front[..n] == tags[..n];
    } else {
      assert tags[..n] == tags;
    }
  }

  /** Where the payload of tag `i` starts in the profile. */
  function Place(tags: seq<Tag>, i: nat): nat
    requires i <= |tags|
  {
    Start(tags) + |BodyOf(tags[..i])|
  }

  /** The padded extents follow one another from the end of the table to the end of the profile, on four-byte bounds. */
  lemma {:induction false} ExtentsFollow(tags: seq<Tag>, i: nat)
    requires i < |tags|
    ensures Start(tags) <= Place(tags, i) && Place(tags, i) % 4 == 0
    ensures Place(tags, i + 1) == Place(tags, i) + |Padded(tags[i].payload)| <= Total(tags)
    ensures |tags[i].payload| <= |Padded(tags[i].payload)| < |tags[i].payload| + 4 && |Padded(tags[i].payload)| % 4 == 0
  {
    hide BodyOf, Padded;
    BodyStep(tags, i);
    BodyGrows(tags, i + 1);
    PaddedSize(tags[i].payload);
    BodyAligned(tags, i);
    Aligned(3 * |tags|, |BodyOf(tags[..i])|);
  }

  lemma {:induction false} BodyAligned(tags: seq<Tag>, n: nat)
    requires n <= |tags|
    ensures |BodyOf(tags[..n])| % 4 == 0
  {
    hide BodyOf, Padded;
    if n > 0 {
      BodyAligned(tags, n - 1);
      BodyStep(tags, n - 1);
      PaddedSize(tags[n - 1].payload);
    } else {
      EmptyBody();
      assert tags[..0] == [];
    }
  }

  lemma Aligned(k: nat, size: nat)
    requires size % 4 == 0
    ensures (132 + 4 * k + size) % 4 == 0
  {
  }

  lemma PaddedSize(payload: Bytes)
    ensures |payload| <= |Padded(payload)| < |payload| + 4 && |Padded(payload)| % 4 == 0
  {
  }

  /** Padded extents do not overlap. */
  lemma {:induction false} ExtentsDisjoint(tags: seq<Tag>, i: nat, j: nat)
    requires i < j < |tags|
    ensures Start(tags) <= Place(tags, i) && Place(tags, i) + |Padded(tags[i].payload)| <= Place(tags, j)
    ensures Place(tags, j) + |Padded(tags[j].payload)| <= Total(tags)
    decreases j
  {
    hide BodyOf, Padded;
    ExtentsFollow(tags, i);
    ExtentsFollow(tags, j);
    if i < j - 1 {
      ExtentsFollow(tags, j - 1);
      ExtentsDisjoint(tags, i, j - 1);
    }
  }

  lemma PayloadInBody(tags: seq<Tag>, i: nat)
    requires i < |tags|
    ensures var low := |BodyOf(tags[..i])|;
            && low + |tags[i].payload| <= |BodyOf(tags)|
            && BodyOf(tags)[low..low + |tags[i].payload|] == tags[i].payload
  {
    hide BodyOf;
    var low, size := |BodyOf(tags[..i])|, |tags[i].payload|;
    BodyStep(tags, i);
    BodyGrows(tags, i + 1);
    var high := |BodyOf(tags[..i + 1])|;
    assert BodyOf(tags)[..high] == BodyOf(tags[..i + 1]);
    SliceOfSlice(BodyOf(tags), 0, high, low, low + size);
    assert BodyOf(tags[..i + 1])[low..low + size] == tags[i].payload;
  }

  lemma Layout(header: Bytes, tags: seq<Tag>)
    requires |header| == 128 && Signatures(tags)
    ensures var profile := Encoded(header, tags);
            && |Head(header, tags)| == 132 && |profile| == Total(tags)
            && profile[..132] == Head(header, tags)
            && profile[132..Start(tags)] == TableOf(tags, Start(tags), |tags|)
            && profile[Start(tags)..] == BodyOf(tags)
  {
    hide BodyOf, TableOf, ToBytes;
    TableSize(tags, Start(tags), |tags|);
    MiddleOf(Head(header, tags), TableOf(tags, Start(tags), |tags|), BodyOf(tags));
  }

  lemma HeadFields(header: Bytes, tags: seq<Tag>)
    requires |header| == 128
    ensures var head := Head(header, tags);
            && head[..4] == ToBytes(Total(tags), 4) && head[128..132] == ToBytes(|tags|, 4)
            && head[16..20] == header[16..20] && head[36..40] == header[36..40]
  {
    hide ToBytes, Total;
    PatchedHeader(ToBytes(Total(tags), 4), header, ToBytes(|tags|, 4));
  }

  lemma PatchedHeader(size: Bytes, header: Bytes, count: Bytes)
    requires |size| == 4 && |header| == 128 && |count| == 4
    ensures var head := size + header[4..] + count;
            && head[..4] == size && head[128..132] == count && head[16..20] == header[16..20]
            && head[36..40] == header[36..40]
  {
    var head, middle := size + header[4..] + count, header[4..];
    MiddleOf(size, middle, count);
    SliceOfSlice(head, 4, 128, 12, 16);
    SliceOfSlice(head, 4, 128, 32, 36);
    SliceOfSlice(header, 4, 128, 12, 16);
    SliceOfSlice(header, 4, 128, 32, 36);
    assert header[4..128] == middle && head[128..132] == head[128..];
  }

  /** The reader's fields of entry `i` are the writer's. */
  lemma EntryWritten(header: Bytes, tags: seq<Tag>, i: nat)
    requires |header| == 128 && Signatures(tags) && Total(tags) < 0x1_0000_0000 && i < |tags|
    ensures |Encoded(header, tags)| == Total(tags)
    ensures KeyAt(Encoded(header, tags), i) == tags[i].key
    ensures OffsetAt(Encoded(header, tags), i) == Place(tags, i)
    ensures SizeAt(Encoded(header, tags), i) == |tags[i].payload|
  {
    hide BodyOf, TableOf, ToBytes, FromBytes, Encoded, Head;
    var profile, start := Encoded(header, tags), Start(tags);
    Layout(header, tags);
    RowInTable(tags, start, |tags|, i);
    SliceOfSlice(profile, 132, start, 12 * i, 12 * i + 12);
    RowFields(tags, start, i);
    var at := 132 + 12 * i;
    SliceOfSlice(profile, at, at + 12, 0, 4);
    SliceOfSlice(profile, at, at + 12, 4, 8);
    SliceOfSlice(profile, at, at + 12, 8, 12);
    ExtentsFollow(tags, i);
    Word32(Place(tags, i));
    Word32(|tags[i].payload|);
  }

  lemma RowFields(tags: seq<Tag>, start: nat, i: nat)
    requires i < |tags| && |tags[i].key| == 4
    ensures var row := Row(tags, start, i);
            && |row| == 12 && row[0..4] == tags[i].key
            && row[4..8] == ToBytes(start + |BodyOf(tags[..i])|, 4) && row[8..12] == ToBytes(|tags[i].payload|, 4)
  {
    hide BodyOf, ToBytes;
  }

  lemma PayloadWritten(header: Bytes, tags: seq<Tag>, i: nat)
    requires |header| == 128 && Signatures(tags) && Total(tags) < 0x1_0000_0000 && i < |tags|
    ensures Place(tags, i) + |tags[i].payload| <= |Encoded(header, tags)|
    ensures Encoded(header, tags)[Place(tags, i)..Place(tags, i) + |tags[i].payload|] == tags[i].payload
  {
    hide BodyOf, TableOf, ToBytes, Encoded, Head;
    var profile, low, size := Encoded(header, tags), |BodyOf(tags[..i])|, |tags[i].payload|;
    Layout(header, tags);
    PayloadInBody(tags, i);
    assert profile[Start(tags)..] == profile[Start(tags)..|profile|];
    SliceOfSlice(profile, Start(tags), |profile|, low, low + size);
  }

  // ---------------------------------------------------------------- the round trip

  predicate Holds(tags: map<Bytes, Bytes>, items: seq<Tag>) {
    && (forall i :: 0 <= i < |items| ==> items[i].key in tags && tags[items[i].key] == items[i].payload)
    && (forall key :: key in tags ==> Keyed(items, key))
  }

  predicate Keyed(items: seq<Tag>, key: Bytes) { exists i :: 0 <= i < |items| && items[i].key == key }

  /** What the reader demands of a written profile, said of the tags. */
  predicate Readable(tags: seq<Tag>) {
    |tags| <= 128 && Total(tags) <= METADATA_LIMIT && forall i :: 0 <= i < |tags| ==> 8 <= |tags[i].payload|
  }

  lemma WrittenHeader(header: Bytes, tags: seq<Tag>)
    requires HeaderFields(header) && Signatures(tags) && Total(tags) < 0x1_0000_0000
    ensures var profile := Encoded(header, tags);
            && |profile| == Total(tags) && 132 <= |profile| && Word(profile, 128) == |tags|
            && (HeaderOk(profile) <==> Total(tags) <= METADATA_LIMIT)
  {
    hide BodyOf, TableOf, ToBytes, FromBytes, Encoded, Head;
    var profile := Encoded(header, tags);
    Layout(header, tags);
    HeadFields(header, tags);
    var head := profile[..132];
    assert profile[0..4] == head[..4] && profile[128..132] == head[128..132];
    assert profile[16..20] == head[16..20] && profile[36..40] == head[36..40];
    Word32(Total(tags));
    Word32(|tags|);
  }

  lemma WrittenExtents(header: Bytes, tags: seq<Tag>)
    requires |header| == 128 && Signatures(tags) && Total(tags) < 0x1_0000_0000
    ensures |Encoded(header, tags)| == Total(tags)
    ensures ExtentsOk(Encoded(header, tags), |tags|, |tags|) <==> forall i :: 0 <= i < |tags| ==> 8 <= |tags[i].payload|
    ensures DistinctKeys(Encoded(header, tags), |tags|)
  {
    hide BodyOf, ToBytes, FromBytes, Encoded, KeyAt, OffsetAt, SizeAt;
    var profile := Encoded(header, tags);
    Layout(header, tags);
    forall i | 0 <= i < |tags|
      ensures KeyAt(profile, i) == tags[i].key && (ExtentOk(profile, i, |tags|) <==> 8 <= |tags[i].payload|)
    {
      EntryWritten(header, tags, i);
      PayloadWritten(header, tags, i);
    }
  }

  /** A written profile is accepted exactly when it has at most 128 tags, payloads of eight bytes and fits the cap. */
  lemma WrittenAccepted(header: Bytes, tags: seq<Tag>)
    requires HeaderFields(header) && Signatures(tags) && Total(tags) < 0x1_0000_0000
    ensures Tags(Encoded(header, tags)).Some? <==> Readable(tags)
  {
    hide BodyOf, ToBytes, FromBytes, Encoded, KeyAt, OffsetAt, SizeAt, Entries, HeaderOk, ExtentsOk, DistinctKeys;
    WrittenHeader(header, tags);
    WrittenExtents(header, tags);
    EntriesExact(Encoded(header, tags), |tags|, |tags|);
  }

  /** Reading a readable profile gives back exactly the tags written, whatever order they were given in. */
  lemma TagsReadBack(header: Bytes, items: seq<Tag>)
    requires HeaderFields(header) && Signatures(items) && Readable(Sort(items, BY_KEY))
    ensures var r := Tags(Encoded(header, Sort(items, BY_KEY)));
            r.Some? && Holds(r.value, items)
  {
    hide Sort, Encoded, Tags, Holds, Readable;
    var tags := Sort(items, BY_KEY);
    SortKeepsSignatures(items);
    ReadableFits(tags);
    WrittenAccepted(header, tags);
    OrderedReadBack(header, tags);
    SameElements(tags, items);
    HoldsReordered(Tags(Encoded(header, tags)).value, tags, items);
  }

  lemma ReadableFits(tags: seq<Tag>)
    requires Readable(tags)
    ensures Total(tags) < 0x1_0000_0000
  {
  }

  lemma HoldsReordered(m: map<Bytes, Bytes>, a: seq<Tag>, b: seq<Tag>)
    requires Holds(m, a) && forall t :: t in a <==> t in b
    ensures Holds(m, b)
  {
    forall i | 0 <= i < |b| ensures b[i].key in m && m[b[i].key] == b[i].payload {
      assert b[i] in b;
      var j :| 0 <= j < |a| && a[j] == b[i];
    }
    forall key | key in m ensures Keyed(b, key) {
      var i :| 0 <= i < |a| && a[i].key == key;
      assert a[i] in a;
      var j :| 0 <= j < |b| && b[j] == a[i];
    }
  }

  lemma OrderedReadBack(header: Bytes, tags: seq<Tag>)
    requires HeaderFields(header) && Signatures(tags) && Total(tags) < 0x1_0000_0000
    requires Tags(Encoded(header, tags)).Some?
    ensures Holds(Tags(Encoded(header, tags)).value, tags)
  {
    hide BodyOf, ToBytes, FromBytes, Encoded, KeyAt, OffsetAt, SizeAt, Entries, HeaderOk;
    var profile, n := Encoded(header, tags), |tags|;
    WrittenHeader(header, tags);
    var found := Entries(profile, n, n).value;
    forall i | 0 <= i < n ensures tags[i].key in found && found[tags[i].key] == tags[i].payload {
      EntriesFound(profile, n, n, i);
      EntryWritten(header, tags, i);
      PayloadWritten(header, tags, i);
    }
    forall key | key in found ensures Keyed(tags, key) {
      EntriesKeys(profile, n, n, key);
      var i :| 0 <= i < n && KeyAt(profile, i) == key;
      EntryWritten(header, tags, i);
    }
  }
}
