/** The ICC tag table: the matrix-profile writer and the tag reader (section 7.3 of ICC.1:2010). */
module IccTable {
  import opened ByteStrings
  import opened Results
  import opened Sorting

  /** One dictionary item of the writer: a four-byte signature and its payload. */
  datatype Tag = Tag(key: Bytes, payload: Bytes)

  // ---------------------------------------------------------------- the writer

  function Zeros(n: nat): (z: Bytes)
    ensures |z| == n
  {
    if n == 0 then [] else [0] + Zeros(n - 1)
  }

  function Padded(payload: Bytes): Bytes { payload + Zeros(-|payload| % 4) }

  /** Signatures have one length, so their byte order is the order of their big-endian values. */
  const BY_KEY: (Tag, Tag) -> bool := (a: Tag, b: Tag) => FromBytes(a.key) <= FromBytes(b.key)

  function BodyOf(tags: seq<Tag>): Bytes {
    if tags == [] then [] else BodyOf(tags[..|tags| - 1]) + Padded(tags[|tags| - 1].payload)
  }

  function Row(tags: seq<Tag>, start: nat, i: nat): Bytes
    requires i < |tags|
  {
    tags[i].key + ToBytes(start + |BodyOf(tags[..i])|, 4) + ToBytes(|tags[i].payload|, 4)
  }

  function TableOf(tags: seq<Tag>, start: nat, n: nat): Bytes
    requires n <= |tags|
  {
    if n == 0 then [] else TableOf(tags, start, n - 1) + Row(tags, start, n - 1)
  }

  function Start(tags: seq<Tag>): nat { 132 + 12 * |tags| }

  function Total(tags: seq<Tag>): nat { Start(tags) + |BodyOf(tags)| }

  function Head(header: Bytes, tags: seq<Tag>): Bytes
    requires |header| == 128
  {
    ToBytes(Total(tags), 4) + header[4..] + ToBytes(|tags|, 4)
  }

  /** The profile for a list of tags in table order. */
  function Encoded(header: Bytes, tags: seq<Tag>): Bytes
    requires |header| == 128
  {
    Head(header, tags) + TableOf(tags, Start(tags), |tags|) + BodyOf(tags)
  }

  predicate Signatures(tags: seq<Tag>) {
    && (forall i :: 0 <= i < |tags| ==> |tags[i].key| == 4)
    && (forall i, j :: 0 <= i < j < |tags| ==> tags[i].key != tags[j].key)
  }

  lemma {:induction false} TableSize(tags: seq<Tag>, start: nat, n: nat)
    requires n <= |tags| && Signatures(tags)
    ensures |TableOf(tags, start, n)| == 12 * n
  {
    if n > 0 { TableSize(tags, start, n - 1); }
  }

  lemma BodyStep(tags: seq<Tag>, i: nat)
    requires i < |tags|
    ensures BodyOf(tags[..i + 1]) == BodyOf(tags[..i]) + Padded(tags[i].payload)
  {
    assert tags[..i + 1][..i] == tags[..i];
  }

  /** Table and body are grown together, the length is patched in last; a length over 32 bits cannot be packed. */
  method WriteProfile(header: Bytes, items: seq<Tag>) returns (r: Option<Bytes>)
    requires |header| == 128 && Signatures(items)
    ensures var tags := Sort(items, BY_KEY);
            r == if Total(tags) < 0x1_0000_0000 then Some(Encoded(header, tags)) else None
  {
    hide Sort, Padded, BodyOf, ToBytes;
    var tags := Sort(items, BY_KEY);
    SortKeepsSignatures(items);
    var start := 132 + 12 * |items|;
    var table, body: Bytes, i := [], [], 0;
    assert tags[..0] == [] && BodyOf([]) == [] by { EmptyBody(); }
    while i < |tags|
      invariant 0 <= i <= |tags| && table == TableOf(tags, start, i) && body == BodyOf(tags[..i])
    {
      BodyStep(tags, i);
      table := table + (tags[i].key + ToBytes(start + |body|, 4) + ToBytes(|tags[i].payload|, 4));
      body := body + Padded(tags[i].payload);
      i := i + 1;
    }
    assert tags[..i] == tags;
    TableSize(tags, start, i);
    var encoded := header + (ToBytes(|items|, 4) + table) + body;
    if |encoded| >= 0x1_0000_0000 { return None; }
    r := Some(ToBytes(|encoded|, 4) + encoded[4..]);
    PatchLength(header, ToBytes(|encoded|, 4), ToBytes(|items|, 4), table, body);
  }

  lemma EmptyBody()
    ensures BodyOf([]) == []
  {
  }

  lemma PatchLength(header: Bytes, size: Bytes, count: Bytes, table: Bytes, body: Bytes)
    requires |header| == 128
    ensures size + (header + (count + table) + body)[4..] == size + header[4..] + count + table + body
  {
  }

  lemma SortKeepsSignatures(items: seq<Tag>)
    requires Signatures(items)
    ensures Signatures(Sort(items, BY_KEY))
  {
    hide Sort;
    var tags := Sort(items, BY_KEY);
    SameElements(tags, items);
    forall i | 0 <= i < |tags| ensures |tags[i].key| == 4 { assert tags[i] in items; }
    forall i, j | 0 <= i < j < |tags| ensures tags[i].key != tags[j].key {
      if tags[i].key == tags[j].key {
        assert tags[i] in tags && tags[j] in tags;
        var m :| 0 <= m < |items| && items[m] == tags[i];
        var n :| 0 <= n < |items| && items[n] == tags[j];
        assert m == n;
        RepeatCounted(tags, i, j);
        OnceCounted(items, m);
      }
    }
  }

  lemma RepeatCounted<T>(s: seq<T>, i: nat, j: nat)
    requires i < j < |s| && s[i] == s[j]
    ensures multiset(s)[s[i]] >= 2
  {
    assert s == s[..j] + [s[j]] + s[j + 1..];
    assert s[i] == s[..j][i] && s[i] in multiset(s[..j]);
  }

  lemma OnceCounted(items: seq<Tag>, m: nat)
    requires m < |items| && Signatures(items)
    ensures multiset(items)[items[m]] == 1
  {
    assert items == items[..m] + [items[m]] + items[m + 1..];
    assert items[m] !in multiset(items[..m]) && items[m] !in multiset(items[m + 1..]);
  }

  // ---------------------------------------------------------------- the reader

  function Word(profile: Bytes, at: nat): nat
    requires at + 4 <= |profile|
  {
    FromBytes(profile[at..at + 4])
  }

  predicate HeaderOk(profile: Bytes) {
    && 132 <= |profile| <= METADATA_LIMIT
    && profile[36..40] == [0x61, 0x63, 0x73, 0x70]
    && profile[16..20] == [0x52, 0x47, 0x42, 0x20]
    && Word(profile, 0) == |profile|
  }

  predicate TableOk(profile: Bytes)
    requires 132 <= |profile|
  {
    Word(profile, 128) <= 128 && 132 + 12 * Word(profile, 128) <= |profile|
  }

  function KeyAt(profile: Bytes, i: nat): Bytes
    requires 132 + 12 * i + 12 <= |profile|
  {
    profile[132 + 12 * i..132 + 12 * i + 4]
  }

  function OffsetAt(profile: Bytes, i: nat): nat
    requires 132 + 12 * i + 12 <= |profile|
  {
    Word(profile, 132 + 12 * i + 4)
  }

  function SizeAt(profile: Bytes, i: nat): nat
    requires 132 + 12 * i + 12 <= |profile|
  {
    Word(profile, 132 + 12 * i + 8)
  }

  predicate ExtentOk(profile: Bytes, i: nat, count: nat)
    requires 132 + 12 * i + 12 <= |profile|
  {
    && 132 + 12 * count <= OffsetAt(profile, i) && OffsetAt(profile, i) + SizeAt(profile, i) <= |profile|
    && 8 <= SizeAt(profile, i)
  }

  function PayloadAt(profile: Bytes, i: nat, count: nat): Bytes
    requires 132 + 12 * i + 12 <= |profile| && ExtentOk(profile, i, count)
  {
    profile[OffsetAt(profile, i)..OffsetAt(profile, i) + SizeAt(profile, i)]
  }

  /** The entry's key gives the bytes of its extent. */
  predicate Found(tags: map<Bytes, Bytes>, profile: Bytes, i: nat, count: nat)
    requires 132 + 12 * i + 12 <= |profile| && ExtentOk(profile, i, count)
  {
    KeyAt(profile, i) in tags && tags[KeyAt(profile, i)] == PayloadAt(profile, i, count)
  }

  /** The first `n` table entries, or None at the first that is refused. */
  function Entries(profile: Bytes, n: nat, count: nat): Option<map<Bytes, Bytes>>
    requires n <= count && 132 + 12 * count <= |profile|
  {
    if n == 0 then Some(map[])
    else
      var i := n - 1;
      match Entries(profile, i, count)
      case None => None
      case Some(tags) =>
        if KeyAt(profile, i) in tags || !ExtentOk(profile, i, count) then None
        else Some(tags[KeyAt(profile, i) := PayloadAt(profile, i, count)])
  }

  function Tags(profile: Bytes): Option<map<Bytes, Bytes>> {
    if !HeaderOk(profile) || !TableOk(profile) then None
    else Entries(profile, Word(profile, 128), Word(profile, 128))
  }

  method ReadTags(profile: Bytes) returns (r: Option<map<Bytes, Bytes>>)
    ensures r == Tags(profile)
  {
    hide FromBytes;
    if !HeaderOk(profile) || !TableOk(profile) { return None; }
    var count := Word(profile, 128);
    var tags: map<Bytes, Bytes>, i := map[], 0;
    while i < count
      invariant 0 <= i <= count && Entries(profile, i, count) == Some(tags)
    {
      var at := 132 + 12 * i;
      var key, offset, size := profile[at..at + 4], Word(profile, at + 4), Word(profile, at + 8);
      if key in tags || offset < 132 + 12 * count || offset + size > |profile| || size < 8 {
        Refused(profile, i + 1, count, count);
        return None;
      }
      tags, i := tags[key := profile[offset..offset + size]], i + 1;
    }
    r := Some(tags);
  }

  lemma {:induction false} Refused(profile: Bytes, k: nat, n: nat, count: nat)
    requires k <= n <= count && 132 + 12 * count <= |profile| && Entries(profile, k, count).None?
    ensures Entries(profile, n, count).None?
  {
    if k < n { Refused(profile, k, n - 1, count); }
  }

  predicate HasKey(profile: Bytes, n: nat, key: Bytes)
    requires 132 + 12 * n <= |profile|
  {
    exists i :: 0 <= i < n && KeyAt(profile, i) == key
  }

  lemma {:induction false} EntriesKeys(profile: Bytes, n: nat, count: nat, key: Bytes)
    requires n <= count && 132 + 12 * count <= |profile| && Entries(profile, n, count).Some?
    ensures key in Entries(profile, n, count).value <==> HasKey(profile, n, key)
  {
    hide KeyAt, ExtentOk, PayloadAt;
    if n > 0 {
      EntriesKeys(profile, n - 1, count, key);
      assert HasKey(profile, n, key) <==> HasKey(profile, n - 1, key) || KeyAt(profile, n - 1) == key;
    }
  }

  predicate DistinctKeys(profile: Bytes, n: nat)
    requires 132 + 12 * n <= |profile|
  {
    forall i, j :: 0 <= i < j < n ==> KeyAt(profile, i) != KeyAt(profile, j)
  }

  predicate ExtentsOk(profile: Bytes, n: nat, count: nat)
    requires 132 + 12 * n <= |profile|
  {
    forall i :: 0 <= i < n ==> ExtentOk(profile, i, count)
  }

  /** The table is accepted exactly when its keys differ and every extent lies behind it. */
  lemma {:induction false} EntriesExact(profile: Bytes, n: nat, count: nat)
    requires n <= count && 132 + 12 * count <= |profile|
    ensures Entries(profile, n, count).Some? <==> ExtentsOk(profile, n, count) && DistinctKeys(profile, n)
  {
    hide KeyAt, ExtentOk, PayloadAt;
    if n > 0 {
      EntriesExact(profile, n - 1, count);
      if Entries(profile, n - 1, count).Some? {
        EntriesKeys(profile, n - 1, count, KeyAt(profile, n - 1));
      }
    }
  }

  /** Each accepted key gives its own extent. */
  lemma {:induction false} EntriesFound(profile: Bytes, n: nat, count: nat, i: nat)
    requires i < n <= count && 132 + 12 * count <= |profile| && Entries(profile, n, count).Some?
    ensures ExtentOk(profile, i, count) && Found(Entries(profile, n, count).value, profile, i, count)
  {
    hide KeyAt, ExtentOk, PayloadAt;
    if i < n - 1 {
      EntriesFound(profile, n - 1, count, i);
    }
  }
}
