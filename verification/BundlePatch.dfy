/** The digest of the executable the bundler will install: the built one with its first marker replaced. */
module BundlePatch {
  import opened ByteStrings
  import opened Integers
  import opened Results

  datatype Platform = Linux | Windows

  datatype Refusal = EmptyExecutable | MarkerAbsent

  const BEFORE := Ascii("__TAURI_BUNDLE_TYPE_VAR_UNK")

  function After(p: Platform): Bytes {
    Ascii(if p.Linux? then "__TAURI_BUNDLE_TYPE_VAR_DEB" else "__TAURI_BUNDLE_TYPE_VAR_NSS")
  }

  predicate OccursAt(file: Bytes, marker: Bytes, offset: nat) {
    offset + |marker| <= |file| && file[offset..offset + |marker|] == marker
  }

  /** `find`: the first occurrence, or None where there is none. */
  method Find(file: Bytes, marker: Bytes) returns (offset: Option<nat>)
    ensures offset.Some? ==>
              OccursAt(file, marker, offset.value) && forall k :: 0 <= k < offset.value ==> !OccursAt(file, marker, k)
    ensures offset.None? ==> forall k: nat :: !OccursAt(file, marker, k)
  {
    var k := 0;
    while k + |marker| <= |file|
      invariant forall j :: 0 <= j < k ==> !OccursAt(file, marker, j)
    {
      if OccursAt(file, marker, k) { return Some(k); }
      k := k + 1;
    }
    return None;
  }

  /** `s` with the elements from `i` on replaced by `middle`. */
  function Spliced<T>(s: seq<T>, i: nat, middle: seq<T>): (r: seq<T>)
    requires i + |middle| <= |s|
    ensures |r| == |s|
  {
    s[..i] + middle + s[i + |middle|..]
  }

  lemma SplicedAt<T>(s: seq<T>, i: nat, middle: seq<T>, k: nat)
    requires i + |middle| <= |s| && k < |s|
    ensures Spliced(s, i, middle)[k] == if i <= k < i + |middle| then middle[k - i] else s[k]
  {
  }

  /** The file with the bytes from `offset` on replaced by `after`. */
  function Patched<T>(file: seq<T>, offset: nat, after: seq<T>): seq<T>
    requires offset + |after| <= |file|
  {
    Spliced(file, offset, after)
  }

  /** Replacing one occurrence changes no other byte and not the length, and undoing it gives the file back. */
  lemma PatchIsLocal(file: Bytes, offset: nat, before: Bytes, after: Bytes)
    requires OccursAt(file, before, offset) && |before| == |after|
    ensures |Patched(file, offset, after)| == |file|
    ensures OccursAt(Patched(file, offset, after), after, offset)
    ensures forall k :: 0 <= k < |file| && !(offset <= k < offset + |after|) ==>
              Patched(file, offset, after)[k] == file[k]
    ensures Patched(Patched(file, offset, after), offset, before) == file
  {
    var patched := Patched(file, offset, after);
    assert patched[offset..offset + |after|] == after;
    assert patched[..offset] == file[..offset] && patched[offset + |after|..] == file[offset + |after|..];
    assert file == file[..offset] + file[offset..offset + |before|] + file[offset + |before|..];
  }

  /** What follows the marker's stem: D, E, B for the Linux package and N, S, S for the Windows installer. */
  function Suffix(p: Platform): Bytes {
    match p
    case Linux => [68, 69, 66]
    case Windows => [78, 83, 83]
  }

  /** The patch writes three bytes, the suffix that names the kind of bundle, and leaves the marker's stem alone. */
  lemma PatchIsSuffix(file: Bytes, offset: nat, platform: Platform)
    requires OccursAt(file, BEFORE, offset)
    ensures |After(platform)| == |BEFORE| == 27
    ensures Patched(file, offset, After(platform)) == Spliced(file, offset + 24, Suffix(platform))
  {
    var after := After(platform);
    MarkerStem(platform);
    forall k | 0 <= k < |file|
      ensures Patched(file, offset, after)[k] == Spliced(file, offset + 24, Suffix(platform))[k]
    {
      SplicedAt(file, offset, after, k);
      SplicedAt(file, offset + 24, Suffix(platform), k);
      if offset <= k < offset + 24 { assert file[k] == file[offset..offset + |BEFORE|][k - offset]; }
    }
  }

  lemma MarkerStem(platform: Platform)
    ensures |After(platform)| == |BEFORE| == 27
    ensures forall k :: 0 <= k < 24 ==> After(platform)[k] == BEFORE[k]
    ensures forall k :: 24 <= k < 27 ==> After(platform)[k] == Suffix(platform)[k - 24]
  {
  }

  /** One block as it is fed to the digest: the part of it that the marker covers is replaced. */
  function PatchBlock<T>(block: seq<T>, position: nat, offset: nat, after: seq<T>): seq<T> {
    var start, end := Max(position, offset), Min(position + |block|, offset + |after|);
    if start < end then Spliced(block, start - position, after[start - offset..end - offset]) else block
  }

  lemma PatchBlockAt<T>(block: seq<T>, position: nat, offset: nat, after: seq<T>, k: nat)
    requires k < |block|
    ensures |PatchBlock(block, position, offset, after)| == |block|
    ensures PatchBlock(block, position, offset, after)[k]
            == if offset <= position + k < offset + |after| then after[position + k - offset] else block[k]
  {
    hide Max, Min, Spliced;
    var start, end := Max(position, offset), Min(position + |block|, offset + |after|);
    Shared(position, |block|, offset, |after|, k);
    if start < end {
      var piece := after[start - offset..end - offset];
      PieceAt(block, after, start - position, start - offset, end - start, k);
      assert PatchBlock(block, position, offset, after) == Spliced(block, start - position, piece);
    }
  }

  /** The stretch that a block and the marker have in common. */
  lemma Shared(position: nat, size: nat, offset: nat, length: nat, k: nat)
    requires k < size
    ensures var start, end := Max(position, offset), Min(position + size, offset + length);
            && position <= start && offset <= start && end <= position + size && end <= offset + length
            && (start <= position + k < end <==> offset <= position + k < offset + length)
  {
  }

  /** Replacing a stretch of the block by the stretch of `after` that belongs there. */
  lemma PieceAt<T>(block: seq<T>, after: seq<T>, i: nat, j: nat, size: nat, k: nat)
    requires i + size <= |block| && j + size <= |after| && k < |block|
    ensures Spliced(block, i, after[j..j + size])[k] == if i <= k < i + size then after[j + (k - i)] else block[k]
  {
    hide Spliced;
    var middle := after[j..j + size];
    SplicedAt(block, i, middle, k);
  }

  /** Patching the block in place is patching the whole file and cutting the block out. */
  lemma PatchBlockCuts<T>(file: seq<T>, position: nat, size: nat, offset: nat, after: seq<T>)
    requires 0 < size && position + size <= |file| && offset + |after| <= |file|
    ensures |Patched(file, offset, after)| == |file|
    ensures PatchBlock(file[position..position + size], position, offset, after)
            == Patched(file, offset, after)[position..position + size]
  {
    hide PatchBlock, Spliced;
    var block := file[position..position + size];
    var got, want := PatchBlock(block, position, offset, after), Patched(file, offset, after);
    PatchBlockAt(block, position, offset, after, 0);
    forall k | 0 <= k < size ensures got[k] == want[position..position + size][k] {
      PatchBlockAt(block, position, offset, after, k);
      SplicedAt(file, offset, after, position + k);
    }
  }

  /**
   However the reads split the file, the bytes fed to the digest are those of the file with exactly
   its first marker replaced. `blocks` chooses the size of each read.
   */
  method ExpectedBundle(file: Bytes, platform: Platform, blocks: nat -> nat) returns (r: Result<(nat, Bytes), Refusal>)
    ensures r == Err(EmptyExecutable) <==> file == []
    ensures r == Err(MarkerAbsent) <==> file != [] && forall k: nat :: !OccursAt(file, BEFORE, k)
    ensures r.Ok? ==>
              && OccursAt(file, BEFORE, r.value.0) && (forall k :: 0 <= k < r.value.0 ==> !OccursAt(file, BEFORE, k))
              && |After(platform)| == |BEFORE|
              && r.value.1 == Patched(file, r.value.0, After(platform))
  {
    if file == [] { return Err(EmptyExecutable); }
    var found := Find(file, BEFORE);
    if found.None? { return Err(MarkerAbsent); }
    var offset, after := found.value, After(platform);
    var fed: Bytes, position, turn := [], 0, 0;
    while position < |file|
      invariant position <= |file|
      invariant fed == Patched(file, offset, after)[..position]
      decreases |file| - position
    {
      // a read returns at least one byte and at most what is left
      var size := Min(Max(1, blocks(turn)), |file| - position);
      var block := file[position..position + size];
      PatchBlockCuts(file, position, size, offset, after);
      block := PatchBlock(block, position, offset, after);
      fed := fed + block;
      position, turn := position + |block|, turn + 1;
    }
    assert Patched(file, offset, after)[..|file|] == Patched(file, offset, after);
    return Ok((offset, fed));
  }
}
