/** Byte strings, big-endian fields, and the slicing facts the binary readers share. */
module ByteStrings {

  type Byte = i: int | 0 <= i < 256

  type Bytes = seq<Byte>

  /** The most metadata the readers take from one stream or profile. */
  const METADATA_LIMIT := 16 * 1024 * 1024

  /** Python slicing: bounds beyond the end are cut back to it. */
  function Cut<T>(s: seq<T>, low: nat, high: nat): seq<T>
    requires low <= high
  {
    if |s| <= low then [] else if |s| <= high then s[low..] else s[low..high]
  }

  /** A bytes literal. */
  function Ascii(s: string): (b: Bytes)
    requires forall i :: 0 <= i < |s| ==> s[i] as int < 256
    ensures |b| == |s|
  {
    seq(|s|, i requires 0 <= i < |s| => s[i] as int)
  }

  /** `int.from_bytes(…, 'big')`, of any length. */
  function FromBytes(s: Bytes): nat {
    if s == [] then 0 else 256 * FromBytes(s[..|s| - 1]) + s[|s| - 1]
  }

  function ToBytes(n: nat, width: nat): (s: Bytes)
    ensures |s| == width
  {
    if width == 0 then [] else ToBytes(n / 256, width - 1) + [n % 256]
  }

  function Pow256(n: nat): nat { if n == 0 then 1 else 256 * Pow256(n - 1) }

  lemma {:induction false} BytesRoundTrip(n: nat, width: nat)
    requires n < Pow256(width)
    ensures FromBytes(ToBytes(n, width)) == n
  {
    if width > 0 {
      BytesRoundTrip(n / 256, width - 1);
      assert ToBytes(n, width)[..width - 1] == ToBytes(n / 256, width - 1);
    }
  }

  lemma {:induction false} FieldRoundTrip(b: Bytes)
    ensures FromBytes(b) < Pow256(|b|) && ToBytes(FromBytes(b), |b|) == b
  {
    if b != [] {
      var front, last: int := b[..|b| - 1], b[|b| - 1];
      FieldRoundTrip(front);
      assert FromBytes(b) / 256 == FromBytes(front) && FromBytes(b) % 256 == last;
      assert b == front + [b[|b| - 1]];
    }
  }

  lemma Word16(n: nat)
    requires n < 0x1_0000
    ensures FromBytes(ToBytes(n, 2)) == n
  {
    assert Pow256(2) == 0x1_0000;
    BytesRoundTrip(n, 2);
  }

  lemma Word32(n: nat)
    requires n < 0x1_0000_0000
    ensures FromBytes(ToBytes(n, 4)) == n
  {
    assert Pow256(4) == 0x1_0000_0000 by { assert Pow256(3) == 0x100_0000; }
    BytesRoundTrip(n, 4);
  }

  // ---------------------------------------------------------------- slices of concatenations

  lemma SliceOfSlice<T>(s: seq<T>, low: nat, high: nat, a: nat, b: nat)
    requires low <= high <= |s| && a <= b <= high - low
    ensures s[low..high][a..b] == s[low + a..low + b]
  {
    var window := s[low..high];
    forall k | 0 <= k < b - a ensures window[a..b][k] == s[low + a..low + b][k] {
      assert window[a + k] == s[low + a + k];
    }
  }

  lemma MiddleOf<T>(a: seq<T>, b: seq<T>, c: seq<T>)
    ensures (a + b + c)[|a|..|a| + |b|] == b
    ensures (a + b + c)[|a| + |b|..] == c
  {
  }

  lemma SliceJoin<T>(s: seq<T>, a: nat, b: nat, c: nat)
    requires a <= b <= c <= |s|
    ensures s[a..c] == s[a..b] + s[b..c]
  {
  }

  lemma Regroup<T>(a: seq<T>, b: seq<T>, c: seq<T>, d: seq<T>, e: seq<T>)
    ensures a + (b + c) + d + e == (a + b) + c + d + e
    ensures a + (b + c) + d + e == a + b + (c + d + e)
  {
  }

  // ---------------------------------------------------------------- joining pieces

  /** `b''.join(pieces)` */
  function Join<T>(pieces: seq<seq<T>>): seq<T> {
    if pieces == [] then [] else Join(pieces[..|pieces| - 1]) + pieces[|pieces| - 1]
  }

  lemma {:induction false} JoinPrefix<T>(pieces: seq<seq<T>>, n: nat)
    requires n <= |pieces|
    ensures |Join(pieces[..n])| <= |Join(pieces)| && Join(pieces)[..|Join(pieces[..n])|] == Join(pieces[..n])
  {
    if n < |pieces| {
      var front := pieces[..|pieces| - 1];
      JoinPrefix(front, n);
      assert front[..n] == pieces[..n];
    } else {
      assert pieces[..n] == pieces;
    }
  }
}
