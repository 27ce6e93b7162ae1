/** JPEG segment framing, as the metadata reader walks it. */
module Jpeg {
  import opened ByteStrings
  import opened Results

  datatype Segment = Segment(marker: Byte, data: Bytes)

  /** Start of scan or end of image: the metadata is over. */
  predicate Ends(marker: Byte) { marker == 0xda || marker == 0xd9 }

  /** The segments from `at` on, or None where the framing is broken. */
  function Scan(stream: Bytes, at: nat): Option<seq<Segment>>
    requires at <= |stream|
    decreases |stream| - at
  {
    if |stream| < at + 2 || stream[at] != 0xff then None
    else if Ends(stream[at + 1]) then Some([])
    else
      var size := FromBytes(Cut(stream, at + 2, at + 4));
      if size < 2 || |stream| < at + 2 + size || |stream| < at + 4 then None
      else
        match Scan(stream, at + 2 + size)
        case None => None
        case Some(rest) => Some([Segment(stream[at + 1], stream[at + 4..at + 2 + size])] + rest)
  }

  function Encode(s: Segment): (code: Bytes)
    ensures |code| == |s.data| + 4
  {
    [0xff, s.marker] + ToBytes(|s.data| + 2, 2) + s.data
  }

  function EncodeAll(segments: seq<Segment>): Bytes {
    if segments == [] then [] else Encode(segments[0]) + EncodeAll(segments[1..])
  }

  /** Segments that can be framed at all. */
  predicate Framed(s: Segment) { !Ends(s.marker) && |s.data| + 2 < 0x1_0000 }

  lemma CodeFields(s: Segment)
    ensures Encode(s)[0] == 0xff && Encode(s)[1] == s.marker
    ensures Encode(s)[2..4] == ToBytes(|s.data| + 2, 2)
    ensures Encode(s)[4..] == s.data
  {
    MiddleOf([0xff, s.marker], ToBytes(|s.data| + 2, 2), s.data);
  }

  /** The fields of a framed segment, found in the stream that holds it. */
  lemma FieldsAt(stream: Bytes, at: nat, s: Segment)
    requires at + |s.data| + 4 <= |stream| && stream[at..at + |s.data| + 4] == Encode(s)
    ensures stream[at] == 0xff && stream[at + 1] == s.marker
    ensures stream[at + 2..at + 4] == ToBytes(|s.data| + 2, 2)
    ensures stream[at + 4..at + |s.data| + 4] == s.data
  {
    hide *;
    var code, n := Encode(s), |s.data|;
    var window := stream[at..at + n + 4];
    CodeFields(s);
    assert window[0] == stream[at] && window[1] == stream[at + 1];
    SliceOfSlice(stream, at, at + n + 4, 2, 4);
    SliceOfSlice(stream, at, at + n + 4, 4, n + 4);
    assert window[4..n + 4] == window[4..];
  }

  /** One framed segment at `at` is read as itself. */
  lemma FrameAt(stream: Bytes, at: nat, s: Segment)
    requires Framed(s) && at + |s.data| + 4 <= |stream| && stream[at..at + |s.data| + 4] == Encode(s)
    ensures var rest := Scan(stream, at + |s.data| + 4);
            Scan(stream, at) == if rest.None? then None else Some([s] + rest.value)
  {
    hide Encode, ToBytes, FromBytes;
    FieldsAt(stream, at, s);
    Word16(|s.data| + 2);
    assert Cut(stream, at + 2, at + 4) == stream[at + 2..at + 4];
  }

  /** Written segments are read back, whatever precedes and follows them. */
  lemma {:induction false} ScanEncoded(before: Bytes, segments: seq<Segment>, end: Byte, rest: Bytes)
    requires Ends(end) && forall i :: 0 <= i < |segments| ==> Framed(segments[i])
    ensures Scan(before + EncodeAll(segments) + [0xff, end] + rest, |before|) == Some(segments)
    decreases |segments|
  {
    if segments == [] {
      var stream := before + EncodeAll(segments) + [0xff, end] + rest;
      assert stream == before + [0xff, end] + rest;
      assert stream[|before|] == 0xff && stream[|before| + 1] == end;
    } else {
      var s := segments[0];
      ScanEncoded(before + Encode(s), segments[1..], end, rest);
      EncodedStep(before, s, segments[1..], end, rest);
      assert segments == [s] + segments[1..];
    }
  }

  lemma EncodedStep(before: Bytes, s: Segment, tail: seq<Segment>, end: Byte, rest: Bytes)
    requires Framed(s) && Scan((before + Encode(s)) + EncodeAll(tail) + [0xff, end] + rest, |before + Encode(s)|)
             == Some(tail)
    ensures Scan(before + (Encode(s) + EncodeAll(tail)) + [0xff, end] + rest, |before|) == Some([s] + tail)
  {
    hide *;
    var stream := before + (Encode(s) + EncodeAll(tail)) + [0xff, end] + rest;
    Regroup(before, Encode(s), EncodeAll(tail), [0xff, end], rest);
    MiddleOf(before, Encode(s), EncodeAll(tail) + [0xff, end] + rest);
    FrameAt(stream, |before|, s);
  }

  /** Whatever is accepted is the encoding of what was read, up to the end marker. */
  lemma {:induction false} ScanAccounts(stream: Bytes, at: nat) returns (end: nat)
    requires at <= |stream| && Scan(stream, at).Some?
    ensures at <= end && end + 2 <= |stream| && stream[at..end] == EncodeAll(Scan(stream, at).value)
    ensures stream[end] == 0xff && Ends(stream[end + 1])
    ensures forall i :: 0 <= i < |Scan(stream, at).value| ==> Framed(Scan(stream, at).value[i])
    decreases |stream| - at
  {
    hide Encode, EncodeAll, ToBytes, FromBytes, Framed;
    if Ends(stream[at + 1]) {
      end := at;
      NothingEncoded();
    } else {
      var size := FromBytes(stream[at + 2..at + 4]);
      assert Cut(stream, at + 2, at + 4) == stream[at + 2..at + 4];
      end := ScanAccounts(stream, at + 2 + size);
      var s, tail := Segment(stream[at + 1], stream[at + 4..at + 2 + size]), Scan(stream, at + 2 + size).value;
      assert Scan(stream, at).value == [s] + tail;
      FrameAccounts(stream, at, s);
      EncodedHead(s, tail);
      SliceJoin(stream, at, at + 2 + size, end);
    }
  }

  lemma NothingEncoded()
    ensures EncodeAll([]) == []
  {
  }

  lemma EncodedHead(s: Segment, tail: seq<Segment>)
    ensures EncodeAll([s] + tail) == Encode(s) + EncodeAll(tail)
  {
    assert ([s] + tail)[1..] == tail;
  }

  lemma FrameAccounts(stream: Bytes, at: nat, s: Segment)
    requires at + 4 <= |stream| && stream[at] == 0xff && !Ends(stream[at + 1])
    requires var size := FromBytes(stream[at + 2..at + 4]);
             2 <= size && at + 2 + size <= |stream| && s == Segment(stream[at + 1], stream[at + 4..at + 2 + size])
    ensures Framed(s) && stream[at..at + 4 + |s.data|] == Encode(s)
  {
    hide ToBytes, FromBytes;
    var field := stream[at + 2..at + 4];
    FieldRoundTrip(field);
    assert Pow256(2) == 0x1_0000;
    SliceJoin(stream, at, at + 2, at + 4);
    SliceJoin(stream, at, at + 4, at + 4 + |s.data|);
    assert stream[at..at + 2] == [0xff, s.marker];
  }
}
