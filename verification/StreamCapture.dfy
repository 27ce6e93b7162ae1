/** The bounded capture of a child's output: drain everything, retain a prefix. */
module StreamCapture {
  import opened Integers

  /** How the pipe goes on after its parts: an empty read, an exception from the read, or nothing yet. */
  datatype Ending = EndOfFile | ReadFault | StillOpen

  datatype Proof = Proof(
    limit: nat, observed: nat, retained: nat, truncated: bool, eof: bool, joined: bool, errors: nat)

  function Content(parts: seq<seq<int>>): seq<int> {
    if parts == [] then [] else Content(parts[..|parts| - 1]) + parts[|parts| - 1]
  }

  predicate Prefix(a: seq<int>, b: seq<int>) { |a| <= |b| && a == b[..|a|] }

  lemma PrefixGrows(a: seq<int>, b: seq<int>, more: seq<int>)
    requires Prefix(a, b)
    ensures Prefix(a, b + more)
  {
  }

  lemma PrefixOfPrefix(a: seq<int>, b: seq<int>, c: seq<int>)
    requires Prefix(a, b) && Prefix(b, c)
    ensures Prefix(a, c)
  {
  }

  /** As much of the next part as fits goes on from where a filled file ended. */
  lemma FillsUp(stream: seq<int>, part: seq<int>, limit: nat)
    ensures var file := stream[..Min(limit, |stream|)];
            file + part[..Min(limit - |file|, |part|)] == (stream + part)[..Min(limit, |stream + part|)]
  {
  }

  lemma {:induction false} ContentPrefix(parts: seq<seq<int>>, n: nat)
    requires n <= |parts|
    ensures Prefix(Content(parts[..n]), Content(parts))
  {
    if n < |parts| {
      var front := parts[..|parts| - 1];
      ContentPrefix(front, n);
      assert front[..n] == parts[..n];
      PrefixGrows(Content(parts[..n]), Content(front), parts[|parts| - 1]);
    } else {
      assert parts[..n] == parts;
    }
  }

  /** How far one part got: written, given up after a fault, or still being written when the join timed out. */
  datatype Progress = Written | GivenUp | Underway

  class BoundedCapture {
    const limit: nat
    var observed: nat
    var retained: nat
    var eof: bool
    var errors: nat
    var failed: bool

    /** The file as written, and every byte taken from the pipe. */
    ghost var file: seq<int>
    ghost var stream: seq<int>

    /** Holds after every read and every single write, partial and failed ones included. */
    ghost predicate Valid()
      reads this
    {
      && retained == |file| && observed == |stream|
      && |file| <= limit && Prefix(file, stream)
      && errors <= 8 && (failed <==> errors > 0 || observed > limit)
    }

    /** Nothing that fits is missing. */
    ghost predicate Filled()
      reads this
    {
      file == stream[..Min(limit, |stream|)]
    }

    constructor (limit: nat)
      ensures Valid() && Filled() && this.limit == limit && stream == [] && !eof && errors == 0
    {
      this.limit, observed, retained, eof, errors, failed := limit, 0, 0, false, 0, false;
      file, stream := [], [];
    }

    /** The messages stop at eight; the flag is always raised. */
    method Fault()
      requires Valid()
      modifies `errors, `failed
      ensures Valid() && errors > 0
    {
      if errors < 8 { errors := errors + 1; }
      failed := true;
    }

    method Observe(part: seq<int>)
      requires Valid()
      modifies `observed, `failed, `stream
      ensures Valid() && stream == old(stream) + part
    {
      PrefixGrows(file, stream, part);
      observed, stream := observed + |part|, stream + part;
      if observed > limit { failed := true; }
    }

    /** Write what still fits of the part just observed, in as many partial writes as it takes. */
    method Retain(part: seq<int>, ghost before: seq<int>) returns (r: Progress)
      requires Valid() && stream == before + part && file == before[..Min(limit, |before|)]
      modifies `retained, `file, `errors, `failed
      ensures Valid()
      ensures r == Written ==> errors == old(errors) && Filled()
      ensures r == GivenUp ==> errors > 0
    {
      var view := part[..Min(limit - retained, |part|)];
      ghost var goal := stream[..Min(limit, |stream|)];
      FillsUp(before, part, limit);
      while view != []
        invariant Valid() && file + view == goal && errors == old(errors)
        decreases |view|
      {
        if * { return Underway; }
        var count: int := *;
        if count <= 0 || count > |view| {
          Fault();
          if * { Fault(); }
          return GivenUp;
        }
        assert file + view == (file + view[..count]) + view[count..] by {
          assert view == view[..count] + view[count..];
        }
        PrefixOfPrefix(file + view[..count], goal, stream);
        file, retained, view := file + view[..count], retained + count, view[count..];
      }
      assert file == goal;
      return Written;
    }

    /** The reader thread on what the pipe has given so far; false if it has not ended. */
    method Collect(parts: seq<seq<int>>, ending: Ending) returns (joined: bool)
      requires Valid() && Filled() && stream == [] && !eof && errors == 0
      requires forall i :: 0 <= i < |parts| ==> parts[i] != []
      modifies this
      ensures Valid() && Prefix(stream, Content(parts))
      ensures eof ==> ending == EndOfFile && stream == Content(parts)
      ensures joined && !eof ==> errors > 0
      ensures joined && errors == 0 ==> Filled()
    {
      hide Content, Min;
      var open := true;
      if * {
        Fault();
        open := false;
      }
      ContentEmpty(parts);
      var n := 0;
      while n < |parts|
        invariant 0 <= n <= |parts| && Valid() && !eof && stream == Content(parts[..n])
        invariant if open then Filled() else errors > 0
      {
        ContentStep(parts, n);
        ghost var before := stream;
        Observe(parts[n]);
        n := n + 1;
        if open {
          var progress := Retain(parts[n - 1], before);
          if progress == Underway {
            ContentPrefix(parts, n);
            return false;
          }
          open := progress == Written;
        }
      }
      assert parts[..n] == parts;
      ContentPrefix(parts, n);
      match ending {
        case StillOpen =>
          return false;
        case ReadFault =>
          Fault();
        case EndOfFile =>
          eof := true;
      }
      if * { Fault(); }
      return true;
    }

    /** Join with a timeout and report; a thread that has not ended is a fault of its own. */
    method Finish(joined: bool) returns (proof: Proof)
      requires Valid()
      modifies `errors, `failed
      ensures Valid() && (joined ==> errors == old(errors))
      ensures proof == Proof(limit, observed, retained, observed > retained, eof, joined, errors)
      ensures proof.truncated <==> file != stream
    {
      if !joined { Fault(); }
      return Proof(limit, observed, retained, observed > retained, eof, joined, errors);
    }
  }

  lemma ContentEmpty(parts: seq<seq<int>>)
    ensures Content(parts[..0]) == []
  {
  }

  lemma ContentStep(parts: seq<seq<int>>, n: nat)
    requires n < |parts|
    ensures Content(parts[..n + 1]) == Content(parts[..n]) + parts[n]
  {
    assert parts[..n + 1][..n] == parts[..n];
  }

  /** The test `invoke` applies to a finished capture. */
  predicate Whole(proof: Proof) { !proof.truncated && proof.errors == 0 && proof.eof && proof.joined }

  /**
   * From opening to report: the file is always a prefix of the output within the limit; a proof that passes means
   * the file is the whole output; and only overflow, a fault or an unfinished stream keeps a proof from passing.
   */
  method Capture(limit: nat, parts: seq<seq<int>>, ending: Ending) returns (proof: Proof, ghost file: seq<int>)
    requires forall i :: 0 <= i < |parts| ==> parts[i] != []
    ensures |file| <= limit && Prefix(file, Content(parts)) && proof.retained == |file|
    ensures Whole(proof) ==> ending == EndOfFile && file == Content(parts) && |Content(parts)| <= limit
    ensures proof.eof && proof.joined && proof.errors == 0 && |Content(parts)| <= limit ==> Whole(proof)
    ensures proof.eof && proof.joined && proof.errors == 0 ==> file == Content(parts)[..Min(limit, |Content(parts)|)]
  {
    var capture := new BoundedCapture(limit);
    var joined := capture.Collect(parts, ending);
    proof := capture.Finish(joined);
    file := capture.file;
    PrefixOfPrefix(file, capture.stream, Content(parts));
  }
}
