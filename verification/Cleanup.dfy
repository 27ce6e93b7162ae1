/**
 Deleting verified fixtures: a bounded walk lists everything under the admitted roots, and the
 deletion removes files first and then directories, deepest first, stopping at the first fault.
 */
module Cleanup {
  import opened Results
  import opened Sequences

  type Path = seq<string>

  /** What `lstat` tells of a regular file and survives the removal of another hard link to it. */
  datatype Stamp = Stamp(bytes: nat, device: int, inode: int, mtime: int, sha: string)

  /** `Special` stands for symbolic links, devices and the like. */
  datatype Node = Directory | File(stamp: Stamp) | Special

  type FileSystem = map<Path, Node>

  const MAX_ENTRIES := 4096

  function Parent(p: Path): Path
    requires p != []
  {
    p[..|p| - 1]
  }

  /** Everything but the root lies in a directory. */
  ghost predicate WellFormed(fs: FileSystem) {
    forall p :: p in fs && p != [] ==> Parent(p) in fs && fs[Parent(p)].Directory?
  }

  ghost predicate Under(p: Path, roots: seq<Path>) { exists i :: 0 <= i < |roots| && roots[i] <= p }

  /** The roots and everything below them. */
  ghost function Subtrees(fs: FileSystem, roots: seq<Path>): set<Path> {
    set p | p in fs && Under(p, roots)
  }

  /** No root repeats or contains another. */
  ghost predicate Apart(roots: seq<Path>) {
    forall i, j :: 0 <= i < |roots| && 0 <= j < |roots| && i != j ==> !(roots[i] <= roots[j])
  }

  predicate IsChild(c: Path, p: Path) { c != [] && Parent(c) == p }

  /** A path properly below `p` passes through a child of `p`. */
  lemma {:induction false} ThroughChild(fs: FileSystem, p: Path, q: Path)
    requires WellFormed(fs) && q in fs && p <= q && p != q
    ensures q[..|p| + 1] in fs && IsChild(q[..|p| + 1], p)
    decreases |q|
  {
    if |q| == |p| + 1 {
      assert q[..|p| + 1] == q;
    } else {
      ThroughChild(fs, p, Parent(q));
      assert Parent(q)[..|p| + 1] == q[..|p| + 1];
    }
  }

  // ---------------------------------------------------------------- the walk

  datatype Item = Item(path: Path, stamp: Stamp)

  /** `Unsettled` stands for a file that did not hold still while it was hashed. */
  datatype Refusal = EntryBound | ByteBound | FileBound | SpecialFile | Unsettled

  /** The children of a directory in whatever order the system lists them. */
  method ScanDirectory(fs: FileSystem, p: Path) returns (entries: seq<Path>)
    ensures Distinct(entries) && forall c :: c in entries <==> c in fs && IsChild(c, p)
  {
    var left := set c | c in fs && IsChild(c, p);
    ghost var all := left;
    entries := [];
    while left != {}
      invariant left <= all && Distinct(entries)
      invariant forall c :: c in entries <==> c in all && c !in left
      decreases left
    {
      var c :| c in left;
      entries, left := entries + [c], left - {c};
    }
  }

  function Total(files: seq<Item>): nat {
    if files == [] then 0 else Total(files[..|files| - 1]) + files[|files| - 1].stamp.bytes
  }

  /** What the walk has recorded is true of the file system. */
  ghost predicate Recorded(fs: FileSystem, files: seq<Item>, directories: seq<Path>) {
    && (forall i :: 0 <= i < |files| ==> files[i].path in fs && fs[files[i].path] == File(files[i].stamp))
    && (forall i :: 0 <= i < |directories| ==> directories[i] in fs && fs[directories[i]].Directory?)
    && Distinct(files) && Distinct(directories)
  }

  ghost predicate Listed(p: Path, files: seq<Item>, directories: seq<Path>) {
    (exists i :: 0 <= i < |files| && files[i].path == p) || p in directories
  }

  ghost predicate Visitable(fs: FileSystem, roots: seq<Path>, pending: seq<Path>) {
    forall i :: 0 <= i < |pending| ==> pending[i] in fs && Under(pending[i], roots)
  }

  ghost predicate Unvisited(pending: seq<Path>, files: seq<Item>, directories: seq<Path>) {
    forall p, i :: Listed(p, files, directories) && 0 <= i < |pending| ==> !(pending[i] <= p)
  }

  ghost predicate OnlyBelow(fs: FileSystem, roots: seq<Path>, files: seq<Item>, directories: seq<Path>) {
    forall p :: Listed(p, files, directories) ==> p in fs && Under(p, roots)
  }

  ghost predicate Covers(fs: FileSystem, roots: seq<Path>, pending: seq<Path>, files: seq<Item>,
                         directories: seq<Path>) {
    forall p :: p in fs && Under(p, roots) ==> Listed(p, files, directories) || Under(p, pending)
  }

  /** The walk's frontier: what is left to visit is apart, unvisited, and covers what is not yet listed. */
  ghost predicate Frontier(fs: FileSystem, roots: seq<Path>, pending: seq<Path>, files: seq<Item>,
                           directories: seq<Path>) {
    && Apart(pending) && Visitable(fs, roots, pending) && Unvisited(pending, files, directories)
    && OnlyBelow(fs, roots, files, directories) && Covers(fs, roots, pending, files, directories)
  }

  lemma UnderTrans(p: Path, q: Path, roots: seq<Path>)
    requires Under(p, roots) && p <= q
    ensures Under(q, roots)
  {
  }

  /** Visiting a directory: it is listed, and its children take its place. */
  lemma VisitDirectory(fs: FileSystem, roots: seq<Path>, pending: seq<Path>, files: seq<Item>, directories: seq<Path>,
                       p: Path, entries: seq<Path>)
    requires WellFormed(fs) && Frontier(fs, roots, pending + [p], files, directories)
    requires Distinct(entries) && forall c :: c in entries <==> c in fs && IsChild(c, p)
    ensures Frontier(fs, roots, pending + entries, files, directories + [p])
  {
    hide WellFormed, Distinct, Apart, Visitable, Unvisited, OnlyBelow, Covers, IsChild, Under, Listed;
    ChildrenApart(pending, p, entries);
    ChildrenVisitable(fs, roots, pending, p, entries);
    ChildrenUnvisited(pending, files, directories, p, entries);
    DirectoryBelow(fs, roots, pending, files, directories, p);
    ChildrenCover(fs, roots, pending, files, directories, p, entries);
  }

  lemma ChildrenApart(pending: seq<Path>, p: Path, entries: seq<Path>)
    requires Apart(pending + [p]) && Distinct(entries) && forall c :: c in entries ==> IsChild(c, p)
    ensures Apart(pending + entries)
  {
    var after := pending + entries;
    forall i, j | 0 <= i < |after| && 0 <= j < |after| && i != j ensures !(after[i] <= after[j]) {
      EntriesApart(pending, p, entries, i, j);
    }
  }

  /** What a list says of `p` in the last place, and of all the others. */
  lemma AtTheEnd(pending: seq<Path>, p: Path, entries: seq<Path>, i: nat)
    requires i < |pending + entries|
    ensures (pending + [p])[|pending|] == p
    ensures i < |pending| ==> (pending + entries)[i] == (pending + [p])[i]
    ensures i >= |pending| ==> (pending + entries)[i] in entries
  {
  }

  lemma ChildrenVisitable(fs: FileSystem, roots: seq<Path>, pending: seq<Path>, p: Path, entries: seq<Path>)
    requires Visitable(fs, roots, pending + [p]) && forall c :: c in entries ==> c in fs && IsChild(c, p)
    ensures Visitable(fs, roots, pending + entries)
  {
    hide Under;
    var after := pending + entries;
    forall i | 0 <= i < |after| ensures after[i] in fs && Under(after[i], roots) {
      AtTheEnd(pending, p, entries, i);
      if i >= |pending| { UnderTrans(p, after[i], roots); }
    }
  }

  lemma ListedDirectory(q: Path, files: seq<Item>, directories: seq<Path>, p: Path)
    ensures Listed(q, files, directories + [p]) <==> q == p || Listed(q, files, directories)
  {
  }

  lemma ChildrenUnvisited(pending: seq<Path>, files: seq<Item>, directories: seq<Path>, p: Path, entries: seq<Path>)
    requires Apart(pending + [p]) && Unvisited(pending + [p], files, directories)
    requires forall c :: c in entries ==> IsChild(c, p)
    ensures Unvisited(pending + entries, files, directories + [p])
  {
    hide Listed;
    var before, after := pending + [p], pending + entries;
    forall q, i | Listed(q, files, directories + [p]) && 0 <= i < |after| ensures !(after[i] <= q) {
      AtTheEnd(pending, p, entries, i);
      ListedDirectory(q, files, directories, p);
      assert q != p ==> !(before[|pending|] <= q);
      assert i < |pending| ==> !(before[i] <= q) by {
        if i < |pending| && q == p { assert !(before[i] <= before[|pending|]); }
      }
    }
  }

  lemma DirectoryBelow(fs: FileSystem, roots: seq<Path>, pending: seq<Path>, files: seq<Item>, directories: seq<Path>,
                       p: Path)
    requires Visitable(fs, roots, pending + [p]) && OnlyBelow(fs, roots, files, directories)
    ensures OnlyBelow(fs, roots, files, directories + [p])
  {
    hide Under, Listed;
    assert (pending + [p])[|pending|] == p;
    forall q | Listed(q, files, directories + [p]) ensures q in fs && Under(q, roots) {
      ListedDirectory(q, files, directories, p);
    }
  }

  lemma ChildrenCover(fs: FileSystem, roots: seq<Path>, pending: seq<Path>, files: seq<Item>, directories: seq<Path>,
                      p: Path, entries: seq<Path>)
    requires WellFormed(fs) && Covers(fs, roots, pending + [p], files, directories)
    requires forall c :: c in fs && IsChild(c, p) ==> c in entries
    ensures Covers(fs, roots, pending + entries, files, directories + [p])
  {
    hide Listed, WellFormed, IsChild;
    forall q | q in fs && Under(q, roots) ensures Listed(q, files, directories + [p]) || Under(q, pending + entries) {
      ListedDirectory(q, files, directories, p);
      if !Listed(q, files, directories) && q != p { StillUnder(fs, pending, p, entries, q); }
    }
  }

  lemma StillUnder(fs: FileSystem, pending: seq<Path>, p: Path, entries: seq<Path>, q: Path)
    requires WellFormed(fs) && q in fs && q != p && Under(q, pending + [p])
    requires forall c :: c in fs && IsChild(c, p) ==> c in entries
    ensures Under(q, pending + entries)
  {
    hide WellFormed, IsChild;
    var before, after := pending + [p], pending + entries;
    var i :| 0 <= i < |before| && before[i] <= q;
    if i < |pending| {
      assert after[i] <= q;
    } else {
      ThroughChild(fs, p, q);
      var k :| 0 <= k < |entries| && entries[k] == q[..|p| + 1];
      assert after[|pending| + k] <= q;
    }
  }

  lemma PrefixOfChild(a: Path, c: Path, p: Path)
    requires IsChild(c, p)
    ensures a <= c ==> a == c || a <= p
  {
  }

  lemma EntriesApart(pending: seq<Path>, p: Path, entries: seq<Path>, i: nat, j: nat)
    requires Apart(pending + [p]) && Distinct(entries) && forall c :: c in entries ==> IsChild(c, p)
    requires i < |pending + entries| && j < |pending + entries| && i != j
    ensures !((pending + entries)[i] <= (pending + entries)[j])
  {
    var before, after, n := pending + [p], pending + entries, |pending|;
    assert before[n] == p;
    if i < n && j < n {
      assert before[i] == after[i] && before[j] == after[j];
    } else if i < n {
      assert after[j] in entries && before[i] == after[i];
      assert !(before[i] <= p) && !(p <= before[i]);
      PrefixOfChild(after[i], after[j], p);
    } else if j < n {
      assert after[i] in entries && before[j] == after[j];
      assert !(p <= before[j]);
    } else {
      assert after[i] in entries && after[j] in entries;
      assert entries[i - n] != entries[j - n];
      PrefixOfChild(after[i], after[j], p);
    }
  }

  lemma VisitFile(fs: FileSystem, roots: seq<Path>, pending: seq<Path>, files: seq<Item>, directories: seq<Path>,
                  item: Item)
    requires WellFormed(fs) && Frontier(fs, roots, pending + [item.path], files, directories)
    requires item.path in fs && fs[item.path] == File(item.stamp)
    ensures Frontier(fs, roots, pending, files + [item], directories)
  {
    var p, before, more := item.path, pending + [item.path], files + [item];
    assert before[|pending|] == p;
    forall i, j | 0 <= i < |pending| && 0 <= j < |pending| && i != j ensures !(pending[i] <= pending[j]) {
      assert before[i] == pending[i] && before[j] == pending[j];
    }
    forall i | 0 <= i < |pending| ensures pending[i] in fs && Under(pending[i], roots) && !(pending[i] <= p) {
      assert before[i] == pending[i];
    }
    forall q | Listed(q, more, directories) ensures q == p || Listed(q, files, directories) {
      if q !in directories {
        var i :| 0 <= i < |more| && more[i].path == q;
        assert i < |files| ==> files[i].path == q;
      }
    }
    forall q, i | Listed(q, more, directories) && 0 <= i < |pending| ensures !(pending[i] <= q) {
      assert before[i] == pending[i];
    }
    forall q | q in fs && Under(q, roots) ensures Listed(q, more, directories) || Under(q, pending) {
      assert more[|files|].path == p;
      if Listed(q, files, directories) {
        if q !in directories {
          var i :| 0 <= i < |files| && files[i].path == q;
          assert more[i].path == q;
        }
      } else {
        var i :| 0 <= i < |before| && before[i] <= q;
        if i < |pending| {
          assert pending[i] <= q;
        } else if q != p {
          ThroughChild(fs, p, q);
        }
      }
    }
  }

  /** No file is larger than the hash may read. */
  predicate Admitted(files: seq<Item>, maxFile: nat) {
    forall i :: 0 <= i < |files| ==> files[i].stamp.bytes <= maxFile
  }

  /** The total size the walk would hash. */
  ghost predicate Oversized(fs: FileSystem, roots: seq<Path>, maxTotal: nat) {
    exists files: seq<Item> :: Distinct(files) && Recorded(fs, files, []) && Total(files) > maxTotal
                    && forall i :: 0 <= i < |files| ==> Under(files[i].path, roots)
  }

  /**
   The bounded walk. It lists every descendant of the roots once, or refuses for a true reason: too
   many entries, too many bytes in all or in one file, something that is neither file nor directory,
   or a file that changed while it was hashed, which can happen at any of them.
   */
  method Walk(fs: FileSystem, roots: seq<Path>, maxFile: nat, maxTotal: nat)
    returns (r: Result<(seq<Item>, seq<Path>), Refusal>)
    requires WellFormed(fs) && Apart(roots) && forall i :: 0 <= i < |roots| ==> roots[i] in fs
    ensures r.Ok? ==> Recorded(fs, r.value.0, r.value.1) && |r.value.0| + |r.value.1| <= MAX_ENTRIES
    ensures r.Ok? ==> forall p :: Listed(p, r.value.0, r.value.1) <==> p in fs && Under(p, roots)
    ensures r.Ok? ==> Total(r.value.0) <= maxTotal && Admitted(r.value.0, maxFile)
    ensures r == Err(SpecialFile) ==> exists p :: p in fs && Under(p, roots) && fs[p].Special?
    ensures r == Err(EntryBound) ==> |Subtrees(fs, roots)| > MAX_ENTRIES
    ensures r == Err(ByteBound) ==> Oversized(fs, roots, maxTotal)
    ensures r == Err(FileBound) ==> exists p :: p in fs && Under(p, roots) && fs[p].File? && fs[p].stamp.bytes > maxFile
    ensures r == Err(Unsettled) ==> exists p :: p in fs && Under(p, roots) && fs[p].File?
  {
    hide Frontier, Recorded, Apart, Oversized, WellFormed;
    var pending, files: seq<Item>, directories: seq<Path> := roots, [], [];
    var total := 0;
    AtStart(fs, roots);
    while pending != []
      invariant Frontier(fs, roots, pending, files, directories)
      invariant Recorded(fs, files, directories)
      invariant total == Total(files) <= maxTotal && Admitted(files, maxFile)
      invariant pending == [] ==> |files| + |directories| <= MAX_ENTRIES
      decreases MAX_ENTRIES - |files| - |directories|
    {
      if |pending| + |files| + |directories| > MAX_ENTRIES {
        TooMany(fs, roots, pending, files, directories);
        return Err(EntryBound);
      }
      var path := pending[|pending| - 1];
      ghost var before := pending;
      pending := pending[..|pending| - 1];
      assert before == pending + [path];
      Next(fs, roots, pending, path, files, directories);
      match fs[path]
      case Special =>
        return Err(SpecialFile);
      case Directory =>
        var entries := ScanDirectory(fs, path);
        VisitDirectory(fs, roots, pending, files, directories, path, entries);
        NewDirectory(fs, files, directories, path);
        directories := directories + [path];
        pending := pending + entries;
        if |pending| + |files| + |directories| > MAX_ENTRIES {
          TooMany(fs, roots, pending, files, directories);
          return Err(EntryBound);
        }
      case File(stamp) =>
        var item := Item(path, stamp);
        VisitFile(fs, roots, pending, files, directories, item);
        NewFile(fs, files, directories, item);
        total := total + stamp.bytes;
        if total > maxTotal {
          TooLarge(fs, roots, pending, files + [item], directories, maxTotal);
          return Err(ByteBound);
        }
        if stamp.bytes > maxFile { return Err(FileBound); }
        var changed: bool := *;
        if changed { return Err(Unsettled); }
        files := files + [item];
    }
    AtEnd(fs, roots, files, directories);
    return Ok((files, directories));
  }

  lemma AtStart(fs: FileSystem, roots: seq<Path>)
    requires Apart(roots) && forall i :: 0 <= i < |roots| ==> roots[i] in fs
    ensures Frontier(fs, roots, roots, [], []) && Recorded(fs, [], [])
  {
  }

  lemma Next(fs: FileSystem, roots: seq<Path>, pending: seq<Path>, p: Path, files: seq<Item>, directories: seq<Path>)
    requires Frontier(fs, roots, pending + [p], files, directories)
    ensures p in fs && Under(p, roots) && !Listed(p, files, directories)
  {
    assert (pending + [p])[|pending|] == p;
  }

  lemma AtEnd(fs: FileSystem, roots: seq<Path>, files: seq<Item>, directories: seq<Path>)
    requires Frontier(fs, roots, [], files, directories)
    ensures forall p :: Listed(p, files, directories) <==> p in fs && Under(p, roots)
  {
  }

  lemma NewDirectory(fs: FileSystem, files: seq<Item>, directories: seq<Path>, p: Path)
    requires Recorded(fs, files, directories) && !Listed(p, files, directories) && p in fs && fs[p].Directory?
    ensures Recorded(fs, files, directories + [p])
  {
  }

  lemma NewFile(fs: FileSystem, files: seq<Item>, directories: seq<Path>, item: Item)
    requires Recorded(fs, files, directories) && !Listed(item.path, files, directories)
    requires item.path in fs && fs[item.path] == File(item.stamp)
    ensures Recorded(fs, files + [item], directories) && Total(files + [item]) == Total(files) + item.stamp.bytes
  {
    assert (files + [item])[..|files|] == files;
  }

  lemma TooLarge(fs: FileSystem, roots: seq<Path>, pending: seq<Path>, files: seq<Item>, directories: seq<Path>,
                 maxTotal: nat)
    requires Recorded(fs, files, directories) && Frontier(fs, roots, pending, files, directories)
             && Total(files) > maxTotal
    ensures Oversized(fs, roots, maxTotal)
  {
    assert Recorded(fs, files, []);
    forall i | 0 <= i < |files| ensures Under(files[i].path, roots) {
      assert Listed(files[i].path, files, directories);
    }
  }

  // ---------------------------------------------------------------- counting

  ghost function PathsOf(files: seq<Item>): seq<Path> { seq(|files|, i requires 0 <= i < |files| => files[i].path) }

  /** Pending, files and directories are different descendants, so too many of them means too many descendants. */
  lemma TooMany(fs: FileSystem, roots: seq<Path>, pending: seq<Path>, files: seq<Item>, directories: seq<Path>)
    requires Frontier(fs, roots, pending, files, directories) && Recorded(fs, files, directories)
    requires |pending| + |files| + |directories| > MAX_ENTRIES
    ensures |Subtrees(fs, roots)| > MAX_ENTRIES
  {
    var all := pending + PathsOf(files) + directories;
    var n, m := |pending|, |files|;
    forall i, j | 0 <= i < j < |all| ensures all[i] != all[j] {
      if i < n {
        if j < n {
          assert !(pending[i] <= pending[j]);
        } else {
          assert Listed(all[j], files, directories);
          assert !(pending[i] <= all[j]);
        }
      } else if i < n + m {
        var item := files[i - n];
        if j < n + m {
          assert item != files[j - n];
        } else {
          assert fs[item.path].File? && fs[directories[j - n - m]].Directory?;
        }
      }
    }
    DistinctSize(all);
    forall p | p in all ensures p in Subtrees(fs, roots) {
      var i :| 0 <= i < |all| && all[i] == p;
      if i >= n { assert Listed(p, files, directories); }
    }
    SubsetSize(Elements(all), Subtrees(fs, roots));
  }
}
