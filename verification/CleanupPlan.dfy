/** From listed trees to an ordered plan, and from the plan to the deletion itself. */
module CleanupPlan {
  import opened Results
  import opened Sequences
  import opened Sorting
  import opened Cleanup

  // ---------------------------------------------------------------- the order of the plan

  function ByPath(le: (Path, Path) -> bool): (Item, Item) -> bool { (a: Item, b: Item) => le(a.path, b.path) }

  /** Deepest directories first, by name within a depth. */
  function ByDepth(le: (Path, Path) -> bool): (Path, Path) -> bool {
    (a: Path, b: Path) => |a| > |b| || (|a| == |b| && le(a, b))
  }

  datatype Plan = Plan(files: seq<Item>, directories: seq<Path>)

  ghost predicate Known(fs: FileSystem, plan: Plan) { Recorded(fs, plan.files, plan.directories) }

  ghost predicate Names(plan: Plan, p: Path) { Listed(p, plan.files, plan.directories) }

  ghost predicate DeepestFirst(directories: seq<Path>) {
    forall i, j :: 0 <= i < j < |directories| ==> |directories[i]| >= |directories[j]|
  }

  lemma SortedPlan(fs: FileSystem, listed: Plan, sorted: Plan)
    requires Known(fs, listed)
    requires multiset(sorted.files) == multiset(listed.files)
             && multiset(sorted.directories) == multiset(listed.directories)
    ensures Known(fs, sorted) && forall p :: Names(sorted, p) <==> Names(listed, p)
  {
    DistinctPermutation(listed.files, sorted.files);
    DistinctPermutation(listed.directories, sorted.directories);
    SameElements(listed.files, sorted.files);
    SameElements(listed.directories, sorted.directories);
    forall i | 0 <= i < |sorted.files| ensures sorted.files[i] in listed.files {}
    forall i | 0 <= i < |sorted.directories| ensures sorted.directories[i] in listed.directories {}
    forall p ensures Names(sorted, p) <==> Names(listed, p) {
      if Names(sorted, p) && p !in sorted.directories {
        var i :| 0 <= i < |sorted.files| && sorted.files[i].path == p;
        assert sorted.files[i] in listed.files;
      }
      if Names(listed, p) && p !in listed.directories {
        var i :| 0 <= i < |listed.files| && listed.files[i].path == p;
        assert listed.files[i] in sorted.files;
      }
    }
  }

  /** The walk followed by the two sorts. */
  method Tree(fs: FileSystem, roots: seq<Path>, maxFile: nat, maxTotal: nat, le: (Path, Path) -> bool)
    returns (r: Result<Plan, Refusal>)
    requires WellFormed(fs) && Apart(roots) && forall i :: 0 <= i < |roots| ==> roots[i] in fs
    requires TotalPreorder(le)
    ensures r.Ok? ==> Known(fs, r.value) && DeepestFirst(r.value.directories)
    ensures r.Ok? ==> forall p :: Names(r.value, p) <==> p in fs && Under(p, roots)
    ensures r == Err(SpecialFile) ==> exists p :: p in fs && Under(p, roots) && fs[p].Special?
    ensures r == Err(EntryBound) ==> |Subtrees(fs, roots)| > MAX_ENTRIES
    ensures r == Err(ByteBound) ==> Oversized(fs, roots, maxTotal)
    ensures r == Err(FileBound) ==> exists p :: p in fs && Under(p, roots) && fs[p].File? && fs[p].stamp.bytes > maxFile
  {
    var walked := Walk(fs, roots, maxFile, maxTotal);
    if walked.Err? { return Err(walked.error); }
    var listed := Plan(walked.value.0, walked.value.1);
    var sorted := Plan(Sort(listed.files, ByPath(le)), Sort(listed.directories, ByDepth(le)));
    SortSorts(listed.directories, ByDepth(le));
    SortedPlan(fs, listed, sorted);
    return Ok(sorted);
  }

  // ---------------------------------------------------------------- plans that can be carried out

  /** Everything in a planned directory is a planned file or an earlier planned directory. */
  ghost predicate Deletable(fs: FileSystem, plan: Plan) {
    && Known(fs, plan)
    && forall i, c :: 0 <= i < |plan.directories| && c in fs && IsChild(c, plan.directories[i]) ==>
                        Removed(plan, |plan.files|, i, c)
  }

  /** `p` is among the first `n` files or the first `m` directories of the plan. */
  ghost predicate Removed(plan: Plan, n: nat, m: nat, p: Path) {
    (exists k :: 0 <= k < n && k < |plan.files| && plan.files[k].path == p)
    || (exists k :: 0 <= k < m && k < |plan.directories| && plan.directories[k] == p)
  }

  /** Files first, then the deepest directories: the listing of whole trees can always be carried out. */
  lemma TreeDeletable(fs: FileSystem, roots: seq<Path>, plan: Plan)
    requires Known(fs, plan) && DeepestFirst(plan.directories)
    requires forall p :: Names(plan, p) <==> p in fs && Under(p, roots)
    ensures Deletable(fs, plan)
  {
    forall i, c | 0 <= i < |plan.directories| && c in fs && IsChild(c, plan.directories[i])
      ensures Removed(plan, |plan.files|, i, c)
    {
      var d := plan.directories[i];
      assert Names(plan, d);
      UnderTrans(d, c, roots);
      assert Names(plan, c);
      if c in plan.directories {
        var k :| 0 <= k < |plan.directories| && plan.directories[k] == c;
        assert |c| == |d| + 1;
        assert k < i;
      }
    }
  }

  /** Plans for trees that share nothing can be carried out one after the other. */
  lemma JoinDeletable(fs: FileSystem, a: Plan, b: Plan)
    requires Deletable(fs, a) && Deletable(fs, b)
    requires forall p :: !(Names(a, p) && Names(b, p))
    ensures Deletable(fs, Plan(a.files + b.files, a.directories + b.directories))
  {
    var plan := Plan(a.files + b.files, a.directories + b.directories);
    JoinKnown(fs, a, b);
    forall i, c | 0 <= i < |plan.directories| && c in fs && IsChild(c, plan.directories[i])
      ensures Removed(plan, |plan.files|, i, c)
    {
      if i < |a.directories| {
        assert Removed(a, |a.files|, i, c);
        JoinRemoved(a, b, i, c);
      } else {
        assert plan.directories[i] == b.directories[i - |a.directories|];
        assert Removed(b, |b.files|, i - |a.directories|, c);
        JoinRemoved(a, b, i, c);
      }
    }
  }

  lemma JoinRemoved(a: Plan, b: Plan, i: nat, c: Path)
    requires (i <= |a.directories| && Removed(a, |a.files|, i, c))
             || (i >= |a.directories| && Removed(b, |b.files|, i - |a.directories|, c))
    ensures Removed(Plan(a.files + b.files, a.directories + b.directories), |a.files| + |b.files|, i, c)
  {
    var files, directories := a.files + b.files, a.directories + b.directories;
    assert forall k :: 0 <= k < |a.files| ==> files[k] == a.files[k];
    assert forall k :: 0 <= k < |b.files| ==> files[|a.files| + k] == b.files[k];
    assert forall k :: 0 <= k < |a.directories| ==> directories[k] == a.directories[k];
    assert forall k :: 0 <= k < |b.directories| ==> directories[|a.directories| + k] == b.directories[k];
  }

  lemma JoinKnown(fs: FileSystem, a: Plan, b: Plan)
    requires Known(fs, a) && Known(fs, b) && forall p :: !(Names(a, p) && Names(b, p))
    ensures Known(fs, Plan(a.files + b.files, a.directories + b.directories))
  {
    var files, directories := a.files + b.files, a.directories + b.directories;
    forall i, j | 0 <= i < j < |files| ensures files[i] != files[j] {
      if i < |a.files| <= j {
        assert Names(a, files[i].path);
        assert files[j] == b.files[j - |a.files|] && Names(b, files[j].path);
      }
    }
    forall i, j | 0 <= i < j < |directories| ensures directories[i] != directories[j] {
      if i < |a.directories| <= j {
        assert Names(a, directories[i]);
        assert directories[j] == b.directories[j - |a.directories|] && Names(b, directories[j]);
      }
    }
  }

  // ---------------------------------------------------------------- carrying a plan out

  /** `NotEmpty` is what removing a directory that is missing or still occupied raises. */
  datatype Fault = Storage | Changed | NotEmpty | RetainedChanged

  /** The plan in deletion order. */
  ghost function Order(plan: Plan): seq<Path> { PathsOf(plan.files) + plan.directories }

  class Store {
    var fs: FileSystem

    constructor (fs: FileSystem)
      ensures this.fs == fs
    {
      this.fs := fs;
    }

    /** Removes the first `n` files and `m` directories of the plan, and nothing else. */
    ghost predicate After(before: FileSystem, plan: Plan, n: nat, m: nat)
      reads this
    {
      && (forall p :: p in fs <==> p in before && !Removed(plan, n, m, p))
      && (forall p :: p in fs ==> p in before && fs[p] == before[p])
    }

    method DeleteFiles(plan: Plan) returns (n: nat, fault: Option<Fault>)
      requires Deletable(fs, plan)
      modifies this
      ensures n <= |plan.files| && After(old(fs), plan, n, 0)
      ensures fault.None? ==> n == |plan.files|
      ensures fault.Some? ==> fault == Some(Storage)
    {
      NothingRemoved(plan);
      hide Removed;
      n := 0;
      while n < |plan.files|
        invariant n <= |plan.files| && After(old(fs), plan, n, 0)
      {
        if * { return n, Some(Storage); }
        var item := plan.files[n];
        FileStillThere(old(fs), plan, n);
        if item.path !in fs || fs[item.path] != File(item.stamp) { return n, Some(Changed); }
        RemovedStep(plan, n, 0);
        fs := fs - {item.path};
        n := n + 1;
      }
      fault := None;
    }

    method DeleteDirectories(plan: Plan, ghost before: FileSystem) returns (m: nat, fault: Option<Fault>)
      requires Deletable(before, plan) && After(before, plan, |plan.files|, 0)
      modifies this
      ensures m <= |plan.directories| && After(before, plan, |plan.files|, m)
      ensures fault.None? ==> m == |plan.directories|
      ensures fault.Some? ==> fault == Some(Storage)
    {
      hide Removed, Deletable;
      m := 0;
      while m < |plan.directories|
        invariant m <= |plan.directories| && After(before, plan, |plan.files|, m)
      {
        if * { return m, Some(Storage); }
        var directory := plan.directories[m];
        DirectoryEmpty(before, plan, m);
        if directory !in fs || exists c :: c in fs && IsChild(c, directory) { return m, Some(NotEmpty); }
        RemovedStep(plan, |plan.files|, m);
        fs := fs - {directory};
        m := m + 1;
      }
      fault := None;
    }

    /**
     Whatever fails on the way, what was deleted is a prefix of the plan and everything else is as it
     was; no file is found changed and no directory is found occupied.
     */
    method Delete(plan: Plan) returns (deleted: seq<Path>, fault: Option<Fault>)
      requires Deletable(fs, plan)
      modifies this
      ensures deleted <= Order(plan)
      ensures forall p :: p in fs <==> p in old(fs) && p !in deleted
      ensures forall p :: p in fs ==> fs[p] == old(fs)[p]
      ensures fault.None? ==> deleted == Order(plan)
      ensures fault.Some? ==> fault.value in {Storage, RetainedChanged}
    {
      ghost var before := fs;
      var n, left := DeleteFiles(plan);
      deleted := seq(n, i requires 0 <= i < n => plan.files[i].path);
      assert deleted == PathsOf(plan.files)[..n];
      DeletedPaths(plan, n, 0);
      if left.Some? {
        assert Order(plan)[..n] == deleted;
        return deleted, left;
      }
      var m;
      m, fault := DeleteDirectories(plan, before);
      deleted := deleted + plan.directories[..m];
      DeletedPaths(plan, n, m);
      assert Order(plan)[..n + m] == deleted;
      if fault.None? {
        if * { fault := Some(RetainedChanged); }
      }
    }
  }

  lemma DeletedPaths(plan: Plan, n: nat, m: nat)
    requires n <= |plan.files| && m <= |plan.directories|
    ensures forall p :: Removed(plan, n, m, p) <==> p in PathsOf(plan.files)[..n] + plan.directories[..m]
  {
    var some := PathsOf(plan.files)[..n] + plan.directories[..m];
    forall p ensures Removed(plan, n, m, p) <==> p in some {
      if Removed(plan, n, m, p) {
        if k :| 0 <= k < n && plan.files[k].path == p {
          assert some[k] == p;
        } else {
          var k :| 0 <= k < m && plan.directories[k] == p;
          assert some[n + k] == p;
        }
      }
      if p in some {
        var k :| 0 <= k < |some| && some[k] == p;
        if k < n { assert plan.files[k].path == p; } else { assert plan.directories[k - n] == p; }
      }
    }
  }

  lemma NothingRemoved(plan: Plan)
    ensures forall p :: !Removed(plan, 0, 0, p)
  {
  }

  lemma RemovedStep(plan: Plan, n: nat, m: nat)
    ensures n < |plan.files| ==>
              forall p :: Removed(plan, n + 1, m, p) <==> Removed(plan, n, m, p) || p == plan.files[n].path
    ensures m < |plan.directories| ==>
              forall p :: Removed(plan, n, m + 1, p) <==> Removed(plan, n, m, p) || p == plan.directories[m]
  {
    if n < |plan.files| {
      forall p ensures Removed(plan, n + 1, m, p) <==> Removed(plan, n, m, p) || p == plan.files[n].path {
        assert p == plan.files[n].path ==> Removed(plan, n + 1, m, p);
      }
    }
    if m < |plan.directories| {
      forall p ensures Removed(plan, n, m + 1, p) <==> Removed(plan, n, m, p) || p == plan.directories[m] {
        assert p == plan.directories[m] ==> Removed(plan, n, m + 1, p);
      }
    }
  }

  lemma FileStillThere(fs: FileSystem, plan: Plan, n: nat)
    requires Known(fs, plan) && n < |plan.files|
    ensures plan.files[n].path in fs && fs[plan.files[n].path] == File(plan.files[n].stamp)
    ensures !Removed(plan, n, 0, plan.files[n].path)
  {
    forall k | 0 <= k < n ensures plan.files[k].path != plan.files[n].path {
      assert plan.files[k] != plan.files[n];
    }
  }

  lemma DirectoryEmpty(fs: FileSystem, plan: Plan, m: nat)
    requires Deletable(fs, plan) && m < |plan.directories|
    ensures plan.directories[m] in fs && !Removed(plan, |plan.files|, m, plan.directories[m])
    ensures forall c :: c in fs && IsChild(c, plan.directories[m]) ==> Removed(plan, |plan.files|, m, c)
  {
    forall k | 0 <= k < |plan.files| ensures plan.files[k].path != plan.directories[m] {}
  }

  // ---------------------------------------------------------------- the whole cleanup

  datatype Left = Refused(why: Refusal) | Stopped(fault: Fault, deleted: seq<Path>) | Done(deleted: seq<Path>)

  /** Roots that are apart have no descendant in common. */
  lemma ApartDisjoint(roots: seq<Path>, service: Path, p: Path)
    requires Apart(roots + [service]) && Under(p, roots)
    ensures !(service <= p)
  {
    var i :| 0 <= i < |roots| && roots[i] <= p;
    var all := roots + [service];
    assert all[i] == roots[i] && all[|roots|] == service;
    assert !(all[i] <= all[|roots|]) && !(all[|roots|] <= all[i]);
    if service <= p { PrefixesCompare(service, roots[i], p); }
  }

  lemma PrefixesCompare(a: Path, b: Path, p: Path)
    requires a <= p && b <= p
    ensures a <= b || b <= a
  {
  }

  lemma ApartFront(roots: seq<Path>, service: Path)
    requires Apart(roots + [service])
    ensures Apart(roots) && Apart([service])
  {
    forall i, j | 0 <= i < |roots| && 0 <= j < |roots| && i != j ensures !(roots[i] <= roots[j]) {
      assert (roots + [service])[i] == roots[i] && (roots + [service])[j] == roots[j];
    }
  }

  lemma OrderNames(plan: Plan, p: Path)
    ensures p in Order(plan) <==> Names(plan, p)
  {
    DeletedPaths(plan, |plan.files|, |plan.directories|);
    assert PathsOf(plan.files)[..|plan.files|] == PathsOf(plan.files);
    assert plan.directories[..|plan.directories|] == plan.directories;
    assert p in Order(plan) <==> Removed(plan, |plan.files|, |plan.directories|, p);
  }

  /**
   Two trees are listed before anything is deleted. A refusal changes nothing; success removes
   exactly the admitted subtrees; a fault leaves a prefix of the plan removed, in the plan's order;
   and nothing outside the subtrees, such as the retained export, is ever touched.
   */
  method CleanupExport(store: Store, roots: seq<Path>, service: Path, maxFile: nat, outputTotal: nat,
                       serviceTotal: nat, le: (Path, Path) -> bool) returns (left: Left, ghost plan: Plan)
    requires WellFormed(store.fs) && TotalPreorder(le) && Apart(roots + [service])
    requires service in store.fs && forall i :: 0 <= i < |roots| ==> roots[i] in store.fs
    modifies store
    ensures left.Refused? ==> store.fs == old(store.fs)
    ensures left.Done? ==> forall p :: p in store.fs <==> p in old(store.fs) && !Under(p, roots) && !(service <= p)
    ensures !left.Refused? ==> forall p :: p in store.fs <==> p in old(store.fs) && p !in left.deleted
    ensures !left.Refused? ==> forall p :: p in left.deleted ==> p in old(store.fs) && (Under(p, roots) || service <= p)
    ensures forall p :: p in store.fs ==> store.fs[p] == old(store.fs)[p]
    ensures left.Stopped? ==> left.fault in {Storage, RetainedChanged}
    ensures !left.Refused? ==> Deletable(old(store.fs), plan) && left.deleted <= Order(plan)
    ensures !left.Refused? ==> forall p :: Names(plan, p) <==> p in old(store.fs) && (Under(p, roots) || service <= p)
    ensures left.Done? ==> left.deleted == Order(plan)
  {
    plan := Plan([], []);
    ApartFront(roots, service);
    var outputs := Tree(store.fs, roots, maxFile, outputTotal, le);
    if outputs.Err? { return Refused(outputs.error), plan; }
    var services := Tree(store.fs, [service], maxFile, serviceTotal, le);
    if services.Err? { return Refused(services.error), plan; }
    var a, b := outputs.value, services.value;
    forall p ensures Names(b, p) <==> p in store.fs && service <= p {
      assert Under(p, [service]) <==> service <= p by { assert [service][0] == service; }
    }
    forall p ensures !(Names(a, p) && Names(b, p)) {
      if Names(a, p) { ApartDisjoint(roots, service, p); }
    }
    TreeDeletable(store.fs, roots, a);
    TreeDeletable(store.fs, [service], b);
    JoinDeletable(store.fs, a, b);
    var joined := Plan(a.files + b.files, a.directories + b.directories);
    plan := joined;
    if |joined.files| + |joined.directories| > MAX_ENTRIES { return Refused(EntryBound), plan; }
    ghost var before := store.fs;
    forall p ensures p in Order(plan) <==> p in before && (Under(p, roots) || service <= p) {
      JoinNames(a, b, p);
      OrderNames(plan, p);
    }
    var deleted, fault := store.Delete(joined);
    forall p | p in deleted ensures p in Order(plan) {
      var k :| 0 <= k < |deleted| && deleted[k] == p;
      assert Order(plan)[k] == p;
    }
    left := if fault.None? then Done(deleted) else Stopped(fault.value, deleted);
  }

  lemma JoinNames(a: Plan, b: Plan, p: Path)
    ensures Names(Plan(a.files + b.files, a.directories + b.directories), p) <==> Names(a, p) || Names(b, p)
  {
    var files := a.files + b.files;
    assert forall k :: 0 <= k < |a.files| ==> files[k] == a.files[k];
    assert forall k :: 0 <= k < |b.files| ==> files[|a.files| + k] == b.files[k];
  }
}
