/** Staging the libraries a Windows executable needs, from its import tables alone. */
module WindowsStage {
  import opened Results

  const DEPENDENCY_BOUND := 512

  /** Staged files: the executable, and copies of libraries under their lower-case names. */
  datatype Target = Executable | Staged(key: string)

  datatype Origin = Msvc | Vcpkg

  datatype Library = Library(imports: seq<string>, origin: Origin)

  /**
   What staging is given: the import tables, the libraries available under their lower-case names,
   the case folding of names, and the predicate of admitted system names.
   */
  datatype World = World(root: seq<string>, available: map<string, Library>, lower: string -> string,
                         system: string -> bool)

  datatype Refusal = TooManyTargets | UnknownImport(name: string)

  ghost predicate Present(w: World, t: Target) { t.Executable? || t.key in w.available }

  function Imports(w: World, t: Target): seq<string>
    requires t.Executable? || t.key in w.available
  {
    if t.Executable? then w.root else w.available[t.key].imports
  }

  /** `t` imports the available library `k` directly. */
  ghost predicate Needs(w: World, t: Target, k: string) {
    Present(w, t) && k in w.available && exists name :: name in Imports(w, t) && w.lower(name) == k
  }

  /** A chain of available libraries, each imported by the one before, the first by the executable. */
  ghost predicate ImportChain(w: World, path: seq<string>) {
    && path != []
    && Needs(w, Executable, path[0])
    && forall i :: 0 < i < |path| ==> Needs(w, Staged(path[i - 1]), path[i])
  }

  ghost predicate Reachable(w: World, t: Target) {
    t.Executable? || exists path :: ImportChain(w, path) && path[|path| - 1] == t.key
  }

  lemma ReachNext(w: World, t: Target, k: string)
    requires Reachable(w, t) && Needs(w, t, k)
    ensures Reachable(w, Staged(k))
  {
    if t.Executable? {
      assert ImportChain(w, [k]);
    } else {
      var path :| ImportChain(w, path) && path[|path| - 1] == t.key;
      var longer := path + [k];
      assert ImportChain(w, longer);
      assert longer[|longer| - 1] == k;
    }
  }

  /** What has been copied, with its origin, and which system names were admitted. */
  datatype Stage = Stage(origins: map<string, Origin>, system: set<string>)

  /** Every import of the target is staged or an admitted system name, and recorded as such. */
  ghost predicate Accounted(w: World, name: string, stage: Stage) {
    if w.lower(name) in w.available then w.lower(name) in stage.origins
    else w.system(name) && w.lower(name) in stage.system
  }

  ghost predicate Resolved(w: World, t: Target, stage: Stage) {
    Present(w, t) && forall i :: 0 <= i < |Imports(w, t)| ==> Accounted(w, Imports(w, t)[i], stage)
  }

  ghost predicate Closed(w: World, stage: Stage) {
    Resolved(w, Executable, stage) && forall k :: k in stage.origins ==> Resolved(w, Staged(k), stage)
  }

  lemma NeededIsStaged(w: World, t: Target, stage: Stage, k: string)
    requires Resolved(w, t, stage) && Needs(w, t, k)
    ensures k in stage.origins
  {
    var name :| name in Imports(w, t) && w.lower(name) == k;
    var i :| 0 <= i < |Imports(w, t)| && Imports(w, t)[i] == name;
    assert Accounted(w, Imports(w, t)[i], stage);
  }

  /** A stage that resolves the executable and all it holds has everything reachable. */
  lemma {:induction false} ClosedHoldsChain(w: World, stage: Stage, path: seq<string>)
    requires Closed(w, stage) && ImportChain(w, path)
    ensures path[|path| - 1] in stage.origins
  {
    if |path| == 1 {
      NeededIsStaged(w, Executable, stage, path[0]);
    } else {
      var front := path[..|path| - 1];
      assert ImportChain(w, front);
      ClosedHoldsChain(w, stage, front);
      NeededIsStaged(w, Staged(path[|path| - 2]), stage, path[|path| - 1]);
    }
  }

  ghost predicate Grows(a: Stage, b: Stage) {
    a.origins.Keys <= b.origins.Keys && a.system <= b.system
  }

  /** Records are true: copies are reachable libraries under their own origin, system names are admitted ones. */
  ghost predicate Truthful(w: World, stage: Stage) {
    && (forall k :: k in stage.origins ==>
                      k in w.available && stage.origins[k] == w.available[k].origin && Reachable(w, Staged(k)))
    && (forall s :: s in stage.system ==> s !in w.available && exists name :: w.lower(name) == s && w.system(name))
  }

  /** One import table: what it adds to the queue, the copies and the system names. */
  method Resolve(w: World, t: Target, queue: seq<Target>, stage: Stage)
    returns (r: Result<(seq<Target>, Stage), Refusal>)
    requires Present(w, t) && Reachable(w, t) && Truthful(w, stage)
    ensures r.Ok? ==> Resolved(w, t, r.value.1) && Grows(stage, r.value.1) && Truthful(w, r.value.1)
    ensures r.Ok? ==> queue <= r.value.0
    ensures r.Ok? ==> forall i :: |queue| <= i < |r.value.0| ==>
              r.value.0[i].Staged? && r.value.0[i].key in r.value.1.origins
    ensures r.Ok? ==> forall k :: k in r.value.1.origins ==> k in stage.origins || Staged(k) in r.value.0
    ensures r.Err? ==> r.error.UnknownImport? && r.error.name in Imports(w, t)
                       && w.lower(r.error.name) !in w.available && !w.system(r.error.name)
  {
    var more, next := queue, stage;
    var names := Imports(w, t);
    for i := 0 to |names|
      invariant queue <= more && Grows(stage, next) && Truthful(w, next)
      invariant forall j :: 0 <= j < i ==> Accounted(w, names[j], next)
      invariant forall j :: |queue| <= j < |more| ==> more[j].Staged? && more[j].key in next.origins
      invariant forall k :: k in next.origins ==> k in stage.origins || Staged(k) in more
    {
      var lower := w.lower(names[i]);
      if lower in w.available {
        ReachNext(w, t, lower);
        more := more + [Staged(lower)];
        next := next.(origins := next.origins[lower := w.available[lower].origin]);
      } else {
        if !w.system(names[i]) { return Err(UnknownImport(names[i])); }
        next := next.(system := next.system + {lower});
      }
    }
    return Ok((more, next));
  }

  /** The worklist: what is queued or seen is staged, what is staged is queued or seen, what is seen is resolved. */
  ghost predicate Working(w: World, queue: seq<Target>, seen: set<Target>, stage: Stage) {
    && Truthful(w, stage)
    && (forall i :: 0 <= i < |queue| ==> queue[i].Executable? || queue[i].key in stage.origins)
    && (forall t :: t in seen ==> (t.Executable? || t.key in stage.origins) && Resolved(w, t, stage))
    && (forall k :: k in stage.origins ==> Staged(k) in queue || Staged(k) in seen)
    && (Executable in queue || Executable in seen)
  }

  lemma ResolvedGrows(w: World, t: Target, a: Stage, b: Stage)
    requires Resolved(w, t, a) && Grows(a, b)
    ensures Resolved(w, t, b)
  {
    forall i | 0 <= i < |Imports(w, t)| ensures Accounted(w, Imports(w, t)[i], b) {
      assert Accounted(w, Imports(w, t)[i], a);
    }
  }

  lemma Visited(w: World, queue: seq<Target>, t: Target, seen: set<Target>, stage: Stage, more: seq<Target>,
                next: Stage)
    requires Working(w, queue + [t], seen, stage)
    requires Resolved(w, t, next) && Grows(stage, next) && Truthful(w, next) && queue <= more
    requires forall i :: |queue| <= i < |more| ==> more[i].Staged? && more[i].key in next.origins
    requires forall k :: k in next.origins ==> k in stage.origins || Staged(k) in more
    ensures Working(w, more, seen + {t}, next)
  {
    hide Resolved, Truthful;
    forall u | u in seen ensures Resolved(w, u, next) { ResolvedGrows(w, u, stage, next); }
    assert (queue + [t])[|queue|] == t;
    forall i | 0 <= i < |more| ensures more[i].Executable? || more[i].key in next.origins {
      if i < |queue| { assert (queue + [t])[i] == more[i]; }
    }
    forall u | u in queue + [t] ensures u in more || u == t {
      if u in queue {
        var i :| 0 <= i < |queue| && queue[i] == u;
        assert more[i] == u;
      }
    }
  }

  lemma Skipped(w: World, queue: seq<Target>, t: Target, seen: set<Target>, stage: Stage)
    requires Working(w, queue + [t], seen, stage) && t in seen
    ensures Working(w, queue, seen, stage)
  {
    forall i | 0 <= i < |queue| ensures queue[i].Executable? || queue[i].key in stage.origins {
      assert (queue + [t])[i] == queue[i];
    }
  }

  /** All staged files there can be: the executable and the reachable libraries. */
  ghost function Targets(w: World): set<Target> {
    {Executable} + set k | k in w.available && Reachable(w, Staged(k)) :: Staged(k)
  }

  /**
   The worklist stages exactly the available libraries reachable from the executable's imports, and
   every import of every staged file is staged too or an admitted system name. It refuses only for
   an import that is neither, in a file that is reachable, or for more files than the bound.
   */
  method StageAll(w: World) returns (r: Result<Stage, Refusal>)
    ensures r.Ok? ==> Closed(w, r.value) && Truthful(w, r.value)
    ensures r.Ok? ==> forall k :: k in r.value.origins <==> k in w.available && Reachable(w, Staged(k))
    ensures r.Err? && r.error.UnknownImport? ==>
              exists t :: Present(w, t) && Reachable(w, t) && r.error.name in Imports(w, t)
                          && w.lower(r.error.name) !in w.available && !w.system(r.error.name)
    ensures r == Err(TooManyTargets) ==> |Targets(w)| > DEPENDENCY_BOUND
  {
    hide Working, Resolved, Truthful, Closed, Reachable, Targets;
    var queue, seen: set<Target>, stage := [Executable], {}, Stage(map[], {});
    AtStart(w);
    while queue != []
      invariant Working(w, queue, seen, stage)
      invariant |seen| <= DEPENDENCY_BOUND
      decreases DEPENDENCY_BOUND - |seen|, |queue|
    {
      var target := queue[|queue| - 1];
      ghost var before := queue;
      queue := queue[..|queue| - 1];
      assert before == queue + [target] && before[|queue|] == target;
      Pending(w, before, seen, stage, target);
      if target in seen {
        Skipped(w, queue, target, seen, stage);
        continue;
      }
      if |seen| >= DEPENDENCY_BOUND {
        SeenAreTargets(w, before, seen, stage, target);
        return Err(TooManyTargets);
      }
      var resolved := Resolve(w, target, queue, stage);
      if resolved.Err? { return Err(resolved.error); }
      Visited(w, queue, target, seen, stage, resolved.value.0, resolved.value.1);
      seen := seen + {target};
      queue, stage := resolved.value.0, resolved.value.1;
    }
    AtEnd(w, seen, stage);
    return Ok(stage);
  }

  lemma AtStart(w: World)
    ensures Working(w, [Executable], {}, Stage(map[], {}))
  {
  }

  lemma Pending(w: World, queue: seq<Target>, seen: set<Target>, stage: Stage, t: Target)
    requires Working(w, queue, seen, stage) && (t in queue || t in seen)
    ensures Present(w, t) && Reachable(w, t) && t in Targets(w) && Truthful(w, stage)
  {
    if t.Staged? { assert t == Staged(t.key); }
  }

  lemma AtEnd(w: World, seen: set<Target>, stage: Stage)
    requires Working(w, [], seen, stage)
    ensures Closed(w, stage) && Truthful(w, stage)
    ensures forall k :: k in stage.origins <==> k in w.available && Reachable(w, Staged(k))
  {
    hide Resolved;
    assert Closed(w, stage);
    forall k | k in w.available && Reachable(w, Staged(k)) ensures k in stage.origins {
      var path :| ImportChain(w, path) && path[|path| - 1] == k;
      ClosedHoldsChain(w, stage, path);
    }
  }

  lemma SeenAreTargets(w: World, queue: seq<Target>, seen: set<Target>, stage: Stage, t: Target)
    requires Working(w, queue, seen, stage) && t in queue && t !in seen && |seen| >= DEPENDENCY_BOUND
    ensures |Targets(w)| > DEPENDENCY_BOUND
  {
    hide Working, Targets;
    forall u | u in seen + {t} ensures u in Targets(w) { Pending(w, queue, seen, stage, u); }
    assert Targets(w) == (seen + {t}) + (Targets(w) - (seen + {t}));
  }
}
