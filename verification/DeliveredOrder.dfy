/**
 What loading delivers, in plain terms: the paths in the order in which a reader who follows each
 linker script on the spot comes to them first, and for each path the records, files and scripts that
 its content stands for.
 */
module DeliveredOrder {
  import opened Wrappers
  import opened Sequences
  import opened InputLoader
  import opened Extraction
  import opened LoadOrder

  // ----- First visits -----

  function PathsOf(paths: seq<Path>): set<Path> {
    set p | p in paths
  }

  /** The paths that `p` brings in: itself if it is new, then, for a script, what its inputs bring in. */
  ghost function FirstVisitsOf(disk: Disk, p: Path, seen: set<Path>): (list: seq<Path>)
    ensures if p in seen then list == [] else list != [] && list[0] == p
    decreases disk.Keys - seen, 0
  {
    if p in seen then []
    else if Loadable(disk, p) && IsScript(disk, p) then
      [p] + FirstVisits(disk, Resolved(Refs(disk, p)), seen + {p})
    else [p]
  }

  /** One path after the other, each in view of all that came before it. */
  ghost function FirstVisits(disk: Disk, paths: seq<Path>, seen: set<Path>): seq<Path>
    decreases disk.Keys - seen, |paths|
  {
    if paths == [] then []
    else
      var list := FirstVisitsOf(disk, paths[0], seen);
      Narrows(disk, seen, PathsOf(list));
      list + FirstVisits(disk, paths[1..], seen + PathsOf(list))
  }

  /** What is left to visit never grows. */
  lemma {:induction false} Narrows(disk: Disk, seen: set<Path>, more: set<Path>)
    ensures disk.Keys - (seen + more) == disk.Keys - seen || disk.Keys - (seen + more) < disk.Keys - seen
  {
    assert disk.Keys - (seen + more) <= disk.Keys - seen;
  }

  // ----- What a path stands for -----

  function RecordsOf(c: Content): seq<Record> {
    match c
    case Object(record, _) => [record]
    case Archive(records) => records
    case ThinArchive(_, records) => records
    case _ => []
  }

  /** A thin archive stands for its members. */
  function FilesOf(p: Path, c: Content): seq<Path> {
    if c.ThinArchive? then c.members else [p]
  }

  function AllRecords(disk: Disk, list: seq<Path>): seq<Record> {
    if list == [] then [] else RecordsOf(Read(disk, list[0])) + AllRecords(disk, list[1..])
  }

  function AllFiles(disk: Disk, list: seq<Path>): seq<Path> {
    if list == [] then [] else FilesOf(list[0], Read(disk, list[0])) + AllFiles(disk, list[1..])
  }

  function AllScripts(disk: Disk, list: seq<Path>): seq<Path> {
    if list == [] then []
    else (if Read(disk, list[0]).Script? then [list[0]] else []) + AllScripts(disk, list[1..])
  }

  ghost predicate AnyDynamic(disk: Disk, list: seq<Path>) {
    exists k :: 0 <= k < |list| && DynamicAt(disk, list, k)
  }

  predicate DynamicAt(disk: Disk, list: seq<Path>, k: int)
    requires 0 <= k < |list|
  {
    Read(disk, list[k]).Object? && Read(disk, list[k]).isDynamic
  }

  /** `after` is `before` and then everything that the paths of `list` stand for, in order. */
  ghost predicate Delivers(disk: Disk, list: seq<Path>, before: Inputs, after: Inputs) {
    && after.objects == before.objects + AllRecords(disk, list)
    && after.files == before.files + AllFiles(disk, list)
    && after.scripts == before.scripts + AllScripts(disk, list)
    && (after.hasDynamic <==> before.hasDynamic || AnyDynamic(disk, list))
  }

  // ----- The walk delivers first visits -----

  lemma {:induction false} RecordsConcat(disk: Disk, a: seq<Path>, b: seq<Path>)
    ensures AllRecords(disk, a + b) == AllRecords(disk, a) + AllRecords(disk, b)
  {
    if a == [] {
      assert a + b == b;
    } else {
      RecordsConcat(disk, a[1..], b);
      assert (a + b)[1..] == a[1..] + b;
      Assoc(RecordsOf(Read(disk, a[0])), AllRecords(disk, a[1..]), AllRecords(disk, b));
    }
  }

  lemma {:induction false} FilesConcat(disk: Disk, a: seq<Path>, b: seq<Path>)
    ensures AllFiles(disk, a + b) == AllFiles(disk, a) + AllFiles(disk, b)
  {
    if a == [] {
      assert a + b == b;
    } else {
      FilesConcat(disk, a[1..], b);
      assert (a + b)[1..] == a[1..] + b;
      Assoc(FilesOf(a[0], Read(disk, a[0])), AllFiles(disk, a[1..]), AllFiles(disk, b));
    }
  }

  lemma {:induction false} ScriptsConcat(disk: Disk, a: seq<Path>, b: seq<Path>)
    ensures AllScripts(disk, a + b) == AllScripts(disk, a) + AllScripts(disk, b)
  {
    if a == [] {
      assert a + b == b;
    } else {
      ScriptsConcat(disk, a[1..], b);
      assert (a + b)[1..] == a[1..] + b;
      Assoc(if Read(disk, a[0]).Script? then [a[0]] else [], AllScripts(disk, a[1..]), AllScripts(disk, b));
    }
  }

  lemma {:induction false} DynamicConcat(disk: Disk, a: seq<Path>, b: seq<Path>)
    ensures AnyDynamic(disk, a + b) <==> AnyDynamic(disk, a) || AnyDynamic(disk, b)
  {
    var c := a + b;
    if k :| 0 <= k < |a| && DynamicAt(disk, a, k) {
      assert DynamicAt(disk, c, k);
    }
    if k :| 0 <= k < |b| && DynamicAt(disk, b, k) {
      assert DynamicAt(disk, c, |a| + k);
    }
    if k :| 0 <= k < |c| && DynamicAt(disk, c, k) {
      assert if k < |a| then DynamicAt(disk, a, k) else DynamicAt(disk, b, k - |a|);
    }
  }

  lemma {:induction false} DeliversInTurn(disk: Disk, a: seq<Path>, b: seq<Path>, x: Inputs, y: Inputs, z: Inputs)
    requires Delivers(disk, a, x, y) && Delivers(disk, b, y, z)
    ensures Delivers(disk, a + b, x, z)
  {
    RecordsConcat(disk, a, b);
    FilesConcat(disk, a, b);
    ScriptsConcat(disk, a, b);
    DynamicConcat(disk, a, b);
  }

  lemma {:induction false} FileDelivers(disk: Disk, p: Path, out: Inputs)
    requires Loadable(disk, p) && !IsScript(disk, p)
    ensures Delivers(disk, [p], out, AddFile(out, p, Read(disk, p)))
  {
    assert [p][1..] == [];
    assert DynamicAt(disk, [p], 0) <==> Read(disk, p).Object? && Read(disk, p).isDynamic;
  }

  lemma {:induction false} ScriptDelivers(disk: Disk, p: Path, out: Inputs)
    requires IsScript(disk, p)
    ensures Delivers(disk, [p], out, AddScript(out, p))
  {
    assert [p][1..] == [];
    assert !DynamicAt(disk, [p], 0);
  }

  lemma {:induction false} NothingDelivers(disk: Disk, out: Inputs)
    ensures Delivers(disk, [], out, out)
  {
  }

  ghost predicate AllLoadable(disk: Disk, list: seq<Path>) {
    forall k :: 0 <= k < |list| ==> Loadable(disk, list[k])
  }

  /** `p` is the first path of `list` that cannot be loaded. */
  ghost predicate FirstFailure(disk: Disk, list: seq<Path>, p: Path) {
    exists k :: FailsAt(disk, list, p, k)
  }

  ghost predicate FailsAt(disk: Disk, list: seq<Path>, p: Path, k: int) {
    0 <= k < |list| && list[k] == p && !Loadable(disk, p) && AllLoadable(disk, list[..k])
  }

  /** A walk along `list` from `seen` and `out`: it delivers it all, or stops at its first failure. */
  ghost predicate WalkedBy(disk: Disk, list: seq<Path>, seen: set<Path>, out: Inputs, r: Visited) {
    match r
    case Visited(all, after) =>
      AllLoadable(disk, list) && all == seen + PathsOf(list) && Delivers(disk, list, out, after)
    case Stopped(p) => FirstFailure(disk, list, p)
  }

  lemma {:induction false} WalkedInTurn(
      disk: Disk, a: seq<Path>, b: seq<Path>, seen: set<Path>, out: Inputs, r: Visited, r': Visited)
    requires WalkedBy(disk, a, seen, out, r)
    requires if r.Stopped? then r' == r else WalkedBy(disk, b, seen + PathsOf(a), r.out, r')
    ensures WalkedBy(disk, a + b, seen, out, r')
  {
    if r.Stopped? {
      var k :| FailsAt(disk, a, r.path, k);
      assert (a + b)[..k] == a[..k];
      assert FailsAt(disk, a + b, r.path, k);
    } else if r'.Stopped? {
      var k :| FailsAt(disk, b, r'.path, k);
      assert (a + b)[..|a| + k] == a + b[..k];
      assert FailsAt(disk, a + b, r'.path, |a| + k);
    } else {
      DeliversInTurn(disk, a, b, out, r.out, r'.out);
      assert PathsOf(a + b) == PathsOf(a) + PathsOf(b);
    }
  }

  /** A walk goes by the list of first visits. */
  lemma {:induction false} WalkIsFirstVisits(disk: Disk, todo: seq<Path>, seen: set<Path>, out: Inputs)
    ensures WalkedBy(disk, FirstVisits(disk, todo, seen), seen, out, Visit(disk, todo, seen, out))
    decreases disk.Keys - seen, |todo|, 1
  {
    if todo == [] {
      NothingDelivers(disk, out);
    } else {
      var p, rest := todo[0], todo[1..];
      assert [p] + rest == todo;
      VisitAppend(disk, [p], rest, seen, out);
      var r, list := Visit(disk, [p], seen, out), FirstVisitsOf(disk, p, seen);
      var all := seen + PathsOf(list);
      WalkOfOne(disk, p, seen, out);
      Narrows(disk, seen, PathsOf(list));
      if r.Visited? {
        WalkIsFirstVisits(disk, rest, all, r.out);
      }
      WalkedInTurn(disk, list, FirstVisits(disk, rest, all), seen, out, r, Visit(disk, todo, seen, out));
    }
  }

  lemma {:induction false} WalkOfOne(disk: Disk, p: Path, seen: set<Path>, out: Inputs)
    ensures WalkedBy(disk, FirstVisitsOf(disk, p, seen), seen, out, Visit(disk, [p], seen, out))
    decreases disk.Keys - seen, 1, 0
  {
    assert [p][1..] == [] && PathsOf([p]) == {p};
    if p in seen {
      NothingDelivers(disk, out);
    } else if !Loadable(disk, p) {
      assert FailsAt(disk, FirstVisitsOf(disk, p, seen), p, 0);
    } else if IsScript(disk, p) {
      var inputs, out' := Resolved(Refs(disk, p)), AddScript(out, p);
      assert inputs + [] == inputs;
      ScriptDelivers(disk, p, out);
      WalkIsFirstVisits(disk, inputs, seen + {p}, out');
      var list := FirstVisits(disk, inputs, seen + {p});
      WalkedInTurn(disk, [p], list, seen, out, Visited(seen + {p}, out'), Visit(disk, [p], seen, out));
    } else {
      FileDelivers(disk, p, out);
    }
  }

  /** What the loader holds and reports, for the list of first visits. */
  ghost predicate ReportsList(loader: FileLoader, error: Option<Path>, disk: Disk, list: seq<Path>)
    reads loader
  {
    if AllLoadable(disk, list) then
      && error == None && loader.objects == AllRecords(disk, list) && loader.loadedFiles == AllFiles(disk, list)
      && loader.linkerScripts == AllScripts(disk, list) && (loader.hasDynamic <==> AnyDynamic(disk, list))
    else error.Some? && FirstFailure(disk, list, error.value)
  }

  lemma {:induction false} FailureExcludes(disk: Disk, list: seq<Path>, p: Path)
    requires FirstFailure(disk, list, p)
    ensures !AllLoadable(disk, list)
  {
    var k :| FailsAt(disk, list, p, k);
    assert !Loadable(disk, list[k]);
  }

  /**
   Loading delivers what the first visits of the command line stand for, in their order, or reports
   the first of them that cannot be loaded, whichever worker moves at each step.
   */
  method LoadInOrder(disk: Disk, inputs: seq<Option<Path>>) returns (loader: Option<FileLoader>, error: Option<Path>)
    ensures loader.Some? <==> None !in inputs
    ensures loader.Some? ==>
      ReportsList(loader.value, error, disk, FirstVisits(disk, FirstOccurrences(Resolved(inputs)), {}))
  {
    loader, error := LoadInputs(disk, inputs);
    if loader.Some? {
      ghost var cmd := FirstOccurrences(Resolved(inputs));
      ghost var list, r := FirstVisits(disk, cmd, {}), LoadReference(disk, cmd);
      WalkIsFirstVisits(disk, cmd, {}, NO_INPUTS);
      if r.Stopped? {
        FailureExcludes(disk, list, r.path);
      }
    }
  }

  /** Repeats on the command line change nothing. */
  lemma {:induction false} RepeatsChangeNothing(disk: Disk, paths: seq<Path>)
    ensures FirstVisits(disk, FirstOccurrences(paths), {}) == FirstVisits(disk, paths, {})
  {
    if paths != [] {
      var init, last := paths[..|paths| - 1], paths[|paths| - 1];
      assert paths == init + [last];
      RepeatsChangeNothing(disk, init);
      VisitsInTurn(disk, init, [last], {});
      var once := FirstOccurrences(init);
      if last in once {
        VisitsHold(disk, init, {}, last);
        assert {} + PathsOf(FirstVisits(disk, init, {})) == PathsOf(FirstVisits(disk, init, {}));
        assert FirstVisits(disk, [last], PathsOf(FirstVisits(disk, init, {}))) == [];
      } else {
        VisitsInTurn(disk, once, [last], {});
      }
    }
  }

  lemma {:induction false} VisitsInTurn(disk: Disk, a: seq<Path>, b: seq<Path>, seen: set<Path>)
    ensures FirstVisits(disk, a + b, seen) ==
      FirstVisits(disk, a, seen) + FirstVisits(disk, b, seen + PathsOf(FirstVisits(disk, a, seen)))
    decreases |a|
  {
    if a == [] {
      assert a + b == b && seen + PathsOf([]) == seen;
    } else {
      var list := FirstVisitsOf(disk, a[0], seen);
      var all, rest := seen + PathsOf(list), a[1..];
      assert (a + b)[0] == a[0] && (a + b)[1..] == rest + b;
      VisitsInTurn(disk, rest, b, all);
      var more := FirstVisits(disk, rest, all);
      assert seen + PathsOf(list + more) == all + PathsOf(more);
      Assoc(list, more, FirstVisits(disk, b, all + PathsOf(more)));
    }
  }

  lemma {:induction false} VisitsHold(disk: Disk, paths: seq<Path>, seen: set<Path>, p: Path)
    requires p in paths
    ensures p in seen || p in FirstVisits(disk, paths, seen)
    decreases |paths|
  {
    var list := FirstVisitsOf(disk, paths[0], seen);
    if p != paths[0] {
      VisitsHold(disk, paths[1..], seen + PathsOf(list), p);
    } else if p !in seen {
      assert list[0] == p;
    }
  }

  /** No path is visited twice. */
  lemma {:induction false} FirstVisitsAreNew(disk: Disk, paths: seq<Path>, seen: set<Path>)
    ensures Distinct(FirstVisits(disk, paths, seen)) && PathsOf(FirstVisits(disk, paths, seen)) !! seen
    decreases disk.Keys - seen, |paths|, 1
  {
    if paths != [] {
      var p := paths[0];
      var list := FirstVisitsOf(disk, p, seen);
      FirstVisitsOfAreNew(disk, p, seen);
      Narrows(disk, seen, PathsOf(list));
      var rest := FirstVisits(disk, paths[1..], seen + PathsOf(list));
      FirstVisitsAreNew(disk, paths[1..], seen + PathsOf(list));
      DistinctConcat(list, rest);
    }
  }

  lemma {:induction false} FirstVisitsOfAreNew(disk: Disk, p: Path, seen: set<Path>)
    ensures Distinct(FirstVisitsOf(disk, p, seen)) && PathsOf(FirstVisitsOf(disk, p, seen)) !! seen
    decreases disk.Keys - seen, 1, 0
  {
    if p !in seen && Loadable(disk, p) && IsScript(disk, p) {
      var inputs := Resolved(Refs(disk, p));
      FirstVisitsAreNew(disk, inputs, seen + {p});
      DistinctConcat([p], FirstVisits(disk, inputs, seen + {p}));
    }
  }

  lemma {:induction false} DistinctConcat(a: seq<Path>, b: seq<Path>)
    requires Distinct(a) && Distinct(b) && PathsOf(a) !! PathsOf(b)
    ensures Distinct(a + b) && PathsOf(a + b) == PathsOf(a) + PathsOf(b)
  {
    forall i, j | 0 <= i < j < |a + b|
      ensures (a + b)[i] != (a + b)[j]
    {
      if i < |a| <= j {
        assert a[i] in PathsOf(a) && b[j - |a|] in PathsOf(b);
      }
    }
  }
}
