/**
 The order the loader promises, stated on paths alone, and the proof that every
 schedule of the workers ends in that order.
 */
module LoadOrder {
  import opened Sequences
  import opened Wrappers
  import opened InputLoader
  import opened Extraction

  // ----- The reference: depth-first, first visit, left to right -----

  datatype Visited = Visited(seen: set<Path>, out: Inputs) | Stopped(path: Path)

  /** Walks `todo` left to right. A path seen before is skipped; a script is followed at once by its inputs. */
  ghost function Visit(disk: Disk, todo: seq<Path>, seen: set<Path>, out: Inputs): Visited
    decreases disk.Keys - seen, |todo|
  {
    if todo == [] then Visited(seen, out)
    else
      var p, rest := todo[0], todo[1..];
      if p in seen then Visit(disk, rest, seen, out)
      else if !Loadable(disk, p) then Stopped(p)
      else if IsScript(disk, p) then Visit(disk, Resolved(Refs(disk, p)) + rest, seen + {p}, AddScript(out, p))
      else Visit(disk, rest, seen + {p}, AddFile(out, p, Read(disk, p)))
  }

  ghost function LoadReference(disk: Disk, cmd: seq<Path>): Visited {
    Visit(disk, cmd, {}, NO_INPUTS)
  }

  ghost predicate ClosedFrom(disk: Disk, old_: set<Path>, seen: set<Path>) {
    forall p :: p in seen && p !in old_ ==>
      Loadable(disk, p) && (IsScript(disk, p) ==> forall q :: Some(q) in Refs(disk, p) ==> q in seen)
  }

  /** A walk that ends has seen all it was given, and with each script all that the script names. */
  lemma {:induction false} VisitCloses(disk: Disk, todo: seq<Path>, seen: set<Path>, out: Inputs)
    ensures
      var r := Visit(disk, todo, seen, out);
      r.Visited? ==> seen <= r.seen && (forall p :: p in todo ==> p in r.seen) && ClosedFrom(disk, seen, r.seen)
    decreases disk.Keys - seen, |todo|
  {
    if todo != [] {
      var p, rest := todo[0], todo[1..];
      if p in seen {
        VisitCloses(disk, rest, seen, out);
      } else if Loadable(disk, p) {
        if IsScript(disk, p) {
          var inputs := Resolved(Refs(disk, p));
          VisitCloses(disk, inputs + rest, seen + {p}, AddScript(out, p));
          assert forall q :: q in rest ==> q in inputs + rest;
          forall q | Some(q) in Refs(disk, p)
            ensures q in inputs + rest
          {
            var j :| 0 <= j < |Refs(disk, p)| && Refs(disk, p)[j] == Some(q);
            assert (inputs + rest)[j] == q;
          }
        } else {
          VisitCloses(disk, rest, seen + {p}, AddFile(out, p, Read(disk, p)));
        }
      }
    }
  }

  /** Walking paths that were all seen before does nothing. */
  lemma {:induction false} VisitSeen(disk: Disk, todo: seq<Path>, seen: set<Path>, out: Inputs)
    requires forall p :: p in todo ==> p in seen
    ensures Visit(disk, todo, seen, out) == Visited(seen, out)
  {
    if todo != [] {
      VisitSeen(disk, todo[1..], seen, out);
    }
  }

  lemma {:induction false} VisitAppend(disk: Disk, a: seq<Path>, b: seq<Path>, seen: set<Path>, out: Inputs)
    ensures
      var r := Visit(disk, a, seen, out);
      Visit(disk, a + b, seen, out) == if r.Stopped? then r else Visit(disk, b, r.seen, r.out)
    decreases disk.Keys - seen, |a|
  {
    if a == [] {
      assert a + b == b;
    } else {
      var p, rest := a[0], a[1..];
      assert (a + b)[0] == p && (a + b)[1..] == rest + b;
      if p in seen {
        VisitAppend(disk, rest, b, seen, out);
      } else if Loadable(disk, p) {
        if IsScript(disk, p) {
          var inputs := Resolved(Refs(disk, p));
          assert inputs + (rest + b) == (inputs + rest) + b;
          VisitAppend(disk, inputs + rest, b, seen + {p}, AddScript(out, p));
        } else {
          VisitAppend(disk, rest, b, seen + {p}, AddFile(out, p, Read(disk, p)));
        }
      }
    }
  }

  // ----- Extraction by index follows the walk by path -----

  ghost predicate Distinct(names: seq<Path>) {
    forall i, j :: 0 <= i < j < |names| ==> names[i] != names[j]
  }

  function NamesOf(names: seq<Path>, ids: seq<nat>): seq<Path>
    requires InRange(ids, |names|)
  {
    seq(|ids|, j requires 0 <= j < |ids| => names[ids[j]])
  }

  /** `st` is what a worker records for `p` when slot `i` stands for the path `names[i]`. */
  ghost predicate Holds(disk: Disk, names: seq<Path>, p: Path, st: LoadedFileState) {
    match st
    case Error(q) => q == p && !Loadable(disk, p)
    case File(q, c) => q == p && Loadable(disk, p) && !IsScript(disk, p) && c == Read(disk, p)
    case LinkerScript(q, ids) =>
      && q == p && Loadable(disk, p) && IsScript(disk, p)
      && InRange(ids, |names|) && NamesOf(names, ids) == Resolved(Refs(disk, p))
  }

  /** Exactly the slots of unseen paths are filled, each with its own file. */
  ghost predicate Mirrors(disk: Disk, names: seq<Path>, slots: seq<Slot>, seen: set<Path>) {
    && |slots| == |names|
    && forall i :: 0 <= i < |slots| ==>
         if names[i] in seen then slots[i] == None else slots[i].Some? && Holds(disk, names, names[i], slots[i].value)
  }

  lemma {:induction false} MirrorsOk(disk: Disk, names: seq<Path>, slots: seq<Slot>, seen: set<Path>)
    requires Mirrors(disk, names, slots, seen)
    ensures SlotsOk(slots)
  {
  }

  ghost predicate SameOutcome(r: Extracted, v: Visited) {
    match r
    case Failed(p) => v == Stopped(p)
    case Extracted(_, out) => v.Visited? && v.out == out
  }

  lemma {:induction false} ExtractFollowsVisit(
      disk: Disk, names: seq<Path>, slots: seq<Slot>, todo: seq<nat>, seen: set<Path>, out: Inputs)
    requires Distinct(names) && Mirrors(disk, names, slots, seen) && InRange(todo, |names|) && SlotsOk(slots)
    ensures SameOutcome(Extract(slots, todo, out), Visit(disk, NamesOf(names, todo), seen, out))
    decreases Filled(slots), |todo|
  {
    var todoNames := NamesOf(names, todo);
    if todo != [] {
      var i, rest := todo[0], todo[1..];
      var p := names[i];
      assert todoNames[0] == p && todoNames[1..] == NamesOf(names, rest);
      if p in seen {
        ExtractFollowsVisit(disk, names, slots, rest, seen, out);
      } else {
        FilledTake(slots, i);
        var slots' := slots[i := None];
        assert Mirrors(disk, names, slots', seen + {p});
        match slots[i].value
        case Error(_) =>
        case File(_, c) =>
          ExtractFollowsVisit(disk, names, slots', rest, seen + {p}, AddFile(out, p, c));
        case LinkerScript(_, ids) =>
          assert NamesOf(names, ids + rest) == Resolved(Refs(disk, p)) + NamesOf(names, rest);
          ExtractFollowsVisit(disk, names, slots', ids + rest, seen + {p}, AddScript(out, p));
      }
    }
  }

  // ----- The final state of a run -----

  ghost function PathAt(m: map<Path, nat>, i: nat): (p: Path)
    requires Taken(m, i)
    ensures p in m && m[p] == i
  {
    var p :| p in m && m[p] == i;
    p
  }

  /** The paths by index. */
  ghost function ClaimOrder(s: State): seq<Path>
    requires IndexBijection(s)
  {
    seq(s.nextIndex, i requires 0 <= i < s.nextIndex => assert Taken(s.pathToIndex, i); PathAt(s.pathToIndex, i))
  }

  lemma {:induction false} RangeCounts(n: nat, i: nat)
    ensures multiset(Range(n))[i] == if i < n then 1 else 0
  {
    if n > 0 {
      RangeCounts(n - 1, i);
      assert Range(n) == Range(n - 1) + [n - 1];
    }
  }

  lemma {:induction false} RangePermutation(xs: seq<nat>, n: nat)
    requires multiset(xs) == multiset(Range(n))
    ensures |xs| == n
    ensures forall i: nat :: i in xs <==> i < n
    ensures forall j, k :: 0 <= j < k < |xs| ==> xs[j] != xs[k]
  {
    assert |multiset(xs)| == |xs| && |multiset(Range(n))| == n;
    forall i: nat
      ensures i in xs <==> i < n
    {
      RangeCounts(n, i);
      assert i in xs <==> multiset(xs)[i] > 0;
    }
    forall j, k | 0 <= j < k < |xs|
      ensures xs[j] != xs[k]
    {
      if xs[j] == xs[k] {
        RepeatedInMultiset(xs, j, k);
        RangeCounts(n, xs[j]);
      }
    }
  }

  /** At the end every slot is filled exactly once, so the duplicate-index assertion cannot fire. */
  lemma {:induction false} QuiescentSlots(s: State)
    requires OwnedOnce(s) && Quiescent(s)
    ensures |s.files| == s.nextIndex
    ensures DistinctIndexes(s.files, |s.files|)
    ensures forall i :: 0 <= i < s.nextIndex ==> i in FileIndexes(s.files)
  {
    var ids := FileIndexes(s.files);
    assert Owners(s) == ids;
    RangePermutation(ids, s.nextIndex);
    forall k | 0 <= k < |s.files|
      ensures s.files[k].index < s.nextIndex
    {
      assert ids[k] in ids;
    }
    forall j, k | 0 <= j < k < |s.files|
      ensures s.files[j].index != s.files[k].index
    {
      assert ids[j] != ids[k];
    }
  }

  lemma {:induction false} FileHolds(disk: Disk, s: State, f: LoadedFile)
    requires IndexBijection(s) && FileOk(disk, s.pathToIndex, f)
    ensures f.index < s.nextIndex && ClaimOrder(s)[f.index] == f.state.path
    ensures Holds(disk, ClaimOrder(s), f.state.path, f.state)
  {
    var names := ClaimOrder(s);
    match f.state
    case Error(p) =>
    case File(p, c) =>
    case LinkerScript(p, ids) =>
      forall ref | ref in Refs(disk, p)
        ensures ref.Some?
      {
        var j :| 0 <= j < |ids| && Refs(disk, p)[j] == ref;
      }
      assert NamesOf(names, ids) == Resolved(Refs(disk, p));
  }

  lemma {:induction false} FinalMirrors(disk: Disk, cmd: seq<Path>, s: State, slots: seq<Slot>)
    requires Inv(disk, cmd, s) && Quiescent(s) && SlottedBy(s.files, slots)
    ensures Distinct(ClaimOrder(s)) && Mirrors(disk, ClaimOrder(s), slots, {})
  {
    QuiescentSlots(s);
    var names := ClaimOrder(s);
    forall i | 0 <= i < |slots|
      ensures slots[i].Some? && Holds(disk, names, names[i], slots[i].value)
    {
      assert i in FileIndexes(s.files);
      var k :| 0 <= k < |s.files| && FileIndexes(s.files)[k] == i;
      FileHolds(disk, s, s.files[k]);
    }
  }

  /** A completed walk of the command line has seen every path that any worker ever claimed. */
  lemma {:induction false} AllClaimedSeen(disk: Disk, cmd: seq<Path>, s: State, seen: set<Path>, q: Path)
    requires Inv(disk, cmd, s) && q in s.pathToIndex
    requires ClosedFrom(disk, {}, seen) && forall p :: p in cmd ==> p in seen
    ensures q in seen
    decreases s.pathToIndex[q]
  {
    var i := s.pathToIndex[q];
    if i < |cmd| {
      assert cmd[i] in cmd && cmd[i] == q;
    } else {
      assert HasSpawner(disk, s.pathToIndex, q);
      var p :| Spawns(disk, s.pathToIndex, p, q);
      AllClaimedSeen(disk, cmd, s, seen, p);
    }
  }

  /** What the workers claimed beyond the command line adds nothing to the walk. */
  lemma {:induction false} VisitClaimOrder(disk: Disk, cmd: seq<Path>, s: State)
    requires Inv(disk, cmd, s)
    ensures Visit(disk, ClaimOrder(s), {}, NO_INPUTS) == LoadReference(disk, cmd)
  {
    var names := ClaimOrder(s);
    var rest := names[|cmd|..];
    assert names == cmd + rest;
    VisitAppend(disk, cmd, rest, {}, NO_INPUTS);
    VisitCloses(disk, cmd, {}, NO_INPUTS);
    var r := Visit(disk, cmd, {}, NO_INPUTS);
    if r.Visited? {
      forall q | q in rest
        ensures q in r.seen
      {
        AllClaimedSeen(disk, cmd, s, r.seen, q);
      }
      VisitSeen(disk, rest, r.seen, r.out);
    }
  }

  /** Extracting the slots of a finished state gives the outcome of the reference walk. */
  lemma {:induction false} FinalExtraction(disk: Disk, cmd: seq<Path>, s: State, slots: seq<Slot>)
    requires Inv(disk, cmd, s) && Quiescent(s) && SlottedBy(s.files, slots)
    ensures SlotsOk(slots)
    ensures SameOutcome(Extract(slots, Range(|slots|), NO_INPUTS), LoadReference(disk, cmd))
  {
    FinalMirrors(disk, cmd, s, slots);
    var names := ClaimOrder(s);
    MirrorsOk(disk, names, slots, {});
    ExtractFollowsVisit(disk, names, slots, Range(|slots|), {}, NO_INPUTS);
    assert NamesOf(names, Range(|slots|)) == names;
    VisitClaimOrder(disk, cmd, s);
  }

  /**
   Every finished run of the workers, whatever the schedule and whether or not files fail to load,
   extracts to the depth-first order of the command line or to that walk's first error.
   */
  lemma {:induction false} LoadOrderIsDeterministic(disk: Disk, cmd: seq<Path>, run: seq<State>, slots: seq<Slot>)
    requires Run(disk, cmd, run) && Quiescent(run[|run| - 1])
    requires SlottedBy(run[|run| - 1].files, slots)
    ensures DistinctIndexes(run[|run| - 1].files, |run[|run| - 1].files|)
    ensures SlotsOk(slots)
    ensures SameOutcome(Extract(slots, Range(|slots|), NO_INPUTS), LoadReference(disk, cmd))
  {
    RunInv(disk, cmd, run, |run| - 1);
    QuiescentSlots(run[|run| - 1]);
    FinalExtraction(disk, cmd, run[|run| - 1], slots);
  }

  /** Two runs over the same disk and command line deliver the same inputs, or fail on the same path. */
  lemma {:induction false} SchedulesAgree(
      disk: Disk, cmd: seq<Path>, a: seq<State>, b: seq<State>, sa: seq<Slot>, sb: seq<Slot>)
    requires Run(disk, cmd, a) && Quiescent(a[|a| - 1]) && SlottedBy(a[|a| - 1].files, sa)
    requires Run(disk, cmd, b) && Quiescent(b[|b| - 1]) && SlottedBy(b[|b| - 1].files, sb)
    ensures SlotsOk(sa) && SlotsOk(sb)
    ensures
      var ra, rb := Extract(sa, Range(|sa|), NO_INPUTS), Extract(sb, Range(|sb|), NO_INPUTS);
      if ra.Failed? then rb == ra else rb.Extracted? && rb.out == ra.out
  {
    LoadOrderIsDeterministic(disk, cmd, a, sa);
    LoadOrderIsDeterministic(disk, cmd, b, sb);
  }

  // ----- What the walk delivers -----

  ghost predicate Closed(disk: Disk, paths: set<Path>) {
    forall p, q :: p in paths && IsScript(disk, p) && Some(q) in Refs(disk, p) ==> q in paths
  }

  /** The walk stays inside every closed set that holds what it starts from: it loads nothing unreferenced. */
  lemma {:induction false} VisitWithin(disk: Disk, todo: seq<Path>, seen: set<Path>, out: Inputs, paths: set<Path>)
    requires seen <= paths && Closed(disk, paths) && forall p :: p in todo ==> p in paths
    ensures
      match Visit(disk, todo, seen, out)
      case Visited(all, _) => all <= paths
      case Stopped(p) => p in paths && !Loadable(disk, p)
    decreases disk.Keys - seen, |todo|
  {
    if todo != [] {
      var p, rest := todo[0], todo[1..];
      if p in seen {
        VisitWithin(disk, rest, seen, out, paths);
      } else if Loadable(disk, p) {
        if IsScript(disk, p) {
          var inputs := Resolved(Refs(disk, p));
          forall q | q in inputs + rest
            ensures q in paths
          {
            if q in inputs {
              var j :| 0 <= j < |inputs| && inputs[j] == q;
              assert Refs(disk, p)[j] == Some(q);
              assert Some(q) in Refs(disk, p);
            } else {
              assert q in rest;
            }
          }
          VisitWithin(disk, inputs + rest, seen + {p}, AddScript(out, p), paths);
        } else {
          VisitWithin(disk, rest, seen + {p}, AddFile(out, p, Read(disk, p)), paths);
        }
      }
    }
  }

  /** `out.scripts` lists the scripts of `seen`, each once. */
  ghost predicate ListsScripts(disk: Disk, seen: set<Path>, out: Inputs) {
    && Distinct(out.scripts)
    && forall p :: p in out.scripts <==> p in seen && IsScript(disk, p)
  }

  /** Even scripts that include each other are delivered exactly once. */
  lemma {:induction false} EachScriptOnce(disk: Disk, todo: seq<Path>, seen: set<Path>, out: Inputs)
    requires ListsScripts(disk, seen, out)
    ensures
      var r := Visit(disk, todo, seen, out);
      r.Visited? ==> ListsScripts(disk, r.seen, r.out)
    decreases disk.Keys - seen, |todo|
  {
    if todo != [] {
      var p, rest := todo[0], todo[1..];
      if p in seen {
        EachScriptOnce(disk, rest, seen, out);
      } else if Loadable(disk, p) {
        if IsScript(disk, p) {
          EachScriptOnce(disk, Resolved(Refs(disk, p)) + rest, seen + {p}, AddScript(out, p));
        } else {
          EachScriptOnce(disk, rest, seen + {p}, AddFile(out, p, Read(disk, p)));
        }
      }
    }
  }

  // ----- Every schedule ends -----

  function Mentioned(disk: Disk): set<Path> {
    set p, j | p in disk && disk[p].Script? && 0 <= j < |disk[p].refs| && disk[p].refs[j].Some? :: disk[p].refs[j].value
  }

  function Unclaimed(disk: Disk, s: State): set<Path> {
    Mentioned(disk) - s.pathToIndex.Keys
  }

  function Remaining(disk: Disk, t: Task): nat {
    1 + if WantsClaim(disk, t) then |Refs(disk, t.path)| - |t.claimed| else 0
  }

  function Work(disk: Disk, ts: seq<Task>): nat {
    if ts == [] then 0 else Remaining(disk, ts[0]) + Work(disk, ts[1..])
  }

  lemma {:induction false} WorkSplit(disk: Disk, a: seq<Task>, b: seq<Task>)
    ensures Work(disk, a + b) == Work(disk, a) + Work(disk, b)
  {
    if a == [] {
      assert a + b == b;
    } else {
      assert (a + b)[1..] == a[1..] + b;
      WorkSplit(disk, a[1..], b);
    }
  }

  lemma {:induction false} WorkAt(disk: Disk, ts: seq<Task>, k: nat, t: Task)
    requires k < |ts|
    ensures Work(disk, ts[k := t]) + Remaining(disk, ts[k]) == Work(disk, ts) + Remaining(disk, t)
    ensures Work(disk, ts[..k] + ts[k + 1..]) + Remaining(disk, ts[k]) == Work(disk, ts)
  {
    var before, after := ts[..k], ts[k + 1..];
    assert ts == before + ([ts[k]] + after) && ts[k := t] == before + ([t] + after);
    WorkSplit(disk, before, [ts[k]] + after);
    WorkSplit(disk, before, [t] + after);
    WorkSplit(disk, before, after);
  }

  /** Each step claims a fresh path or leaves less for the running tasks to do. */
  lemma {:induction false} StepProgress(disk: Disk, s: State, k: nat)
    requires k < |s.running|
    ensures
      var s' := StepOf(disk, s, k);
      || Unclaimed(disk, s') < Unclaimed(disk, s)
      || (Unclaimed(disk, s') == Unclaimed(disk, s) && Work(disk, s'.running) < Work(disk, s.running))
  {
    var t, s' := s.running[k], StepOf(disk, s, k);
    if WantsClaim(disk, t) {
      var p := Refs(disk, t.path)[|t.claimed|].value;
      assert p in Mentioned(disk);
      if p in s.pathToIndex {
        WorkAt(disk, s.running, k, s'.running[k]);
      } else {
        assert p in Unclaimed(disk, s) && p !in Unclaimed(disk, s');
      }
    } else {
      WorkAt(disk, s.running, k, t);
    }
  }

  /** No schedule runs for ever, even over scripts that include each other. */
  lemma {:induction false} NoEndlessRun(disk: Disk, run: nat -> State, i: nat)
    requires forall j: nat :: Step(disk, run(j), run(j + 1))
    ensures false
    decreases Unclaimed(disk, run(i)), Work(disk, run(i).running)
  {
    var s := run(i);
    assert Step(disk, s, run(i + 1));
    var k :| 0 <= k < |s.running| && run(i + 1) == StepOf(disk, s, k);
    StepProgress(disk, s, k);
    NoEndlessRun(disk, run, i + 1);
  }

  // ----- The whole of `load_inputs` -----

  /** What a finished state has recorded can be slotted and extracted. */
  lemma {:induction false} FinishedSlotsOk(disk: Disk, cmd: seq<Path>, s: State)
    requires Inv(disk, cmd, s) && Quiescent(s)
    ensures DistinctIndexes(s.files, |s.files|)
    ensures forall k :: 0 <= k < |s.files| ==> SlotOk(|s.files|, Some(s.files[k].state))
  {
    QuiescentSlots(s);
    forall k | 0 <= k < |s.files|
      ensures SlotOk(|s.files|, Some(s.files[k].state))
    {
      assert FileOk(disk, s.pathToIndex, s.files[k]);
      FileHolds(disk, s, s.files[k]);
    }
  }

  /** Lets any worker move next, until none is left. */
  method RunWorkers(disk: Disk, ghost cmd: seq<Path>, start: State) returns (s: State)
    requires Inv(disk, cmd, start)
    ensures Inv(disk, cmd, s) && Quiescent(s)
  {
    s := start;
    while s.running != []
      invariant Inv(disk, cmd, s)
      decreases Unclaimed(disk, s), Work(disk, s.running)
    {
      var k: nat :| k < |s.running|;
      StepInv(disk, cmd, s, k);
      StepProgress(disk, s, k);
      s := StepOf(disk, s, k);
    }
  }

  /** What the loader holds and reports is the outcome of the reference walk. */
  ghost predicate Reports(loader: FileLoader, error: Option<Path>, v: Visited)
    reads loader
  {
    match v
    case Stopped(p) => error == Some(p)
    case Visited(_, out) => error == None && loader.Delivered() == out
  }

  method FinishLoading(disk: Disk, ghost cmd: seq<Path>, s: State) returns (loader: FileLoader, error: Option<Path>)
    requires Inv(disk, cmd, s) && Quiescent(s)
    ensures Reports(loader, error, LoadReference(disk, cmd))
  {
    FinishedSlotsOk(disk, cmd, s);
    loader := new FileLoader();
    var slotted;
    slotted, error := loader.FinaliseOpenFiles(s.files);
    ghost var slots :| SlottedBy(s.files, slots) && SlotsOk(slots) &&
      match Extract(slots, Range(|slots|), NO_INPUTS)
      case Failed(p) => error == Some(p)
      case Extracted(_, out) => error == None && loader.Delivered() == out;
    FinalExtraction(disk, cmd, s, slots);
  }

  /**
   From the command line to the ordered inputs. Whichever worker moves at each step, loading ends, and
   delivers the depth-first order of the command line or reports the first path of it that fails.
   */
  method LoadInputs(disk: Disk, inputs: seq<Option<Path>>) returns (loader: Option<FileLoader>, error: Option<Path>)
    ensures loader.Some? <==> None !in inputs
    ensures loader.Some? ==>
      Reports(loader.value, error, LoadReference(disk, FirstOccurrences(Resolved(inputs))))
  {
    var start := StartFromCommandLine(inputs);
    if start.None? {
      return None, None;
    }
    ghost var cmd := FirstOccurrences(Resolved(inputs));
    InitialInv(disk, cmd, start.value);
    var s := RunWorkers(disk, cmd, start.value);
    var l;
    l, error := FinishLoading(disk, cmd, s);
    loader := Some(l);
  }
}
