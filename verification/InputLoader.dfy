/**
 The parallel input loader: the shared state that workers race on, the steps
 they take, and the invariant that every schedule keeps.

 A worker that opens a linker script asks for the script's inputs one at a time.
 Each request either finds the path in the shared map or claims the next index
 and spawns another worker, so indexes past the command line come out in
 schedule order.
 */
module InputLoader {
  import opened Wrappers

  datatype Path = Path(name: string)

  type Record = nat

  /** What opening a path finds. `refs` holds the result of resolving each input of a script. */
  datatype Content =
    | Object(record: Record, isDynamic: bool)
    | Archive(records: seq<Record>)
    | ThinArchive(members: seq<Path>, records: seq<Record>)
    | Script(refs: seq<Option<Path>>)
    | Unreadable

  type Disk = map<Path, Content>

  function Read(disk: Disk, p: Path): Content {
    if p in disk then disk[p] else Unreadable
  }

  /** Whether the files that `p` stands for can be loaded at all. */
  predicate Loadable(disk: Disk, p: Path) {
    match Read(disk, p)
    case Unreadable => false
    case Script(refs) => None !in refs
    case _ => true
  }

  predicate IsScript(disk: Disk, p: Path) {
    Read(disk, p).Script?
  }

  function Refs(disk: Disk, p: Path): seq<Option<Path>>
    requires IsScript(disk, p)
  {
    Read(disk, p).refs
  }

  datatype LoadedFileState =
    | File(path: Path, content: Content)
    | LinkerScript(path: Path, fileIndexes: seq<nat>)
    | Error(path: Path)

  datatype LoadedFile = LoadedFile(index: nat, state: LoadedFileState)

  /** A running `process_and_record_open_file_request`; `claimed` is what `load_input` has returned so far. */
  datatype Task = Task(index: nat, path: Path, claimed: seq<nat>)

  datatype State = State(
    pathToIndex: map<Path, nat>,
    nextIndex: nat,
    running: seq<Task>,
    files: seq<LoadedFile>)

  // ----- Command line -----

  /** The paths of `ps`, each kept where it occurs first. */
  function FirstOccurrences(ps: seq<Path>): (r: seq<Path>)
    ensures forall p :: p in r <==> p in ps
    ensures forall i, j :: 0 <= i < j < |r| ==> r[i] != r[j]
  {
    if ps == [] then []
    else
      var init := FirstOccurrences(ps[..|ps| - 1]);
      var last := ps[|ps| - 1];
      assert forall p :: p in ps <==> p in ps[..|ps| - 1] || p == last;
      if last in init then init else init + [last]
  }

  function Started(cmd: seq<Path>): seq<Task> {
    seq(|cmd|, i requires 0 <= i < |cmd| => Task(i, cmd[i], []))
  }

  ghost predicate Indexes(m: map<Path, nat>, ps: seq<Path>) {
    && (forall p :: p in m <==> p in ps)
    && (forall i :: 0 <= i < |ps| ==> ps[i] in m && m[ps[i]] == i)
  }

  /** The state in which the workers start, for the deduplicated command line `cmd`. */
  ghost predicate Initial(s: State, cmd: seq<Path>) {
    && Indexes(s.pathToIndex, cmd)
    && s.nextIndex == |cmd|
    && s.running == Started(cmd)
    && s.files == []
  }

  function Resolved(inputs: seq<Option<Path>>): seq<Path>
    requires None !in inputs
  {
    seq(|inputs|, i requires 0 <= i < |inputs| => assert inputs[i] in inputs; inputs[i].value)
  }

  /** Claims an index for each distinct command-line path; fails on the first path that does not resolve. */
  method StartFromCommandLine(inputs: seq<Option<Path>>) returns (r: Option<State>)
    ensures r.Some? <==> None !in inputs
    ensures r.Some? ==> Initial(r.value, FirstOccurrences(Resolved(inputs)))
  {
    var m: map<Path, nat> := map[];
    var work: seq<Task> := [];
    ghost var cmd: seq<Path> := [];
    for k := 0 to |inputs|
      invariant None !in inputs[..k] && cmd == FirstOccurrences(Resolved(inputs[..k]))
      invariant StartedFor(m, work, cmd)
    {
      if inputs[k].None? {
        assert inputs[k] in inputs;
        return None;
      }
      var p := inputs[k].value;
      FirstOccurrencesStep(inputs, k);
      ghost var cmd' := FirstOccurrences(Resolved(inputs[..k + 1]));
      m, work := ClaimInitial(m, work, cmd, cmd', p);
      cmd := cmd';
    }
    assert inputs[..|inputs|] == inputs;
    return Some(State(m, |work|, work, []));
  }

  method ClaimInitial(m: map<Path, nat>, work: seq<Task>, ghost cmd: seq<Path>, ghost cmd': seq<Path>, p: Path)
    returns (m': map<Path, nat>, work': seq<Task>)
    requires StartedFor(m, work, cmd) && cmd' == if p in cmd then cmd else cmd + [p]
    ensures StartedFor(m', work', cmd')
  {
    StartedForNext(m, work, cmd, p);
    m', work' := m, work;
    if p !in m {
      m' := m[p := |work|];
      work' := work + [Task(|work|, p, [])];
    }
  }

  ghost predicate StartedFor(m: map<Path, nat>, work: seq<Task>, cmd: seq<Path>) {
    Indexes(m, cmd) && work == Started(cmd)
  }

  lemma {:induction false} StartedForNext(m: map<Path, nat>, work: seq<Task>, cmd: seq<Path>, p: Path)
    requires StartedFor(m, work, cmd)
    ensures |work| == |cmd|
    ensures p in m <==> p in cmd
    ensures p !in m ==> StartedFor(m[p := |work|], work + [Task(|work|, p, [])], cmd + [p])
  {
  }

  lemma {:induction false} FirstOccurrencesStep(inputs: seq<Option<Path>>, k: nat)
    requires k < |inputs| && None !in inputs[..k] && inputs[k].Some?
    ensures None !in inputs[..k + 1]
    ensures
      var before, p := FirstOccurrences(Resolved(inputs[..k])), inputs[k].value;
      FirstOccurrences(Resolved(inputs[..k + 1])) == if p in before then before else before + [p]
  {
    assert inputs[..k + 1] == inputs[..k] + [inputs[k]];
    assert Resolved(inputs[..k + 1]) == Resolved(inputs[..k]) + [inputs[k].value];
    assert Resolved(inputs[..k + 1])[..k] == Resolved(inputs[..k]);
  }

  // ----- Steps -----

  /** `load_input`: under the lock, find `p` or claim the next index for it and spawn its task. */
  function LoadInput(s: State, p: Path): (r: (State, nat))
    ensures p in r.0.pathToIndex && r.0.pathToIndex[p] == r.1
  {
    if p in s.pathToIndex then (s, s.pathToIndex[p])
    else
      (s.(pathToIndex := s.pathToIndex[p := s.nextIndex],
          nextIndex := s.nextIndex + 1,
          running := s.running + [Task(s.nextIndex, p, [])]),
       s.nextIndex)
  }

  predicate WantsClaim(disk: Disk, t: Task) {
    && IsScript(disk, t.path)
    && |t.claimed| < |Refs(disk, t.path)|
    && Refs(disk, t.path)[|t.claimed|].Some?
  }

  /** Task `k` asks for the next input of its script. */
  function ClaimNext(disk: Disk, s: State, k: nat): State
    requires k < |s.running| && WantsClaim(disk, s.running[k])
  {
    var t := s.running[k];
    var (s', i) := LoadInput(s, Refs(disk, t.path)[|t.claimed|].value);
    s'.(running := s'.running[k := t.(claimed := t.claimed + [i])])
  }

  /** What a task that cannot claim any more records. */
  function Recorded(disk: Disk, t: Task): LoadedFileState
    requires !WantsClaim(disk, t)
  {
    match Read(disk, t.path)
    case Unreadable => Error(t.path)
    case Script(refs) => if |t.claimed| < |refs| then Error(t.path) else LinkerScript(t.path, t.claimed)
    case c => File(t.path, c)
  }

  /** Task `k` records its result and ends. */
  function Finish(disk: Disk, s: State, k: nat): State
    requires k < |s.running| && !WantsClaim(disk, s.running[k])
  {
    var t := s.running[k];
    s.(running := s.running[..k] + s.running[k + 1..],
       files := s.files + [LoadedFile(t.index, Recorded(disk, t))])
  }

  function StepOf(disk: Disk, s: State, k: nat): State
    requires k < |s.running|
  {
    if WantsClaim(disk, s.running[k]) then ClaimNext(disk, s, k) else Finish(disk, s, k)
  }

  /** Any worker may move next. */
  ghost predicate Step(disk: Disk, s: State, s': State) {
    exists k :: 0 <= k < |s.running| && s' == StepOf(disk, s, k)
  }

  ghost predicate Run(disk: Disk, cmd: seq<Path>, run: seq<State>) {
    && |run| > 0
    && Initial(run[0], cmd)
    && forall i :: 0 <= i < |run| - 1 ==> Step(disk, run[i], run[i + 1])
  }

  predicate Quiescent(s: State) {
    s.running == []
  }

  // ----- Invariant -----

  ghost predicate IndexBijection(s: State) {
    && (forall p :: p in s.pathToIndex ==> s.pathToIndex[p] < s.nextIndex)
    && (forall p, q :: p in s.pathToIndex && q in s.pathToIndex && s.pathToIndex[p] == s.pathToIndex[q] ==> p == q)
    && (forall i :: 0 <= i < s.nextIndex ==> Taken(s.pathToIndex, i))
  }

  ghost predicate Taken(m: map<Path, nat>, i: nat) {
    exists p :: p in m && m[p] == i
  }

  function Owners(s: State): seq<nat> {
    TaskIndexes(s.running) + FileIndexes(s.files)
  }

  function TaskIndexes(ts: seq<Task>): seq<nat> {
    seq(|ts|, i requires 0 <= i < |ts| => ts[i].index)
  }

  function FileIndexes(fs: seq<LoadedFile>): seq<nat> {
    seq(|fs|, i requires 0 <= i < |fs| => fs[i].index)
  }

  function Range(n: nat): seq<nat> {
    seq(n, i => i)
  }

  /** Every claimed index belongs to one running task or one recorded file. */
  ghost predicate OwnedOnce(s: State) {
    multiset(Owners(s)) == multiset(Range(s.nextIndex))
  }

  /** `indexes` are those of the first inputs of the script at `p`. */
  ghost predicate ClaimedPrefix(disk: Disk, m: map<Path, nat>, p: Path, indexes: seq<nat>) {
    && IsScript(disk, p)
    && |indexes| <= |Refs(disk, p)|
    && forall j :: 0 <= j < |indexes| ==>
         var ref := Refs(disk, p)[j];
         ref.Some? && ref.value in m && m[ref.value] == indexes[j]
  }

  ghost predicate TaskOk(disk: Disk, m: map<Path, nat>, t: Task) {
    && t.path in m && m[t.path] == t.index
    && (t.claimed != [] || IsScript(disk, t.path) ==> ClaimedPrefix(disk, m, t.path, t.claimed))
  }

  ghost predicate FileOk(disk: Disk, m: map<Path, nat>, f: LoadedFile) {
    && f.state.path in m && m[f.state.path] == f.index
    && match f.state
       case File(p, c) => c == Read(disk, p) && !c.Script? && !c.Unreadable?
       case LinkerScript(p, ids) => ClaimedPrefix(disk, m, p, ids) && |ids| == |Refs(disk, p)|
       case Error(p) => !Loadable(disk, p)
  }

  /** `p` is a script that was claimed before `q` and names `q`. */
  ghost predicate Spawns(disk: Disk, m: map<Path, nat>, p: Path, q: Path) {
    && p in m && q in m && m[p] < m[q]
    && IsScript(disk, p) && Some(q) in Refs(disk, p)
  }

  ghost predicate TasksOk(disk: Disk, s: State) {
    forall k :: 0 <= k < |s.running| ==> TaskOk(disk, s.pathToIndex, s.running[k])
  }

  ghost predicate FilesOk(disk: Disk, s: State) {
    forall k :: 0 <= k < |s.files| ==> FileOk(disk, s.pathToIndex, s.files[k])
  }

  ghost predicate CommandLineFirst(cmd: seq<Path>, s: State) {
    && |cmd| <= s.nextIndex
    && forall i :: 0 <= i < |cmd| ==> cmd[i] in s.pathToIndex && s.pathToIndex[cmd[i]] == i
  }

  ghost predicate HasSpawner(disk: Disk, m: map<Path, nat>, q: Path) {
    exists p :: Spawns(disk, m, p, q)
  }

  /** Whatever is not on the command line was asked for by an earlier script. */
  ghost predicate RestSpawned(disk: Disk, cmd: seq<Path>, s: State) {
    forall q :: q in s.pathToIndex && s.pathToIndex[q] >= |cmd| ==> HasSpawner(disk, s.pathToIndex, q)
  }

  ghost predicate Inv(disk: Disk, cmd: seq<Path>, s: State) {
    && IndexBijection(s)
    && OwnedOnce(s)
    && TasksOk(disk, s)
    && FilesOk(disk, s)
    && CommandLineFirst(cmd, s)
    && RestSpawned(disk, cmd, s)
  }

  lemma {:induction false} InitialInv(disk: Disk, cmd: seq<Path>, s: State)
    requires Initial(s, cmd)
    ensures Inv(disk, cmd, s)
  {
    assert Owners(s) == Range(|cmd|);
    forall i | 0 <= i < s.nextIndex
      ensures Taken(s.pathToIndex, i)
    {
      assert cmd[i] in s.pathToIndex;
    }
    forall k | 0 <= k < |s.running|
      ensures TaskOk(disk, s.pathToIndex, s.running[k])
    {
      assert s.running[k] == Task(k, cmd[k], []);
    }
  }

  /** A claim only adds the next index, so everything said about the old map stays true. */
  lemma {:induction false} ClaimIndexes(disk: Disk, cmd: seq<Path>, s: State, parent: Path, p: Path)
    requires IndexBijection(s) && CommandLineFirst(cmd, s) && RestSpawned(disk, cmd, s)
    requires parent in s.pathToIndex && IsScript(disk, parent) && Some(p) in Refs(disk, parent)
    ensures
      var s' := LoadInput(s, p).0;
      IndexBijection(s') && CommandLineFirst(cmd, s') && RestSpawned(disk, cmd, s')
  {
    var m, m' := s.pathToIndex, LoadInput(s, p).0.pathToIndex;
    if p !in m {
      forall i | 0 <= i < s.nextIndex + 1
        ensures Taken(m', i)
      {
        if i == s.nextIndex {
          assert m'[p] == i;
        } else {
          assert Taken(m, i);
          var q :| q in m && m[q] == i;
          assert m'[q] == i;
        }
      }
      forall q | q in m' && m'[q] >= |cmd|
        ensures HasSpawner(disk, m', q)
      {
        if q == p {
          assert Spawns(disk, m', parent, p);
        } else {
          assert HasSpawner(disk, m, q);
          var r :| Spawns(disk, m, r, q);
          assert Spawns(disk, m', r, q);
        }
      }
    }
  }

  lemma {:induction false} ClaimOwners(disk: Disk, s: State, k: nat)
    requires OwnedOnce(s)
    requires k < |s.running| && WantsClaim(disk, s.running[k])
    ensures OwnedOnce(ClaimNext(disk, s, k))
  {
    var s' := ClaimNext(disk, s, k);
    if s'.nextIndex == s.nextIndex {
      assert Owners(s') == Owners(s);
    } else {
      assert Owners(s') == TaskIndexes(s.running) + [s.nextIndex] + FileIndexes(s.files);
      assert Range(s'.nextIndex) == Range(s.nextIndex) + [s.nextIndex];
    }
  }

  lemma {:induction false} ClaimTasks(disk: Disk, s: State, k: nat)
    requires TasksOk(disk, s) && FilesOk(disk, s)
    requires k < |s.running| && WantsClaim(disk, s.running[k])
    ensures TasksOk(disk, ClaimNext(disk, s, k)) && FilesOk(disk, ClaimNext(disk, s, k))
  {
    var t := s.running[k];
    var s' := ClaimNext(disk, s, k);
    var m, m' := s.pathToIndex, s'.pathToIndex;
    assert TaskOk(disk, m, t);
    assert TaskOk(disk, m', s'.running[k]);
    forall j | 0 <= j < |s'.running| && j != k
      ensures TaskOk(disk, m', s'.running[j])
    {
      if j < |s.running| {
        assert TaskOk(disk, m, s.running[j]);
      }
    }
    forall j | 0 <= j < |s'.files|
      ensures FileOk(disk, m', s'.files[j])
    {
      assert FileOk(disk, m, s.files[j]);
    }
  }

  lemma {:induction false} FinishOwners(disk: Disk, s: State, k: nat)
    requires OwnedOnce(s)
    requires k < |s.running| && !WantsClaim(disk, s.running[k])
    ensures OwnedOnce(Finish(disk, s, k))
  {
    var t := s.running[k];
    var before, after, files := TaskIndexes(s.running[..k]), TaskIndexes(s.running[k + 1..]), FileIndexes(s.files);
    assert Owners(s) == before + [t.index] + after + files;
    assert Owners(Finish(disk, s, k)) == before + after + files + [t.index];
  }

  lemma {:induction false} RecordedOk(disk: Disk, m: map<Path, nat>, t: Task)
    requires TaskOk(disk, m, t) && !WantsClaim(disk, t)
    ensures FileOk(disk, m, LoadedFile(t.index, Recorded(disk, t)))
  {
    if IsScript(disk, t.path) && |t.claimed| < |Refs(disk, t.path)| {
      assert Refs(disk, t.path)[|t.claimed|] == None;
    }
  }

  lemma {:induction false} ClaimInv(disk: Disk, cmd: seq<Path>, s: State, k: nat)
    requires Inv(disk, cmd, s) && k < |s.running| && WantsClaim(disk, s.running[k])
    ensures Inv(disk, cmd, ClaimNext(disk, s, k))
  {
    var t := s.running[k];
    assert TaskOk(disk, s.pathToIndex, t);
    var ref := Refs(disk, t.path)[|t.claimed|];
    assert ref in Refs(disk, t.path);
    ClaimIndexes(disk, cmd, s, t.path, ref.value);
    ClaimOwners(disk, s, k);
    ClaimTasks(disk, s, k);
  }

  lemma {:induction false} FinishInv(disk: Disk, cmd: seq<Path>, s: State, k: nat)
    requires Inv(disk, cmd, s) && k < |s.running| && !WantsClaim(disk, s.running[k])
    ensures Inv(disk, cmd, Finish(disk, s, k))
  {
    assert TaskOk(disk, s.pathToIndex, s.running[k]);
    FinishOwners(disk, s, k);
    RecordedOk(disk, s.pathToIndex, s.running[k]);
  }

  lemma {:induction false} StepInv(disk: Disk, cmd: seq<Path>, s: State, k: nat)
    requires Inv(disk, cmd, s) && k < |s.running|
    ensures Inv(disk, cmd, StepOf(disk, s, k))
  {
    if WantsClaim(disk, s.running[k]) {
      ClaimInv(disk, cmd, s, k);
    } else {
      FinishInv(disk, cmd, s, k);
    }
  }

  lemma {:induction false} AnyStepInv(disk: Disk, cmd: seq<Path>, s: State, s': State)
    requires Inv(disk, cmd, s) && Step(disk, s, s')
    ensures Inv(disk, cmd, s')
  {
    var k :| 0 <= k < |s.running| && s' == StepOf(disk, s, k);
    StepInv(disk, cmd, s, k);
  }

  lemma {:induction false} RunStep(disk: Disk, cmd: seq<Path>, run: seq<State>, i: nat)
    requires Run(disk, cmd, run) && i + 1 < |run|
    ensures Step(disk, run[i], run[i + 1])
  {
  }

  /** In every state of every run the invariant holds. */
  lemma {:induction false} RunInv(disk: Disk, cmd: seq<Path>, run: seq<State>, i: nat)
    requires Run(disk, cmd, run) && i < |run|
    ensures Inv(disk, cmd, run[i])
  {
    var s := run[i];
    if i == 0 {
      InitialInv(disk, cmd, s);
    } else {
      var before := run[i - 1];
      RunInv(disk, cmd, run, i - 1);
      RunStep(disk, cmd, run, i - 1);
      AnyStepInv(disk, cmd, before, s);
    }
  }
}
