/**
 Putting the recorded files back into a deterministic order: filling the slot
 array, and the recursive extraction that empties it.
 */
module Extraction {
  import opened Wrappers
  import opened InputLoader

  /** What extraction delivers: the loaded files, the dynamic flag, the parsed objects and the scripts. */
  datatype Inputs = Inputs(files: seq<Path>, hasDynamic: bool, objects: seq<Record>, scripts: seq<Path>)

  const NO_INPUTS := Inputs([], false, [], [])

  function AddFile(out: Inputs, p: Path, c: Content): Inputs
    requires !c.Script? && !c.Unreadable?
  {
    match c
    case Object(r, d) => out.(files := out.files + [p], hasDynamic := out.hasDynamic || d, objects := out.objects + [r])
    case Archive(rs) => out.(files := out.files + [p], objects := out.objects + rs)
    case ThinArchive(ms, rs) => out.(files := out.files + ms, objects := out.objects + rs)
  }

  function AddScript(out: Inputs, p: Path): Inputs {
    out.(files := out.files + [p], scripts := out.scripts + [p])
  }

  // ----- The slot array -----

  type Slot = Option<LoadedFileState>

  /** How many slots still hold a file: what makes extraction terminate. */
  function Filled(slots: seq<Slot>): nat {
    if slots == [] then 0 else (if slots[0].Some? then 1 else 0) + Filled(slots[1..])
  }

  lemma {:induction false} FilledTake(slots: seq<Slot>, i: nat)
    requires i < |slots| && slots[i].Some?
    ensures Filled(slots[i := None]) + 1 == Filled(slots)
  {
    if i > 0 {
      FilledTake(slots[1..], i - 1);
      assert slots[i := None][1..] == slots[1..][i - 1 := None];
    } else {
      assert slots[0 := None][1..] == slots[1..];
    }
  }

  predicate SlotOk(n: nat, slot: Slot) {
    match slot
    case Some(LinkerScript(_, ids)) => InRange(ids, n)
    case Some(File(_, c)) => !c.Script? && !c.Unreadable?
    case _ => true
  }

  /** Every script slot names slots of the array. */
  ghost predicate SlotsOk(slots: seq<Slot>) {
    forall i :: 0 <= i < |slots| ==> SlotOk(|slots|, slots[i])
  }

  predicate InRange(ids: seq<nat>, n: nat) {
    forall j :: 0 <= j < |ids| ==> ids[j] < n
  }

  datatype Extracted = Extracted(slots: seq<Slot>, out: Inputs) | Failed(path: Path)

  /** Extraction of the slots `todo`, left to right, each script followed at once by its own inputs. */
  ghost function Extract(slots: seq<Slot>, todo: seq<nat>, out: Inputs): (r: Extracted)
    requires SlotsOk(slots) && InRange(todo, |slots|)
    ensures r.Extracted? ==> |r.slots| == |slots| && SlotsOk(r.slots) && Filled(r.slots) <= Filled(slots)
    decreases Filled(slots), |todo|
  {
    if todo == [] then Extracted(slots, out)
    else
      var i := todo[0];
      if slots[i].None? then Extract(slots, todo[1..], out)
      else
        FilledTake(slots, i);
        var rest := slots[i := None];
        assert SlotOk(|slots|, slots[i]);
        match slots[i].value
        case Error(p) => Failed(p)
        case File(p, c) => Extract(rest, todo[1..], AddFile(out, p, c))
        case LinkerScript(p, ids) => Extract(rest, ids + todo[1..], AddScript(out, p))
  }

  ghost function Then(r: Extracted, todo: seq<nat>): Extracted
    requires r.Extracted? ==> SlotsOk(r.slots) && InRange(todo, |r.slots|)
  {
    if r.Failed? then r else Extract(r.slots, todo, r.out)
  }

  /** Extracting `a` and then `b` is extracting `a + b`, so recursion and one work list agree. */
  lemma {:induction false} ExtractAppend(slots: seq<Slot>, a: seq<nat>, b: seq<nat>, out: Inputs)
    requires SlotsOk(slots) && InRange(a, |slots|) && InRange(b, |slots|)
    ensures Extract(slots, a + b, out) == Then(Extract(slots, a, out), b)
    decreases Filled(slots), |a|
  {
    if a == [] {
      assert a + b == b;
    } else {
      var i := a[0];
      assert (a + b)[0] == i && (a + b)[1..] == a[1..] + b;
      if slots[i].None? {
        ExtractAppend(slots, a[1..], b, out);
      } else {
        FilledTake(slots, i);
        assert SlotOk(|slots|, slots[i]);
        var rest := slots[i := None];
        match slots[i].value
        case Error(p) =>
        case File(p, c) => ExtractAppend(rest, a[1..], b, AddFile(out, p, c));
        case LinkerScript(p, ids) =>
          assert ids + (a[1..] + b) == (ids + a[1..]) + b;
          ExtractAppend(rest, ids + a[1..], b, AddScript(out, p));
      }
    }
  }

  // ----- The code -----

  class FileLoader {
    var loadedFiles: seq<Path>
    var hasDynamic: bool
    var objects: seq<Record>
    var linkerScripts: seq<Path>

    constructor ()
      ensures Delivered() == NO_INPUTS
    {
      loadedFiles, hasDynamic, objects, linkerScripts := [], false, [], [];
    }

    ghost function Delivered(): Inputs
      reads this
    {
      Inputs(loadedFiles, hasDynamic, objects, linkerScripts)
    }

    /** Takes the file out of its slot; a script pulls in its own inputs before returning. */
    method ExtractFile(index: nat, files: array<Slot>) returns (error: Option<Path>)
      requires index < files.Length && SlotsOk(files[..])
      modifies this, files
      ensures |old(files[..])| == files.Length
      ensures
        match Extract(old(files[..]), [index], old(Delivered()))
        case Failed(p) => error == Some(p)
        case Extracted(slots, out) => error == None && files[..] == slots && Delivered() == out
      decreases Filled(files[..])
    {
      ghost var slots, out := files[..], Delivered();
      var entry := files[index];
      files[index] := None;
      assert files[..] == slots[index := None];
      assert SlotOk(|slots|, slots[index]);
      match entry {
        case None =>
        case Some(Error(p)) =>
          return Some(p);
        case Some(File(p, c)) =>
          match c {
            case Object(r, d) =>
              if d {
                hasDynamic := true;
              }
              objects := objects + [r];
              loadedFiles := loadedFiles + [p];
            case Archive(rs) =>
              objects := objects + rs;
              loadedFiles := loadedFiles + [p];
            case ThinArchive(ms, rs) =>
              objects := objects + rs;
              loadedFiles := loadedFiles + ms;
          }
        case Some(LinkerScript(p, ids)) =>
          loadedFiles := loadedFiles + [p];
          linkerScripts := linkerScripts + [p];
          FilledTake(slots, index);
          assert ids + [index][1..] == ids;
          for k := 0 to |ids|
            invariant |files[..]| == |slots| && SlotsOk(files[..]) && Filled(files[..]) < Filled(slots)
            invariant Extract(slots, [index], out) == Extract(files[..], ids[k..], Delivered())
          {
            assert ids[k..] == [ids[k]] + ids[k + 1..];
            ExtractAppend(files[..], [ids[k]], ids[k + 1..], Delivered());
            error := ExtractFile(ids[k], files);
            if error.Some? {
              return;
            }
          }
      }
      return None;
    }

    /** Extracts every slot in index order. */
    method ExtractAll(files: array<Slot>) returns (error: Option<Path>)
      requires SlotsOk(files[..])
      modifies this, files
      ensures
        match Extract(old(files[..]), Range(files.Length), old(Delivered()))
        case Failed(p) => error == Some(p)
        case Extracted(slots, out) => error == None && files[..] == slots && Delivered() == out
    {
      ghost var slots, out, todo := files[..], Delivered(), Range(files.Length);
      for i := 0 to files.Length
        invariant |files[..]| == |slots| && SlotsOk(files[..])
        invariant Extract(slots, todo, out) == Extract(files[..], todo[i..], Delivered())
      {
        assert todo[i..] == [i] + todo[i + 1..];
        ExtractAppend(files[..], [i], todo[i + 1..], Delivered());
        error := ExtractFile(i, files);
        if error.Some? {
          return;
        }
      }
      return None;
    }

    /** The end of `load_inputs`: the queue becomes a slot array, which is then extracted from index 0 up. */
    method FinaliseOpenFiles(queue: seq<LoadedFile>) returns (slotted: bool, error: Option<Path>)
      requires forall k :: 0 <= k < |queue| ==> SlotOk(|queue|, Some(queue[k].state))
      modifies this
      ensures slotted <==> DistinctIndexes(queue, |queue|)
      ensures slotted ==>
        exists slots :: SlottedBy(queue, slots) && SlotsOk(slots) &&
          match Extract(slots, Range(|slots|), old(Delivered()))
          case Failed(p) => error == Some(p)
          case Extracted(_, out) => error == None && Delivered() == out
    {
      var r := SlotByIndex(queue);
      if r.None? {
        return false, None;
      }
      var slots := r.value;
      assert SlottedBy(queue, slots);
      assert SlotsOk(slots);
      var files := new Slot[|slots|](i requires 0 <= i < |slots| => slots[i]);
      assert files[..] == slots;
      error := ExtractAll(files);
      slotted := true;
    }
  }

  // ----- Filling the slots -----

  /** Each of the first `n` indexes belongs to at most one of the files, and no other index occurs. */
  predicate DistinctIndexes(fs: seq<LoadedFile>, n: nat) {
    && (forall k :: 0 <= k < |fs| ==> fs[k].index < n)
    && forall j, k :: 0 <= j < k < |fs| ==> fs[j].index != fs[k].index
  }

  /** `slots` holds the state of each file of `fs` at the file's index. */
  ghost predicate SlottedBy(fs: seq<LoadedFile>, slots: seq<Slot>) {
    && |slots| == |fs|
    && forall k :: 0 <= k < |fs| ==> fs[k].index < |slots| && slots[fs[k].index] == Some(fs[k].state)
  }

  /** Moves the queued files into an array by index; `None` stands for the panic on a bad or repeated index. */
  method SlotByIndex(queue: seq<LoadedFile>) returns (r: Option<seq<Slot>>)
    ensures r.Some? <==> DistinctIndexes(queue, |queue|)
    ensures r.Some? ==> SlottedBy(queue, r.value)
    ensures r.Some? ==> forall i :: 0 <= i < |r.value| && r.value[i].Some? ==>
      exists k :: 0 <= k < |queue| && queue[k].index == i
  {
    var slots: seq<Slot> := seq(|queue|, _ => None);
    for k := 0 to |queue|
      invariant |slots| == |queue| && DistinctIndexes(queue[..k], |queue|)
      invariant forall j :: 0 <= j < k ==> slots[queue[j].index] == Some(queue[j].state)
      invariant forall i :: 0 <= i < |slots| && slots[i].Some? ==> exists j :: 0 <= j < k && queue[j].index == i
    {
      var file := queue[k];
      if file.index >= |slots| || slots[file.index].Some? {
        return None;
      }
      slots := slots[file.index := Some(file.state)];
    }
    return Some(slots);
  }
}
