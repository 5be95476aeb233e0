/** Merging of `.note.gnu.property` notes over all input files. */
module GnuProperties {
  import opened Wrappers

  datatype Class = Or | And | AndOr

  /** The bits of a property's data word, by number. */
  type Bits = set<nat>

  datatype Property = Property(ptype: nat, data: Bits)

  type Merged = map<nat, (Bits, Class)>

  const ISA_1_NEEDED: nat := 0xc000_8002

  // ----- What a merge must give -----

  function Flatten(files: seq<seq<Property>>): seq<Property> {
    if files == [] then [] else Flatten(files[..|files| - 1]) + files[|files| - 1]
  }

  ghost predicate Occurs(props: seq<Property>, t: nat) {
    exists p :: p in props && p.ptype == t
  }

  ghost predicate AnyBit(props: seq<Property>, t: nat, b: nat) {
    exists p :: p in props && p.ptype == t && b in p.data
  }

  ghost predicate AllBit(props: seq<Property>, t: nat, b: nat) {
    forall p :: p in props && p.ptype == t ==> b in p.data
  }

  ghost predicate InAll(files: seq<seq<Property>>, t: nat) {
    forall f :: f in files ==> Occurs(f, t)
  }

  /** Bit `b` of the merged word: AND over all inputs for its class, OR for the other two. */
  ghost predicate MergedBit(props: seq<Property>, classes: map<nat, Class>, t: nat, b: nat)
    requires Occurs(props, t) ==> t in classes
  {
    Occurs(props, t) && if classes[t].And? then AllBit(props, t, b) else AnyBit(props, t, b)
  }

  ghost predicate AllClassified(props: seq<Property>, classes: map<nat, Class>) {
    forall p :: p in props ==> p.ptype in classes
  }

  /** The word of the output, with the bits that the command line asks for. */
  ghost predicate OutputBit(props: seq<Property>, classes: map<nat, Class>, isa: Bits, t: nat, b: nat)
    requires AllClassified(props, classes)
  {
    MergedBit(props, classes, t, b) || (t == ISA_1_NEEDED && b in isa)
  }

  ghost predicate NonZero(props: seq<Property>, classes: map<nat, Class>, isa: Bits, t: nat)
    requires AllClassified(props, classes)
  {
    exists b :: OutputBit(props, classes, isa, t, b)
  }

  /** The rules by which a property stays in the output. */
  ghost predicate Kept(files: seq<seq<Property>>, classes: map<nat, Class>, isa: Bits, t: nat)
    requires AllClassified(Flatten(files), classes)
  {
    var props := Flatten(files);
    var nonZero := NonZero(props, classes, isa, t);
    if Occurs(props, t) then
      match classes[t]
      case Or => nonZero
      case And => InAll(files, t) && nonZero
      case AndOr => InAll(files, t)
    else t == ISA_1_NEEDED && nonZero
  }

  ghost predicate StrictlySorted(out: seq<Property>) {
    forall i, j :: 0 <= i < j < |out| ==> out[i].ptype < out[j].ptype
  }

  /** The output lists exactly the kept properties, in order of type, each with its merged word. */
  ghost predicate IsMerge(files: seq<seq<Property>>, classes: map<nat, Class>, isa: Bits, out: seq<Property>)
    requires AllClassified(Flatten(files), classes)
  {
    && StrictlySorted(out)
    && (forall k :: 0 <= k < |out| ==> Kept(files, classes, isa, out[k].ptype))
    && (forall k, b :: 0 <= k < |out| ==> (b in out[k].data <==>
      OutputBit(Flatten(files), classes, isa, out[k].ptype, b)))
    && forall t :: Kept(files, classes, isa, t) ==> Listed(out, t)
  }

  ghost predicate Listed(out: seq<Property>, t: nat) {
    exists k :: 0 <= k < |out| && out[k].ptype == t
  }

  // ----- Accumulating -----

  function Add(m: Merged, p: Property, class_: Class): Merged {
    if p.ptype in m then
      var (bits, first) := m[p.ptype];
      m[p.ptype := (if class_.And? then bits * p.data else bits + p.data, first)]
    else m[p.ptype := (p.data, class_)]
  }

  /** What the map holds for a type: its class, and its word over the properties seen. */
  ghost predicate Accumulates(m: Merged, props: seq<Property>, classes: map<nat, Class>, t: nat)
    requires AllClassified(props, classes)
  {
    && (t in m <==> Occurs(props, t))
    && (t in m ==> m[t].1 == classes[t] && forall b :: b in m[t].0 <==> MergedBit(props, classes, t, b))
  }

  ghost predicate MapOk(m: Merged, props: seq<Property>, classes: map<nat, Class>) {
    AllClassified(props, classes) && forall t :: Accumulates(m, props, classes, t)
  }

  lemma {:induction false} AddOther(props: seq<Property>, p: Property, classes: map<nat, Class>, t: nat)
    requires AllClassified(props + [p], classes) && p.ptype != t
    ensures Occurs(props + [p], t) <==> Occurs(props, t)
    ensures forall b :: MergedBit(props + [p], classes, t, b) <==> MergedBit(props, classes, t, b)
  {
    if Occurs(props, t) {
      var q :| q in props && q.ptype == t;
      assert q in props + [p];
    }
    forall b
      ensures AnyBit(props + [p], t, b) <==> AnyBit(props, t, b)
      ensures AllBit(props + [p], t, b) <==> AllBit(props, t, b)
    {
      if AnyBit(props, t, b) {
        var q :| q in props && q.ptype == t && b in q.data;
        assert q in props + [p];
      }
      if AllBit(props + [p], t, b) {
        forall q | q in props && q.ptype == t
          ensures b in q.data
        {
          assert q in props + [p];
        }
      }
    }
  }

  lemma {:induction false} AddSame(props: seq<Property>, p: Property, b: nat)
    ensures AnyBit(props + [p], p.ptype, b) <==> AnyBit(props, p.ptype, b) || b in p.data
    ensures AllBit(props + [p], p.ptype, b) <==> AllBit(props, p.ptype, b) && b in p.data
  {
    assert p in props + [p];
    if AnyBit(props, p.ptype, b) {
      var q :| q in props && q.ptype == p.ptype && b in q.data;
      assert q in props + [p];
    }
    if AllBit(props + [p], p.ptype, b) {
      forall q | q in props && q.ptype == p.ptype
        ensures b in q.data
      {
        assert q in props + [p];
      }
    }
  }

  lemma {:induction false} AddOk(m: Merged, props: seq<Property>, p: Property, classes: map<nat, Class>)
    requires MapOk(m, props, classes) && p.ptype in classes
    ensures MapOk(Add(m, p, classes[p.ptype]), props + [p], classes)
  {
    var next, all := Add(m, p, classes[p.ptype]), props + [p];
    assert AllClassified(all, classes);
    forall t
      ensures Accumulates(next, all, classes, t)
    {
      assert Accumulates(m, props, classes, t);
      if t == p.ptype {
        assert p in all && Occurs(all, t);
        forall b
          ensures b in next[t].0 <==> MergedBit(all, classes, t, b)
        {
          AddSame(props, p, b);
          assert t in m ==> (b in m[t].0 <==> MergedBit(props, classes, t, b));
        }
      } else {
        AddOther(props, p, classes, t);
      }
    }
  }

  /** Merges one file's properties; an unclassified type is an error. */
  method MergeFile(m: Merged, file: seq<Property>, classes: map<nat, Class>, ghost before: seq<Property>)
    returns (r: Result<Merged, ()>)
    requires MapOk(m, before, classes)
    ensures r.Ok? <==> AllClassified(file, classes)
    ensures r.Ok? ==> MapOk(r.value, before + file, classes)
  {
    var merged := m;
    assert before + file[..0] == before;
    for i := 0 to |file|
      invariant AllClassified(file[..i], classes) && MapOk(merged, before + file[..i], classes)
    {
      var p := file[i];
      if p.ptype !in classes {
        return Err(());
      }
      AddOk(merged, before + file[..i], p, classes);
      assert before + file[..i] + [p] == before + file[..i + 1];
      merged := Add(merged, p, classes[p.ptype]);
    }
    assert file[..|file|] == file;
    r := Ok(merged);
  }

  lemma {:induction false} InFlatten(files: seq<seq<Property>>, p: Property)
    ensures p in Flatten(files) <==> exists f :: f in files && p in f
  {
    if files != [] {
      var init, last := files[..|files| - 1], files[|files| - 1];
      InFlatten(init, p);
      assert files == init + [last];
    }
  }

  method MergeFiles(files: seq<seq<Property>>, classes: map<nat, Class>) returns (r: Result<Merged, ()>)
    ensures r.Ok? <==> AllClassified(Flatten(files), classes)
    ensures r.Ok? ==> MapOk(r.value, Flatten(files), classes)
  {
    var merged: Merged := map[];
    for k := 0 to |files|
      invariant MapOk(merged, Flatten(files[..k]), classes)
    {
      assert files[..k + 1][..k] == files[..k];
      var next := MergeFile(merged, files[k], classes, Flatten(files[..k]));
      if next.Err? {
        var p :| p in files[k] && p.ptype !in classes;
        InFlatten(files, p);
        return Err(());
      }
      merged := next.value;
    }
    assert files[..|files|] == files;
    r := Ok(merged);
  }

  // ----- Selecting -----

  /** Bits from the command line go in, whatever the class; a new entry is of the OR class. */
  function WithIsa(m: Merged, isa: Bits): Merged {
    if isa == {} then m
    else if ISA_1_NEEDED in m then m[ISA_1_NEEDED := (m[ISA_1_NEEDED].0 + isa, m[ISA_1_NEEDED].1)]
    else m[ISA_1_NEEDED := (isa, Or)]
  }

  predicate HasType(file: seq<Property>, t: nat) {
    exists i :: 0 <= i < |file| && file[i].ptype == t
  }

  predicate Keeps(files: seq<seq<Property>>, entry: (Bits, Class), t: nat) {
    var all := forall i :: 0 <= i < |files| ==> HasType(files[i], t);
    match entry.1
    case Or => entry.0 != {}
    case And => all && entry.0 != {}
    case AndOr => all
  }

  lemma {:induction false} KeepsIsKept(
      files: seq<seq<Property>>, classes: map<nat, Class>, isa: Bits, m: Merged, t: nat)
    requires MapOk(m, Flatten(files), classes)
    ensures
      var all := WithIsa(m, isa);
      && (t in all ==> forall b :: b in all[t].0 <==> OutputBit(Flatten(files), classes, isa, t, b))
      && (Kept(files, classes, isa, t) <==> t in all && Keeps(files, all[t], t))
  {
    var all, props := WithIsa(m, isa), Flatten(files);
    assert Accumulates(m, props, classes, t);
    assert (forall i :: 0 <= i < |files| ==> HasType(files[i], t)) <==> InAll(files, t) by {
      forall f | f in files
        ensures Occurs(f, t) <==> HasType(f, t)
      {
        if Occurs(f, t) {
          var p :| p in f && p.ptype == t;
          var i :| 0 <= i < |f| && f[i] == p;
        }
        if HasType(f, t) {
          var i :| 0 <= i < |f| && f[i].ptype == t;
          assert f[i] in f;
        }
      }
    }
    if t in all {
      assert (exists b :: b in all[t].0) <==> all[t].0 != {};
    }
  }

  method SortedTypes(m: Merged) returns (keys: seq<nat>)
    ensures Ascending(keys)
    ensures forall t :: t in keys <==> t in m
  {
    keys := [];
    var rest := m.Keys;
    while rest != {}
      invariant Ascending(keys)
      invariant forall t :: t in m <==> t in keys || t in rest
      invariant forall t :: t in keys ==> t !in rest
      decreases |rest|
    {
      var t :| t in rest;
      rest := rest - {t};
      InsertKeyOk(keys, t);
      keys := InsertKey(keys, t);
    }
  }

  function InsertKey(keys: seq<nat>, t: nat): seq<nat> {
    if keys == [] || keys[|keys| - 1] < t then keys + [t]
    else InsertKey(keys[..|keys| - 1], t) + [keys[|keys| - 1]]
  }

  lemma {:induction false} InsertKeyOk(keys: seq<nat>, t: nat)
    requires Ascending(keys) && t !in keys
    ensures Ascending(InsertKey(keys, t))
    ensures forall k :: k in InsertKey(keys, t) <==> k in keys || k == t
  {
    if keys != [] && keys[|keys| - 1] >= t {
      var init, last := keys[..|keys| - 1], keys[|keys| - 1];
      assert keys == init + [last];
      InsertKeyOk(init, t);
      var r := InsertKey(init, t);
      forall i | 0 <= i < |r|
        ensures r[i] < last
      {
        assert r[i] in r;
      }
    }
  }

  /** Merges all files; what comes out is the merge by the rules, or an error for an unknown type. */
  method MergeGnuPropertyNotes(files: seq<seq<Property>>, classes: map<nat, Class>, isa: Bits)
    returns (r: Result<seq<Property>, ()>)
    ensures r.Ok? <==> AllClassified(Flatten(files), classes)
    ensures r.Ok? ==> IsMerge(files, classes, isa, r.value)
  {
    var merged := MergeFiles(files, classes);
    if merged.Err? {
      return Err(());
    }
    var all := WithIsa(merged.value, isa);
    var keys := SortedTypes(all);
    var out := Select(files, classes, isa, merged.value, all, keys);
    r := Ok(out);
  }

  ghost predicate FromMap(files: seq<seq<Property>>, all: Merged, p: Property) {
    p.ptype in all && p.data == all[p.ptype].0 && Keeps(files, all[p.ptype], p.ptype)
  }

  ghost predicate Ascending(keys: seq<nat>) {
    forall i, j :: 0 <= i < j < |keys| ==> keys[i] < keys[j]
  }

  /** `out` lists what is kept of the map's first `n` types. */
  ghost predicate Selected(files: seq<seq<Property>>, all: Merged, keys: seq<nat>, n: nat, out: seq<Property>)
    requires n <= |keys|
  {
    && StrictlySorted(out)
    && (forall k :: 0 <= k < |out| ==> FromMap(files, all, out[k]) && (n < |keys| ==> out[k].ptype < keys[n]))
    && forall j :: 0 <= j < n && keys[j] in all && Keeps(files, all[keys[j]], keys[j]) ==> Listed(out, keys[j])
  }

  lemma {:induction false} ListedSnoc(out: seq<Property>, p: Property, t: nat)
    ensures Listed(out + [p], t) <==> Listed(out, t) || p.ptype == t
  {
    if Listed(out, t) {
      var k :| 0 <= k < |out| && out[k].ptype == t;
      assert (out + [p])[k].ptype == t;
    }
    assert (out + [p])[|out|] == p;
  }

  lemma {:induction false} SelectNext(
      files: seq<seq<Property>>, all: Merged, keys: seq<nat>, n: nat, out: seq<Property>)
    requires n < |keys| && keys[n] in all && Selected(files, all, keys, n, out) && Ascending(keys)
    ensures
      var t := keys[n];
      Selected(files, all, keys, n + 1, if Keeps(files, all[t], t) then out + [Property(t, all[t].0)] else out)
  {
    var t := keys[n];
    var p := Property(t, all[t].0);
    assert n + 1 < |keys| ==> t < keys[n + 1];
    forall j | 0 <= j < n
      ensures Listed(out + [p], keys[j]) <==> Listed(out, keys[j]) || t == keys[j]
    {
      ListedSnoc(out, p, keys[j]);
    }
    ListedSnoc(out, p, t);
  }

  lemma {:induction false} SelectedIsMerge(
      files: seq<seq<Property>>, classes: map<nat, Class>, isa: Bits, m: Merged, keys: seq<nat>, out: seq<Property>)
    requires MapOk(m, Flatten(files), classes) && Selected(files, WithIsa(m, isa), keys, |keys|, out)
    requires forall t :: t in keys <==> t in WithIsa(m, isa)
    ensures IsMerge(files, classes, isa, out)
  {
    var all := WithIsa(m, isa);
    forall k | 0 <= k < |out|
      ensures Kept(files, classes, isa, out[k].ptype)
      ensures forall b :: b in out[k].data <==> OutputBit(Flatten(files), classes, isa, out[k].ptype, b)
    {
      KeepsIsKept(files, classes, isa, m, out[k].ptype);
    }
    forall t | Kept(files, classes, isa, t)
      ensures Listed(out, t)
    {
      KeepsIsKept(files, classes, isa, m, t);
      assert t in keys;
    }
  }

  method Select(
      files: seq<seq<Property>>, classes: map<nat, Class>, isa: Bits, ghost m: Merged, all: Merged, keys: seq<nat>)
    returns (out: seq<Property>)
    requires MapOk(m, Flatten(files), classes) && all == WithIsa(m, isa)
    requires Ascending(keys) && forall t :: t in keys <==> t in all
    ensures IsMerge(files, classes, isa, out)
  {
    out := [];
    for i := 0 to |keys|
      invariant Selected(files, all, keys, i, out)
    {
      var t := keys[i];
      assert t in keys;
      SelectNext(files, all, keys, i, out);
      if Keeps(files, all[t], t) {
        out := out + [Property(t, all[t].0)];
      }
    }
    SelectedIsMerge(files, classes, isa, m, keys, out);
  }

  // ----- Order of the inputs -----

  /** The rules speak only of which property lists there are. */
  lemma {:induction false} SameRules(
      files: seq<seq<Property>>, others: seq<seq<Property>>, classes: map<nat, Class>, isa: Bits, t: nat)
    requires (forall f :: f in files <==> f in others) && AllClassified(Flatten(files), classes)
    ensures AllClassified(Flatten(others), classes)
    ensures forall b :: OutputBit(Flatten(files), classes, isa, t, b) <==>
      OutputBit(Flatten(others), classes, isa, t, b)
    ensures Kept(files, classes, isa, t) <==> Kept(others, classes, isa, t)
  {
    var a, c := Flatten(files), Flatten(others);
    forall p
      ensures p in a <==> p in c
    {
      InFlatten(files, p);
      InFlatten(others, p);
    }
    assert Occurs(a, t) <==> Occurs(c, t);
    assert InAll(files, t) <==> InAll(others, t);
    forall b
      ensures AnyBit(a, t, b) <==> AnyBit(c, t, b)
      ensures AllBit(a, t, b) <==> AllBit(c, t, b)
    {
    }
    assert NonZero(a, classes, isa, t) <==> NonZero(c, classes, isa, t) by {
      assert forall b :: OutputBit(a, classes, isa, t, b) <==> OutputBit(c, classes, isa, t, b);
    }
  }

  lemma {:induction false} SameLists(xs: seq<Property>, ys: seq<Property>)
    requires StrictlySorted(xs) && StrictlySorted(ys)
    requires forall t :: Listed(xs, t) <==> Listed(ys, t)
    requires forall i, j :: 0 <= i < |xs| && 0 <= j < |ys| && xs[i].ptype == ys[j].ptype ==> xs[i] == ys[j]
    ensures xs == ys
  {
    if xs == [] {
      if ys != [] {
        assert Listed(ys, ys[0].ptype);
      }
    } else {
      var last := xs[|xs| - 1];
      assert Listed(xs, last.ptype);
      var j :| 0 <= j < |ys| && ys[j].ptype == last.ptype;
      var top := ys[|ys| - 1];
      assert Listed(ys, top.ptype);
      var i :| 0 <= i < |xs| && xs[i].ptype == top.ptype;
      assert j == |ys| - 1 && i == |xs| - 1;
      var xs', ys' := xs[..|xs| - 1], ys[..|ys| - 1];
      forall t
        ensures Listed(xs', t) <==> Listed(ys', t)
      {
        ListedInit(xs, t);
        ListedInit(ys, t);
      }
      SameLists(xs', ys');
      assert xs == xs' + [last] && ys == ys' + [top];
    }
  }

  lemma {:induction false} ListedInit(xs: seq<Property>, t: nat)
    requires StrictlySorted(xs) && xs != []
    ensures Listed(xs[..|xs| - 1], t) <==> Listed(xs, t) && t != xs[|xs| - 1].ptype
  {
    var init := xs[..|xs| - 1];
    if Listed(init, t) {
      var k :| 0 <= k < |init| && init[k].ptype == t;
      assert xs[k].ptype == t;
    }
    if Listed(xs, t) && t != xs[|xs| - 1].ptype {
      var k :| 0 <= k < |xs| && xs[k].ptype == t;
      assert init[k].ptype == t;
    }
  }

  /** Neither the order of the files nor how often a list occurs matters. */
  lemma {:induction false} MergeIgnoresOrder(
      files: seq<seq<Property>>, others: seq<seq<Property>>, classes: map<nat, Class>, isa: Bits,
      out: seq<Property>, other: seq<Property>)
    requires (forall f :: f in files <==> f in others) && AllClassified(Flatten(files), classes)
    requires AllClassified(Flatten(others), classes)
    requires IsMerge(files, classes, isa, out) && IsMerge(others, classes, isa, other)
    ensures out == other
  {
    forall t
      ensures Listed(out, t) <==> Listed(other, t)
    {
      SameRules(files, others, classes, isa, t);
    }
    forall i, j | 0 <= i < |out| && 0 <= j < |other| && out[i].ptype == other[j].ptype
      ensures out[i] == other[j]
    {
      SameRules(files, others, classes, isa, out[i].ptype);
      assert out[i].data == other[j].data;
    }
    SameLists(out, other);
  }
}
