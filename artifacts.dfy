/**
 * The artifact store's text processing: confinement of patch paths to the
 * `artifacts` directory, the YAML deep merge, the JSON block carved out of an
 * editor reply, the phasing document parser with its phase-header grammar,
 * and the bookkeeping of a batch of patches.
 */
module Artifacts {
  import opened StrUtil
  import opened JsonValue

  const ARTIFACTS_DIR: string := "artifacts"
  const PHASING_FILE: string := "phasing.md"

  // ===========================================================================
  // Paths (Unix `std::path` semantics, lexical only)
  // ===========================================================================

  datatype Component = RootDir | CurDir | ParentDir | Normal(name: string)

  /** The '/'-separated segments of a path, empty ones included. */
  function Segments(p: string): (r: seq<string>)
    ensures |r| >= 1
    decreases |p|
  {
    match IndexOf(p, '/')
    case None => [p]
    case Some(k) => [p[..k]] + Segments(p[k + 1..])
  }

  lemma SegmentsWhole(p: string)
    requires '/' !in p
    ensures Segments(p) == [p]
  {
  }

  lemma SegmentsAt(p: string, k: nat)
    requires k < |p| && p[k] == '/' && forall j :: 0 <= j < k ==> p[j] != '/'
    ensures Segments(p) == [p[..k]] + Segments(p[k + 1..])
  {
    assert IndexOf(p, '/') == Some(k);
  }

  /** Segments as components: empty and "." segments vanish, ".." is a parent step. */
  function SegmentComponents(segs: seq<string>): (r: seq<Component>)
    ensures RootDir !in r && CurDir !in r
  {
    if segs == [] then []
    else
      var head := if segs[0] == [] || segs[0] == "." then []
        else if segs[0] == ".." then [ParentDir]
        else [Normal(segs[0])];
      head + SegmentComponents(segs[1..])
  }

  /** The component a leading "/" or "." contributes. */
  function Lead(p: string): (r: seq<Component>)
    ensures r == [] || r == [RootDir] || r == [CurDir]
    ensures r == [RootDir] <==> StartsWith(p, "/")
  {
    if StartsWith(p, "/") then [RootDir]
    else if p == "." || StartsWith(p, "./") then [CurDir]
    else []
  }

  /** `Path::components`: a leading root or "." is kept, the rest is normalised. */
  function Components(p: string): (r: seq<Component>)
    ensures CurDir in r ==> r[0] == CurDir
    ensures RootDir in r ==> r[0] == RootDir
  {
    var lead := Lead(p);
    var rest := SegmentComponents(Segments(p));
    assert CurDir in lead + rest ==> CurDir in lead;
    assert RootDir in lead + rest ==> RootDir in lead;
    lead + rest
  }

  /** A plain file or directory name is one normal component. */
  lemma ComponentsOfName(name: string)
    requires name != [] && name != "." && name != ".." && '/' !in name
    ensures Components(name) == [Normal(name)]
  {
    assert name[0] != '/';
    assert |name| >= 2 ==> name[1] != '/';
    assert !StartsWith(name, "/") && !StartsWith(name, "./");
    assert Lead(name) == [];
    SegmentsWhole(name);
    assert [name][1..] == [];
    assert SegmentComponents([name]) == [Normal(name)] + SegmentComponents([]);
  }

  lemma ArtifactsDirComponents()
    ensures Components(ARTIFACTS_DIR) == [Normal(ARTIFACTS_DIR)]
  {
    ComponentsOfName(ARTIFACTS_DIR);
  }

  predicate IsAbsolute(p: string) { StartsWith(p, "/") }

  /** `Path::starts_with`: a component-wise prefix test. */
  predicate PathStartsWith(p: string, base: string)
  {
    var a := Components(p);
    var b := Components(base);
    |b| <= |a| && a[..|b|] == b
  }

  /** `PathBuf::join`: an absolute argument replaces the base, otherwise one separator is added. */
  function PathJoin(base: string, p: string): (r: string)
    ensures IsAbsolute(p) ==> r == p
    ensures !IsAbsolute(p) ==> EndsWith(r, p) && StartsWith(r, base)
  {
    if IsAbsolute(p) then p
    else if base == [] || EndsWith(base, "/") then base + p
    else base + "/" + p
  }

  /** `Path::file_name`: the last component when it is a normal name. */
  function FileName(p: string): (r: Option<string>)
    ensures r.Some? ==> Normal(r.value) in Components(p)
  {
    var cs := Components(p);
    if cs != [] && cs[|cs| - 1].Normal? then Some(cs[|cs| - 1].name) else None
  }

  /**
   * Where the components lead once "." and ".." steps are carried out, which
   * is what the operating system opens. A ".." above the start is kept.
   */
  function Resolve(cs: seq<Component>): (r: seq<Component>)
  {
    if cs == [] then []
    else
      var prefix := Resolve(cs[..|cs| - 1]);
      var last := cs[|cs| - 1];
      if last == CurDir then prefix
      else if last == ParentDir && prefix != [] && prefix[|prefix| - 1].Normal? then prefix[..|prefix| - 1]
      else prefix + [last]
  }

  /** The path leads to a place inside the `artifacts` directory. */
  predicate Confined(p: string)
  {
    var cs := Resolve(Components(p));
    |cs| >= 1 && cs[0] == Normal(ARTIFACTS_DIR)
  }

  /** Where a patch path is placed, before the confinement test. */
  function ResolvePatchPath(path: string): (r: string)
    ensures IsAbsolute(path) ==> r == path
  {
    if IsAbsolute(path) then path
    else if StartsWith(path, "./") then PathJoin(ARTIFACTS_DIR, TrimStartMatches(path, "./"))
    else if StartsWith(path, ARTIFACTS_DIR) then path
    else PathJoin(ARTIFACTS_DIR, path)
  }

  /**
   * `normalize_patch_path` as written: the placed path is accepted when its
   * components start with `artifacts`. The test is lexical, so a ".." step
   * passes it.
   */
  function NormalizePatchPathAsWritten(path: string): (r: Result<string>)
    ensures r.Ok? <==> PathStartsWith(ResolvePatchPath(path), ARTIFACTS_DIR)
    ensures r.Ok? ==> r.value == ResolvePatchPath(path)
  {
    var resolved := ResolvePatchPath(path);
    if !PathStartsWith(resolved, ARTIFACTS_DIR) then Err("Patch path " + path + " escapes artifacts directory")
    else Ok(resolved)
  }

  /** `normalize_patch_path` with the intended confinement: ".." steps are refused as well. */
  function NormalizePatchPath(path: string): (r: Result<string>)
    ensures r.Ok? ==> r.value == ResolvePatchPath(path)
  {
    var resolved := ResolvePatchPath(path);
    if !PathStartsWith(resolved, ARTIFACTS_DIR) || ParentDir in Components(resolved) then
      Err("Patch path " + path + " escapes artifacts directory")
    else Ok(resolved)
  }

  /** The corrected normaliser accepts exactly what the written one accepts, minus the paths with a ".." step. */
  lemma NormalizeRefinesAsWritten(path: string)
    ensures NormalizePatchPath(path).Ok? ==> NormalizePatchPath(path) == NormalizePatchPathAsWritten(path)
    ensures NormalizePatchPath(path).Ok? <==>
      NormalizePatchPathAsWritten(path).Ok? && ParentDir !in Components(ResolvePatchPath(path))
  {
  }

  lemma {:induction false} ResolveWithoutSteps(cs: seq<Component>)
    requires ParentDir !in cs && CurDir !in cs
    ensures Resolve(cs) == cs
  {
    if cs != [] {
      ResolveWithoutSteps(cs[..|cs| - 1]);
      assert cs[..|cs| - 1] + [cs[|cs| - 1]] == cs;
    }
  }

  /** Every path the corrected normaliser accepts leads to a place inside `artifacts`. */
  lemma AcceptedPathConfined(path: string)
    requires NormalizePatchPath(path).Ok?
    ensures Confined(NormalizePatchPath(path).value)
  {
    ConfinedWhenStartsInside(ResolvePatchPath(path));
  }

  lemma ConfinedWhenStartsInside(p: string)
    requires PathStartsWith(p, ARTIFACTS_DIR) && ParentDir !in Components(p)
    ensures Confined(p)
  {
    ArtifactsDirComponents();
    var cs := Components(p);
    assert cs[..1] == [Normal(ARTIFACTS_DIR)];
    assert cs[0] == cs[..1][0];
    ResolveWithoutSteps(cs);
  }

  lemma ParentSegments(name: string)
    requires '/' !in name
    ensures Segments("../" + name) == ["..", name]
  {
    var q := "../" + name;
    assert q[..2] == ".." && q[2] == '/';
    assert forall j :: 0 <= j < 2 ==> q[j] != '/';
    SegmentsAt(q, 2);
    assert q[3..] == name;
    SegmentsWhole(name);
  }

  lemma EscapeSegments(name: string)
    requires '/' !in name
    ensures Segments("artifacts/../" + name) == [ARTIFACTS_DIR, "..", name]
  {
    var p := "artifacts/../" + name;
    assert p[..9] == ARTIFACTS_DIR && p[9] == '/';
    assert forall j :: 0 <= j < 9 ==> p[j] != '/' by {
      forall j | 0 <= j < 9 ensures p[j] != '/' {
        assert p[j] == ARTIFACTS_DIR[j];
      }
    }
    SegmentsAt(p, 9);
    assert p[10..] == "../" + name;
    ParentSegments(name);
  }

  lemma EscapeComponents(name: string)
    requires name != [] && name != "." && name != ".." && '/' !in name
    ensures Components("artifacts/../" + name) == [Normal(ARTIFACTS_DIR), ParentDir, Normal(name)]
  {
    EscapeSegments(name);
    EscapeSegmentComponents(name);
    EscapeLead(name);
  }

  lemma EscapeSegmentComponents(name: string)
    requires name != [] && name != "." && name != ".."
    ensures SegmentComponents([ARTIFACTS_DIR, "..", name]) == [Normal(ARTIFACTS_DIR), ParentDir, Normal(name)]
  {
    var segs := [ARTIFACTS_DIR, "..", name];
    assert segs[1..][1..] == [name];
    assert [name][1..] == [];
    assert SegmentComponents([name]) == [Normal(name)];
    assert SegmentComponents(segs[1..]) == [ParentDir, Normal(name)];
  }

  lemma EscapeLead(name: string)
    ensures Lead("artifacts/../" + name) == []
  {
    var p := "artifacts/../" + name;
    assert p[0] == 'a';
  }

  lemma EscapePlacement(name: string)
    ensures ResolvePatchPath("../" + name) == "artifacts/../" + name
  {
    var p := "../" + name;
    assert p[0] == '.' && p[1] == '.';
    assert !StartsWith(p, "./");
    assert !StartsWith(p, ARTIFACTS_DIR);
    assert !EndsWith(ARTIFACTS_DIR, "/");
    assert ARTIFACTS_DIR + "/" + p == "artifacts/../" + name;
  }

  /** One more component is resolved against the resolution of those before it. */
  lemma ResolveSnoc(cs: seq<Component>, c: Component)
    ensures var prefix := Resolve(cs);
      Resolve(cs + [c]) ==
        if c == CurDir then prefix
        else if c == ParentDir && prefix != [] && prefix[|prefix| - 1].Normal? then prefix[..|prefix| - 1]
        else prefix + [c]
  {
    assert (cs + [c])[..|cs|] == cs;
  }

  lemma ResolveParentStep(name: string)
    ensures Resolve([Normal(ARTIFACTS_DIR), ParentDir, Normal(name)]) == [Normal(name)]
  {
    var a := Normal(ARTIFACTS_DIR);
    assert Resolve([]) == [];
    ResolveSnoc([], a);
    assert [] + [a] == [a];
    ResolveSnoc([a], ParentDir);
    assert [a] + [ParentDir] == [a, ParentDir];
    assert Resolve([a, ParentDir]) == [];
    ResolveSnoc([a, ParentDir], Normal(name));
    assert [a, ParentDir] + [Normal(name)] == [a, ParentDir, Normal(name)];
  }

  /** The written test accepts "../<name>" ... */
  lemma ParentStepAccepted(name: string)
    requires name != [] && name != "." && name != ".." && '/' !in name
    ensures NormalizePatchPathAsWritten("../" + name) == Ok("artifacts/../" + name)
  {
    var p := "artifacts/../" + name;
    EscapePlacement(name);
    EscapeComponents(name);
    ArtifactsDirComponents();
    assert Components(p)[..1] == [Normal(ARTIFACTS_DIR)];
    assert PathStartsWith(p, ARTIFACTS_DIR);
  }

  /** ... although it leads to `<name>` beside `artifacts`, not inside it ... */
  lemma ParentStepLeadsOutside(name: string)
    requires name != [] && name != "." && name != ".." && '/' !in name && name != ARTIFACTS_DIR
    ensures Resolve(Components("artifacts/../" + name)) == [Normal(name)] && !Confined("artifacts/../" + name)
  {
    EscapeComponents(name);
    ResolveParentStep(name);
  }

  /** ... and the corrected normaliser refuses it. */
  lemma ParentStepRefused(name: string)
    requires name != [] && name != "." && name != ".." && '/' !in name
    ensures NormalizePatchPath("../" + name).Err?
  {
    EscapePlacement(name);
    EscapeComponents(name);
    assert ParentDir in Components("artifacts/../" + name);
  }

  /** Absolute paths are never accepted: their first component is the root. */
  lemma AbsolutePathRejected(path: string)
    requires IsAbsolute(path)
    ensures NormalizePatchPathAsWritten(path).Err? && NormalizePatchPath(path).Err?
  {
    ComponentsOfName(ARTIFACTS_DIR);
    assert Components(path)[0] == RootDir;
  }

  /** `sidecar_name`: "<file name>.<kind>-<timestamp>", with "artifact" when there is no file name. */
  function SidecarName(target: string, kind: string, timestamp: string): (r: string)
    ensures FileName(target).Some? ==> r == FileName(target).value + "." + kind + "-" + timestamp
    ensures FileName(target).None? ==> r == "artifact." + kind + "-" + timestamp
  {
    var name := match FileName(target) case Some(n) => n case None => "artifact";
    name + "." + kind + "-" + timestamp
  }

  // ===========================================================================
  // YAML deep merge
  // ===========================================================================

  /**
   * serde_yaml equality: mappings compare as maps (same size, every key of
   * the left found on the right with an equal value), sequences element-wise.
   */
  predicate YamlEq(a: Value, b: Value)
    decreases a
  {
    match a
    case Obj(ms) =>
      b.Obj? && |ms| == |b.members| &&
      forall i :: 0 <= i < |ms| ==>
        Lookup(b.members, ms[i].key).Some? && YamlEq(ms[i].val, Lookup(b.members, ms[i].key).value)
    case Arr(xs) =>
      b.Arr? && |xs| == |b.items| && forall i :: 0 <= i < |xs| ==> YamlEq(xs[i], b.items[i])
    case _ => a == b
  }

  predicate UniqueKeys(ms: seq<Member>)
  {
    forall i, j :: 0 <= i < j < |ms| ==> ms[i].key != ms[j].key
  }

  /** A value as serde_yaml produces it: no mapping holds a key twice. */
  predicate WellFormed(v: Value)
    decreases v
  {
    match v
    case Obj(ms) => UniqueKeys(ms) && forall i :: 0 <= i < |ms| ==> WellFormed(ms[i].val)
    case Arr(xs) => forall i :: 0 <= i < |xs| ==> WellFormed(xs[i])
    case _ => true
  }

  lemma {:induction false} LookupUnique(ms: seq<Member>, i: nat)
    requires UniqueKeys(ms) && i < |ms|
    ensures Lookup(ms, ms[i].key) == Some(ms[i].val)
    decreases |ms|
  {
    if i < |ms| - 1 {
      LookupUnique(ms[..|ms| - 1], i);
    }
  }

  /** In a mapping without repeated keys, a key is found at its own index. */
  lemma KeyIndexUnique(ms: seq<Member>, i: nat)
    requires UniqueKeys(ms) && i < |ms|
    ensures KeyIndex(ms, ms[i].key) == Some(i)
  {
    LookupUnique(ms, i);
  }

  lemma {:induction false} YamlEqReflexive(v: Value)
    requires WellFormed(v)
    ensures YamlEq(v, v)
    decreases v
  {
    match v
    case Obj(ms) =>
      forall i | 0 <= i < |ms|
        ensures Lookup(ms, ms[i].key).Some? && YamlEq(ms[i].val, Lookup(ms, ms[i].key).value)
      {
        LookupUnique(ms, i);
        YamlEqReflexive(ms[i].val);
      }
    case Arr(xs) =>
      forall i | 0 <= i < |xs| ensures YamlEq(xs[i], xs[i]) {
        YamlEqReflexive(xs[i]);
      }
    case _ =>
  }

  /** The number of nodes of a value, keys included; the measure the merge recursion descends on. */
  function Size(v: Value): (n: nat)
    ensures n >= 1
    decreases v, 1
  {
    match v
    case Obj(ms) => 1 + MembersSize(ms)
    case Arr(xs) => 1 + ItemsSize(xs)
    case _ => 1
  }

  function MemberSize(m: Member): (n: nat)
    ensures n >= 2
    decreases m, 0
  {
    Size(m.key) + Size(m.val)
  }

  function MembersSize(ms: seq<Member>): nat
    decreases ms, 0
  {
    if ms == [] then 0
    else
      assert ms[0] in ms;
      MemberSize(ms[0]) + MembersSize(ms[1..])
  }

  function ItemsSize(xs: seq<Value>): nat
    decreases xs, 0
  {
    if xs == [] then 0
    else
      assert xs[0] in xs;
      Size(xs[0]) + ItemsSize(xs[1..])
  }

  /** The index of the entry holding `key` (the last one, as `Lookup`). */
  function KeyIndex(ms: seq<Member>, key: Value): (r: Option<nat>)
    ensures r.Some? ==> r.value < |ms| && ms[r.value].key == key && Lookup(ms, key) == Some(ms[r.value].val)
    ensures r.None? <==> Lookup(ms, key).None?
  {
    if ms == [] then None
    else if ms[|ms| - 1].key == key then Some(|ms| - 1)
    else KeyIndex(ms[..|ms| - 1], key)
  }

  /**
   * `merge_yaml` on values: the merged value and whether anything changed.
   * Two mappings merge key by key; two sequences, like any other pair,
   * are replaced by the patch when they differ.
   */
  function Merge(base: Value, patch: Value): (r: (Value, bool))
    decreases Size(patch), 2
  {
    if base.Obj? && patch.Obj? then
      var (ms, changed) := MergeMembers(base.members, patch.members);
      (Obj(ms), changed)
    else if !YamlEq(base, patch) then (patch, true)
    else (base, false)
  }

  /** The loop over the patch mapping, in the patch's order. */
  function MergeMembers(bm: seq<Member>, pm: seq<Member>): (r: (seq<Member>, bool))
    decreases MembersSize(pm), 1
  {
    if pm == [] then (bm, false)
    else
      var (bm1, c1) := MergeEntry(bm, pm[0]);
      var (bm2, c2) := MergeMembers(bm1, pm[1..]);
      (bm2, c1 || c2)
  }

  /** One patch entry: recurse into an existing key, or insert a missing one at the end. */
  function MergeEntry(bm: seq<Member>, m: Member): (r: (seq<Member>, bool))
    decreases MemberSize(m), 0
  {
    match KeyIndex(bm, m.key)
    case Some(i) =>
      var (v, changed) := Merge(bm[i].val, m.val);
      (bm[i := Member(bm[i].key, v)], changed)
    case None => (bm + [m], true)
  }

  lemma {:induction false} SuffixSize(ms: seq<Member>, i: nat)
    requires i < |ms|
    ensures MembersSize(ms[i..]) == Size(ms[i].key) + Size(ms[i].val) + MembersSize(ms[i + 1..])
    ensures MembersSize(ms[i..]) <= MembersSize(ms)
    decreases i
  {
    assert ms[i..][0] == ms[i] && ms[i..][1..] == ms[i + 1..];
    if i > 0 {
      SuffixSize(ms[1..], i - 1);
      assert ms[1..][i - 1..] == ms[i..];
    }
  }

  /**
   * The merge with its loop, as the source runs it: the mapping case walks
   * the patch entries with a `changed` flag.
   */
  method MergeYaml(base: Value, patch: Value) returns (merged: Value, changed: bool)
    ensures (merged, changed) == Merge(base, patch)
    decreases Size(patch)
  {
    if base.Obj? && patch.Obj? {
      var pm := patch.members;
      var bm := base.members;
      changed := false;
      var i := 0;
      while i < |pm|
        invariant 0 <= i <= |pm|
        invariant MergeMembers(base.members, pm) == (var r := MergeMembers(bm, pm[i..]); (r.0, changed || r.1))
      {
        var m := pm[i];
        SuffixSize(pm, i);
        assert pm[i..][0] == m && pm[i..][1..] == pm[i + 1..];
        var k := KeyIndex(bm, m.key);
        if k.Some? {
          var v, c := MergeYaml(bm[k.value].val, m.val);
          bm := bm[k.value := Member(bm[k.value].key, v)];
          changed := changed || c;
        } else {
          bm := bm + [m];
          changed := true;
        }
        i := i + 1;
      }
      assert pm[i..] == [];
      merged := Obj(bm);
    } else if !YamlEq(base, patch) {
      merged, changed := patch, true;
    } else {
      merged, changed := base, false;
    }
  }

  /** No change reported means the base is returned as it was. */
  lemma {:induction false} MergeUnchanged(base: Value, patch: Value)
    ensures !Merge(base, patch).1 ==> Merge(base, patch).0 == base
    decreases Size(patch), 2
  {
    if base.Obj? && patch.Obj? {
      MembersUnchanged(base.members, patch.members);
    }
  }

  lemma {:induction false} MembersUnchanged(bm: seq<Member>, pm: seq<Member>)
    ensures !MergeMembers(bm, pm).1 ==> MergeMembers(bm, pm).0 == bm
    decreases MembersSize(pm), 1
  {
    if pm != [] {
      EntryUnchanged(bm, pm[0]);
      var (bm1, c1) := MergeEntry(bm, pm[0]);
      MembersUnchanged(bm1, pm[1..]);
    }
  }

  lemma {:induction false} EntryUnchanged(bm: seq<Member>, m: Member)
    ensures !MergeEntry(bm, m).1 ==> MergeEntry(bm, m).0 == bm
    decreases MemberSize(m), 0
  {
    match KeyIndex(bm, m.key)
    case Some(i) =>
      MergeUnchanged(bm[i].val, m.val);
    case None =>
  }

  lemma EntryKeepsAndAddsKey(bm: seq<Member>, m: Member)
    ensures forall k :: Lookup(bm, k).Some? ==> Lookup(MergeEntry(bm, m).0, k).Some?
    ensures Lookup(MergeEntry(bm, m).0, m.key).Some?
  {
    var r := MergeEntry(bm, m).0;
    forall k | Lookup(bm, k).Some?
      ensures Lookup(r, k).Some?
    {
      var i :| 0 <= i < |bm| && bm[i] == Member(k, Lookup(bm, k).value);
      assert r[i].key == k;
    }
    match KeyIndex(bm, m.key)
    case Some(i) =>
      assert r[i].key == m.key;
    case None =>
      LookupLast(bm, m.key, m.val);
  }

  /** Every key of the base mapping stays, and every key of the patch mapping ends up in the result. */
  lemma {:induction false} MergeKeepsAndAddsKeys(bm: seq<Member>, pm: seq<Member>)
    ensures forall k :: Lookup(bm, k).Some? ==> Lookup(MergeMembers(bm, pm).0, k).Some?
    ensures forall j :: 0 <= j < |pm| ==> Lookup(MergeMembers(bm, pm).0, pm[j].key).Some?
    decreases |pm|
  {
    if pm != [] {
      var (bm1, c1) := MergeEntry(bm, pm[0]);
      EntryKeepsAndAddsKey(bm, pm[0]);
      MergeKeepsAndAddsKeys(bm1, pm[1..]);
      forall j | 0 <= j < |pm|
        ensures Lookup(MergeMembers(bm, pm).0, pm[j].key).Some?
      {
        if j > 0 {
          assert pm[j] == pm[1..][j - 1];
        }
      }
    }
  }

  /** Merging a value into itself changes nothing. */
  lemma {:induction false} MergeSelf(v: Value)
    requires WellFormed(v)
    ensures Merge(v, v) == (v, false)
    decreases Size(v), 3
  {
    if v.Obj? {
      assert v.members[0..] == v.members;
      MergeMembersSelf(v.members, 0);
    } else {
      YamlEqReflexive(v);
    }
  }

  /** Merging the entries of a well-formed mapping from index `i` on into the mapping itself changes nothing. */
  lemma {:induction false} MergeMembersSelf(ms: seq<Member>, i: nat)
    requires UniqueKeys(ms) && forall j :: 0 <= j < |ms| ==> WellFormed(ms[j].val)
    requires i <= |ms|
    ensures MergeMembers(ms, ms[i..]) == (ms, false)
    decreases MembersSize(ms[i..]), 2
  {
    if i < |ms| {
      var m := ms[i];
      SuffixSize(ms, i);
      assert ms[i..][0] == m && ms[i..][1..] == ms[i + 1..];
      KeyIndexUnique(ms, i);
      MergeSelf(m.val);
      assert ms[i := Member(ms[i].key, m.val)] == ms;
      MergeMembersSelf(ms, i + 1);
    }
  }

  /** A sequence in the base is replaced, as a whole, by a different sequence from the patch. */
  lemma SequenceReplacedWhole(base: seq<Value>, patch: seq<Value>)
    ensures !YamlEq(Arr(base), Arr(patch)) ==> Merge(Arr(base), Arr(patch)) == (Arr(patch), true)
    ensures YamlEq(Arr(base), Arr(patch)) ==> Merge(Arr(base), Arr(patch)) == (Arr(base), false)
  {
  }

  /**
   * `apply_yaml_merge`'s pure part: a blank file starts as an empty mapping,
   * otherwise both texts are parsed (by the foreign YAML parser `parse`) and
   * merged; a new text is written only when something changed.
   */
  function YamlMergeText(original: string, patchText: string, parse: string -> Option<Value>): (r: Result<Option<Value>>)
    ensures r.Ok? ==> parse(patchText).Some?
    ensures r.Ok? && r.value.None? ==> Trim(original) == [] || parse(original).Some?
  {
    var base := if Trim(original) == [] then Some(Obj([])) else parse(original);
    if base.None? then Err("Failed to parse YAML")
    else match parse(patchText)
      case None => Err("Failed to parse yaml_merge patch data")
      case Some(p) =>
        var (merged, changed) := Merge(base.value, p);
        Ok(if changed then Some(merged) else None)
  }

  /** A blank file merged with a parsable patch mapping becomes that mapping's merge into an empty one. */
  lemma BlankFileMerge(original: string, patchText: string, parse: string -> Option<Value>)
    requires AllWhitespace(original) && parse(patchText).Some? && parse(patchText).value.Obj?
    ensures var pm := parse(patchText).value.members;
      YamlMergeText(original, patchText, parse) ==
        Ok(if MergeMembers([], pm).1 then Some(Obj(MergeMembers([], pm).0)) else None)
  {
    TrimEmptyIffAllWhitespace(original);
  }

  /** Re-applying a well-formed file's own content as a patch writes nothing. */
  lemma SelfPatchWritesNothing(text: string, parse: string -> Option<Value>)
    requires Trim(text) != [] && parse(text).Some? && WellFormed(parse(text).value)
    ensures YamlMergeText(text, text, parse) == Ok(None)
  {
    MergeSelf(parse(text).value);
  }

  // ===========================================================================
  // JSON block extraction
  // ===========================================================================

  /** The number of whitespace characters a line opens with. */
  function Indent(line: string): (n: nat)
    ensures n <= |line|
  {
    if line != [] && IsWhitespace(line[0]) then 1 + Indent(line[1..]) else 0
  }

  lemma {:induction false} IndentIsTrimStart(line: string)
    ensures line[Indent(line)..] == TrimStart(line)
  {
    if line != [] && IsWhitespace(line[0]) {
      IndentIsTrimStart(line[1..]);
      assert line[1..][Indent(line[1..])..] == line[Indent(line)..];
    }
  }

  /** A line that opens with a code fence after its indentation. */
  predicate IsFence(line: string)
  {
    var n := Indent(line);
    n + 3 <= |line| && line[n..n + 3] == "```"
  }

  /** `IsFence` is the source's test: the line with its leading whitespace trimmed starts with a fence. */
  lemma IsFenceTrimmed(line: string)
    ensures IsFence(line) <==> StartsWith(TrimStart(line), "```")
  {
    IndentIsTrimStart(line);
    var n := Indent(line);
    var t := TrimStart(line);
    assert t == line[n..];
    assert IsFence(line) == (n + 3 <= |line| && line[n..n + 3] == "```");
    assert StartsWith(t, "```") == (3 <= |t| && t[..3] == "```");
    if n + 3 <= |line| {
      assert t[..3] == line[n..n + 3];
    }
  }

  /** The lines up to (not including) the first fence line. */
  function UntilFence(lines: seq<string>): (r: seq<string>)
    ensures |r| <= |lines|
  {
    if lines == [] || IsFence(lines[0]) then []
    else [lines[0]] + UntilFence(lines[1..])
  }

  /** `UntilFence` stops exactly at the first fence line. */
  lemma {:induction false} UntilFenceAt(lines: seq<string>, i: nat)
    requires i <= |lines|
    requires forall k :: 0 <= k < i ==> !IsFence(lines[k])
    requires i == |lines| || IsFence(lines[i])
    ensures UntilFence(lines) == lines[..i]
    decreases i
  {
    if i > 0 {
      UntilFenceAt(lines[1..], i - 1);
      assert lines[..i] == [lines[0]] + lines[1..][..i - 1];
    }
  }

  function DropLeadingEmpty(lines: seq<string>): (r: seq<string>)
    ensures r == [] || r[0] != []
  {
    if lines != [] && lines[0] == [] then DropLeadingEmpty(lines[1..]) else lines
  }

  /**
   * What `extract_json_block` returns. A reply opening with a fence yields the
   * lines after the fence line up to the closing fence, joined by newlines
   * (leading empty lines add no separator), or None when that is blank.
   * Otherwise it yields the text from the first '{' to the last '}'.
   */
  function JsonBlock(content: string): (r: Option<string>)
    ensures r.Some? && StartsWith(Trim(content), "```") ==> Trim(r.value) != []
  {
    var trimmed := Trim(content);
    if StartsWith(trimmed, "```") then
      var body := Join(DropLeadingEmpty(UntilFence(Lines(trimmed)[1..])), "\n");
      if Trim(body) == [] then None else Some(body)
    else BraceBlock(trimmed)
  }

  /** The unfenced case: the text from the first '{' to the last '}', when that is in order. */
  function BraceBlock(t: string): Option<string>
  {
    match (IndexOf(t, '{'), LastIndexOf(t, '}'))
    case (Some(start), Some(end)) => if end <= start then None else Some(t[start..end + 1])
    case _ => None
  }

  /** The extraction as the source runs it: a line loop building a buffer. */
  method ExtractJsonBlock(content: string) returns (r: Option<string>)
    ensures r == JsonBlock(content)
  {
    var trimmed := Trim(content);
    if StartsWith(trimmed, "```") {
      var buffer := FencedBody(Lines(trimmed)[1..]);
      if Trim(buffer) == [] {
        r := None;
      } else {
        r := Some(buffer);
      }
    } else {
      r := BraceBlock(trimmed);
    }
  }

  /** The fenced case's loop: the lines up to the closing fence, joined into the buffer. */
  method FencedBody(rest: seq<string>) returns (buffer: string)
    ensures buffer == Join(DropLeadingEmpty(UntilFence(rest)), "\n")
  {
    buffer := [];
    var i := 0;
    while i < |rest| && !IsFence(rest[i])
      invariant 0 <= i <= |rest|
      invariant forall k :: 0 <= k < i ==> !IsFence(rest[k])
      invariant buffer == Join(DropLeadingEmpty(rest[..i]), "\n")
    {
      BufferStep(rest, i);
      if buffer != [] {
        buffer := buffer + "\n";
      }
      buffer := buffer + rest[i];
      i := i + 1;
    }
    UntilFenceAt(rest, i);
  }

  /** One more line in the buffer, stated on the prefixes of the lines. */
  lemma BufferStep(rest: seq<string>, i: nat)
    requires i < |rest|
    ensures Join(DropLeadingEmpty(rest[..i + 1]), "\n") ==
      (var b := Join(DropLeadingEmpty(rest[..i]), "\n"); (if b != [] then b + "\n" else b) + rest[i])
  {
    assert rest[..i + 1] == rest[..i] + [rest[i]];
    JoinStep(rest[..i], rest[i]);
  }

  /** Appending a line to the buffer: a separator only when the buffer is non-empty. */
  lemma {:induction false} JoinStep(lines: seq<string>, line: string)
    ensures Join(DropLeadingEmpty(lines + [line]), "\n") ==
      (var b := Join(DropLeadingEmpty(lines), "\n"); (if b != [] then b + "\n" else b) + line)
    decreases |lines|
  {
    if lines == [] {
      assert lines + [line] == [line];
    } else if lines[0] == [] {
      assert (lines + [line])[1..] == lines[1..] + [line];
      JoinStep(lines[1..], line);
    } else {
      assert DropLeadingEmpty(lines) == lines;
      assert DropLeadingEmpty(lines + [line]) == lines + [line];
      JoinAppend(lines, line);
    }
  }

  lemma {:induction false} JoinAppend(parts: seq<string>, line: string)
    requires parts != [] && parts[0] != []
    ensures Join(parts + [line], "\n") == Join(parts, "\n") + "\n" + line
    ensures Join(parts, "\n") != []
    decreases |parts|
  {
    if |parts| == 1 {
      assert parts + [line] == [parts[0], line];
    } else {
      assert (parts + [line])[1..] == parts[1..] + [line];
      if parts[1] == [] {
        JoinAppendEmptyHead(parts[1..], line);
      } else {
        JoinAppend(parts[1..], line);
      }
    }
  }

  lemma {:induction false} JoinAppendEmptyHead(parts: seq<string>, line: string)
    requires parts != []
    ensures Join(parts + [line], "\n") == Join(parts, "\n") + "\n" + line
    decreases |parts|
  {
    if |parts| == 1 {
      assert parts + [line] == [parts[0], line];
    } else {
      assert (parts + [line])[1..] == parts[1..] + [line];
      JoinAppendEmptyHead(parts[1..], line);
    }
  }

  /**
   * `b` starts with '{' and ends with '}', and sits in `t` with no '{'
   * before it and no '}' after it.
   */
  predicate BraceShaped(b: string, t: string)
  {
    |b| >= 2 && b[0] == '{' && b[|b| - 1] == '}' &&
    exists s :: 0 <= s && s + |b| <= |t| && b == t[s..s + |b|] && '{' !in t[..s] && '}' !in t[s + |b|..]
  }

  /** The unfenced block lies between the first '{' and the last '}' of the trimmed reply. */
  lemma UnfencedBlockShape(content: string)
    requires !StartsWith(Trim(content), "```") && JsonBlock(content).Some?
    ensures BraceShaped(JsonBlock(content).value, Trim(content))
  {
    UnfencedIsBraceBlock(content);
    BraceBlockShape(Trim(content));
  }

  lemma UnfencedIsBraceBlock(content: string)
    requires !StartsWith(Trim(content), "```")
    ensures JsonBlock(content) == BraceBlock(Trim(content))
  {
  }

  lemma BraceBlockShape(t: string)
    requires BraceBlock(t).Some?
    ensures BraceShaped(BraceBlock(t).value, t)
  {
    var start := IndexOf(t, '{').value;
    var end := LastIndexOf(t, '}').value;
    var b := BraceBlock(t).value;
    assert b == t[start..end + 1] && |b| == end + 1 - start;
    assert b[0] == t[start] && b[|b| - 1] == t[end];
    assert '{' !in t[..start] by {
      forall j | 0 <= j < start
        ensures t[..start][j] != '{'
      {
        assert t[..start][j] == t[j];
      }
    }
    var tail := t[end + 1..];
    assert '}' !in tail by {
      forall j | 0 <= j < |tail|
        ensures tail[j] != '}'
      {
        assert tail[j] == t[end + 1 + j];
      }
    }
    assert t[start + |b|..] == tail;
  }

  /** Without a '{', or without a '}', there is no unfenced block. */
  lemma UnfencedNeedsBraces(content: string)
    requires !StartsWith(Trim(content), "```")
    ensures '{' !in Trim(content) ==> JsonBlock(content).None?
    ensures '}' !in Trim(content) ==> JsonBlock(content).None?
  {
  }

  // ===========================================================================
  // Phase headers and number words
  // ===========================================================================

  /** Where `split_header` cuts: the first em dash when there is one, else the first hyphen. */
  function HeaderSeparator(line: string): (k: Option<nat>)
    ensures k.None? <==> '—' !in line && '-' !in line
    ensures '—' in line ==> k.Some? && k.value < |line| && line[k.value] == '—' && '—' !in line[..k.value]
    ensures '—' !in line && '-' in line ==> k.Some? && k.value < |line| && line[k.value] == '-' && '-' !in line[..k.value]
  {
    match IndexOf(line, '—')
    case Some(k) => Some(k)
    case None => IndexOf(line, '-')
  }

  /** `split_header`: both sides of the separator, trimmed. */
  function SplitHeader(line: string): (r: Option<(string, string)>)
    ensures r.None? <==> '—' !in line && '-' !in line
    ensures r.Some? ==> Trim(r.value.0) == r.value.0 && Trim(r.value.1) == r.value.1
  {
    match HeaderSeparator(line)
    case Some(k) =>
      TrimIdempotent(line[..k]);
      TrimIdempotent(line[k + 1..]);
      Some((Trim(line[..k]), Trim(line[k + 1..])))
    case None => None
  }

  /** The number words `words_to_number` knows. */
  function WordValue(w: string): (r: Option<nat>)
    ensures r.Some? ==> r.value <= 60
  {
    if w == "zero" then Some(0) else if w == "one" then Some(1) else if w == "two" then Some(2)
    else if w == "three" then Some(3) else if w == "four" then Some(4) else if w == "five" then Some(5)
    else if w == "six" then Some(6) else if w == "seven" then Some(7) else if w == "eight" then Some(8)
    else if w == "nine" then Some(9) else if w == "ten" then Some(10) else if w == "eleven" then Some(11)
    else if w == "twelve" then Some(12) else if w == "thirteen" then Some(13)
    else if w == "fourteen" then Some(14) else if w == "fifteen" then Some(15)
    else if w == "sixteen" then Some(16) else if w == "seventeen" then Some(17)
    else if w == "eighteen" then Some(18) else if w == "nineteen" then Some(19)
    else if w == "twenty" then Some(20) else if w == "thirty" then Some(30)
    else if w == "forty" then Some(40) else if w == "fifty" then Some(50)
    else if w == "sixty" then Some(60)
    else None
  }

  /**
   * One word's effect on the running value: "and" leaves it, "hundred"
   * multiplies it by 100 (a bare "hundred" counts as one hundred), a known
   * word adds its value, an unknown word fails.
   */
  function WordStep(current: nat, w: string): (r: Option<nat>)
    ensures w == "and" ==> r == Some(current)
    ensures w != "and" && w != "hundred" ==> (r.None? <==> WordValue(w).None?)
    ensures w != "and" && w != "hundred" && WordValue(w).Some? ==> r == Some(current + WordValue(w).value)
    ensures w == "hundred" ==> r == Some(if current == 0 then 100 else 100 * current)
    ensures r.Some? ==> r.value >= current
  {
    if w == "and" then Some(current)
    else if w == "hundred" then Some((if current == 0 then 1 else current) * 100)
    else match WordValue(w)
      case None => None
      case Some(v) => Some(current + v)
  }

  /** The running value after `words`, starting from `current`. */
  function Accumulate(current: nat, words: seq<string>): (r: Option<nat>)
    decreases |words|
  {
    if words == [] then Some(current)
    else match WordStep(current, words[0])
      case None => None
      case Some(c) => Accumulate(c, words[1..])
  }

  function WordsValue(words: seq<string>): (r: Option<nat>)
    ensures words == [] ==> r.None?
  {
    if words == [] then None else Accumulate(0, words)
  }

  /** The running value from word `i` on is word `i`'s step, then the rest. */
  lemma AccumulateStep(current: nat, words: seq<string>, i: nat)
    requires i < |words|
    ensures Accumulate(current, words[i..]) ==
      if WordStep(current, words[i]).None? then None else Accumulate(WordStep(current, words[i]).value, words[i + 1..])
  {
    assert words[i..][0] == words[i] && words[i..][1..] == words[i + 1..];
  }

  /** `words_to_number`: the loop over the words. */
  method WordsToNumber(words: seq<string>) returns (r: Option<nat>)
    ensures r == WordsValue(words)
  {
    if words == [] {
      return None;
    }
    var current: nat := 0;
    var i := 0;
    while i < |words|
      invariant 0 <= i <= |words|
      invariant Accumulate(0, words) == Accumulate(current, words[i..])
    {
      var w := words[i];
      AccumulateStep(current, words, i);
      if w == "and" {
        i := i + 1;
        continue;
      }
      if w == "hundred" {
        if current == 0 {
          current := 1;
        }
        current := current * 100;
        i := i + 1;
        continue;
      }
      var value := WordValue(w);
      if value.None? {
        return None;
      }
      current := current + value.value;
      i := i + 1;
    }
    return Some(current);
  }

  /** An unknown word anywhere makes the whole phrase fail. */
  lemma {:induction false} UnknownWordFails(current: nat, words: seq<string>, i: nat)
    requires i < |words| && words[i] != "and" && words[i] != "hundred" && WordValue(words[i]).None?
    ensures Accumulate(current, words).None?
    decreases i
  {
    if i > 0 && WordStep(current, words[0]).Some? {
      assert words[1..][i - 1] == words[i];
      UnknownWordFails(WordStep(current, words[0]).value, words[1..], i - 1);
    }
  }

  /** "and" is ignored wherever it stands. */
  lemma {:induction false} AndIsSkipped(current: nat, a: seq<string>, b: seq<string>)
    ensures Accumulate(current, a + ["and"] + b) == Accumulate(current, a + b)
    decreases |a|
  {
    if a == [] {
      assert a + ["and"] + b == ["and"] + b;
      assert (["and"] + b)[1..] == b;
      assert a + b == b;
    } else {
      assert (a + ["and"] + b)[0] == a[0] && (a + ["and"] + b)[1..] == a[1..] + ["and"] + b;
      assert (a + b)[0] == a[0] && (a + b)[1..] == a[1..] + b;
      if WordStep(current, a[0]).Some? {
        AndIsSkipped(WordStep(current, a[0]).value, a[1..], b);
      }
    }
  }

  /** Number phrases as phase headers spell them. */
  lemma WordsExamples()
    ensures WordsValue(["six"]) == Some(6)
    ensures WordsValue(["twenty", "one"]) == Some(21)
    ensures WordsValue(["one", "hundred", "and", "five"]) == Some(105)
    ensures WordsValue(["hundred"]) == Some(100)
    ensures WordsValue(["seventy"]).None?
  {
    assert ["one", "hundred", "and", "five"][1..] == ["hundred", "and", "five"];
    assert ["hundred", "and", "five"][1..] == ["and", "five"];
    assert ["and", "five"][1..] == ["five"];
    assert ["twenty", "one"][1..] == ["one"];
  }

  /** `parse_phase_number`: a u32 literal first, otherwise number words ('-' and '_' count as spaces). */
  function ParsePhaseNumber(token: string): (r: Option<nat>)
    ensures ParseU32(token).Some? ==> r == ParseU32(token)
  {
    match ParseU32(token)
    case Some(v) => Some(v)
    case None =>
      var normalized := Trim(Replace(Replace(ToLower(token), "-", " "), "_", " "));
      WordsValue(SplitWhitespace(normalized))
  }

  /**
   * `parse_phase_header`: a trimmed non-empty line split by `SplitHeader`
   * whose left side starts with "phase " in any letter case; the number
   * follows that word and the title is the right side.
   */
  function ParsePhaseHeader(line: string): (r: Option<(nat, string)>)
    ensures r.Some? ==> '—' in Trim(line) || '-' in Trim(line)
    ensures r.Some? ==> Trim(r.value.1) == r.value.1
  {
    var trimmed := Trim(line);
    if trimmed == [] then None
    else match SplitHeader(trimmed)
      case None => None
      case Some((left, right)) =>
        if !StartsWith(ToLower(left), "phase ") then None
        else match ParsePhaseNumber(Trim(left[6..]))
          case None => None
          case Some(n) => Some((n, Trim(right)))
  }

  /**
   * A header is a line with a dash whose left side starts with "phase " in
   * any letter case; its title is the (trimmed) right side.
   */
  lemma PhaseHeaderShape(line: string)
    ensures ParsePhaseHeader(line).Some? ==> SplitHeader(Trim(line)).Some?
    ensures ParsePhaseHeader(line).Some? ==> StartsWith(ToLower(SplitHeader(Trim(line)).value.0), "phase ")
    ensures ParsePhaseHeader(line).Some? ==> ParsePhaseHeader(line).value.1 == SplitHeader(Trim(line)).value.1
    ensures '—' !in line && '-' !in line ==> ParsePhaseHeader(line).None?
  {
    if '—' !in line && '-' !in line {
      assert '—' !in Trim(line) && '-' !in Trim(line) by {
        TrimSubstring(line);
      }
    }
  }

  // ===========================================================================
  // The phasing document
  // ===========================================================================

  datatype PhasingEntry = PhasingEntry(number: nat, title: string, talkTrack: string, hash: string, audioPath: Option<string>)

  datatype Builder = Builder(number: nat, title: string, lines: seq<string>)

  /**
   * `PhaseBuilder::finish`: the talk track is the body lines joined and
   * trimmed; `hash` stands for the short SHA-256 digest of `make_phase_entry`.
   */
  function Finish(b: Builder, hash: string -> string): (e: PhasingEntry)
    ensures e.number == b.number && e.title == b.title && e.audioPath.None?
    ensures e.talkTrack == Trim(Join(b.lines, "\n")) && e.hash == hash(e.talkTrack)
  {
    var talk := Trim(Join(b.lines, "\n"));
    PhasingEntry(b.number, b.title, talk, hash(talk), None)
  }

  /** Each line's reading as a phase header. */
  function HeaderReadings(lines: seq<string>): (hs: seq<Option<(nat, string)>>)
    ensures |hs| == |lines| && forall i :: 0 <= i < |lines| ==> hs[i] == ParsePhaseHeader(lines[i])
  {
    seq(|lines|, i requires 0 <= i < |lines| => ParsePhaseHeader(lines[i]))
  }

  /** Closing the open phase, if any, appends its entry. */
  function Close(current: Option<Builder>, done: seq<PhasingEntry>, hash: string -> string): (r: seq<PhasingEntry>)
    ensures current.None? ==> r == done
    ensures current.Some? ==> r == done + [Finish(current.value, hash)]
  {
    if current.Some? then done + [Finish(current.value, hash)] else done
  }

  /** A body line joins the open phase, if any. */
  function Extend(current: Option<Builder>, line: string): (r: Option<Builder>)
    ensures r.Some? <==> current.Some?
    ensures r.Some? ==> r.value == current.value.(lines := current.value.lines + [line])
  {
    if current.Some? then Some(current.value.(lines := current.value.lines + [line])) else None
  }

  /**
   * The rest of the scan, given each line's header reading `hs`: a header
   * line closes the open phase and opens a new one, any other line goes to
   * the open phase, if any.
   */
  function Scan(lines: seq<string>, hs: seq<Option<(nat, string)>>, current: Option<Builder>, done: seq<PhasingEntry>, hash: string -> string): (r: seq<PhasingEntry>)
    requires |hs| == |lines|
    decreases |lines|
  {
    if lines == [] then Close(current, done, hash)
    else if hs[0].Some? then
      Scan(lines[1..], hs[1..], Some(Builder(hs[0].value.0, hs[0].value.1, [])), Close(current, done, hash), hash)
    else Scan(lines[1..], hs[1..], Extend(current, lines[0]), done, hash)
  }

  /** The (number, title) of every header, in order. */
  function Headers(hs: seq<Option<(nat, string)>>): (r: seq<(nat, string)>)
    ensures |r| <= |hs|
  {
    if hs == [] then []
    else if hs[0].Some? then [hs[0].value] + Headers(hs[1..])
    else Headers(hs[1..])
  }

  /** The (number, title) of each phase. */
  function Heads(entries: seq<PhasingEntry>): (r: seq<(nat, string)>)
    ensures |r| == |entries|
  {
    if entries == [] then [] else [(entries[0].number, entries[0].title)] + Heads(entries[1..])
  }

  lemma {:induction false} HeadsAppend(a: seq<PhasingEntry>, e: PhasingEntry)
    ensures Heads(a + [e]) == Heads(a) + [(e.number, e.title)]
    decreases |a|
  {
    if a == [] {
      assert a + [e] == [e];
    } else {
      assert (a + [e])[0] == a[0] && (a + [e])[1..] == a[1..] + [e];
      HeadsAppend(a[1..], e);
    }
  }

  /** The phases of a phasing document. */
  function Phases(contents: string, hash: string -> string): seq<PhasingEntry>
  {
    var lines := Lines(contents);
    Scan(lines, HeaderReadings(lines), None, [], hash)
  }

  /** `parse_phasing`: the loop over the document's lines with the open builder. */
  method ParsePhasing(contents: string, hash: string -> string) returns (phases: seq<PhasingEntry>)
    ensures phases == Phases(contents, hash)
  {
    var lines := Lines(contents);
    ghost var hs := HeaderReadings(lines);
    phases := [];
    var current: Option<Builder> := None;
    var i := 0;
    while i < |lines|
      invariant 0 <= i <= |lines|
      invariant Scan(lines, hs, None, [], hash) == Scan(lines[i..], hs[i..], current, phases, hash)
    {
      assert lines[i..][0] == lines[i] && lines[i..][1..] == lines[i + 1..];
      assert hs[i..][0] == hs[i] && hs[i..][1..] == hs[i + 1..];
      var header := ParsePhaseHeader(lines[i]);
      assert header == hs[i];
      if header.Some? {
        if current.Some? {
          phases := phases + [Finish(current.value, hash)];
        }
        current := Some(Builder(header.value.0, header.value.1, []));
      } else if current.Some? {
        current := Some(current.value.(lines := current.value.lines + [lines[i]]));
      }
      i := i + 1;
    }
    assert lines[i..] == [];
    if current.Some? {
      phases := phases + [Finish(current.value, hash)];
    }
  }

  lemma HeadsClose(current: Option<Builder>, done: seq<PhasingEntry>, hash: string -> string)
    ensures Heads(Close(current, done, hash)) ==
      Heads(done) + (if current.Some? then [(current.value.number, current.value.title)] else [])
  {
    if current.Some? {
      HeadsAppend(done, Finish(current.value, hash));
    }
  }

  /** Every header yields one phase, with that header's number and title, in document order. */
  lemma {:induction false} ScanHeads(lines: seq<string>, hs: seq<Option<(nat, string)>>, current: Option<Builder>, done: seq<PhasingEntry>, hash: string -> string)
    requires |hs| == |lines|
    ensures Heads(Scan(lines, hs, current, done, hash)) ==
      Heads(done) + (if current.Some? then [(current.value.number, current.value.title)] else []) + Headers(hs)
    decreases |lines|
  {
    HeadsClose(current, done, hash);
    if lines != [] && hs[0].Some? {
      ScanHeads(lines[1..], hs[1..], Some(Builder(hs[0].value.0, hs[0].value.1, [])), Close(current, done, hash), hash);
    } else if lines != [] {
      ScanHeads(lines[1..], hs[1..], Extend(current, lines[0]), done, hash);
    }
  }

  lemma PhasesFollowHeaders(contents: string, hash: string -> string)
    ensures Heads(Phases(contents, hash)) == Headers(HeaderReadings(Lines(contents)))
  {
    var lines := Lines(contents);
    ScanHeads(lines, HeaderReadings(lines), None, [], hash);
  }

  /** Text before the first header belongs to no phase. */
  lemma {:induction false} PreambleIgnored(pre: seq<string>, rest: seq<string>, hash: string -> string)
    requires forall k :: 0 <= k < |pre| ==> ParsePhaseHeader(pre[k]).None?
    ensures Scan(pre + rest, HeaderReadings(pre + rest), None, [], hash) == Scan(rest, HeaderReadings(rest), None, [], hash)
    decreases |pre|
  {
    if pre != [] {
      var all := pre + rest;
      assert all[0] == pre[0] && all[1..] == pre[1..] + rest;
      assert HeaderReadings(all)[1..] == HeaderReadings(pre[1..] + rest);
      assert Extend(None, pre[0]) == None;
      PreambleIgnored(pre[1..], rest, hash);
    } else {
      assert pre + rest == rest;
    }
  }

  /** `split_header` on `left + " " + sep + " " + right`, where `left` holds no separator. */
  lemma SplitHeaderAt(line: string, left: string, sep: char, right: string)
    requires sep == '—' || sep == '-'
    requires line == left + [' ', sep, ' '] + right
    requires '—' !in left && '-' !in left && (sep == '-' ==> '—' !in right)
    requires left != [] && !IsWhitespace(left[0]) && !IsWhitespace(left[|left| - 1])
    requires right != [] && !IsWhitespace(right[0]) && !IsWhitespace(right[|right| - 1])
    ensures SplitHeader(line) == Some((left, right))
  {
    var k := |left| + 1;
    assert line[..k] == left + [' '];
    assert line[k + 1..] == [' '] + right;
    assert line[k] == sep;
    if sep == '—' {
      assert '—' in line;
      assert '—' !in line[..k];
    } else {
      assert '—' !in line;
      assert '-' in line;
      assert '-' !in line[..k];
    }
    assert HeaderSeparator(line) == Some(k);
    TrimPadded(left);
    TrimPadded(right);
  }

  /** Every 32-bit number written in decimal digits reads as itself. */
  lemma DigitNumber(n: nat)
    requires n < U32_BOUND
    ensures ParsePhaseNumber(NatToString(n)) == Some(n)
  {
    ParseFormatted(n, U32_BOUND);
  }

  /** The number words of the table are plain lowercase words. */
  lemma KnownWordLetters(w: string)
    requires WordValue(w).Some?
    ensures w != [] && w != "and" && w != "hundred"
    ensures forall i :: 0 <= i < |w| ==> 'a' <= w[i] <= 'z'
  {
    if w == "zero" {} else if w == "one" {} else if w == "two" {} else if w == "three" {}
    else if w == "four" {} else if w == "five" {} else if w == "six" {} else if w == "seven" {}
    else if w == "eight" {} else if w == "nine" {} else if w == "ten" {} else if w == "eleven" {}
    else if w == "twelve" {} else if w == "thirteen" {} else if w == "fourteen" {}
    else if w == "fifteen" {} else if w == "sixteen" {} else if w == "seventeen" {}
    else if w == "eighteen" {} else if w == "nineteen" {} else if w == "twenty" {}
    else if w == "thirty" {} else if w == "forty" {} else if w == "fifty" {} else if w == "sixty" {}
  }

  /** Every number word of the table, standing alone, reads as its value. */
  lemma WordNumber(w: string)
    requires WordValue(w).Some?
    ensures ParsePhaseNumber(w) == WordValue(w)
  {
    KnownWordLetters(w);
    ParseRejectsNonDigit(w, U32_BOUND, 0);
    LowerWordNormalized(w);
    SplitWhitespaceOfWord(w);
    assert Accumulate(0, [w]) == Accumulate(WordValue(w).value, []);
  }

  /** A lowercase word comes through the normalisation of `parse_phase_number` unchanged. */
  lemma LowerWordNormalized(w: string)
    requires w != [] && forall i :: 0 <= i < |w| ==> 'a' <= w[i] <= 'z'
    ensures Trim(Replace(Replace(ToLower(w), "-", " "), "_", " ")) == w
    ensures IsWord(w)
  {
    forall i | 0 <= i < |w|
      ensures w[i] != '-' && w[i] != '_' && !IsWhitespace(w[i])
    {
      LetterNotBlank(w[i]);
    }
    ToLowerOfNoUpper(w);
    ContainsChar(w, '-');
    ContainsChar(w, '_');
    var once := Replace(w, "-", " ");
    assert once == w;
    assert Replace(once, "_", " ") == w;
    TrimPlain(w);
  }

  lemma LetterNotBlank(c: char)
    requires 'a' <= c <= 'z'
    ensures c != '-' && c != '_' && !IsWhitespace(c)
  {
  }

  /** Lowercasing keeps a leading "phase ". */
  lemma LowerKeepsPhase(rest: string)
    ensures StartsWith(ToLower("phase " + rest), "phase ")
  {
    var s := "phase " + rest;
    var r := ToLower(s);
    forall i | 0 <= i < 6
      ensures r[i] == "phase "[i]
    {
      assert s[i] == "phase "[i];
    }
    assert r[..6] == "phase ";
  }

  /** A number phrase `token` and a title the header splitter keeps whole. */
  predicate HeaderPieces(token: string, sep: char, title: string)
  {
    (sep == '—' || sep == '-')
    && token != [] && !IsWhitespace(token[0]) && !IsWhitespace(token[|token| - 1])
    && '—' !in token && '-' !in token
    && title != [] && !IsWhitespace(title[0]) && !IsWhitespace(title[|title| - 1])
    && (sep == '-' ==> '—' !in title)
  }

  /** "phase <token> <sep> <title>" is already trimmed and splits into "phase <token>" and the title. */
  lemma HeaderSplits(token: string, sep: char, title: string)
    requires HeaderPieces(token, sep, title)
    ensures var line := "phase " + token + [' ', sep, ' '] + title;
      line != [] && Trim(line) == line && SplitHeader(line) == Some(("phase " + token, title))
    ensures Trim(title) == title
  {
    var left := "phase " + token;
    var line := "phase " + token + [' ', sep, ' '] + title;
    assert line[0] == 'p';
    TrimPlain(title);
    assert forall i :: 0 <= i < |left| ==> left[i] != '—' && left[i] != '-' by {
      forall i | 0 <= i < |left| ensures left[i] != '—' && left[i] != '-' {
        if i >= 6 {
          assert left[i] == token[i - 6];
        }
      }
    }
    assert left[|left| - 1] == token[|token| - 1];
    SplitHeaderAt(line, left, sep, title);
    assert line[0] == 'p' && line[|line| - 1] == title[|title| - 1];
    TrimPlain(line);
  }

  /** The number phrase after "phase ", trimmed, is the phrase itself. */
  lemma TokenAfterPhase(token: string)
    requires token != [] && !IsWhitespace(token[0]) && !IsWhitespace(token[|token| - 1])
    ensures Trim(("phase " + token)[6..]) == token
  {
    assert ("phase " + token)[6..] == token;
    TrimPlain(token);
  }


  /**
   * `parse_phase_header` reads back a header "phase <token> — <title>" or
   * "phase <token> - <title>": the number the token names and the title.
   */
  lemma HeaderParsed(token: string, sep: char, title: string, n: nat)
    requires HeaderPieces(token, sep, title)
    requires ParsePhaseNumber(token) == Some(n)
    ensures ParsePhaseHeader("phase " + token + [' ', sep, ' '] + title) == Some((n, title))
  {
    LowerKeepsPhase(token);
    TokenAfterPhase(token);
    HeaderSplits(token, sep, title);
  }

  /**
   * Every header written "phase <n> - <title>" reads back its number and
   * title, for any 32-bit number and any title without an em dash or
   * surrounding blanks.
   */
  lemma HeaderRoundTrip(n: nat, title: string)
    requires n < U32_BOUND
    requires title != [] && !IsWhitespace(title[0]) && !IsWhitespace(title[|title| - 1]) && '—' !in title
    ensures ParsePhaseHeader("phase " + NatToString(n) + " - " + title) == Some((n, title))
  {
    var digits := NatToString(n);
    DigitPieces(n, title);
    DigitNumber(n);
    HeaderParsed(digits, '-', title, n);
    HyphenSpelled(digits, title);
  }

  /** A number in decimal digits and a plain title are the pieces of a hyphen header. */
  lemma DigitPieces(n: nat, title: string)
    requires title != [] && !IsWhitespace(title[0]) && !IsWhitespace(title[|title| - 1]) && '—' !in title
    ensures HeaderPieces(NatToString(n), '-', title)
  {
    var digits := NatToString(n);
    assert forall i :: 0 <= i < |digits| ==> IsDigit(digits[i]);
    assert !IsWhitespace(digits[0]) && !IsWhitespace(digits[|digits| - 1]);
  }

  lemma HyphenSpelled(token: string, title: string)
    ensures "phase " + token + " - " + title == "phase " + token + [' ', '-', ' '] + title
  {
  }


  /** The em-dash header of the source's own test parses to phase 6, "living artifacts". */
  lemma EmDashHeaderParsed(line: string)
    requires line == "phase six — living artifacts"
    ensures ParsePhaseHeader(line) == Some((6, "living artifacts"))
  {
    var token, title := "six", "living artifacts";
    EmDashPieces(line, token, title);
    WordNumber(token);
    HeaderParsed(token, '—', title, 6);
  }

  /** The em-dash test header cut into its pieces. */
  lemma EmDashPieces(line: string, token: string, title: string)
    requires line == "phase six — living artifacts"
    requires token == "six" && title == "living artifacts"
    ensures line == "phase " + token + [' ', '—', ' '] + title
    ensures HeaderPieces(token, '—', title)
  {
    assert |line| == 28 && line[6] == 's' && line[10] == '—';
    assert line[..6] == "phase " && line[6..9] == token && line[9..12] == [' ', '—', ' '] && line[12..] == title;
    assert line == line[..6] + line[6..9] + line[9..12] + line[12..];
  }

  /** The hyphen header of the source's own test parses to phase 7, "voice navigation". */
  lemma HyphenHeaderParsed(line: string)
    requires line == "phase 7 - voice navigation"
    ensures ParsePhaseHeader(line) == Some((7, "voice navigation"))
  {
    var token, title := "7", "voice navigation";
    HyphenPieces(line, token, title);
    DigitNumber(7);
    assert NatToString(7) == token;
    HeaderParsed(token, '-', title, 7);
  }

  /** The hyphen test header cut into its pieces. */
  lemma HyphenPieces(line: string, token: string, title: string)
    requires line == "phase 7 - voice navigation"
    requires token == "7" && title == "voice navigation"
    ensures line == "phase " + token + [' ', '-', ' '] + title
    ensures HeaderPieces(token, '-', title)
  {
    assert line[..6] == "phase " && line[6..7] == token && line[7..10] == [' ', '-', ' '] && line[10..] == title;
    assert line == line[..6] + line[6..7] + line[7..10] + line[10..];
  }


  // ===========================================================================
  // Applying a batch of patches
  // ===========================================================================

  datatype PatchKind = UnifiedDiff | YamlMerge

  datatype ArtifactPatch = ArtifactPatch(path: string, kind: PatchKind, data: string)

  datatype RejectedPatch = RejectedPatch(path: string, reason: string, rejectPath: string)

  datatype Report = Report(applied: seq<string>, rejected: seq<RejectedPatch>, phasingChanged: bool)

  const EmptyReport := Report([], [], false)

  /**
   * How the file-level step for one patch ended: the diff or merge either
   * succeeded (changing the file or not) or failed with a reason; on failure
   * the reject file is written, which may itself fail.
   */
  datatype FileOutcome = Applied(changed: bool) | Failed(reason: string, rejectWrite: Result<string>)

  /** `is_phasing_file`: the target's file name is phasing.md. */
  predicate IsPhasingFile(target: string)
  {
    FileName(target) == Some(PHASING_FILE)
  }

  /** One patch's entry in the report. */
  function Record(acc: Report, kind: PatchKind, target: string, outcome: FileOutcome): (r: Result<Report>)
    ensures r.Err? <==> outcome.Failed? && outcome.rejectWrite.Err?
    ensures r.Ok? ==> r.value.applied == (if outcome == Applied(true) then acc.applied + [target] else acc.applied)
    ensures r.Ok? ==> r.value.rejected == (if outcome.Failed? then acc.rejected + [RejectedPatch(target, outcome.reason, outcome.rejectWrite.value)] else acc.rejected)
    ensures r.Ok? ==> (r.value.phasingChanged <==> acc.phasingChanged || (kind == UnifiedDiff && outcome == Applied(true) && IsPhasingFile(target)))
  {
    match outcome
    case Applied(changed) =>
      if !changed then Ok(acc)
      else Ok(acc.(applied := acc.applied + [target],
                   phasingChanged := acc.phasingChanged || (kind == UnifiedDiff && IsPhasingFile(target))))
    case Failed(reason, rejectWrite) =>
      match rejectWrite
      case Err(e) => Err(e)
      case Ok(rejectPath) => Ok(acc.(rejected := acc.rejected + [RejectedPatch(target, reason, rejectPath)]))
  }

  /** Each patch's placement, by `normalize_patch_path` as written. */
  function Targets(patches: seq<ArtifactPatch>): (ts: seq<Result<string>>)
    ensures |ts| == |patches| && forall i :: 0 <= i < |patches| ==> ts[i] == NormalizePatchPathAsWritten(patches[i].path)
  {
    seq(|patches|, i requires 0 <= i < |patches| => NormalizePatchPathAsWritten(patches[i].path))
  }

  /** Each patch's placement by the corrected normaliser. */
  function TargetsMended(patches: seq<ArtifactPatch>): (ts: seq<Result<string>>)
    ensures |ts| == |patches| && forall i :: 0 <= i < |patches| ==> ts[i] == NormalizePatchPath(patches[i].path)
  {
    seq(|patches|, i requires 0 <= i < |patches| => NormalizePatchPath(patches[i].path))
  }

  /** The corrected placements are the written ones, minus those with a ".." step. */
  lemma TargetsMendedRefine(patches: seq<ArtifactPatch>)
    ensures forall i :: 0 <= i < |patches| ==>
      (TargetsMended(patches)[i].Ok? <==> Targets(patches)[i].Ok? && ParentDir !in Components(Targets(patches)[i].value))
    ensures forall i :: 0 <= i < |patches| && TargetsMended(patches)[i].Ok? ==> TargetsMended(patches)[i] == Targets(patches)[i]
  {
    forall i | 0 <= i < |patches|
      ensures TargetsMended(patches)[i].Ok? <==> Targets(patches)[i].Ok? && ParentDir !in Components(Targets(patches)[i].value)
      ensures TargetsMended(patches)[i].Ok? ==> TargetsMended(patches)[i] == Targets(patches)[i]
    {
      NormalizeRefinesAsWritten(patches[i].path);
    }
  }

  /**
   * The report for the patches, given each patch's placement `ts` and file
   * outcome; the first refused path or failed reject write aborts the batch.
   */
  function Bookkeep(patches: seq<ArtifactPatch>, ts: seq<Result<string>>, outcomes: seq<FileOutcome>, acc: Report): (r: Result<Report>)
    requires |ts| == |patches| && |outcomes| == |patches|
    ensures r.Ok? ==> forall k :: 0 <= k < |ts| ==> ts[k].Ok?
    ensures r.Ok? ==> acc.applied <= r.value.applied && acc.rejected <= r.value.rejected
    ensures r.Ok? ==> |r.value.applied| + |r.value.rejected| <= |acc.applied| + |acc.rejected| + |patches|
    decreases |patches|
  {
    if patches == [] then Ok(acc)
    else if ts[0].Err? then Err(ts[0].error)
    else
      var step := Record(acc, patches[0].kind, ts[0].value, outcomes[0]);
      if step.Err? then Err(step.error)
      else Bookkeep(patches[1..], ts[1..], outcomes[1..], step.value)
  }

  /** Bookkeeping from patch `i` on is patch `i`'s step, then the rest. */
  lemma BookkeepStep(patches: seq<ArtifactPatch>, ts: seq<Result<string>>, outcomes: seq<FileOutcome>, i: nat, acc: Report)
    requires |ts| == |patches| && |outcomes| == |patches| && i < |patches|
    ensures Bookkeep(patches[i..], ts[i..], outcomes[i..], acc) ==
      if ts[i].Err? then Err(ts[i].error)
      else
        var step := Record(acc, patches[i].kind, ts[i].value, outcomes[i]);
        if step.Err? then Err(step.error)
        else Bookkeep(patches[i + 1..], ts[i + 1..], outcomes[i + 1..], step.value)
  {
    assert patches[i..][0] == patches[i] && patches[i..][1..] == patches[i + 1..];
    assert ts[i..][0] == ts[i] && ts[i..][1..] == ts[i + 1..];
    assert outcomes[i..][0] == outcomes[i] && outcomes[i..][1..] == outcomes[i + 1..];
  }

  /** The body of `apply_patches`' loop for one patch placed at `target`. */
  method RecordOutcome(acc: Report, kind: PatchKind, target: string, outcome: FileOutcome) returns (r: Result<Report>)
    ensures r == Record(acc, kind, target, outcome)
  {
    var applied, rejected, phasingChanged := acc.applied, acc.rejected, acc.phasingChanged;
    match outcome {
      case Applied(changed) =>
        if changed {
          if kind == UnifiedDiff && IsPhasingFile(target) {
            phasingChanged := true;
          }
          applied := applied + [target];
        }
      case Failed(reason, rejectWrite) =>
        if rejectWrite.Err? {
          return Err(rejectWrite.error);
        }
        rejected := rejected + [RejectedPatch(target, reason, rejectWrite.value)];
    }
    return Ok(Report(applied, rejected, phasingChanged));
  }

  /** `apply_patches`: the loop over the batch. */
  method ApplyPatches(patches: seq<ArtifactPatch>, outcomes: seq<FileOutcome>) returns (r: Result<Report>)
    requires |patches| == |outcomes|
    ensures r == Bookkeep(patches, Targets(patches), outcomes, EmptyReport)
  {
    ghost var ts := Targets(patches);
    if patches == [] {
      return Ok(EmptyReport);
    }
    var applied: seq<string> := [];
    var rejected: seq<RejectedPatch> := [];
    var phasingChanged := false;
    var i := 0;
    while i < |patches|
      invariant 0 <= i <= |patches|
      invariant Bookkeep(patches, ts, outcomes, EmptyReport) == Bookkeep(patches[i..], ts[i..], outcomes[i..], Report(applied, rejected, phasingChanged))
    {
      BookkeepStep(patches, ts, outcomes, i, Report(applied, rejected, phasingChanged));
      var target := NormalizePatchPathAsWritten(patches[i].path);
      assert target == ts[i];
      if target.Err? {
        return Err(target.error);
      }
      var step := RecordOutcome(Report(applied, rejected, phasingChanged), patches[i].kind, target.value, outcomes[i]);
      if step.Err? {
        return Err(step.error);
      }
      applied, rejected, phasingChanged := step.value.applied, step.value.rejected, step.value.phasingChanged;
      i := i + 1;
    }
    assert patches[i..] == [];
    return Ok(Report(applied, rejected, phasingChanged));
  }

  /** Every placement the corrected normaliser makes lies inside `artifacts`. */
  lemma TargetsConfined(patches: seq<ArtifactPatch>)
    ensures forall i :: 0 <= i < |patches| && TargetsMended(patches)[i].Ok? ==> Confined(TargetsMended(patches)[i].value)
  {
    forall i | 0 <= i < |patches| && TargetsMended(patches)[i].Ok?
      ensures Confined(TargetsMended(patches)[i].value)
    {
      AcceptedPathConfined(patches[i].path);
    }
  }

  predicate AllConfined(paths: seq<string>)
  {
    forall k :: 0 <= k < |paths| ==> Confined(paths[k])
  }

  predicate RejectsConfined(rs: seq<RejectedPatch>)
  {
    forall k :: 0 <= k < |rs| ==> Confined(rs[k].path)
  }

  /** Recording a confined placement keeps the report confined. */
  lemma RecordKeepsConfined(acc: Report, kind: PatchKind, target: string, outcome: FileOutcome)
    requires Confined(target) && Record(acc, kind, target, outcome).Ok?
    requires AllConfined(acc.applied) && RejectsConfined(acc.rejected)
    ensures AllConfined(Record(acc, kind, target, outcome).value.applied)
    ensures RejectsConfined(Record(acc, kind, target, outcome).value.rejected)
  {
    var r := Record(acc, kind, target, outcome).value;
    forall k | 0 <= k < |r.applied| ensures Confined(r.applied[k]) {
      if k < |acc.applied| { assert r.applied[k] == acc.applied[k]; }
    }
    forall k | 0 <= k < |r.rejected| ensures Confined(r.rejected[k].path) {
      if k < |acc.rejected| { assert r.rejected[k] == acc.rejected[k]; }
    }
  }

  /** A report built from confined placements holds only confined paths. */
  lemma {:induction false} ReportedPathsConfined(patches: seq<ArtifactPatch>, ts: seq<Result<string>>, outcomes: seq<FileOutcome>, acc: Report)
    requires |ts| == |patches| && |outcomes| == |patches|
    requires Bookkeep(patches, ts, outcomes, acc).Ok?
    requires forall i :: 0 <= i < |ts| && ts[i].Ok? ==> Confined(ts[i].value)
    requires AllConfined(acc.applied) && RejectsConfined(acc.rejected)
    ensures AllConfined(Bookkeep(patches, ts, outcomes, acc).value.applied)
    ensures RejectsConfined(Bookkeep(patches, ts, outcomes, acc).value.rejected)
    decreases |patches|
  {
    if patches != [] {
      var acc' := Record(acc, patches[0].kind, ts[0].value, outcomes[0]).value;
      RecordKeepsConfined(acc, patches[0].kind, ts[0].value, outcomes[0]);
      var rest := ts[1..];
      assert forall i :: 0 <= i < |rest| && rest[i].Ok? ==> Confined(rest[i].value) by {
        forall i | 0 <= i < |rest| && rest[i].Ok? ensures Confined(rest[i].value) {
          assert rest[i] == ts[i + 1];
        }
      }
      ReportedPathsConfined(patches[1..], rest, outcomes[1..], acc');
    }
  }

  /**
   * With the corrected normaliser, every path the batch reports, applied
   * or rejected, lies inside `artifacts`.
   */
  lemma BatchStaysInside(patches: seq<ArtifactPatch>, outcomes: seq<FileOutcome>)
    requires |patches| == |outcomes| && Bookkeep(patches, TargetsMended(patches), outcomes, EmptyReport).Ok?
    ensures AllConfined(Bookkeep(patches, TargetsMended(patches), outcomes, EmptyReport).value.applied)
    ensures RejectsConfined(Bookkeep(patches, TargetsMended(patches), outcomes, EmptyReport).value.rejected)
  {
    TargetsConfined(patches);
    ReportedPathsConfined(patches, TargetsMended(patches), outcomes, EmptyReport);
  }

  /**
   * As written, a batch of the one patch "../<name>" that applies reports
   * "artifacts/../<name>", a path outside `artifacts`.
   */
  lemma EscapingBatchApplied(name: string, kind: PatchKind, data: string)
    requires name != [] && name != "." && name != ".." && '/' !in name && name != ARTIFACTS_DIR
    ensures var patches := [ArtifactPatch("../" + name, kind, data)];
      var r := Bookkeep(patches, Targets(patches), [Applied(true)], EmptyReport);
      r.Ok? && r.value.applied == ["artifacts/../" + name] && !AllConfined(r.value.applied)
  {
    var patches := [ArtifactPatch("../" + name, kind, data)];
    var t := "artifacts/../" + name;
    ParentStepAccepted(name);
    ParentStepLeadsOutside(name);
    var ts := Targets(patches);
    assert ts[0] == Ok(t);
    var step := Record(EmptyReport, kind, t, Applied(true));
    assert step.Ok? && step.value.applied == [t];
    var outcomes := [Applied(true)];
    assert patches[1..] == [] && ts[1..] == [] && outcomes[1..] == [];
    var r := Bookkeep(patches, ts, outcomes, EmptyReport);
    assert r == Bookkeep(patches[1..], ts[1..], outcomes[1..], step.value) == Ok(step.value);
    assert r.value.applied[0] == t && !Confined(t);
  }

  /** The corrected batch refuses the same patch. */
  lemma EscapingBatchRefused(name: string, kind: PatchKind, data: string)
    requires name != [] && name != "." && name != ".." && '/' !in name
    ensures var patches := [ArtifactPatch("../" + name, kind, data)];
      Bookkeep(patches, TargetsMended(patches), [Applied(true)], EmptyReport).Err?
  {
    var patches := [ArtifactPatch("../" + name, kind, data)];
    ParentStepRefused(name);
    assert TargetsMended(patches)[0].Err?;
  }

  /** Each patch adds at most one entry, applied or rejected, and earlier entries stay. */
  lemma {:induction false} ReportGrowsByOnePerPatch(patches: seq<ArtifactPatch>, ts: seq<Result<string>>, outcomes: seq<FileOutcome>, acc: Report)
    requires |ts| == |patches| && |outcomes| == |patches|
    requires Bookkeep(patches, ts, outcomes, acc).Ok?
    ensures var rep := Bookkeep(patches, ts, outcomes, acc).value;
      |rep.applied| + |rep.rejected| <= |acc.applied| + |acc.rejected| + |patches| &&
      |acc.applied| <= |rep.applied| && rep.applied[..|acc.applied|] == acc.applied &&
      |acc.rejected| <= |rep.rejected| && rep.rejected[..|acc.rejected|] == acc.rejected &&
      (acc.phasingChanged ==> rep.phasingChanged)
    decreases |patches|
  {
    if patches != [] {
      var acc' := Record(acc, patches[0].kind, ts[0].value, outcomes[0]).value;
      ReportGrowsByOnePerPatch(patches[1..], ts[1..], outcomes[1..], acc');
      var rep := Bookkeep(patches, ts, outcomes, acc).value;
      assert rep.applied[..|acc.applied|] == rep.applied[..|acc'.applied|][..|acc.applied|];
      assert rep.rejected[..|acc.rejected|] == rep.rejected[..|acc'.rejected|][..|acc.rejected|];
    }
  }

  /** `phasing_changed` is set only by a unified diff that changed phasing.md. */
  lemma {:induction false} PhasingChangedOnlyByPhasingDiff(patches: seq<ArtifactPatch>, ts: seq<Result<string>>, outcomes: seq<FileOutcome>, acc: Report)
    requires |ts| == |patches| && |outcomes| == |patches|
    requires Bookkeep(patches, ts, outcomes, acc).Ok?
    requires Bookkeep(patches, ts, outcomes, acc).value.phasingChanged && !acc.phasingChanged
    ensures exists j :: 0 <= j < |patches| && PhasingDiffAt(patches, ts, outcomes, j)
    decreases |patches|
  {
    var acc' := Record(acc, patches[0].kind, ts[0].value, outcomes[0]).value;
    if acc'.phasingChanged {
      assert PhasingDiffAt(patches, ts, outcomes, 0);
    } else {
      PhasingChangedOnlyByPhasingDiff(patches[1..], ts[1..], outcomes[1..], acc');
      var j :| 0 <= j < |patches| - 1 && PhasingDiffAt(patches[1..], ts[1..], outcomes[1..], j);
      assert PhasingDiffAt(patches, ts, outcomes, j + 1);
    }
  }

  /** Patch `j` is a unified diff that changed a file named phasing.md. */
  predicate PhasingDiffAt(patches: seq<ArtifactPatch>, ts: seq<Result<string>>, outcomes: seq<FileOutcome>, j: nat)
    requires |ts| == |patches| && |outcomes| == |patches| && j < |patches|
  {
    patches[j].kind == UnifiedDiff && outcomes[j] == Applied(true) && ts[j].Ok? && IsPhasingFile(ts[j].value)
  }

  /** A patch whose path is refused makes the whole batch fail. */
  lemma {:induction false} RefusedPathAborts(patches: seq<ArtifactPatch>, ts: seq<Result<string>>, outcomes: seq<FileOutcome>, acc: Report, j: nat)
    requires |ts| == |patches| && |outcomes| == |patches| && j < |patches|
    requires ts[j].Err?
    ensures Bookkeep(patches, ts, outcomes, acc).Err?
    decreases j
  {
    if j > 0 && ts[0].Ok? {
      var step := Record(acc, patches[0].kind, ts[0].value, outcomes[0]);
      if step.Ok? {
        assert ts[1..][j - 1] == ts[j];
        RefusedPathAborts(patches[1..], ts[1..], outcomes[1..], step.value, j - 1);
      }
    }
  }
}
