/** The image-renaming script: validate the mapping of old base names to new ones, plan
    a rename for every matching original and optimized image, and carry the plan out
    with collision and dry-run handling. */
module RenameImages {
  import opened Wrappers
  import PyPath
  import PyDict
  import opened AssetFs
  import opened SeqUtil

  const SUPPORTED_INPUT_EXTS: seq<string> := [".jpg", ".jpeg", ".png", ".JPG", ".JPEG", ".PNG"]
  const WEBP_EXTS: seq<string> := [".webp", ".WEBP"]

  datatype LoadError = FileNotFound | InvalidJson | NotAnObject

  /** `load_mapping`: a missing file raises `FileNotFoundError`, unparsable text a JSON
      error and any document that is not an object `ValueError`; an object becomes a
      dictionary. */
  function LoadMapping(doc: JsonDoc): (r: Result<PyDict.Dict<JsonValue>, LoadError>)
    ensures doc.Missing? <==> r == Failure(FileNotFound)
    ensures doc.Malformed? <==> r == Failure(InvalidJson)
    ensures r == Failure(NotAnObject) <==> doc.Parsed? && !doc.value.JObject?
    ensures r.Success? ==> doc.Parsed? && doc.value.JObject? && PyDict.DistinctKeys(r.value)
  {
    match doc
    case Missing => Failure(FileNotFound)
    case Malformed => Failure(InvalidJson)
    case Parsed(v) =>
      if v.JObject? then
        PyDict.FromPairsDistinct(v.pairs);
        Success(PyDict.FromPairs(v.pairs))
      else Failure(NotAnObject)
  }

  /** `os.path.join(os.path.dirname(src), f"{new_base}{ext}")` with `ext` the extension
      of `src`. */
  function RenamedPath(src: string, newBase: string): string {
    PyPath.Join(PyPath.Dirname(src), newBase + PyPath.SplitExt(src).1)
  }

  /** Whatever the new base name, the new path ends with it and the old extension; unless
      it is absolute, the new path also starts with the source's directory. */
  lemma RenamedPathEnds(src: string, newBase: string)
    ensures var r := RenamedPath(src, newBase); var tail := newBase + PyPath.SplitExt(src).1;
      |tail| <= |r| && r[|r| - |tail|..] == tail
    ensures var r := RenamedPath(src, newBase); var dir := PyPath.Dirname(src);
      !(|newBase| > 0 && newBase[0] == '/') ==> |dir| <= |r| && r[..|dir|] == dir
  {
    PyPath.ExtShape(src);
  }

  /** `f"{new_base}"`: a JSON string is its own text; any other value of the mapping (an
      object such as a merged-in `"metadata"` block, a number, ...) goes through
      Python's `str`, which is a parameter. */
  function NewBase(v: JsonValue, str: JsonValue -> string): string {
    if v.JStr? then v.s else str(v)
  }

  /** An absolute new base name is not kept in the source's directory: `os.path.join`
      drops the directory and the file lands at the new name itself. */
  lemma AbsoluteNewBaseLeavesFolder(src: string, newBase: string)
    requires |newBase| > 0 && newBase[0] == '/'
    ensures RenamedPath(src, newBase) == newBase + PyPath.SplitExt(src).1
  {
  }

  /** A new base name `sub/name` puts the file in the sub-folder `sub` of the source's
      directory, not in that directory itself. */
  lemma NestedNewBaseLeavesFolder(src: string, sub: string, name: string)
    requires sub != [] && '/' !in sub && '/' !in name
    ensures PyPath.Dirname(RenamedPath(src, sub + "/" + name)) == PyPath.Join(PyPath.Dirname(src), sub)
    ensures PyPath.Dirname(RenamedPath(src, sub + "/" + name)) != PyPath.Dirname(src)
  {
    var ext := PyPath.SplitExt(src).1;
    PyPath.ExtShape(src);
    assert sub + "/" + name + ext == sub + "/" + (name + ext);
    PyPath.DirnameNested(PyPath.Dirname(src), sub, name + ext);
  }

  /** A rename stays in the source's directory, keeps its extension and changes only the
      base name, provided the new base name holds no '/'. */
  lemma RenamedPathShape(src: string, newBase: string)
    requires '/' !in newBase
    ensures PyPath.Dirname(RenamedPath(src, newBase)) == PyPath.Dirname(src)
    ensures PyPath.Basename(RenamedPath(src, newBase)) == newBase + PyPath.SplitExt(src).1
  {
    PyPath.ExtShape(src);
    var name := newBase + PyPath.SplitExt(src).1;
    assert '/' !in name;
    PyPath.DirnameJoin(src, name);
    PyPath.BasenameJoin(PyPath.Dirname(src), name);
  }

  /** Renaming `src` to `newBase` would change its path. */
  predicate Moves(src: string, newBase: string) {
    src != RenamedPath(src, newBase)
  }

  /** The `(src, dst)` pair that renames `src` to `newBase`. */
  function RenameOp(src: string, newBase: string): (string, string) {
    (src, RenamedPath(src, newBase))
  }

  /** The renames for the matches of one key, in match order, skipping those that would
      not move. */
  function RenameOps(matches: seq<string>, newBase: string): seq<(string, string)> {
    FilterMap(matches, src => Moves(src, newBase), src => RenameOp(src, newBase))
  }

  /** `(src, dst)` is planned for `matches` exactly when `src` is a match that the rename
      moves to `dst`. */
  lemma RenameOpsMembers(matches: seq<string>, newBase: string, op: (string, string))
    ensures op in RenameOps(matches, newBase) <==>
      op.0 in matches && op.1 == RenamedPath(op.0, newBase) && op.0 != op.1
  {
    FilterMapMembers(matches, src => Moves(src, newBase), src => RenameOp(src, newBase), op);
    if op.0 in matches && op.1 == RenamedPath(op.0, newBase) && op.0 != op.1 {
      var j :| 0 <= j < |matches| && matches[j] == op.0;
      assert Moves(matches[j], newBase) && op == RenameOp(matches[j], newBase);
    }
  }

  /** The renames for one mapping entry: those of its original images, then those of its
      optimized images. */
  function EntryRenames(assets: seq<WalkDir>, optimized: seq<WalkDir>, entry: (string, JsonValue),
                        str: JsonValue -> string): seq<(string, string)> {
    RenameOps(MatchingPaths(assets, entry.0, SUPPORTED_INPUT_EXTS), NewBase(entry.1, str))
    + RenameOps(MatchingPaths(optimized, entry.0, WEBP_EXTS), NewBase(entry.1, str))
  }

  /** The whole plan: the renames of every entry, in mapping order. */
  function PlannedRenames(mapping: PyDict.Dict<JsonValue>, assets: seq<WalkDir>, optimized: seq<WalkDir>,
                          str: JsonValue -> string): seq<(string, string)> {
    ConcatMap(mapping, e => EntryRenames(assets, optimized, e, str))
  }

  /** `(src, dst)` is a planned rename exactly when `src` is an original or optimized
      image of some key whose rename moves it to `dst`, with `dst` different from `src`. */
  lemma PlannedRenamesMembers(mapping: PyDict.Dict<JsonValue>, assets: seq<WalkDir>,
                              optimized: seq<WalkDir>, str: JsonValue -> string, op: (string, string))
    ensures op in PlannedRenames(mapping, assets, optimized, str) <==>
      exists i :: 0 <= i < |mapping| && op.1 == RenamedPath(op.0, NewBase(mapping[i].1, str)) && op.0 != op.1
        && (op.0 in MatchingPaths(assets, mapping[i].0, SUPPORTED_INPUT_EXTS)
            || op.0 in MatchingPaths(optimized, mapping[i].0, WEBP_EXTS))
  {
    ConcatMapMembers(mapping, e => EntryRenames(assets, optimized, e, str), op);
    forall i | 0 <= i < |mapping|
      ensures op in EntryRenames(assets, optimized, mapping[i], str) <==>
        op.1 == RenamedPath(op.0, NewBase(mapping[i].1, str)) && op.0 != op.1
        && (op.0 in MatchingPaths(assets, mapping[i].0, SUPPORTED_INPUT_EXTS)
            || op.0 in MatchingPaths(optimized, mapping[i].0, WEBP_EXTS))
    {
      RenameOpsMembers(MatchingPaths(assets, mapping[i].0, SUPPORTED_INPUT_EXTS), NewBase(mapping[i].1, str), op);
      RenameOpsMembers(MatchingPaths(optimized, mapping[i].0, WEBP_EXTS), NewBase(mapping[i].1, str), op);
    }
  }

  /** Every planned rename moves a file whose base name is the key and whose extension
      is a supported one to a different path in the same directory with the same
      extension and the new base name. */
  lemma PlannedRenameShape(mapping: PyDict.Dict<JsonValue>, assets: seq<WalkDir>, optimized: seq<WalkDir>,
                           str: JsonValue -> string, i: nat, op: (string, string))
    requires WellFormed(assets) && WellFormed(optimized)
    requires i < |mapping| && '/' !in NewBase(mapping[i].1, str)
    requires op.0 in MatchingPaths(assets, mapping[i].0, SUPPORTED_INPUT_EXTS)
          || op.0 in MatchingPaths(optimized, mapping[i].0, WEBP_EXTS)
    requires op.1 == RenamedPath(op.0, NewBase(mapping[i].1, str))
    ensures PyPath.SplitExt(op.0).1 in SUPPORTED_INPUT_EXTS + WEBP_EXTS
    ensures PyPath.Basename(op.0) == mapping[i].0 + PyPath.SplitExt(op.0).1
    ensures PyPath.Dirname(op.1) == PyPath.Dirname(op.0)
    ensures PyPath.Basename(op.1) == NewBase(mapping[i].1, str) + PyPath.SplitExt(op.0).1
  {
    if op.0 in MatchingPaths(assets, mapping[i].0, SUPPORTED_INPUT_EXTS) {
      MatchedPathShape(assets, mapping[i].0, SUPPORTED_INPUT_EXTS, op.0);
    } else {
      MatchedPathShape(optimized, mapping[i].0, WEBP_EXTS, op.0);
    }
    RenamedPathShape(op.0, NewBase(mapping[i].1, str));
  }

  /** Appends the renames of `matches` to `ops`, one match at a time. */
  method AppendRenames(ops: seq<(string, string)>, matches: seq<string>, newBase: string)
    returns (out: seq<(string, string)>)
    ensures out == ops + RenameOps(matches, newBase)
  {
    out := ops;
    for k := 0 to |matches|
      invariant out == ops + RenameOps(matches[..k], newBase)
    {
      var src := matches[k];
      var dst := RenamedPath(src, newBase);
      FilterMapStep(matches, src => Moves(src, newBase), src => RenameOp(src, newBase), k);
      if src != dst {
        out := out + [(src, dst)];
      }
    }
    assert matches[..|matches|] == matches;
  }

  /** `plan_renames` */
  method PlanRenames(mapping: PyDict.Dict<JsonValue>, assets: seq<WalkDir>, optimized: seq<WalkDir>,
                     str: JsonValue -> string)
    returns (ops: seq<(string, string)>)
    ensures ops == PlannedRenames(mapping, assets, optimized, str)
  {
    ops := [];
    for i := 0 to |mapping|
      invariant ops == PlannedRenames(mapping[..i], assets, optimized, str)
    {
      var oldBase := mapping[i].0;
      var newBase := NewBase(mapping[i].1, str);
      ghost var before := ops;
      var origMatches := FindMatchingFiles(assets, oldBase, SUPPORTED_INPUT_EXTS);
      ops := AppendRenames(ops, origMatches, newBase);
      var optMatches := FindMatchingFiles(optimized, oldBase, WEBP_EXTS);
      ops := AppendRenames(ops, optMatches, newBase);
      ghost var origOps, optOps := RenameOps(origMatches, newBase), RenameOps(optMatches, newBase);
      assert EntryRenames(assets, optimized, mapping[i], str) == origOps + optOps;
      AppendAssoc(before, origOps, optOps);
      ConcatMapStep(mapping, e => EntryRenames(assets, optimized, e, str), i);
    }
    assert mapping[..|mapping|] == mapping;
  }

  /** What `apply_renames` reports for one op. */
  datatype Step = Skipped(dst: string) | DryRun(src: string, dst: string)
                | Done(src: string, dst: string) | Failed(src: string, dst: string)

  /** One op of `apply_renames` on the files present: an existing destination is skipped
      unless forcing; a dry run only reports; otherwise the file is moved, which fails
      when the source is gone. */
  function RenameStep(files: map<string, nat>, op: (string, string), dryRun: bool, force: bool): (r: (map<string, nat>, Step))
    ensures r.1.Skipped? <==> op.1 in files && !force
    ensures r.1.DryRun? <==> !(op.1 in files && !force) && dryRun
    ensures r.1.Done? <==> !(op.1 in files && !force) && !dryRun && op.0 in files
    ensures r.1.Done? ==> r.0 == Moved(files, op.0, op.1)
    ensures !r.1.Done? ==> r.0 == files
  {
    if op.1 in files && !force then (files, Skipped(op.1))
    else if dryRun then (files, DryRun(op.0, op.1))
    else if op.0 in files then (Moved(files, op.0, op.1), Done(op.0, op.1))
    else (files, Failed(op.0, op.1))
  }

  /** The ops applied in order, each to the files the previous ones left. */
  function ApplyAll(files: map<string, nat>, ops: seq<(string, string)>, dryRun: bool, force: bool): (r: (map<string, nat>, seq<Step>))
    ensures |r.1| == |ops|
  {
    if ops == [] then (files, [])
    else
      var before := ApplyAll(files, ops[..|ops| - 1], dryRun, force);
      var step := RenameStep(before.0, ops[|ops| - 1], dryRun, force);
      (step.0, before.1 + [step.1])
  }

  /** A dry run leaves every file where it was. */
  lemma {:induction false} DryRunChangesNothing(files: map<string, nat>, ops: seq<(string, string)>, force: bool)
    ensures ApplyAll(files, ops, true, force).0 == files
  {
    if ops != [] {
      DryRunChangesNothing(files, ops[..|ops| - 1], force);
    }
  }

  /** With `force` no op is skipped. */
  lemma {:induction false} ForceNeverSkips(files: map<string, nat>, ops: seq<(string, string)>, dryRun: bool)
    ensures forall k :: 0 <= k < |ops| ==> !ApplyAll(files, ops, dryRun, true).1[k].Skipped?
  {
    if ops != [] {
      ForceNeverSkips(files, ops[..|ops| - 1], dryRun);
    }
  }

  /** `apply_renames`: an empty plan does nothing; otherwise each op in turn is skipped,
      reported or performed. */
  method ApplyRenames(fs: FileTree, ops: seq<(string, string)>, dryRun: bool, force: bool) returns (log: seq<Step>)
    modifies fs
    ensures (fs.files, log) == ApplyAll(old(fs.files), ops, dryRun, force)
  {
    log := [];
    if ops == [] {
      return;
    }
    for k := 0 to |ops|
      invariant (fs.files, log) == ApplyAll(old(fs.files), ops[..k], dryRun, force)
    {
      var (src, dst) := ops[k];
      assert ops[..k + 1][..k] == ops[..k];
      if fs.Exists(dst) && !force {
        log := log + [Skipped(dst)];
        continue;
      }
      if dryRun {
        log := log + [DryRun(src, dst)];
      } else {
        var ok := fs.Replace(src, dst);
        log := log + [if ok then Done(src, dst) else Failed(src, dst)];
      }
    }
    assert ops[..|ops|] == ops;
  }
}
