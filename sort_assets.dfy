/** The script that mirrors the optimized folder's layout in the originals folder: it
    records in which sub-folder each `.webp` base name lives, plans a move of every
    original image of that base name into the same sub-folder, and carries the moves
    out or only reports them. */
module SortAssets {
  import opened Wrappers
  import PyPath
  import PyDict
  import JsText
  import opened AssetFs
  import opened SeqUtil

  const IMAGE_EXTS: seq<string> := [".jpg", ".jpeg", ".png", ".JPG", ".JPEG", ".PNG"]

  /** `s.lower()` for the ASCII letters. */
  function Lower(s: string): (r: string)
    ensures |r| == |s|
    ensures forall i :: 0 <= i < |s| ==> r[i] == JsText.FoldAscii(s[i])
  {
    seq(|s|, i requires 0 <= i < |s| => JsText.FoldAscii(s[i]))
  }

  /** `os.path.splitext(file)[1].lower() == ".webp"` */
  predicate IsWebp(file: string) {
    Lower(PyPath.SplitExt(file).1) == ".webp"
  }

  /** The relative folder recorded for a walked directory: the walk's root itself is "". */
  function RelDir(d: WalkDir): string {
    if d.rel == "." then "" else d.rel
  }

  /** The `(base name, folder)` pairs one directory contributes, in listing order. */
  function DirEntries(d: WalkDir): seq<(string, string)> {
    FilterMap(d.files, IsWebp, f => (Stem(f), RelDir(d)))
  }

  /** The `(base name, folder)` pairs of the whole walk, in walk order. */
  function WebpEntries(listing: seq<WalkDir>): seq<(string, string)> {
    ConcatMap(listing, DirEntries)
  }

  /** What `scan_webp_structure` returns: each pair stored in walk order, so a base name
      keeps its first position in the dictionary and the folder it was last seen in. */
  function WebpStructure(listing: seq<WalkDir>): PyDict.Dict<string> {
    PyDict.FromPairs(WebpEntries(listing))
  }

  /** A pair is recorded exactly for a `.webp` file of some directory, with that
      directory's relative folder. */
  lemma WebpEntriesMembers(listing: seq<WalkDir>, e: (string, string))
    ensures e in WebpEntries(listing) <==>
      exists i, j :: 0 <= i < |listing| && 0 <= j < |listing[i].files|
        && IsWebp(listing[i].files[j]) && e == (Stem(listing[i].files[j]), RelDir(listing[i]))
  {
    ConcatMapMembers(listing, DirEntries, e);
    forall i | 0 <= i < |listing|
      ensures e in DirEntries(listing[i]) <==>
        exists j :: 0 <= j < |listing[i].files|
          && IsWebp(listing[i].files[j]) && e == (Stem(listing[i].files[j]), RelDir(listing[i]))
    {
      FilterMapMembers(listing[i].files, IsWebp, f => (Stem(f), RelDir(listing[i])), e);
    }
  }

  /** The structure has distinct keys, and a base name is a key exactly when some walked
      file with a `.webp` extension, in any letter case, has that base name; other files
      never contribute. */
  lemma WebpStructureKeys(listing: seq<WalkDir>, name: string)
    ensures PyDict.DistinctKeys(WebpStructure(listing))
    ensures PyDict.Get(WebpStructure(listing), name).Some? <==>
      exists i, j :: 0 <= i < |listing| && 0 <= j < |listing[i].files|
        && IsWebp(listing[i].files[j]) && Stem(listing[i].files[j]) == name
  {
    var entries := WebpEntries(listing);
    PyDict.FromPairsDistinct(entries);
    PyDict.FromPairsKeys(entries, name);
    if exists n :: 0 <= n < |entries| && entries[n].0 == name {
      var n :| 0 <= n < |entries| && entries[n].0 == name;
      WebpEntriesMembers(listing, entries[n]);
    }
    if exists i, j :: 0 <= i < |listing| && 0 <= j < |listing[i].files|
        && IsWebp(listing[i].files[j]) && Stem(listing[i].files[j]) == name {
      var i, j :| 0 <= i < |listing| && 0 <= j < |listing[i].files|
        && IsWebp(listing[i].files[j]) && Stem(listing[i].files[j]) == name;
      WebpEntriesMembers(listing, (name, RelDir(listing[i])));
      var n :| 0 <= n < |entries| && entries[n] == (name, RelDir(listing[i]));
    }
  }

  /** Within one directory every recorded pair carries that directory's folder. */
  lemma DirFolder(d: WalkDir, name: string, j: nat)
    requires j < |d.files| && IsWebp(d.files[j]) && Stem(d.files[j]) == name
    ensures PyDict.Get(PyDict.FromPairs(DirEntries(d)), name) == Some(RelDir(d))
  {
    var here := DirEntries(d);
    FilterMapMembers(d.files, IsWebp, f => (Stem(f), RelDir(d)), (name, RelDir(d)));
    forall m | 0 <= m < |here| && here[m].0 == name
      ensures here[m].1 == RelDir(d)
    {
      FilterMapMembers(d.files, IsWebp, f => (Stem(f), RelDir(d)), here[m]);
    }
    PyDict.FromPairsUniform(here, name, RelDir(d));
  }

  /** The pairs of a walk split around its `i`-th directory. */
  lemma WebpEntriesAround(listing: seq<WalkDir>, i: nat)
    requires i < |listing|
    ensures WebpEntries(listing) ==
      (WebpEntries(listing[..i]) + DirEntries(listing[i])) + WebpEntries(listing[i + 1..])
  {
    assert listing == listing[..i] + [listing[i]] + listing[i + 1..];
    ConcatMapAppend(listing[..i] + [listing[i]], listing[i + 1..], DirEntries);
    ConcatMapAppend(listing[..i], [listing[i]], DirEntries);
    assert [listing[i]][..0] == [];
  }

  /** The last directory holding a `.webp` of a base name decides its folder. */
  lemma LastDirectoryWins(listing: seq<WalkDir>, name: string, i: nat, j: nat)
    requires i < |listing| && j < |listing[i].files|
    requires IsWebp(listing[i].files[j]) && Stem(listing[i].files[j]) == name
    requires forall i', j' :: i < i' < |listing| && 0 <= j' < |listing[i'].files| ==>
      !(IsWebp(listing[i'].files[j']) && Stem(listing[i'].files[j']) == name)
    ensures PyDict.Get(WebpStructure(listing), name) == Some(RelDir(listing[i]))
  {
    var before, here, after := WebpEntries(listing[..i]), DirEntries(listing[i]), WebpEntries(listing[i + 1..]);
    WebpEntriesAround(listing, i);
    forall n | 0 <= n < |after|
      ensures after[n].0 != name
    {
      WebpEntriesMembers(listing[i + 1..], after[n]);
    }
    PyDict.FromPairsIgnores(before + here, after, name);
    FilterMapMembers(listing[i].files, IsWebp, f => (Stem(f), RelDir(listing[i])), (name, RelDir(listing[i])));
    var n :| 0 <= n < |here| && here[n] == (name, RelDir(listing[i]));
    PyDict.FromPairsOverride(before, here, name, n);
    DirFolder(listing[i], name, j);
  }

  /** `scan_webp_structure`: walks the optimized tree and stores each `.webp` base name
      with its folder, overwriting what an earlier directory stored. */
  method ScanWebpStructure(listing: seq<WalkDir>) returns (mapping: PyDict.Dict<string>)
    ensures mapping == WebpStructure(listing)
  {
    mapping := [];
    for i := 0 to |listing|
      invariant mapping == PyDict.FromPairs(WebpEntries(listing[..i]))
    {
      mapping := ScanDirectory(mapping, listing[i], WebpEntries(listing[..i]));
      ConcatMapStep(listing, DirEntries, i);
    }
    assert listing[..|listing|] == listing;
  }

  /** One directory of the walk above: its relative folder, then its files in order. */
  method ScanDirectory(mapping: PyDict.Dict<string>, d: WalkDir, ghost before: seq<(string, string)>)
    returns (r: PyDict.Dict<string>)
    requires mapping == PyDict.FromPairs(before)
    ensures r == PyDict.FromPairs(before + DirEntries(d))
  {
    var relDir := d.rel;
    if relDir == "." {
      relDir := "";
    }
    assert relDir == RelDir(d);
    r := mapping;
    ghost var stored := before;
    for j := 0 to |d.files|
      invariant stored == before + FilterMap(d.files[..j], IsWebp, f => (Stem(f), RelDir(d)))
      invariant r == PyDict.FromPairs(stored)
    {
      var file := d.files[j];
      ScanStep(before, d, j);
      var (name, ext) := PyPath.SplitExt(file);
      if Lower(ext) == ".webp" {
        PyDict.FromPairsSnoc(stored, (name, relDir));
        r := PyDict.Put(r, name, relDir);
        stored := stored + [(name, relDir)];
      }
    }
    assert d.files[..|d.files|] == d.files;
  }

  /** The `j`-th file of a directory adds its pair to those stored before it exactly
      when it is a `.webp`. */
  lemma ScanStep(before: seq<(string, string)>, d: WalkDir, j: nat)
    requires j < |d.files|
    ensures before + FilterMap(d.files[..j + 1], IsWebp, f => (Stem(f), RelDir(d))) ==
      before + FilterMap(d.files[..j], IsWebp, f => (Stem(f), RelDir(d)))
      + (if IsWebp(d.files[j]) then [(Stem(d.files[j]), RelDir(d))] else [])
  {
    FilterMapStep(d.files, IsWebp, f => (Stem(f), RelDir(d)), j);
    AppendAssoc(before, FilterMap(d.files[..j], IsWebp, f => (Stem(f), RelDir(d))),
      if IsWebp(d.files[j]) then [(Stem(d.files[j]), RelDir(d))] else []);
  }

  /** `find_originals_by_base`: the original images with base name `base`, with the
      extension compared case-sensitively with `IMAGE_EXTS`. */
  method FindOriginalsByBase(assets: seq<WalkDir>, base: string) returns (matches: seq<string>)
    ensures matches == MatchingPaths(assets, base, IMAGE_EXTS)
  {
    matches := FindMatchingFiles(assets, base, IMAGE_EXTS);
  }

  /** `os.path.join(assets_root, rel_dir) if rel_dir else assets_root` */
  function DestDir(assetsRoot: string, rel: string): string {
    if rel != "" then PyPath.Join(assetsRoot, rel) else assetsRoot
  }

  /** Where an original goes: its own file name in the destination folder. */
  function Destination(assetsRoot: string, rel: string, src: string): string {
    PyPath.Join(DestDir(assetsRoot, rel), PyPath.Basename(src))
  }

  /** The moves for the originals of one base name, skipping every original that
      `abspath` already resolves to its destination. `abspath` depends on the working
      directory and is a parameter. */
  function MoveOps(assetsRoot: string, rel: string, originals: seq<string>, abspath: string -> string): seq<(string, string)> {
    FilterMap(originals, src => abspath(src) != abspath(Destination(assetsRoot, rel, src)),
              src => (src, Destination(assetsRoot, rel, src)))
  }

  /** The moves for one entry of the structure. */
  function EntryMoves(assetsRoot: string, assets: seq<WalkDir>, abspath: string -> string, entry: (string, string)): seq<(string, string)> {
    MoveOps(assetsRoot, entry.1, MatchingPaths(assets, entry.0, IMAGE_EXTS), abspath)
  }

  /** `plan_moves`: the moves of every entry, in the structure's order. */
  function PlannedMoves(assetsRoot: string, assets: seq<WalkDir>, structure: PyDict.Dict<string>, abspath: string -> string): seq<(string, string)> {
    ConcatMap(structure, e => EntryMoves(assetsRoot, assets, abspath, e))
  }

  /** `(src, dst)` is planned exactly when `src` is an original of some entry's base name,
      `dst` is that file's name in the entry's folder, and the two do not resolve to the
      same absolute path. */
  lemma PlannedMovesMembers(assetsRoot: string, assets: seq<WalkDir>, structure: PyDict.Dict<string>,
                            abspath: string -> string, op: (string, string))
    ensures op in PlannedMoves(assetsRoot, assets, structure, abspath) <==>
      exists i :: 0 <= i < |structure| && op.0 in MatchingPaths(assets, structure[i].0, IMAGE_EXTS)
        && op.1 == Destination(assetsRoot, structure[i].1, op.0) && abspath(op.0) != abspath(op.1)
  {
    ConcatMapMembers(structure, e => EntryMoves(assetsRoot, assets, abspath, e), op);
    forall i | 0 <= i < |structure|
      ensures op in EntryMoves(assetsRoot, assets, abspath, structure[i]) <==>
        op.0 in MatchingPaths(assets, structure[i].0, IMAGE_EXTS)
        && op.1 == Destination(assetsRoot, structure[i].1, op.0) && abspath(op.0) != abspath(op.1)
    {
      var rel, originals := structure[i].1, MatchingPaths(assets, structure[i].0, IMAGE_EXTS);
      FilterMapMembers(originals, src => abspath(src) != abspath(Destination(assetsRoot, rel, src)),
                       src => (src, Destination(assetsRoot, rel, src)), op);
      if op.0 in originals && op.1 == Destination(assetsRoot, rel, op.0) && abspath(op.0) != abspath(op.1) {
        var k :| 0 <= k < |originals| && originals[k] == op.0;
      }
    }
  }

  /** A planned move keeps the file name: the source is the entry's base name with an
      image extension, and the destination is that same name in the entry's folder. */
  lemma PlannedMoveShape(assetsRoot: string, assets: seq<WalkDir>, structure: PyDict.Dict<string>,
                         abspath: string -> string, i: nat, op: (string, string))
    requires WellFormed(assets)
    requires i < |structure| && op.0 in MatchingPaths(assets, structure[i].0, IMAGE_EXTS)
    requires op.1 == Destination(assetsRoot, structure[i].1, op.0)
    ensures PyPath.SplitExt(op.0).1 in IMAGE_EXTS
    ensures PyPath.Basename(op.0) == structure[i].0 + PyPath.SplitExt(op.0).1
    ensures PyPath.Basename(op.1) == PyPath.Basename(op.0)
    ensures op.1 == PyPath.Join(DestDir(assetsRoot, structure[i].1), PyPath.Basename(op.0))
  {
    MatchedPathShape(assets, structure[i].0, IMAGE_EXTS, op.0);
    PyPath.BasenameJoin(DestDir(assetsRoot, structure[i].1), PyPath.Basename(op.0));
  }

  /** `plan_moves` */
  method PlanMoves(assetsRoot: string, assets: seq<WalkDir>, structure: PyDict.Dict<string>, abspath: string -> string)
    returns (ops: seq<(string, string)>)
    ensures ops == PlannedMoves(assetsRoot, assets, structure, abspath)
  {
    ops := [];
    for i := 0 to |structure|
      invariant ops == PlannedMoves(assetsRoot, assets, structure[..i], abspath)
    {
      var (base, relDir) := structure[i];
      var originals := FindOriginalsByBase(assets, base);
      ops := AppendMoves(ops, assetsRoot, relDir, originals, abspath);
      ConcatMapStep(structure, e => EntryMoves(assetsRoot, assets, abspath, e), i);
    }
    assert structure[..|structure|] == structure;
  }

  /** The inner loop of `plan_moves`: appends the moves of one entry's originals. */
  method AppendMoves(ops: seq<(string, string)>, assetsRoot: string, relDir: string, originals: seq<string>,
                     abspath: string -> string) returns (out: seq<(string, string)>)
    ensures out == ops + MoveOps(assetsRoot, relDir, originals, abspath)
  {
    out := ops;
    for k := 0 to |originals|
      invariant out == ops + MoveOps(assetsRoot, relDir, originals[..k], abspath)
    {
      var src := originals[k];
      var dstDir := if relDir != "" then PyPath.Join(assetsRoot, relDir) else assetsRoot;
      var dst := PyPath.Join(dstDir, PyPath.Basename(src));
      MoveOpsStep(ops, assetsRoot, relDir, originals, abspath, k);
      if abspath(src) != abspath(dst) {
        out := out + [(src, dst)];
      }
    }
    assert originals[..|originals|] == originals;
  }

  lemma MoveOpsStep(ops: seq<(string, string)>, assetsRoot: string, relDir: string, originals: seq<string>,
                    abspath: string -> string, k: nat)
    requires k < |originals|
    ensures ops + MoveOps(assetsRoot, relDir, originals[..k + 1], abspath) ==
      var src := originals[k];
      var dst := Destination(assetsRoot, relDir, src);
      ops + MoveOps(assetsRoot, relDir, originals[..k], abspath) + (if abspath(src) != abspath(dst) then [(src, dst)] else [])
  {
    var src := originals[k];
    var dst := Destination(assetsRoot, relDir, src);
    FilterMapStep(originals, src => abspath(src) != abspath(Destination(assetsRoot, relDir, src)),
                  src => (src, Destination(assetsRoot, relDir, src)), k);
    AppendAssoc(ops, MoveOps(assetsRoot, relDir, originals[..k], abspath),
                if abspath(src) != abspath(dst) then [(src, dst)] else []);
  }

  /** What `apply_moves` reports for one move. */
  datatype Step = DryRun(src: string, dst: string) | Done(src: string, dst: string) | Failed(src: string, dst: string)

  /** One move of `apply_moves`: a dry run only reports; otherwise the file is moved,
      which fails when the source is gone. */
  function MoveStep(files: map<string, nat>, op: (string, string), dryRun: bool): (r: (map<string, nat>, Step))
    ensures r.1 == DryRun(op.0, op.1) <==> dryRun
    ensures r.1 == Done(op.0, op.1) <==> !dryRun && op.0 in files
    ensures r.1 == Failed(op.0, op.1) <==> !dryRun && op.0 !in files
    ensures r.1.Done? ==> r.0 == Moved(files, op.0, op.1)
    ensures !r.1.Done? ==> r.0 == files
  {
    if dryRun then (files, DryRun(op.0, op.1))
    else if op.0 in files then (Moved(files, op.0, op.1), Done(op.0, op.1))
    else (files, Failed(op.0, op.1))
  }

  /** The moves applied in order, each to the files the previous ones left. */
  function MoveAll(files: map<string, nat>, ops: seq<(string, string)>, dryRun: bool): (r: (map<string, nat>, seq<Step>))
    ensures |r.1| == |ops|
  {
    if ops == [] then (files, [])
    else
      var before := MoveAll(files, ops[..|ops| - 1], dryRun);
      var step := MoveStep(before.0, ops[|ops| - 1], dryRun);
      (step.0, before.1 + [step.1])
  }

  /** A dry run moves nothing and reports every planned move, in order. */
  lemma {:induction false} DryRunMovesNothing(files: map<string, nat>, ops: seq<(string, string)>)
    ensures MoveAll(files, ops, true).0 == files
    ensures forall k :: 0 <= k < |ops| ==> MoveAll(files, ops, true).1[k] == DryRun(ops[k].0, ops[k].1)
  {
    if ops != [] {
      DryRunMovesNothing(files, ops[..|ops| - 1]);
    }
  }

  /** Without a dry run every move is either done or reported as failed. */
  lemma {:induction false} RealRunNeverPreviews(files: map<string, nat>, ops: seq<(string, string)>)
    ensures forall k :: 0 <= k < |ops| ==>
      MoveAll(files, ops, false).1[k] in {Done(ops[k].0, ops[k].1), Failed(ops[k].0, ops[k].1)}
  {
    if ops != [] {
      RealRunNeverPreviews(files, ops[..|ops| - 1]);
    }
  }

  /** `apply_moves`: an empty plan does nothing; otherwise each move in turn is reported
      or performed. */
  method ApplyMoves(fs: FileTree, ops: seq<(string, string)>, dryRun: bool) returns (log: seq<Step>)
    modifies fs
    ensures (fs.files, log) == MoveAll(old(fs.files), ops, dryRun)
  {
    log := [];
    if ops == [] {
      return;
    }
    for k := 0 to |ops|
      invariant (fs.files, log) == MoveAll(old(fs.files), ops[..k], dryRun)
    {
      var (src, dst) := ops[k];
      assert ops[..k + 1][..k] == ops[..k];
      if dryRun {
        log := log + [DryRun(src, dst)];
      } else {
        var ok := fs.Replace(src, dst);
        log := log + [if ok then Done(src, dst) else Failed(src, dst)];
      }
    }
    assert ops[..|ops|] == ops;
  }
}
