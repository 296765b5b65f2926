/** What the asset scripts see of the file system: a directory walk as a value, the
    parsed mapping document, and a tree of files that renames and moves change. */
module AssetFs {
  import opened Wrappers
  import PyPath
  import opened SeqUtil

  /** One directory yielded by `os.walk(top)`: the path it yields as `root`, that path
      relative to `top` as `os.path.relpath(root, top)` reports it ("." for `top`
      itself) and the names of the files in it, in the order `os.walk` lists them. */
  datatype WalkDir = WalkDir(root: string, rel: string, files: seq<string>)

  /** File names reported by `os.walk` are non-empty and contain no '/'. */
  ghost predicate WellFormed(listing: seq<WalkDir>) {
    forall i, j :: 0 <= i < |listing| && 0 <= j < |listing[i].files| ==>
      listing[i].files[j] != [] && '/' !in listing[i].files[j]
  }

  /** `file` without its `splitext` extension. */
  function Stem(file: string): string {
    PyPath.SplitExt(file).0
  }

  /** `name, ext = os.path.splitext(file); name == base and ext in exts`
      (the extension test is case-sensitive). */
  predicate NameMatches(file: string, base: string, exts: seq<string>) {
    PyPath.SplitExt(file).0 == base && PyPath.SplitExt(file).1 in exts
  }

  /** The joined paths of the matching files of one directory, in listing order. */
  function DirMatches(root: string, files: seq<string>, base: string, exts: seq<string>): seq<string> {
    FilterMap(files, f => NameMatches(f, base, exts), f => PyPath.Join(root, f))
  }

  /** The joined paths of all matching files of a walk, in walk order. */
  function MatchingPaths(listing: seq<WalkDir>, base: string, exts: seq<string>): seq<string> {
    ConcatMap(listing, (d: WalkDir) => DirMatches(d.root, d.files, base, exts))
  }

  /** The first matching path of a walk, if any. */
  function FirstExisting(listing: seq<WalkDir>, base: string, exts: seq<string>): Option<string> {
    var m := MatchingPaths(listing, base, exts);
    if m == [] then None else Some(m[0])
  }

  /** A path is found exactly when some file in some directory of the walk matches. */
  lemma MatchingPathsMembers(listing: seq<WalkDir>, base: string, exts: seq<string>, p: string)
    ensures p in MatchingPaths(listing, base, exts) <==>
      exists i, j :: 0 <= i < |listing| && 0 <= j < |listing[i].files| &&
        NameMatches(listing[i].files[j], base, exts) && p == PyPath.Join(listing[i].root, listing[i].files[j])
  {
    ConcatMapMembers(listing, (d: WalkDir) => DirMatches(d.root, d.files, base, exts), p);
    forall i | 0 <= i < |listing|
      ensures p in DirMatches(listing[i].root, listing[i].files, base, exts) <==>
        exists j :: 0 <= j < |listing[i].files| &&
          NameMatches(listing[i].files[j], base, exts) && p == PyPath.Join(listing[i].root, listing[i].files[j])
    {
      FilterMapMembers(listing[i].files, f => NameMatches(f, base, exts), f => PyPath.Join(listing[i].root, f), p);
    }
  }

  /** Every path found names a file whose extension is one of `exts` and whose name
      is `base` followed by that extension. */
  lemma MatchedPathShape(listing: seq<WalkDir>, base: string, exts: seq<string>, p: string)
    requires WellFormed(listing)
    requires p in MatchingPaths(listing, base, exts)
    ensures PyPath.SplitExt(p).1 in exts
    ensures PyPath.Basename(p) == base + PyPath.SplitExt(p).1
  {
    MatchingPathsMembers(listing, base, exts, p);
    var i, j :| 0 <= i < |listing| && 0 <= j < |listing[i].files| &&
      NameMatches(listing[i].files[j], base, exts) && p == PyPath.Join(listing[i].root, listing[i].files[j]);
    var f, root := listing[i].files[j], listing[i].root;
    assert '/' !in f;
    PyPath.BasenameJoinSplit(root, f);
    PyPath.SplitExtJoin(root, f);
  }

  /** The walk, visited directory by directory and file by file, collecting the matching
      paths. */
  method FindMatchingFiles(listing: seq<WalkDir>, base: string, exts: seq<string>) returns (matches: seq<string>)
    ensures matches == MatchingPaths(listing, base, exts)
  {
    matches := [];
    for i := 0 to |listing|
      invariant matches == MatchingPaths(listing[..i], base, exts)
    {
      var d := listing[i];
      ghost var before := matches;
      for j := 0 to |d.files|
        invariant matches == before + DirMatches(d.root, d.files[..j], base, exts)
      {
        var file := d.files[j];
        DirMatchesStep(before, d.root, d.files, base, exts, j);
        if NameMatches(file, base, exts) {
          matches := matches + [PyPath.Join(d.root, file)];
        }
      }
      assert d.files[..|d.files|] == d.files;
      ConcatMapStep(listing, (d: WalkDir) => DirMatches(d.root, d.files, base, exts), i);
    }
    assert listing[..|listing|] == listing;
  }

  /** Looking at the `j`-th file of a directory appends its path when it matches. */
  lemma DirMatchesStep(before: seq<string>, root: string, files: seq<string>, base: string, exts: seq<string>, j: nat)
    requires j < |files|
    ensures before + DirMatches(root, files[..j + 1], base, exts) ==
      before + DirMatches(root, files[..j], base, exts)
      + (if NameMatches(files[j], base, exts) then [PyPath.Join(root, files[j])] else [])
  {
    FilterMapStep(files, f => NameMatches(f, base, exts), f => PyPath.Join(root, f), j);
    AppendAssoc(before, DirMatches(root, files[..j], base, exts),
      if NameMatches(files[j], base, exts) then [PyPath.Join(root, files[j])] else []);
  }

  /** A JSON value as `json.load` returns it, reduced to what the scripts look at. */
  datatype JsonValue = JStr(s: string) | JObject(pairs: seq<(string, JsonValue)>) | JOther

  /** Reading and parsing a JSON file: the file is missing, is not valid JSON, or parses. */
  datatype JsonDoc = Missing | Malformed | Parsed(value: JsonValue)

  /** The files that exist, each with an opaque identity of its content. Directories are
      not modelled. */
  class FileTree {
    var files: map<string, nat>

    constructor (initial: map<string, nat>)
      ensures files == initial
    {
      files := initial;
    }

    /** `os.path.exists(p)` */
    predicate Exists(p: string)
      reads this
    {
      p in files
    }

    /** `os.replace(src, dst)`: moves the content of `src` to `dst`, overwriting `dst`;
        fails, changing nothing, when `src` does not exist. */
    method Replace(src: string, dst: string) returns (ok: bool)
      modifies this
      ensures ok == (src in old(files))
      ensures files == if ok then Moved(old(files), src, dst) else old(files)
    {
      ok := src in files;
      if ok {
        files := Moved(files, src, dst);
      }
    }
  }

  /** The file tree after a successful `os.replace(src, dst)`. */
  function Moved(files: map<string, nat>, src: string, dst: string): (r: map<string, nat>)
    requires src in files
    ensures dst in r && r[dst] == files[src]
    ensures src != dst ==> src !in r
    ensures forall p :: p != src && p != dst ==> (p in r <==> p in files) && (p in r ==> r[p] == files[p])
  {
    (files - {src})[dst := files[src]]
  }
}
