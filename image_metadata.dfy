/** The image-metadata generator: the layout heuristic, the per-image record and the
    set of names a record is built for. */
module ImageMetadata {
  import opened Wrappers
  import PyPath
  import PyDict
  import opened AssetFs
  import opened SeqUtil

  const SUPPORTED_ORIGINAL_EXTS: seq<string> := [".jpg", ".jpeg", ".png", ".JPG", ".JPEG", ".PNG"]
  const SUPPORTED_OPTIMIZED_EXTS: seq<string> := [".webp", ".WEBP"]

  datatype Orientation = Unknown | Square | Landscape | Portrait
  datatype Priority = Normal | Feature

  /** The grid placement suggested for an image. */
  datatype Layout = Layout(rowSpan: nat, colSpan: nat, priority: Priority)

  /** The orientation `suggest_layout` reads off `aspect = width / height`, with a band
      of 0.9 to 1.1 counting as square. */
  function AspectOrientation(aspect: real): Orientation {
    if aspect > 1.1 then Landscape else if aspect < 0.9 then Portrait else Square
  }

  /** `suggest_layout(width, height)`, over exact reals. */
  function SuggestLayout(width: int, height: int): (r: Layout)
    ensures r.rowSpan in {1, 2} && r.colSpan in {1, 2}
    ensures r.rowSpan == 1 || r.colSpan == 1
    ensures width <= 0 || height <= 0 ==> r == Layout(1, 1, Normal)
  {
    if width <= 0 || height <= 0 then Layout(1, 1, Normal)
    else
      var aspect := width as real / height as real;
      var orientation := AspectOrientation(aspect);
      var colSpan := if orientation == Landscape && aspect >= 1.7 then 2 else 1;
      var rowSpan := if orientation == Portrait && 1.0 / aspect >= 1.6 then 2 else 1;
      var priority := if orientation == Landscape && aspect >= 2.0 then Feature else Normal;
      Layout(rowSpan, colSpan, priority)
  }

  /** The thresholds of `suggest_layout` as integer comparisons: landscape when
      `10w > 11h`, portrait when `10w < 9h`, two columns when `10w >= 17h`, two rows
      when `10h >= 16w`, featured when `w >= 2h`. */
  lemma SuggestLayoutThresholds(width: int, height: int)
    requires width > 0 && height > 0
    ensures AspectOrientation(width as real / height as real) == Landscape <==> 10 * width > 11 * height
    ensures AspectOrientation(width as real / height as real) == Portrait <==> 10 * width < 9 * height
    ensures SuggestLayout(width, height).colSpan == 2 <==> 10 * width >= 17 * height
    ensures SuggestLayout(width, height).rowSpan == 2 <==> 10 * height >= 16 * width
    ensures SuggestLayout(width, height).priority == Feature <==> width >= 2 * height
  {
    var w, h := width as real, height as real;
    var aspect := w / h;
    assert aspect * h == w;
    assert 1.0 / aspect == h / w;
    RatioAbove(w, h, 11.0 / 10.0);
    RatioAbove(w, h, 9.0 / 10.0);
    RatioAbove(w, h, 17.0 / 10.0);
    RatioAbove(w, h, 2.0);
    RatioAbove(h, w, 16.0 / 10.0);
  }

  /** For positive `h`, `w / h` compares with `t` as `w` compares with `t * h`. */
  lemma RatioAbove(w: real, h: real, t: real)
    requires w > 0.0 && h > 0.0
    ensures w / h > t <==> w > t * h
    ensures w / h >= t <==> w >= t * h
    ensures w / h < t <==> w < t * h
  {
    var a := w / h;
    assert a * h == w;
    if a > t {
      assert a * h > t * h;
    }
    if a >= t {
      assert a * h >= t * h;
    }
    if a < t {
      assert a * h < t * h;
    }
  }

  /** A path is used only when present and non-empty (`if opt_path:`). */
  predicate Truthy(p: Option<string>) {
    p.Some? && p.value != []
  }

  /** Which file the dimensions were read from (`sourceUsedForDimensions`). */
  datatype Source = Optimized | Original

  /** One value of the metadata document. */
  datatype MetaEntry = MetaEntry(
    optimized: Option<string>, original: Option<string>, sourceUsed: Option<Source>,
    width: int, height: int, bytes: nat, aspectRatio: Option<real>,
    orientation: Orientation, layout: Layout)

  /** The dimensions `build_metadata` settles on: those of the optimized file, or those of
      the original when there is no optimized file or it could not be read. */
  function Dimensions(optPath: Option<string>, origPath: Option<string>,
                      dimsOf: string -> Option<(int, int)>): (r: Option<(int, int)>)
    ensures Truthy(optPath) && dimsOf(optPath.value).Some? ==> r == dimsOf(optPath.value)
    ensures !(Truthy(optPath) && dimsOf(optPath.value).Some?) ==>
      r == if Truthy(origPath) then dimsOf(origPath.value) else None
    ensures r.Some? ==> (Truthy(optPath) && r == dimsOf(optPath.value)) || (Truthy(origPath) && r == dimsOf(origPath.value))
  {
    var fromOpt := if Truthy(optPath) then dimsOf(optPath.value) else None;
    if fromOpt.None? && Truthy(origPath) then dimsOf(origPath.value) else fromOpt
  }

  /** The record for one base name, given the first optimized and original files found
      for it, the image reader (`None` when the file cannot be read as an image) and the
      file-size reader (0 when the size cannot be read). */
  function EntryFor(optPath: Option<string>, origPath: Option<string>,
                    dimsOf: string -> Option<(int, int)>, sizeOf: string -> nat): (r: MetaEntry)
    ensures r.optimized == optPath && r.original == origPath
    ensures r.layout == SuggestLayout(r.width, r.height)
  {
    var useOrig := !(Truthy(optPath) && dimsOf(optPath.value).Some?) && Truthy(origPath);
    var dims := Dimensions(optPath, origPath, dimsOf);
    var sourceUsed := if useOrig then Some(Original) else if Truthy(optPath) then Some(Optimized) else None;
    var width := if dims.Some? then dims.value.0 else 0;
    var height := if dims.Some? then dims.value.1 else 0;
    var aspectRatio := if dims.Some? && height > 0 then Some(width as real / height as real) else None;
    var orientation :=
      if dims.None? then Unknown
      else if width == height then Square
      else if width > height then Landscape
      else Portrait;
    var bytes := if Truthy(optPath) then sizeOf(optPath.value) else if Truthy(origPath) then sizeOf(origPath.value) else 0;
    MetaEntry(optPath, origPath, sourceUsed, width, height, bytes, aspectRatio, orientation, SuggestLayout(width, height))
  }

  /** Width, height, aspect ratio and orientation come from the dimensions settled on:
      `unknown` with 0 by 0 when none were read; otherwise square, landscape or portrait
      as width equals, exceeds or falls short of height, with a ratio only for a
      non-zero height. */
  lemma EntryShape(optPath: Option<string>, origPath: Option<string>,
                   dimsOf: string -> Option<(int, int)>, sizeOf: string -> nat)
    ensures var r := EntryFor(optPath, origPath, dimsOf, sizeOf);
      && (r.orientation == Unknown <==> Dimensions(optPath, origPath, dimsOf).None?)
      && (r.orientation == Unknown ==> r.width == 0 && r.height == 0)
      && (r.orientation != Unknown ==> (r.width, r.height) == Dimensions(optPath, origPath, dimsOf).value)
      && (r.orientation != Unknown ==>
            (r.orientation == Square <==> r.width == r.height) && (r.orientation == Landscape <==> r.width > r.height))
      && (r.aspectRatio.Some? <==> r.orientation != Unknown && r.height > 0)
      && (r.aspectRatio.Some? ==> r.aspectRatio.value * r.height as real == r.width as real)
  {
  }

  /** The dimensions are read from the original only when the optimized file is absent
      or unreadable; no source is recorded only when neither file was found; the size is
      the optimized file's, else the original's, else 0. */
  lemma EntrySources(optPath: Option<string>, origPath: Option<string>,
                     dimsOf: string -> Option<(int, int)>, sizeOf: string -> nat)
    ensures var r := EntryFor(optPath, origPath, dimsOf, sizeOf);
      && (r.sourceUsed == Some(Original) <==> Truthy(origPath) && !(Truthy(optPath) && dimsOf(optPath.value).Some?))
      && (r.sourceUsed == Some(Optimized) ==> Truthy(optPath))
      && (r.sourceUsed == None <==> !Truthy(optPath) && !Truthy(origPath))
      && (r.bytes == if Truthy(optPath) then sizeOf(optPath.value) else if Truthy(origPath) then sizeOf(origPath.value) else 0)
  {
  }

  /** An image whose dimensions could not be read gets the default layout. */
  lemma UnknownGetsDefaultLayout(optPath: Option<string>, origPath: Option<string>,
                                 dimsOf: string -> Option<(int, int)>, sizeOf: string -> nat)
    requires Dimensions(optPath, origPath, dimsOf).None?
    ensures EntryFor(optPath, origPath, dimsOf, sizeOf).layout == Layout(1, 1, Normal)
  {
  }

  /** Why the mapping document could not be used. */
  datatype LoadError = FileNotFound | InvalidJson | NotAnObject

  /** `{k: v for k, v in raw_mapping.items() if isinstance(v, str)}` over the dictionary
      `json.load` built. */
  function StringEntries(d: PyDict.Dict<JsonValue>): (r: PyDict.Dict<string>)
    ensures |r| <= |d|
  {
    if d == [] then []
    else
      var p := d[|d| - 1];
      StringEntries(d[..|d| - 1]) + (if p.1.JStr? then [(p.0, p.1.s)] else [])
  }

  /** The string entries are exactly the entries with a string value. */
  lemma {:induction false} StringEntriesMembers(d: PyDict.Dict<JsonValue>, k: string, v: string)
    ensures (k, v) in StringEntries(d) <==> (k, JStr(v)) in d
  {
    if d != [] {
      StringEntriesMembers(d[..|d| - 1], k, v);
      assert d == d[..|d| - 1] + [d[|d| - 1]];
    }
  }

  /** `load_mapping` followed by the string filter: opening a missing file, parsing bad
      JSON and calling `.items()` on a non-object all fail. */
  function LoadStringMapping(doc: JsonDoc): (r: Result<PyDict.Dict<string>, LoadError>)
    ensures doc.Missing? ==> r == Failure(FileNotFound)
    ensures doc.Malformed? ==> r == Failure(InvalidJson)
    ensures r.Success? <==> doc.Parsed? && doc.value.JObject?
  {
    match doc
    case Missing => Failure(FileNotFound)
    case Malformed => Failure(InvalidJson)
    case Parsed(v) =>
      if v.JObject? then Success(StringEntries(PyDict.FromPairs(v.pairs))) else Failure(NotAnObject)
  }

  /** `set(mapping.values())` */
  function Values(m: PyDict.Dict<string>): set<string> {
    set i | 0 <= i < |m| :: m[i].1
  }

  /** `file`'s `splitext` extension is one of `exts`. */
  predicate HasExtIn(file: string, exts: seq<string>) {
    PyPath.SplitExt(file).1 in exts
  }

  /** The base names of the files of one directory whose extension is in `exts`. */
  function DirStems(files: seq<string>, exts: seq<string>): seq<string> {
    FilterMap(files, f => HasExtIn(f, exts), Stem)
  }

  /** The base names of the files of a walk whose extension is in `exts`, in walk order. */
  function WalkStems(listing: seq<WalkDir>, exts: seq<string>): seq<string> {
    ConcatMap(listing, (d: WalkDir) => DirStems(d.files, exts))
  }

  /** A name is collected from the walk exactly when some listed file has that base
      name and an extension in `exts`. */
  lemma WalkStemsMembers(listing: seq<WalkDir>, exts: seq<string>, name: string)
    ensures name in WalkStems(listing, exts) <==>
      exists i, j :: 0 <= i < |listing| && 0 <= j < |listing[i].files|
        && HasExtIn(listing[i].files[j], exts) && Stem(listing[i].files[j]) == name
  {
    ConcatMapMembers(listing, (d: WalkDir) => DirStems(d.files, exts), name);
    forall i | 0 <= i < |listing|
      ensures name in DirStems(listing[i].files, exts) <==>
        exists j :: 0 <= j < |listing[i].files|
          && HasExtIn(listing[i].files[j], exts) && Stem(listing[i].files[j]) == name
    {
      FilterMapMembers(listing[i].files, f => HasExtIn(f, exts), Stem, name);
    }
  }

  /** The elements of a sequence, as a set. */
  function Elems(s: seq<string>): set<string> {
    set x | x in s
  }

  lemma ElemsAppend(a: seq<string>, b: seq<string>)
    ensures Elems(a + b) == Elems(a) + Elems(b)
  {
  }

  /** The names a record is built for: the mapping's values and the base names of the
      optimized images, visited in walk order into a growing set. */
  method CandidateNames(mapping: PyDict.Dict<string>, optimized: seq<WalkDir>) returns (names: set<string>)
    ensures names == Values(mapping) + Elems(WalkStems(optimized, SUPPORTED_OPTIMIZED_EXTS))
  {
    names := Values(mapping);
    for i := 0 to |optimized|
      invariant names == Values(mapping) + Elems(WalkStems(optimized[..i], SUPPORTED_OPTIMIZED_EXTS))
    {
      names := AddStems(names, optimized[i].files);
      ConcatMapStep(optimized, (d: WalkDir) => DirStems(d.files, SUPPORTED_OPTIMIZED_EXTS), i);
      ElemsAppend(WalkStems(optimized[..i], SUPPORTED_OPTIMIZED_EXTS), DirStems(optimized[i].files, SUPPORTED_OPTIMIZED_EXTS));
    }
    assert optimized[..|optimized|] == optimized;
  }

  /** The inner loop of the above: adds the base name of every file of one directory
      whose extension is supported. */
  method AddStems(names: set<string>, files: seq<string>) returns (r: set<string>)
    ensures r == names + Elems(DirStems(files, SUPPORTED_OPTIMIZED_EXTS))
  {
    r := names;
    for j := 0 to |files|
      invariant r == names + Elems(DirStems(files[..j], SUPPORTED_OPTIMIZED_EXTS))
    {
      var file := files[j];
      FilterMapStep(files, f => HasExtIn(f, SUPPORTED_OPTIMIZED_EXTS), Stem, j);
      ElemsAppend(DirStems(files[..j], SUPPORTED_OPTIMIZED_EXTS),
        if HasExtIn(file, SUPPORTED_OPTIMIZED_EXTS) then [Stem(file)] else []);
      var (name, ext) := PyPath.SplitExt(file);
      if ext in SUPPORTED_OPTIMIZED_EXTS {
        r := r + {name};
      }
    }
    assert files[..|files|] == files;
  }

  /** `find_first_existing`: walks the directories and their files in order and returns
      at the first match. */
  method FindFirstExisting(listing: seq<WalkDir>, base: string, exts: seq<string>) returns (r: Option<string>)
    ensures r == FirstExisting(listing, base, exts)
  {
    for i := 0 to |listing|
      invariant MatchingPaths(listing[..i], base, exts) == []
    {
      var d := listing[i];
      for j := 0 to |d.files|
        invariant DirMatches(d.root, d.files[..j], base, exts) == []
      {
        var file := d.files[j];
        FilterMapStep(d.files, f => NameMatches(f, base, exts), f => PyPath.Join(d.root, f), j);
        if NameMatches(file, base, exts) {
          FirstMatchIsHere(listing, base, exts, i, j);
          return Some(PyPath.Join(d.root, file));
        }
      }
      assert d.files[..|d.files|] == d.files;
      ConcatMapStep(listing, (d: WalkDir) => DirMatches(d.root, d.files, base, exts), i);
    }
    assert listing[..|listing|] == listing;
    return None;
  }

  /** With no match in the directories before `i` nor in the files before `j` of
      directory `i`, a match at file `j` is the first one of the walk. */
  lemma FirstMatchIsHere(listing: seq<WalkDir>, base: string, exts: seq<string>, i: nat, j: nat)
    requires i < |listing| && j < |listing[i].files|
    requires MatchingPaths(listing[..i], base, exts) == []
    requires DirMatches(listing[i].root, listing[i].files[..j], base, exts) == []
    requires NameMatches(listing[i].files[j], base, exts)
    ensures FirstExisting(listing, base, exts) == Some(PyPath.Join(listing[i].root, listing[i].files[j]))
  {
    var d := listing[i];
    MatchingPathsSplit(listing, base, exts, i);
    DirMatchesSplit(d.root, d.files, base, exts, j);
  }

  lemma MatchingPathsSplit(listing: seq<WalkDir>, base: string, exts: seq<string>, i: nat)
    requires i < |listing|
    ensures MatchingPaths(listing, base, exts) ==
      MatchingPaths(listing[..i], base, exts) + DirMatches(listing[i].root, listing[i].files, base, exts)
      + MatchingPaths(listing[i + 1..], base, exts)
  {
    var d := listing[i];
    assert listing == (listing[..i] + [d]) + listing[i + 1..];
    ConcatMapAppend(listing[..i] + [d], listing[i + 1..], (d: WalkDir) => DirMatches(d.root, d.files, base, exts));
    assert (listing[..i] + [d])[..i] == listing[..i];
  }

  lemma DirMatchesSplit(root: string, files: seq<string>, base: string, exts: seq<string>, j: nat)
    requires j < |files|
    ensures DirMatches(root, files, base, exts) ==
      DirMatches(root, files[..j], base, exts)
      + (if NameMatches(files[j], base, exts) then [PyPath.Join(root, files[j])] else [])
      + DirMatches(root, files[j + 1..], base, exts)
  {
    assert files == (files[..j] + [files[j]]) + files[j + 1..];
    FilterMapAppend(files[..j] + [files[j]], files[j + 1..], f => NameMatches(f, base, exts), f => PyPath.Join(root, f));
    assert (files[..j] + [files[j]])[..j] == files[..j];
  }

  /** `build_metadata`: a record for every candidate name, built from the first optimized
      and the first original file found for it. */
  method BuildMetadata(doc: JsonDoc, assets: seq<WalkDir>, optimized: seq<WalkDir>,
                       dimsOf: string -> Option<(int, int)>, sizeOf: string -> nat)
    returns (r: Result<map<string, MetaEntry>, LoadError>)
    ensures r.Failure? <==> LoadStringMapping(doc).Failure?
    ensures r.Failure? ==> r.error == LoadStringMapping(doc).error
    ensures r.Success? ==>
      r.value.Keys == Values(LoadStringMapping(doc).value) + Elems(WalkStems(optimized, SUPPORTED_OPTIMIZED_EXTS))
      && forall b :: b in r.value ==> r.value[b] == EntryFor(
           FirstExisting(optimized, b, SUPPORTED_OPTIMIZED_EXTS),
           FirstExisting(assets, b, SUPPORTED_ORIGINAL_EXTS), dimsOf, sizeOf)
  {
    var loaded := LoadStringMapping(doc);
    if loaded.Failure? {
      return Failure(loaded.error);
    }
    var names := CandidateNames(loaded.value, optimized);
    var metadata: map<string, MetaEntry> := map[];
    var remaining := names;
    while remaining != {}
      invariant remaining <= names && metadata.Keys == names - remaining
      invariant forall b :: b in metadata ==> metadata[b] == EntryFor(
        FirstExisting(optimized, b, SUPPORTED_OPTIMIZED_EXTS),
        FirstExisting(assets, b, SUPPORTED_ORIGINAL_EXTS), dimsOf, sizeOf)
      decreases |remaining|
    {
      var base :| base in remaining;
      var optPath := FindFirstExisting(optimized, base, SUPPORTED_OPTIMIZED_EXTS);
      var origPath := FindFirstExisting(assets, base, SUPPORTED_ORIGINAL_EXTS);
      metadata := metadata[base := EntryFor(optPath, origPath, dimsOf, sizeOf)];
      remaining := remaining - {base};
    }
    return Success(metadata);
  }
}
