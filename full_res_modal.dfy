/** Opening a gallery image at full resolution: the ordered list of URLs to try, derived
    from the thumbnail's URL, and the modal image that walks that list on each load
    error. */
module FullResModal {
  import opened JsText

  const OPTIMIZED_DIR := "assets_optimized/"
  const ASSETS_DIR := "assets/"

  /** `imgEl.currentSrc || imgEl.src || ''`: an empty string counts as absent. */
  function SourceOf(currentSrc: string, src: string): (r: string)
    ensures currentSrc != [] ==> r == currentSrc
    ensures currentSrc == [] ==> r == src
  {
    if currentSrc != [] then currentSrc else src
  }

  /** The original-asset stem of an optimized path: the first `assets_optimized/` becomes
      `assets/`, then a trailing `.webp`, `.jpg`, `.jpeg` and `.png` (any letter case) are
      each dropped in that order. */
  function OptimizedStem(normalized: string): (r: string)
    requires Includes(normalized, OPTIMIZED_DIR)
    ensures |r| <= |normalized| - 10
  {
    var swapped := ReplaceFirst(normalized, OPTIMIZED_DIR, ASSETS_DIR);
    StripSuffixIgnoreCase(
      StripSuffixIgnoreCase(
        StripSuffixIgnoreCase(StripSuffixIgnoreCase(swapped, ".webp"), ".jpg"),
        ".jpeg"),
      ".png")
  }

  /** `/\.jpe?g$/i` drops one trailing `.jpg` or `.jpeg`; `/\.png$/i` then drops a
      trailing `.png`. */
  function AssetsStem(normalized: string): (r: string)
    ensures |r| <= |normalized| && r == normalized[..|r|]
  {
    var noJpeg :=
      if EndsWithIgnoreCase(normalized, ".jpg") then StripSuffixIgnoreCase(normalized, ".jpg")
      else StripSuffixIgnoreCase(normalized, ".jpeg");
    StripSuffixIgnoreCase(noJpeg, ".png")
  }

  /** The stem keeps everything before the first `assets_optimized/`, with that folder
      replaced by `assets/`: only the file-name end of the path loses its extensions. */
  lemma OptimizedStemPrefix(normalized: string, i: nat)
    requires OccursAt(normalized, OPTIMIZED_DIR, i)
    requires forall j: nat :: j < i ==> !OccursAt(normalized, OPTIMIZED_DIR, j)
    ensures i + |ASSETS_DIR| <= |OptimizedStem(normalized)|
    ensures OptimizedStem(normalized)[..i + |ASSETS_DIR|] == normalized[..i] + ASSETS_DIR
  {
    var swapped := ReplaceFirst(normalized, OPTIMIZED_DIR, ASSETS_DIR);
    assert swapped == normalized[..i] + ASSETS_DIR + normalized[i + |OPTIMIZED_DIR|..];
    var p := i + |ASSETS_DIR| - 1;
    assert swapped[p] == '/';
    var s1 := StripSuffixIgnoreCase(swapped, ".webp");
    StripKeepsSlashPrefix(swapped, ".webp", p);
    var s2 := StripSuffixIgnoreCase(s1, ".jpg");
    StripKeepsSlashPrefix(s1, ".jpg", p);
    var s3 := StripSuffixIgnoreCase(s2, ".jpeg");
    StripKeepsSlashPrefix(s2, ".jpeg", p);
    StripKeepsSlashPrefix(s3, ".png", p);
    assert swapped[..p + 1] == normalized[..i] + ASSETS_DIR;
  }

  /** The candidates built from an optimized path: the original asset as PNG, then as
      JPG in upper and lower case, then as JPEG. */
  function OptimizedCandidates(normalized: string): (r: seq<string>)
    requires Includes(normalized, OPTIMIZED_DIR)
    ensures |r| == 4 && normalized !in r
  {
    var stem := OptimizedStem(normalized);
    [stem + ".png", stem + ".JPG", stem + ".jpg", stem + ".jpeg"]
  }

  /** `openFullResFromImg`: builds the candidate array with successive pushes. */
  method FullResCandidates(currentSrc: string, src: string) returns (candidates: seq<string>)
    ensures var n := NormalizeSlashes(SourceOf(currentSrc, src));
      && n in candidates
      && candidates[|candidates| - 1] == n
      && |candidates| == (if Includes(n, OPTIMIZED_DIR) then 4 else 0) + (if Includes(n, ASSETS_DIR) then 2 else 1)
      && (Includes(n, OPTIMIZED_DIR) ==> candidates[..4] == OptimizedCandidates(n))
      && (Includes(n, ASSETS_DIR) ==> candidates[|candidates| - 2] == AssetsStem(n) + ".png")
  {
    var normalized := NormalizeSlashes(SourceOf(currentSrc, src));
    candidates := [];
    if Includes(normalized, OPTIMIZED_DIR) {
      candidates := candidates + OptimizedCandidates(normalized);
    }
    if Includes(normalized, ASSETS_DIR) {
      var stem := AssetsStem(normalized);
      candidates := candidates + [stem + ".png", normalized];
    }
    if normalized !in candidates {
      candidates := candidates + [normalized];
    }
  }

  /** The modal's image: `tryNext` assigns the next untried candidate to `img.src`, once
      when the modal opens and again on every load error, and gives up at the end of
      the list. `shown` records the successive assignments to `img.src`. */
  class ModalLoader {
    const candidates: seq<string>
    var idx: nat
    var shown: seq<string>

    ghost predicate Valid()
      reads this
    {
      idx <= |candidates| && shown == candidates[..idx]
    }

    constructor (srcCandidates: seq<string>)
      ensures Valid() && candidates == srcCandidates
      ensures shown == if srcCandidates == [] then [] else [srcCandidates[0]]
    {
      candidates := srcCandidates;
      idx := 0;
      shown := [];
      new;
      TryNext();
    }

    /** `tryNext`: past the end nothing happens; otherwise the candidate at `idx` is
        shown and `idx` advances. */
    method TryNext()
      requires Valid()
      modifies this
      ensures Valid()
      ensures idx == Advance(old(idx), |candidates|)
      ensures old(idx) == |candidates| ==> shown == old(shown)
      ensures old(idx) < |candidates| ==> shown == old(shown) + [candidates[old(idx)]]
    {
      if idx >= |candidates| {
        return;
      }
      shown := shown + [candidates[idx]];
      idx := idx + 1;
    }
  }

  /** The index after one `tryNext` over a list of `count` candidates. */
  function Advance(idx: nat, count: nat): (r: nat)
    requires idx <= count
    ensures r <= count
  {
    if idx >= count then idx else idx + 1
  }

  /** The index after the modal opens (one `tryNext`) and then sees `errors` load errors
      (one `tryNext` each). */
  function ShownAfter(errors: nat, count: nat): (r: nat)
    ensures r <= count
  {
    if errors == 0 then Advance(0, count) else Advance(ShownAfter(errors - 1, count), count)
  }

  /** After `errors` load errors the candidates tried are exactly the first
      `min(errors + 1, count)`, in order: never one past the end. */
  lemma {:induction false} ShownAfterIsPrefix(errors: nat, count: nat)
    ensures ShownAfter(errors, count) == if errors + 1 <= count then errors + 1 else count
  {
    if errors > 0 {
      ShownAfterIsPrefix(errors - 1, count);
    }
  }
}
