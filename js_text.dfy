/** The JavaScript string operations the site script relies on, over Dafny strings
    (a `char` stands for one UTF-16 code unit). */
module JsText {
  import opened Wrappers

  /** `pat` occurs in `s` starting at index `i`. */
  predicate OccursAt(s: string, pat: string, i: nat) {
    i + |pat| <= |s| && s[i..i + |pat|] == pat
  }

  /** `s.indexOf(pat, from)`: the first index at or after `from` where `pat` occurs. */
  function IndexOfFrom(s: string, pat: string, from: nat): (r: Option<nat>)
    ensures r.Some? ==> from <= r.value && OccursAt(s, pat, r.value)
    ensures r.Some? ==> forall j: nat :: from <= j < r.value ==> !OccursAt(s, pat, j)
    ensures r.None? ==> forall j: nat :: from <= j ==> !OccursAt(s, pat, j)
    decreases |s| - from
  {
    if from + |pat| > |s| then None
    else if OccursAt(s, pat, from) then Some(from)
    else IndexOfFrom(s, pat, from + 1)
  }

  /** `s.includes(pat)`: a substring test. */
  predicate Includes(s: string, pat: string)
    ensures Includes(s, pat) <==> exists i: nat :: OccursAt(s, pat, i)
  {
    IndexOfFrom(s, pat, 0).Some?
  }

  /** `s.replace(pat, rep)` with a STRING pattern: only the first occurrence is replaced. */
  function ReplaceFirst(s: string, pat: string, rep: string): (r: string)
    ensures !Includes(s, pat) ==> r == s
    ensures forall i: nat :: OccursAt(s, pat, i) && (forall j: nat :: j < i ==> !OccursAt(s, pat, j)) ==>
              r == s[..i] + rep + s[i + |pat|..]
    ensures Includes(s, pat) ==> |r| == |s| - |pat| + |rep|
  {
    match IndexOfFrom(s, pat, 0)
    case None => s
    case Some(i) => s[..i] + rep + s[i + |pat|..]
  }

  /** `s.replace(/c/g, d)` for a single-character pattern: every occurrence is replaced. */
  function ReplaceAllChar(s: string, c: char, d: char): (r: string)
    ensures |r| == |s|
    ensures forall i :: 0 <= i < |s| ==> r[i] == (if s[i] == c then d else s[i])
  {
    if s == [] then []
    else ReplaceAllChar(s[..|s| - 1], c, d) + [if s[|s| - 1] == c then d else s[|s| - 1]]
  }

  /** `s.replace(/\\/g, '/')`: Windows separators become URL separators. */
  function NormalizeSlashes(s: string): (r: string)
    ensures |r| == |s| && '\\' !in r
    ensures forall i :: 0 <= i < |s| ==> r[i] == (if s[i] == '\\' then '/' else s[i])
  {
    ReplaceAllChar(s, '\\', '/')
  }

  /** Case folding of a regular expression with the `i` flag, for the ASCII letters
      (the only ones the patterns used here contain). */
  function FoldAscii(c: char): char {
    if 'A' <= c <= 'Z' then (c as int + 32) as char else c
  }

  /** `/suf$/i.test(s)` for a literal suffix `suf`. */
  predicate EndsWithIgnoreCase(s: string, suf: string) {
    |suf| <= |s| && forall i :: 0 <= i < |suf| ==> FoldAscii(s[|s| - |suf| + i]) == FoldAscii(suf[i])
  }

  /** `s.replace(/suf$/i, '')`: drops a trailing `suf`, in any letter case, once. */
  function StripSuffixIgnoreCase(s: string, suf: string): (r: string)
    ensures EndsWithIgnoreCase(s, suf) ==> |r| == |s| - |suf|
    ensures !EndsWithIgnoreCase(s, suf) ==> r == s
    ensures |r| <= |s| && r == s[..|r|]
  {
    if EndsWithIgnoreCase(s, suf) then s[..|s| - |suf|] else s
  }

  /** A suffix without '/' never reaches back over a '/': everything up to and including
      a '/' of `s` survives the strip. */
  lemma StripKeepsSlashPrefix(s: string, suf: string, p: nat)
    requires p < |s| && s[p] == '/' && '/' !in suf
    ensures p < |StripSuffixIgnoreCase(s, suf)|
    ensures StripSuffixIgnoreCase(s, suf)[..p + 1] == s[..p + 1]
  {
    if EndsWithIgnoreCase(s, suf) {
      forall q | |s| - |suf| <= q < |s|
        ensures s[q] != '/'
      {
        var k := q - (|s| - |suf|);
        assert suf[k] in suf;
        assert FoldAscii(s[|s| - |suf| + k]) == FoldAscii(suf[k]);
      }
    }
  }
}
