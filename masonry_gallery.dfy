/** The masonry gallery built from the image metadata: entries ordered feature-first
    and then by aspect ratio, filtered to gallery images, and rendered a page at a time
    behind a "load more" button. */
module MasonryGallery {
  import opened Wrappers
  import opened JsText

  /** What the gallery reads of one metadata value: `layout.priority`, `aspectRatio`,
      `paths.optimized` and `paths.original`. `None` stands for a missing or null field. */
  datatype Item = Item(priority: Option<string>, aspectRatio: Option<real>,
                       optimized: Option<string>, original: Option<string>)

  /** One `[key, value]` pair of `Object.entries(meta)`. */
  datatype Entry = Entry(key: string, item: Item)

  /** 1 for `layout.priority === 'feature'`, 0 otherwise. */
  function Tier(e: Entry): int {
    if e.item.priority == Some("feature") then 1 else 0
  }

  /** `aspectRatio || 1`: a missing, null or zero ratio counts as 1. */
  function Ratio(e: Entry): (r: real)
    ensures r != 0.0
  {
    match e.item.aspectRatio
    case None => 1.0
    case Some(a) => if a == 0.0 then 1.0 else a
  }

  /** The sort comparator: negative when `a` goes first. */
  function Compare(a: Entry, b: Entry): (r: real)
    ensures Tier(a) != Tier(b) ==> (r < 0.0 <==> Tier(a) > Tier(b)) && r != 0.0
    ensures Tier(a) == Tier(b) ==> (r < 0.0 <==> Ratio(a) > Ratio(b)) && (r == 0.0 <==> Ratio(a) == Ratio(b))
  {
    if Tier(a) != Tier(b) then (Tier(b) - Tier(a)) as real else Ratio(b) - Ratio(a)
  }

  /** `a` may stand before `b` in the sorted order. */
  predicate Precedes(a: Entry, b: Entry) {
    Compare(a, b) <= 0.0
  }

  predicate Sorted(s: seq<Entry>) {
    forall i, j :: 0 <= i < j < |s| ==> Precedes(s[i], s[j])
  }

  /** Inserts `x` after every entry it does not strictly precede, as a stable sort does
      for an element that comes later in the input. */
  function Insert(x: Entry, s: seq<Entry>): (r: seq<Entry>)
    requires Sorted(s)
    ensures Sorted(r)
    ensures multiset(r) == multiset(s) + multiset{x}
  {
    if s == [] then [x]
    else if Compare(x, s[0]) < 0.0 then [x] + s
    else
      var rest := Insert(x, s[1..]);
      assert multiset(s) == multiset{s[0]} + multiset(s[1..]) by {
        assert s == [s[0]] + s[1..];
      }
      HeadPrecedesAll(s[0], x, s[1..], rest);
      [s[0]] + rest
  }

  /** An entry that precedes every entry of `tail` and `x` precedes every entry of any
      rearrangement of `tail` with `x` added. */
  lemma HeadPrecedesAll(head: Entry, x: Entry, tail: seq<Entry>, rest: seq<Entry>)
    requires forall k :: 0 <= k < |tail| ==> Precedes(head, tail[k])
    requires Compare(x, head) >= 0.0
    requires multiset(rest) == multiset(tail) + multiset{x}
    ensures forall k :: 0 <= k < |rest| ==> Precedes(head, rest[k])
  {
    forall k | 0 <= k < |rest|
      ensures Precedes(head, rest[k])
    {
      assert rest[k] in multiset(rest);
      if rest[k] != x {
        assert rest[k] in multiset(tail);
        var m :| 0 <= m < |tail| && tail[m] == rest[k];
      }
    }
  }

  /** `entries.sort(comparator)`, as a stable insertion sort. */
  function SortEntries(s: seq<Entry>): (r: seq<Entry>)
    ensures Sorted(r)
    ensures multiset(r) == multiset(s)
  {
    if s == [] then []
    else
      assert s == s[..|s| - 1] + [s[|s| - 1]];
      Insert(s[|s| - 1], SortEntries(s[..|s| - 1]))
  }

  /** In a sorted gallery every feature entry comes before every other entry, and within
      a tier the aspect ratio never increases. */
  lemma SortedOrder(s: seq<Entry>, i: int, j: int)
    requires Sorted(s) && 0 <= i < j < |s|
    ensures Tier(s[i]) >= Tier(s[j])
    ensures Tier(s[i]) == Tier(s[j]) ==> Ratio(s[i]) >= Ratio(s[j])
  {
    assert Precedes(s[i], s[j]);
  }

  const SKIP_KEYS: set<string> := {"logo", "logo_bg_remove"}

  /** `(x || '')` for a path field. */
  function OrEmpty(p: Option<string>): string {
    match p
    case None => ""
    case Some(s) => s
  }

  /** The gallery filter: not a skipped key, and the normalised optimized or original
      path lies in a `/gallery/` folder. */
  predicate IsGalleryEntry(e: Entry) {
    e.key !in SKIP_KEYS
    && (Includes(NormalizeSlashes(OrEmpty(e.item.optimized)), "/gallery/")
        || Includes(NormalizeSlashes(OrEmpty(e.item.original)), "/gallery/"))
  }

  /** `entries.filter(...)`: the gallery entries, in their sorted order. */
  function GalleryEntries(s: seq<Entry>): (r: seq<Entry>)
    ensures |r| <= |s|
  {
    if s == [] then []
    else
      var e := s[|s| - 1];
      GalleryEntries(s[..|s| - 1]) + (if IsGalleryEntry(e) then [e] else [])
  }

  /** The filter keeps exactly the gallery entries. */
  lemma {:induction false} GalleryEntriesMembers(s: seq<Entry>, e: Entry)
    ensures e in GalleryEntries(s) <==> e in s && IsGalleryEntry(e)
  {
    if s != [] {
      var init := s[..|s| - 1];
      GalleryEntriesMembers(init, e);
      assert s == init + [s[|s| - 1]];
    }
  }

  /** The filter keeps the sorted order. */
  lemma {:induction false} GalleryEntriesSorted(s: seq<Entry>)
    requires Sorted(s)
    ensures Sorted(GalleryEntries(s))
  {
    if s != [] {
      var init := s[..|s| - 1];
      var last := s[|s| - 1];
      assert Sorted(init) by {
        forall i, j | 0 <= i < j < |init|
          ensures Precedes(init[i], init[j])
        {
          assert init[i] == s[i] && init[j] == s[j];
        }
      }
      GalleryEntriesSorted(init);
      var g := GalleryEntries(init);
      if IsGalleryEntry(last) {
        forall i | 0 <= i < |g|
          ensures Precedes(g[i], last)
        {
          GalleryEntriesMembers(init, g[i]);
          var m :| 0 <= m < |init| && init[m] == g[i];
          assert s[m] == g[i];
        }
      }
    }
  }

  /** What `appendItems` builds for one entry: the `<img>` alt text (underscores become
      spaces), its `src` (the original if any, else the optimized) and the `<source>`
      `srcset` (the optimized). */
  datatype Picture = Picture(alt: string, src: string, srcset: string)

  function PictureOf(e: Entry): (r: Picture)
    ensures |r.alt| == |e.key| && '_' !in r.alt
    ensures forall i :: 0 <= i < |e.key| ==> r.alt[i] == (if e.key[i] == '_' then ' ' else e.key[i])
    ensures r.srcset == NormalizeSlashes(OrEmpty(e.item.optimized))
    ensures r.src == (if NormalizeSlashes(OrEmpty(e.item.original)) != [] then NormalizeSlashes(OrEmpty(e.item.original)) else r.srcset)
  {
    var opt := NormalizeSlashes(OrEmpty(e.item.optimized));
    var orig := NormalizeSlashes(OrEmpty(e.item.original));
    Picture(ReplaceAllChar(e.key, '_', ' '), if orig != [] then orig else opt, opt)
  }

  function Pictures(s: seq<Entry>): (r: seq<Picture>)
    ensures |r| == |s| && forall i :: 0 <= i < |s| ==> r[i] == PictureOf(s[i])
  {
    seq(|s|, i requires 0 <= i < |s| => PictureOf(s[i]))
  }

  lemma PicturesAppend(a: seq<Entry>, b: seq<Entry>)
    ensures Pictures(a + b) == Pictures(a) + Pictures(b)
  {
  }

  /** Rendering one more entry of `s`. */
  lemma PicturesStep(before: seq<Picture>, s: seq<Entry>, k: nat)
    requires k < |s|
    ensures before + Pictures(s[..k + 1]) == (before + Pictures(s[..k])) + [PictureOf(s[k])]
  {
    assert s[..k + 1] == s[..k] + [s[k]];
    PicturesAppend(s[..k], [s[k]]);
  }

  /** Rendering a prefix and then the entries that follow it. */
  lemma PicturesExtend(s: seq<Entry>, i: nat, j: nat)
    requires i <= j <= |s|
    ensures Pictures(s[..j]) == Pictures(s[..i]) + Pictures(s[i..j])
  {
    assert s[..j] == s[..i] + s[i..j];
    PicturesAppend(s[..i], s[i..j]);
  }

  const PAGE_SIZE: nat := 8

  /** The cursor after appending `count` more entries out of `total`. */
  function PageEnd(cursor: nat, count: nat, total: nat): (r: nat)
    requires cursor <= total
    ensures cursor <= r <= total
    ensures r - cursor == if count <= total - cursor then count else total - cursor
  {
    if cursor + count <= total then cursor + count else total
  }

  /** The cursor after the initial page and `clicks` presses of "load more". */
  function CursorAfter(clicks: nat, total: nat): (r: nat)
    ensures r <= total
  {
    PageEnd(if clicks == 0 then 0 else CursorAfter(clicks - 1, total), PAGE_SIZE, total)
  }

  /** After the initial page and `clicks` presses, `min(8 * (clicks + 1), total)`
      entries are shown. */
  lemma {:induction false} CursorAfterPages(clicks: nat, total: nat)
    ensures CursorAfter(clicks, total) == if PAGE_SIZE * (clicks + 1) <= total then PAGE_SIZE * (clicks + 1) else total
  {
    if clicks > 0 {
      CursorAfterPages(clicks - 1, total);
    }
  }

  /** The gallery's paging state: the sorted, filtered entries, the closure's `cursor`,
      the pictures appended so far and whether the "load more" button was hidden. */
  class GalleryPager {
    const entries: seq<Entry>
    const hasButton: bool
    var cursor: nat
    var rendered: seq<Picture>
    var buttonHidden: bool

    /** What holds between any two calls of `appendItems`. */
    ghost predicate Consistent()
      reads this
    {
      cursor <= |entries| && rendered == Pictures(entries[..cursor])
      && (buttonHidden ==> hasButton && cursor >= |entries|)
    }

    /** What holds once the first page has been appended. */
    ghost predicate Valid()
      reads this
    {
      Consistent() && (buttonHidden <==> hasButton && cursor >= |entries|)
    }

    /** The gallery setup: sort, filter, start the cursor at 0 and append the first page. */
    constructor (meta: seq<Entry>, loadMoreButton: bool)
      ensures entries == GalleryEntries(SortEntries(meta)) && hasButton == loadMoreButton
      ensures cursor == PageEnd(0, PAGE_SIZE, |entries|)
      ensures Valid()
    {
      entries := GalleryEntries(SortEntries(meta));
      hasButton := loadMoreButton;
      cursor := 0;
      rendered := [];
      buttonHidden := false;
      new;
      AppendItems(PAGE_SIZE);
    }

    /** `appendItems(count)`: appends the pictures of the next `min(count, remaining)`
        entries, advances the cursor past them and hides the button at the end. */
    method AppendItems(count: nat)
      requires Consistent()
      modifies this
      ensures Valid()
      ensures cursor == PageEnd(old(cursor), count, |entries|)
      ensures rendered == old(rendered) + Pictures(entries[old(cursor)..cursor])
    {
      var slice := entries[cursor..PageEnd(cursor, count, |entries|)];
      ghost var before := rendered;
      for k := 0 to |slice|
        invariant rendered == before + Pictures(slice[..k])
        invariant cursor == old(cursor) && buttonHidden == old(buttonHidden)
      {
        PicturesStep(before, slice, k);
        rendered := rendered + [PictureOf(slice[k])];
      }
      assert slice[..|slice|] == slice;
      PicturesExtend(entries, cursor, cursor + |slice|);
      cursor := cursor + |slice|;
      if hasButton && cursor >= |entries| {
        buttonHidden := true;
      }
    }
  }
}
