# DriveInTokyo image pipeline and site scripts, modelled in Dafny

DriveInTokyo is a static marketing site. It has three parts:

- a service worker that caches its assets;
- browser scripts that drive the gallery, the full-resolution image modal, the swipeable
  carousel and the contact form;
- three Python maintenance scripts that keep the image folders consistent: one builds
  `image_metadata.json`, one renames images from a mapping file, and one moves the
  original images into the folders their optimized `.webp` copies live in.

This project models those parts and proves what they do.

| module (file) | models |
|---|---|
| `ServiceWorker` (`service_worker.dfy`) | `sw.js`: install, activate and the stale-while-revalidate fetch handler over a class `CacheStorage` |
| `FullResModal` (`full_res_modal.dfy`) | `js/carousel.js`: `openFullResFromImg` candidate list and the modal's `tryNext` fallback loader |
| `PageControls` (`page_controls.dfy`) | `js/carousel.js`: swipe decision and contact-form validation |
| `MasonryGallery` (`masonry_gallery.dfy`) | `js/carousel.js`: gallery sort, filter and `appendItems` paging |
| `SimpleCarousel` (`simple_carousel.dfy`) | `car-experience-tokyo/public/js/carousel.js`: wrap-around carousel |
| `ImageMetadata` (`image_metadata.dfy`) | `scripts/generate_image_metadata.py` |
| `RenameImages` (`rename_images.dfy`) | `scripts/rename_images.py` |
| `SortAssets` (`sort_assets.dfy`) | `scripts/sort_assets_like_optimized.py` |
| `AssetFs` (`asset_fs.dfy`) | the `os.walk` listing, the "files named `base` + one of `exts`" search the scripts share, and the file tree `os.replace` acts on |
| `PyPath`, `PyDict`, `JsText` | the parts of `os.path`, insertion-ordered `dict` and JavaScript string methods the scripts rely on |
| `SeqUtil`, `Wrappers` | generic filter-map and concat-map over sequences; `Option` and `Result` |

How the environment is modelled:

- A directory walk (`os.walk`) is a `seq<WalkDir>`: the directories in walk order, each
  with its root path, its path relative to the walk's top and its file names. The order
  matters: `find_first_existing` returns the first match, and `scan_webp_structure` lets
  the last directory win.
- The file system that `os.replace` changes is a class `FileTree` holding a
  `map<string, nat>` from path to contents.
- Image dimensions, file sizes, `os.path.abspath` and the network are function
  parameters.
- A JSON document is `Missing`, `Malformed` or `Parsed(value)`.
- A Python `dict` is a sequence of key/value pairs. Assigning to a key that is already
  present keeps its position and takes the new value.

`sw.js:38-48` has one caching strategy, stale-while-revalidate, used for `image`,
`style` and `script` requests; every other request, pages included, is left to the
browser.

## Model

| member | source | states |
|---|---|---|
| `ServiceWorker.Handles` | sw.js:30-38 | The worker answers a request only if it is a GET, comes from its own origin or an allow-listed CDN, and has destination image, style or script. Conversely, every such request is answered. |
| `ServiceWorker.Answer` | sw.js:40-46 | `cached \|\| fetchPromise`: a cached response wins. Otherwise the network's response is returned. If the network fails and nothing was cached, there is no response. |
| `ServiceWorker.MatchIn` | sw.js:40 | `caches.match` returns the entry of the first cache, in creation order, that holds the key: no earlier cache holds it. It returns nothing only when no open cache holds the key. |
| `ServiceWorker.PutEntry` | sw.js:43 | `cache.put` stores the response under the key in the named cache, opening it if needed. The cache gains exactly that one key. It keeps every other entry of that cache and leaves every other cache untouched. |
| `ServiceWorker.Opened` | sw.js:42-43 | `caches.open` keeps the existing cache names in order and adds the name at the end if it is new. |
| `ServiceWorker.StaleNames` | sw.js:19-20 | The caches to delete are exactly the existing names other than `CACHE_NAME`. |
| `ServiceWorker.Without` | sw.js:20 | `caches.delete` removes exactly that name from the list and keeps the list free of duplicates. |
| `ServiceWorker.AssetUrls` | sw.js:2-13 | `addAll` fetches one URL per `CORE_ASSETS` entry, in order, each resolved against the worker's origin: the four site paths get the origin prefix, and the two CDN URLs are used as they are. |
| `ServiceWorker.AddAll` | sw.js:13 | After a successful `addAll`, every core URL maps to its fetched response. Every other entry of the cache is unchanged. |
| `ServiceWorker.OnlyCurrentRemains` | sw.js:19-21 | Deleting every stale name leaves at most `CACHE_NAME`, with its old contents. |
| `ServiceWorker.RevalidatedEntryMatchesNext` | sw.js:40-44 | Once the refreshed response is put in `CACHE_NAME`, the next `caches.match` for the same URL returns it, provided no other cache holds that URL. |
| `ServiceWorker.CacheStorage.Put` | sw.js:43 | The cache storage after `cache.put` is exactly `PutEntry` of the old one, and stays well-formed. |
| `ServiceWorker.CacheStorage.Delete` | sw.js:20 | `caches.delete` reports whether the cache existed and removes exactly that cache. |
| `ServiceWorker.CacheStorage.Activate` | sw.js:17-23 | After activation only `CACHE_NAME` survives, with the contents it had before. All other caches are gone. |
| `ServiceWorker.CacheStorage.Install` | sw.js:11-15 | Install opens `CACHE_NAME`. It succeeds iff every core asset fetch succeeds, and then stores them all. On failure nothing is stored (`addAll` is atomic). |
| `ServiceWorker.CacheStorage.HandleFetch` | sw.js:26-50 | Requests the worker does not handle fall through and leave the caches unchanged. A handled request is answered from the cache if possible, else from the network. A delivered network response is written to `CACHE_NAME`. A network error changes nothing. |
| `FullResModal.SourceOf` | js/carousel.js:67 | The source URL is `currentSrc` when it is non-empty, and exactly `src` when `currentSrc` is empty. |
| `FullResModal.OptimizedStem` | js/carousel.js:75-80 | The `assets/` counterpart of an optimized path, after dropping trailing `.webp`, `.jpg`, `.jpeg` and `.png` in that order, is at least 10 characters shorter than the path. |
| `FullResModal.OptimizedStemPrefix` | js/carousel.js:75-80 | The stem keeps the path up to its first `assets_optimized/`, with that folder renamed `assets/`. Only the tail after it can lose extensions. |
| `FullResModal.AssetsStem` | js/carousel.js:85 | Stripping `.jpg`/`.jpeg`/`.png` (case-insensitive) leaves a prefix of the path. |
| `FullResModal.OptimizedCandidates` | js/carousel.js:74-82 | An optimized path yields four candidates (`.png`, `.JPG`, `.jpg`, `.jpeg`), none of which is the path itself. |
| `FullResModal.FullResCandidates` | js/carousel.js:66-92 | The candidate list always ends with the normalised source, so it is never empty. It starts with the four optimized candidates for an `assets_optimized/` path. For an `assets/` path, its next-to-last entry is the `.png` variant. Its length is fixed by which folders the path mentions. |
| `FullResModal.ModalLoader.constructor` | js/carousel.js:317-323 | Opening the modal shows the first candidate, or nothing if the list is empty. |
| `FullResModal.ModalLoader.TryNext` | js/carousel.js:318-321 | `tryNext` shows the next untried candidate and advances. At the end of the list it does nothing. The candidates shown are always a prefix of the list. |
| `FullResModal.Advance` | js/carousel.js:319-320 | The index never passes the end of the candidate list; the exact count after repeated steps is `ShownAfterIsPrefix`. |
| `FullResModal.ShownAfter` | js/carousel.js:322-323 | After any number of load errors the index is still within the list; `ShownAfterIsPrefix` gives its exact value. |
| `FullResModal.ShownAfterIsPrefix` | js/carousel.js:317-323 | After `e` load errors exactly `min(e + 1, count)` candidates have been tried. |
| `PageControls.SwipeDecision` | js/carousel.js:163-177 | The carousel moves back iff the finger travels more than 50px right. It moves forward iff the finger travels more than 50px left. Otherwise it stays. |
| `PageControls.SwipeMirror` | js/carousel.js:169-176 | Swapping start and end swaps prev and next, and keeps "stay". |
| `PageControls.Submit` | js/carousel.js:118-130 | The form reports an error iff name, email or message is empty (experience is optional). Otherwise it reports success. |
| `MasonryGallery.Compare` | js/carousel.js:217-224 | A feature entry sorts before a non-feature one. Within a tier, the larger aspect ratio sorts first, and equal ratios compare as 0. |
| `MasonryGallery.Ratio` | js/carousel.js:221-222 | `aspectRatio \|\| 1` is never zero. |
| `MasonryGallery.Insert` | js/carousel.js:217-224 | Inserting into a sorted list keeps it sorted and adds exactly that entry. |
| `MasonryGallery.SortEntries` | js/carousel.js:216-224 | The sorted entries are a permutation of the metadata entries, ordered by the comparator. |
| `MasonryGallery.SortedOrder` | js/carousel.js:217-224 | In the sorted list, feature entries come first. Within a tier, aspect ratios do not increase. |
| `MasonryGallery.GalleryEntries` | js/carousel.js:227-233 | The filter never adds entries; which entries it keeps is `GalleryEntriesMembers`. |
| `MasonryGallery.GalleryEntriesMembers` | js/carousel.js:227-233 | An entry is kept iff its key is not skipped and its optimized or original path lies in `/gallery/`. |
| `MasonryGallery.GalleryEntriesSorted` | js/carousel.js:228 | Filtering a sorted list keeps it sorted. |
| `MasonryGallery.PictureOf` | js/carousel.js:241-253 | The alt text is the key with every `_` replaced by a space, and nothing else changed. `srcset` is the normalised optimized path (empty when absent). `src` is the normalised original, or the optimized path when there is no original. |
| `MasonryGallery.Pictures` | js/carousel.js:240-262 | One picture per entry, in order. |
| `MasonryGallery.PageEnd` | js/carousel.js:239-263 | The cursor advances by `count`, or to the end when fewer entries remain. |
| `MasonryGallery.CursorAfter` | js/carousel.js:269-272 | The cursor never passes the number of gallery entries. |
| `MasonryGallery.CursorAfterPages` | js/carousel.js:235-272 | After the first page and `c` clicks, exactly `min(8(c + 1), total)` entries are shown. |
| `MasonryGallery.GalleryPager.constructor` | js/carousel.js:216-269 | Setup sorts, then filters, then appends the first page of 8. The button is hidden iff it exists and everything is already shown. |
| `MasonryGallery.GalleryPager.AppendItems` | js/carousel.js:238-267 | `appendItems` appends the pictures of exactly the next slice and advances the cursor past it. The button is hidden iff it exists and everything is shown. What is rendered is always the pictures of the first `cursor` entries. |
| `SimpleCarousel.Plus` | car-experience-tokyo/public/js/carousel.js:16-21 | Adding to `NaN` gives `NaN`, and only then. |
| `SimpleCarousel.JsRem` | car-experience-tokyo/public/js/carousel.js:16-21 | JavaScript `%` is `NaN` iff the dividend is `NaN` or the divisor is 0. It agrees with the mathematical remainder on non-negative operands. Its magnitude is below the divisor's. |
| `SimpleCarousel.NextStep` | car-experience-tokyo/public/js/carousel.js:15-16 | "Next" moves to the following image and wraps from the last to the first. |
| `SimpleCarousel.PrevStep` | car-experience-tokyo/public/js/carousel.js:20-21 | "Prev" moves to the previous image and wraps from the first to the last. |
| `SimpleCarousel.StepsInRange` | car-experience-tokyo/public/js/carousel.js:15-21 | Both steps keep the index a valid image index. |
| `SimpleCarousel.PrevAfterNext` | car-experience-tokyo/public/js/carousel.js:15-22 | "Prev" undoes "next". |
| `SimpleCarousel.NextAfterPrev` | car-experience-tokyo/public/js/carousel.js:15-22 | "Next" undoes "prev". |
| `SimpleCarousel.NoImagesNaN` | car-experience-tokyo/public/js/carousel.js:16-21 | With no images both steps make the index `NaN`. |
| `SimpleCarousel.AfterNextsIsMod` | car-experience-tokyo/public/js/carousel.js:7-16 | `k` "next" clicks from the start land on image `k mod n`. |
| `SimpleCarousel.Carousel.constructor` | car-experience-tokyo/public/js/carousel.js:4-29 | The index starts at 0 and only the first image is shown. |
| `SimpleCarousel.Carousel.ShowImage` | car-experience-tokyo/public/js/carousel.js:9-13 | Exactly the image at the index is displayed. All others are hidden. |
| `SimpleCarousel.Carousel.NextImage` | car-experience-tokyo/public/js/carousel.js:15-18 | The index becomes `(i + 1) % n` and only that image is shown. |
| `SimpleCarousel.Carousel.PrevImage` | car-experience-tokyo/public/js/carousel.js:20-23 | The index becomes `(i - 1 + n) % n` and only that image is shown. |
| `ImageMetadata.SuggestLayout` | scripts/generate_image_metadata.py:50-78 | Spans are 1 or 2, and never both 2. Missing or degenerate dimensions give a 1×1 normal layout. |
| `ImageMetadata.SuggestLayoutThresholds` | scripts/generate_image_metadata.py:53-72 | The orientation, spans and priority thresholds (1.1, 0.9, 1.7, 1/aspect ≥ 1.6, 2.0), restated as exact integer comparisons of width and height. Each is proved in both directions. |
| `ImageMetadata.RatioAbove` | scripts/generate_image_metadata.py:53-72 | Comparing `width / height` with a threshold is the same as comparing `width` with threshold × `height`. |
| `ImageMetadata.Dimensions` | scripts/generate_image_metadata.py:107-114 | Readable dimensions of the optimized file are used. Otherwise the result is exactly the original's dimensions when its path is set, and none when it is not. |
| `ImageMetadata.EntryFor` | scripts/generate_image_metadata.py:102-146 | The entry records both paths as found. Its layout is `suggest_layout` of its width and height. |
| `ImageMetadata.EntryShape` | scripts/generate_image_metadata.py:116-130 | Orientation is unknown iff no dimensions were read, and then the size is 0×0. Otherwise it is square or landscape as width equals or exceeds height. The aspect ratio is set iff the height is positive, and then equals width/height. |
| `ImageMetadata.EntrySources` | scripts/generate_image_metadata.py:107-140 | `sourceUsedForDimensions` is empty iff neither path is set. "original" exactly when the original path is set and the optimized file gave no dimensions. `bytes` is the size of the optimized file, else of the original, else 0. |
| `ImageMetadata.UnknownGetsDefaultLayout` | scripts/generate_image_metadata.py:116-130 | An entry whose dimensions are unknown gets the 1×1 normal layout. |
| `ImageMetadata.StringEntries` | scripts/generate_image_metadata.py:88 | The string-only filter never adds pairs; which pairs it keeps is `StringEntriesMembers`. |
| `ImageMetadata.StringEntriesMembers` | scripts/generate_image_metadata.py:88 | A pair survives iff its value is a JSON string. |
| `ImageMetadata.LoadStringMapping` | scripts/generate_image_metadata.py:18-21 | A missing file and malformed JSON are errors. The mapping loads iff the document is a JSON object. |
| `ImageMetadata.WalkStemsMembers` | scripts/generate_image_metadata.py:94-98 | A stem is collected iff some file under the optimized folder has that stem and a supported `.webp`/`.WEBP` extension. |
| `ImageMetadata.CandidateNames` | scripts/generate_image_metadata.py:92-98 | The candidates are exactly the mapping's values plus the stems of every optimized webp file. |
| `ImageMetadata.AddStems` | scripts/generate_image_metadata.py:95-98 | One directory adds exactly the stems of its webp files. |
| `ImageMetadata.FindFirstExisting` | scripts/generate_image_metadata.py:24-31 | The loop returns the first matching file in walk order, or nothing. |
| `ImageMetadata.FirstMatchIsHere` | scripts/generate_image_metadata.py:24-31 | If no earlier directory and no earlier file matches, the first match is this file. |
| `ImageMetadata.BuildMetadata` | scripts/generate_image_metadata.py:81-148 | Fails iff loading the mapping fails, with the same error. Otherwise there is one entry per candidate name and no other. Each entry is built from the first optimized and first original file found for that name. |
| `AssetFs.MatchingPathsMembers` | scripts/rename_images.py:23-30 | A path is returned iff it joins a walked directory with one of its files named `base` + an allowed extension. |
| `AssetFs.MatchedPathShape` | scripts/rename_images.py:26-29 | Every returned path ends in `base` + an allowed extension. |
| `AssetFs.FindMatchingFiles` | scripts/rename_images.py:23-30 | The loop returns all matches in walk order. |
| `AssetFs.FileTree.Replace` | scripts/rename_images.py:80 | `os.replace` succeeds iff the source exists. Then the destination holds the source's contents, the source is gone and nothing else changes. On failure nothing changes. |
| `AssetFs.Moved` | scripts/rename_images.py:80 | The destination gets the source's contents and the source disappears unless it is the destination. Every other path is untouched. |
| `RenameImages.LoadMapping` | scripts/rename_images.py:13-20 | A missing file, malformed JSON and a non-object document are three distinct errors. A loaded mapping has distinct keys. |
| `RenameImages.RenamedPathEnds` | scripts/rename_images.py:48-49 | For any new base name, `RenamedPath` gives a path that ends with the new base name and the old extension. Unless the new base name is absolute, it starts with the source's directory. |
| `RenameImages.RenamedPathShape` | scripts/rename_images.py:48-49 | For a new base name without '/', a rename stays in the same directory and keeps the extension. Only the base name changes. |
| `RenameImages.RenameOpsMembers` | scripts/rename_images.py:47-51 | `(src, dst)` is planned iff `src` matched, `dst` is its renamed path and the two differ. |
| `RenameImages.PlannedRenamesMembers` | scripts/rename_images.py:33-61 | An operation is planned iff some mapping entry renames a matching original or webp file to a different path. A non-string mapping value names the new base through Python's `str()`, a parameter. |
| `RenameImages.PlannedRenameShape` | scripts/rename_images.py:44-59 | Every planned source has a supported extension and the old base name. When the new base name has no '/', its destination is in the same folder with the new base name and the same extension. |
| `RenameImages.AbsoluteNewBaseLeavesFolder` | scripts/rename_images.py:49 | A new base name starting with '/' makes `os.path.join` discard the source folder: the file goes to that absolute path plus the extension. |
| `RenameImages.NestedNewBaseLeavesFolder` | scripts/rename_images.py:49 | A new base name `sub/name` puts the file in the sub-folder `sub` of the source folder, not in the source folder itself. |
| `RenameImages.AppendRenames` | scripts/rename_images.py:47-51 | The loop over one match list appends exactly its rename operations. |
| `RenameImages.PlanRenames` | scripts/rename_images.py:33-61 | The loops produce exactly the planned renames, in mapping order, originals before webps, for any JSON object as mapping (non-string values go through `str()`). |
| `RenameImages.RenameStep` | scripts/rename_images.py:70-83 | An existing destination is skipped unless forced. A dry run moves no file. A real rename moves the file, or fails when the source is missing. |
| `RenameImages.ApplyAll` | scripts/rename_images.py:70-83 | One log step per operation. |
| `RenameImages.DryRunChangesNothing` | scripts/rename_images.py:76-77 | A dry run moves no file: the modelled file tree is unchanged. |
| `RenameImages.ForceNeverSkips` | scripts/rename_images.py:71-73 | With `--force` no operation is skipped. |
| `RenameImages.ApplyRenames` | scripts/rename_images.py:64-83 | The loop leaves the file tree and log that `ApplyAll` describes. |
| `SortAssets.Lower` | scripts/sort_assets_like_optimized.py:24 | `lower()` keeps the length and folds each ASCII capital. |
| `SortAssets.WebpEntriesMembers` | scripts/sort_assets_like_optimized.py:18-25 | A `(name, folder)` pair is recorded iff some file in that folder is a `.webp` (any case) with that stem. |
| `SortAssets.WebpStructureKeys` | scripts/sort_assets_like_optimized.py:17-26 | The structure has distinct keys. A name is a key iff some webp file has that stem. |
| `SortAssets.DirFolder` | scripts/sort_assets_like_optimized.py:19-25 | Within one directory a webp's stem maps to that directory's relative folder ("" for the top). |
| `SortAssets.LastDirectoryWins` | scripts/sort_assets_like_optimized.py:18-26 | A name shared by webps in several folders maps to the last such folder in walk order. |
| `SortAssets.ScanWebpStructure` | scripts/sort_assets_like_optimized.py:11-26 | The loop builds exactly that structure. |
| `SortAssets.ScanDirectory` | scripts/sort_assets_like_optimized.py:19-25 | Scanning one directory adds its webp entries to the dict. |
| `SortAssets.FindOriginalsByBase` | scripts/sort_assets_like_optimized.py:29-36 | Returns every `.jpg`/`.jpeg`/`.png` (listed cases) file with that base name, in walk order. |
| `SortAssets.PlannedMovesMembers` | scripts/sort_assets_like_optimized.py:39-48 | A move is planned iff `src` is an original of some entry's name, `dst` is its place in that entry's folder, and they resolve to different absolute paths. |
| `SortAssets.PlannedMoveShape` | scripts/sort_assets_like_optimized.py:44-45 | A move keeps the file's base name and extension. It targets the entry's folder under the assets root, or the root itself for "". |
| `SortAssets.PlanMoves` | scripts/sort_assets_like_optimized.py:39-48 | The loops produce exactly the planned moves. |
| `SortAssets.AppendMoves` | scripts/sort_assets_like_optimized.py:43-47 | One entry's originals add exactly their moves. |
| `SortAssets.MoveStep` | scripts/sort_assets_like_optimized.py:55-64 | A dry run reports and moves no file. A real move either moves the file or fails when the source is missing. |
| `SortAssets.MoveAll` | scripts/sort_assets_like_optimized.py:55-64 | One log step per operation. |
| `SortAssets.DryRunMovesNothing` | scripts/sort_assets_like_optimized.py:57-58 | A dry run moves no file (the modelled file tree is unchanged) and reports every operation. |
| `SortAssets.RealRunNeverPreviews` | scripts/sort_assets_like_optimized.py:59-64 | A real run reports each operation as done or failed. |
| `SortAssets.ApplyMoves` | scripts/sort_assets_like_optimized.py:51-64 | The loop leaves the file tree and log that `MoveAll` describes. |
| `PyPath.SplitExt` | scripts/rename_images.py:27 | `os.path.splitext`: root + extension is the path. |
| `PyPath.ExtStartIsRfind` | scripts/rename_images.py:27 | The extension starts at the last '.' after the last '/', unless only dots precede it in that part. |
| `PyPath.ExtShape` | scripts/rename_images.py:48 | An extension is empty or starts with '.', and contains no '/'. |
| `PyPath.Join` | scripts/rename_images.py:29 | `os.path.join` of two parts: an absolute second part replaces the first. Otherwise the result is the first part, one '/' when it is non-empty and does not end with one, then the second part. |
| `PyPath.Basename` | scripts/sort_assets_like_optimized.py:45 | `os.path.basename` is the '/'-free tail of the path. |
| `PyPath.Dirname` | scripts/rename_images.py:49 | `os.path.dirname` has no trailing '/' (unless it is all slashes), and is empty for a bare name. |
| `PyPath.BasenameJoin` | scripts/sort_assets_like_optimized.py:45 | Joining a directory and a file name gives back that file name as basename. |
| `PyPath.SplitExtJoin` | scripts/rename_images.py:48-49 | Joining a directory does not change a file's extension. |
| `PyPath.DirnameJoin` | scripts/rename_images.py:49 | Joining a name to `dirname(p)` and taking dirname again gives back `dirname(p)`. |
| `PyDict.PutProperties` | scripts/sort_assets_like_optimized.py:25 | `mapping[name] = rel_dir` keeps keys distinct and sets that key. Other keys and key positions are unchanged. |
| `PyDict.FromPairsKeys` | scripts/sort_assets_like_optimized.py:17-25 | The dict built by repeated assignment has a key iff some assignment used it. |
| `PyDict.FromPairsOverride` | scripts/sort_assets_like_optimized.py:25 | A later assignment to a key overrides every earlier one. |
| `PyDict.FromPairsIgnores` | scripts/sort_assets_like_optimized.py:25 | Assignments to other keys do not affect a key's value. |
| `JsText.ReplaceFirst` | js/carousel.js:76 | A string pattern replaces only its first occurrence. A string without it is unchanged. |
| `JsText.NormalizeSlashes` | js/carousel.js:69 | `/\\/g` replaces every backslash, and only backslashes. |
| `JsText.ReplaceAllChar` | js/carousel.js:252 | `/_/g` replaces every occurrence of the character and nothing else. |
| `JsText.Includes` | js/carousel.js:74 | `includes` holds iff the pattern occurs at some index of the string. |
| `JsText.IndexOfFrom` | js/carousel.js:74 | `indexOf` finds the first occurrence at or after the start, or reports none. |
| `JsText.StripSuffixIgnoreCase` | js/carousel.js:77-80 | `/\.ext$/i` removes the suffix iff the string ends with it (any case). Otherwise the string is unchanged. |
| `JsText.StripKeepsSlashPrefix` | js/carousel.js:77-80 | Stripping an extension (which holds no '/') never removes a '/' or anything before it. |

## Left out

- The browser's Cache API internals, promise scheduling and concurrency are not modelled. `cache.put` in `sw.js:43` is not awaited and could land after the response is returned; the model applies it at once. Requests are keyed by URL only (`Vary` headers are ignored).
- ServiceWorker.Handles: the CDN test is `hostname.includes(...)` for the two named hosts. URL parsing is taken as given: requests carry origin, hostname and href fields.
- JsText.StripSuffixIgnoreCase: the `/i` flag and Python's `str.lower()` are modelled as ASCII case folding only. Unicode case mapping is out of scope.
- ImageMetadata.EntryShape: the aspect ratio is the exact quotient. `round(width / height, 4)` is not modelled.
- ImageMetadata.SuggestLayoutThresholds: the 1.1/0.9/1.7/1.6/2.0 thresholds are compared exactly on integers. IEEE double rounding near those thresholds is not modelled.
- RenameImages.RenamedPathShape: holds only for new base names without '/'. The script does not check this; `AbsoluteNewBaseLeavesFolder` and `NestedNewBaseLeavesFolder` show where such files land instead. The same condition is on `PlannedRenameShape`.
- ImageMetadata.BuildMetadata: the result is a map, so the sorted iteration and the sorted JSON output order are not modelled. Mapping values that are not strings are dropped, as at line 88. Their `str()` conversions never arise.
- MasonryGallery.SortEntries: states sortedness and permutation, but not stability (ES2019 `Array.prototype.sort` is stable).
- MasonryGallery: the metadata `fetch` chain, the loading overlay and DOM creation are not modelled. Rendering is the `Picture` record list; `loading`, `decoding` and `sizes` are constants and left out.
- Directory creation (`os.makedirs` before each rename or move) is not modelled, and neither is its failure, which the scripts do not catch. It runs in dry runs too (`scripts/rename_images.py:75-76`, `scripts/sort_assets_like_optimized.py:56-57`), so a dry run can still create destination folders; the file tree modelled holds files only. `os.replace` is modelled as failing only when the source is missing (other OS errors are not modelled).
- `os.walk`'s directory order, `os.path.relpath` and `os.path.abspath` are inputs: the walk listing carries each directory's relative path, and `abspath` is a function parameter.
- Image dimensions (`PIL`) and file sizes (`os.path.getsize`) are function parameters. `scripts/ImageUtils.py` is not part of this model.
- Command-line parsing (`argparse`), `print` output and the scripts' `main` functions are not modelled. The only messages modelled are the per-operation log steps. The JSON file writing is not modelled either.
- SimpleCarousel: the page script throws if the next/prev buttons are missing (`car-experience-tokyo/public/js/carousel.js:25-26`). The model assumes they exist.
- `js/carousel.js` also holds the hero/Bootstrap carousel setup, hover effects, notifications and the modal's close handling. These are pure DOM styling and event wiring and are left out.
