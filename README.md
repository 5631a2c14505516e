# covers2colors: the palette catalog, the colour-selection rules and the command-line rewrite

covers2colors turns album cover art into colour palettes. This project models
three parts of it in Dafny.

- **The palette catalog.** It is kept in `index.json` and managed by
  `CoverPalette` in `covers2colors/convert.py`. The model covers:
  - the backfill of missing ids;
  - saving a palette and deleting one;
  - the paginated listing and the search by colour count;
  - the cache rule and the paging of the catalog sheet (`palettes.pdf`);
  - loading a palette by id.
- **The colour-selection rules of the palette generators**, also in
  `convert.py`:
  - the light / dark / bold filter and the fallback to the full palette;
  - the circular hue-distance score;
  - the snap of hue-cluster centres to the nearest colour;
  - the loops that keep the best-scoring trial palette;
  - the sweep over cluster counts 2..max.
- **The command line** (`covers2colors/cli.py`): the `list` / `delete`
  precedence and the rewrite of the unquoted `artist - album [options]` form.

Modules:

- `wrappers.dfy` (`Wrappers`): `Option` and `Result`.
- `sequences.dfy` (`Sequences`): generic helpers.
  - `Filter` is a list comprehension with a condition.
  - `Subsequence` means order-preserving selection.
  - `PySlice` is CPython slicing `s[a:b]`, with negative bounds counted from the end.
- `catalog.dfy` (`Catalog`): the index as a sequence of `Entry` records, and the list logic on it.
  - backfill, as a specification function and as the loop;
  - removal by id;
  - the stable sort by `entry.get("id", 0)`;
  - the page windows;
  - the sheet pages;
  - the lookup by id.
- `store.dfy` (`Store`): the state.
  - `PaletteStore` holds `index.json`, its modification time, the sheet's modification time, and the hexcode files written by `save_palette`.
  - `CoverPalette` holds the palette whose hexcodes are saved and loaded.
  - The hexcode files are a `map` from path to content.
  - A modification time is the integer `now` passed to the operation that writes the file.
- `colors.dfy` (`Colors`): the pure hue arithmetic.
  - HSV triples are real numbers.
  - `_hue_distinctness` is the full-matrix sum.
  - `np.argmin` is the first index of a minimum.
- `selection.dfy` (`Selection`): `_filter_colors` as an in-place mask over an array, and the generator loops.
  - The clustering calls (`KMeans`, `MiniBatchKMeans`) are function parameters.
  - So are the elbow finder (`KneeLocator`) and the Euclidean spread score (`pdist`).
- `paths.dfy` (`Paths`): `str(Path(p))` for POSIX paths.
  - Empty and `.` segments are dropped, so `./a.json` is `a.json` and `out//p.json` is `out/p.json`.
  - A trailing slash is dropped.
  - Exactly two leading slashes stay two; one, or three and more, become one.
  - An empty relative path is `.`.
- `cli.dfy` (`Cli`): the argv rewrite loop and the command dispatch.

How the code behaves, as modelled:

- `create_palettes_pdf` pages the loaded index in its stored order. It does not sort by id.
- `list_palettes` and `find_palettes_by_color_count` do sort by id.
  - The sort is stable.
  - Equal ids keep their stored order.
- `list_palettes` and `find_palettes_by_color_count` take `data[start:start + per_page]` with Python slicing.
  - A negative `per_page` gives a negative end index, which counts from the end (`Catalog.WindowNegativePageSize`).
  - A start past the end gives `[]`.
- `delete_palette` removes every entry carrying the id.
  - It deletes the file of the last such entry.
  - It returns `False` for an empty index or an unknown id.
- `_load_index(assign_ids=True)` is called first by every catalog operation except `save_palette`, which first checks that there are hexcodes to save. It can rewrite `index.json` (and bump its modification time) even when the operation then fails or returns nothing.
- The backfill starts after `max(entry.get("id", 0) ...)`.
  - An entry without an id counts as 0 there, so whenever the backfill assigns an id it starts from a maximum of at least 0, and the first id it assigns is at least 1 (`Catalog.BackfillAssignsAfterMax`).
  - `save_palette` gives `max + 1`. An index whose ids are all negative has nothing to backfill, so the next save continues from that negative maximum: ids [-5] give -4 (`Store.NegativeMaxNextId`).
  - So ids can be reused: after the newest palette is deleted, the next save gets its id again (`Store.SaveDeleteSave`).
- `generate_distinct_optimal_cmap` fails when it keeps no trial, because every eligible score is at most 0.
  - `np.array(None)` is then iterated when the hexcodes are formatted, which raises a `TypeError`.
  - The model reports this as `Failure(NoTrialKept)`.
  - The hue variant raises its own `ValueError` (`Failure(NoDistinctHues)`).
- A cluster count below 1 reaches the clustering library on the first candidate palette, which rejects it. The model reports this as `Failure(ClusterCountRejected)`.

## Model

| member | source | states |
|---|---|---|
| Catalog.MaxId | covers2colors/convert.py:49 | the maximum of `entry.get("id", 0)`: at least every entry's id, attained by some entry, 0 for an empty index |
| Catalog.BackfillAssignsIds | covers2colors/convert.py:48-55 | entries with an id are unchanged and every entry ends with an id; the i-th id-less entry gets max + (number of id-less entries before it) + 1 |
| Catalog.Backfilled | covers2colors/convert.py:48-55 | the index `_load_index(assign_ids=True)` returns, one entry per entry read; characterised by `Catalog.BackfillAssignsIds`, `BackfillAssignsAfterMax`, `BackfillKeepsIdsUnique` and `BackfillIdempotent`, and computed by the loop `Catalog.BackfillIds` |
| Catalog.BackfillAssignsAfterMax | covers2colors/convert.py:49-54 | an id-less entry counts as 0, so the maximum the backfill starts from is at least 0; every assigned id is at least 1 and larger than every id already present |
| Catalog.BackfillKeepsIdsUnique | covers2colors/convert.py:48-55 | an index with unique ids still has unique ids after the backfill |
| Catalog.BackfillIdempotent | covers2colors/convert.py:48-58 | an index whose entries all have ids is left alone; backfilling twice equals once |
| Catalog.BackfillIds | covers2colors/convert.py:48-58 | the `next_id += 1` loop computes the backfilled index, and `updated` (rewrite the file) holds iff some entry lacked an id |
| Catalog.LastWithId | covers2colors/convert.py:617-623 | the entry kept as `removed_entry`: none iff no entry has the id, otherwise an entry of the index with that id |
| Catalog.LastWithIdIsLast | covers2colors/convert.py:619-621 | the entry reported sits at an index after which no entry carries the id: it is the last match |
| Catalog.RemoveId | covers2colors/convert.py:617-623 | the loop keeps exactly the entries without the id, in order, and reports the last entry with it |
| Catalog.RemovalKeepsOthers | covers2colors/convert.py:617-626 | something is removed iff some entry has the id; what remains is an order-preserving selection holding exactly the other entries |
| Catalog.SortById | covers2colors/convert.py:648 | `data.sort(key=lambda d: d.get("id", 0))`; its properties are `Catalog.SortByIdCorrect`, `SortByIdStable`, `SortedByIdUnchanged` and `SortFilterCommute` |
| Catalog.SortByIdCorrect | covers2colors/convert.py:648 | the sort by `get("id", 0)` returns a permutation of the index in ascending id order |
| Catalog.SortByIdStable | covers2colors/convert.py:648 | entries sharing an id keep their relative order |
| Catalog.SortedByIdUnchanged | covers2colors/convert.py:648 | an index already in id order is returned unchanged |
| Catalog.SortFilterCommute | covers2colors/convert.py:662-663 | sorting the matches equals taking the matches of the sorted index |
| Catalog.Window | covers2colors/convert.py:650-652 | `data[start:start + per_page]` with `start = max(0, (page - 1) * per_page)`; pinned down by `Catalog.WindowBounds`, `WindowNegativePageSize` and `WindowSorted` |
| Catalog.ListPage | covers2colors/convert.py:645-652 | the page `list_palettes` returns from the backfilled index; `Catalog.ListPageProperties` states what it holds |
| Catalog.ColorCountPage | covers2colors/convert.py:660-667 | the page `find_palettes_by_color_count` returns; `Catalog.ColorCountPageIsFilteredListing` equates it with the window of the matches in id order |
| Catalog.WindowBounds | covers2colors/convert.py:650-652 | for `per_page >= 0` the page is the slice from `max(0, (page-1)*per_page)`, clamped to the end: at most `per_page` entries, empty past the end |
| Catalog.WindowNegativePageSize | covers2colors/convert.py:650-652 | a negative `per_page` on page 1 lists all but the last `-per_page` entries |
| Catalog.WindowIsRun | covers2colors/convert.py:650-652 | every page is a contiguous slice `s[lo:lo + len(page)]` of the sequence it is taken from, for every page and page size, negative ones included |
| Catalog.WindowSorted | covers2colors/convert.py:648-652 | a page of the sorted index is sorted and is a contiguous slice of it (for every page and page size), hence also an order-preserving selection of it |
| Catalog.ListPageProperties | covers2colors/convert.py:644-652 | a listing page holds entries of the index, in id order, at most `per_page` of them |
| Catalog.ColorCountPageIsFilteredListing | covers2colors/convert.py:658-667 | the search is the same window over the id-sorted entries with `n` colours; each result has `n` colours and comes from the index; results are in id order, at most `per_page` |
| Catalog.Paginate | covers2colors/convert.py:696-699 | the chunks `data[i:i+10]` are non-empty, all but the last have exactly 10 entries, and together they give back the index in order |
| Catalog.FirstWithId | covers2colors/convert.py:583-584 | the first index whose entry has the id, or none iff no entry has it |
| Catalog.FindEntry | covers2colors/convert.py:583-596 | the lookup loop stops at the first entry with the id |
| Store.NextId | covers2colors/convert.py:504 | the id `save_palette` gives: one more than the largest id of the backfilled index; `Store.SaveAssignsFreshId`, `AppendFresh`, `SaveDeleteSave` and `NegativeMaxNextId` state what it is |
| Store.ResolveHexcodes | covers2colors/convert.py:585-590 | where `load_palette_by_id` takes the hexcodes from: the embedded list if non-empty, else the file at `Path` of the entry's path, else an error; used by `Store.CoverPalette.LoadPaletteById` and `Store.SaveThenLoad` |
| Store.SaveAssignsFreshId | covers2colors/convert.py:504-527 | the new id `max + 1` exceeds every id of the index (1 on an empty index), and appending it keeps ids unique |
| Store.PaletteStore.LoadIndex | covers2colors/convert.py:30-58 | a missing or malformed index reads as empty; with `assign_ids` the backfilled index is returned and is written back iff some id was missing |
| Store.PaletteStore.DeletePalette | covers2colors/convert.py:613-638 | returns True iff the loop found an entry with the id (false for an empty index); then the index holds the other entries in order and the file of the last match is gone; otherwise no file changes and the index is only backfilled |
| Store.WithoutFileRemovesOnlyItsPath | covers2colors/convert.py:631-636 | the unlink removes the file at `Path` of the entry's path, when it has a non-empty one, and keeps every other file with its contents |
| Store.RecordedPathReopens | covers2colors/convert.py:506-524 | the path `save_palette` records (`str(json_path)`) names the file it wrote: loading the entry from its file reads that file, and deleting the entry unlinks it |
| Store.PaletteStore.ListPalettes | covers2colors/convert.py:641-652 | the result is the page window of the id-sorted backfilled index (`[]` for an empty one) |
| Store.PaletteStore.FindPalettesByColorCount | covers2colors/convert.py:655-667 | the result is the page window of the id-sorted entries with `n` colours |
| Store.PaletteStore.CreatePalettesPdf | covers2colors/convert.py:684-699 | None for an empty index; without `force` the sheet is reused when its mtime is at least the index's; otherwise it is re-rendered now, with pages of 10 that cover the index in order |
| Store.CoverPalette.SavePalette | covers2colors/convert.py:498-531 | fails with no change when there are no hexcodes; otherwise appends exactly one entry with id max+1 and `n_colors = len(hexcodes)`; the path is recorded, as `str(Path(path))`, only when given and written, and the file is written under that same name; earlier entries are unchanged |
| Store.CoverPalette.LoadPaletteById | covers2colors/convert.py:576-596 | empty index and unknown id fail with no change; otherwise the first entry with the id is used, with its embedded hexcodes if any, else its file's, else an error; on success it sets hexcodes, image URL, artist and album |
| Store.SaveDeleteSave | covers2colors/convert.py:504 | saves on an empty index get ids 1, 2, 3; after deleting 2 the next id is 4, but after deleting 3 it is 3 again |
| Store.NegativeMaxNextId | covers2colors/convert.py:48-55 | an index with the single id -5 needs no backfill, and the next save gets -4 |
| Store.AppendFresh | covers2colors/convert.py:504-527 | appending an entry whose id exceeds the maximum makes that id the new maximum, for an index whose entries all have ids |
| Store.FirstWithIdAppended | covers2colors/convert.py:582-583 | after appending an entry with an id no earlier entry has, the lookup by that id finds the appended entry |
| Store.SavedIndexReloads | covers2colors/convert.py:48-55 | the index a save writes is its own backfill, and its first entry with the new id is the appended one |
| Store.SaveThenLoad | covers2colors/convert.py:498-531 | a save followed by a load of the returned id gives back the saved hexcodes, artist, album and cover URL, and the stored entry has `n_colors == len(hexcodes)`; without hexcodes the save fails |
| Store.SheetIsCached | covers2colors/convert.py:690-692 | a sheet is rendered, then reused, then re-rendered after another save |
| Colors.CircularDistance | covers2colors/convert.py:332-333 | `min(|a-b|, 1-|a-b|)` is in [0, 0.5] for hues in [0, 1), and 0 on the diagonal |
| Colors.CircularDistanceSymmetric | covers2colors/convert.py:332-333 | the hue distance is symmetric |
| Colors.HueDistinctness | covers2colors/convert.py:328-334 | `_hue_distinctness`: the sum of the full matrix of circular distances; its properties are `Colors.HueDistinctnessPermutation`, `HueDistinctnessBounds` and `TwoHues` |
| Colors.HueDistinctnessPermutation | covers2colors/convert.py:328-334 | the score does not depend on the order of the colours |
| Colors.HueDistinctnessBounds | covers2colors/convert.py:328-334 | for n hues in [0, 1) the score lies in [0, n*(n-1)/2], since the diagonal adds 0; attained: `Colors.TwoHues` |
| Colors.TwoHues | covers2colors/convert.py:328-334 | the full matrix counts each pair twice: two hues score twice their distance, at most 1, which opposite hues reach |
| Colors.NearestIndex | covers2colors/convert.py:343 | `np.argmin(np.abs(hues - c))`: an index of minimal distance, and every earlier index is strictly farther |
| Colors.Snap | covers2colors/convert.py:343-344 | one colour per centre, each a colour of the palette nearest in hue to its centre, the first such colour on a tie |
| Selection.Narrow | covers2colors/convert.py:147-152 | one `mask &= test` step: each bit becomes its old value and the test |
| Selection.Select | covers2colors/convert.py:153 | `colors[mask]` is the colours whose bit is set, in order |
| Selection.FilterColors | covers2colors/convert.py:142-154 | the three mask steps compute the filter: the input without flags, the passing colours, or the input when none pass |
| Selection.FilteredColors | covers2colors/convert.py:142-154 | what `_filter_colors` returns; characterised by `Selection.FilteredColorsSpec` and `LightAndDarkCancel`, and computed mask by mask by `Selection.FilterColors` |
| Selection.FilteredColorsSpec | covers2colors/convert.py:142-154 | unchanged without flags; always an order-preserving selection of the input, non-empty when the input is; exactly the passing colours when some pass, the whole input when none do |
| Selection.LightAndDarkCancel | covers2colors/convert.py:147-150 | with both light and dark set, neither brightness test applies: the result equals bold alone |
| Selection.ReclusterPool | covers2colors/convert.py:255-259 | the pool clustered is the filter's result when at least `n` colours pass it, and the whole palette otherwise (the same fallback as lines 370-372); so an order-preserving selection of the palette, with at least `n` colours when the palette has them |
| Selection.BestIsUnique | covers2colors/convert.py:315-318 | at most one candidate is the kept one |
| Selection.OutcomeIsDeterministic | covers2colors/convert.py:299-318 | eligibility and scores fix the loop's outcome: none kept, or the one best trial |
| Selection.EarliestTopScoreWins | covers2colors/convert.py:376-379 | under a strict `>` from 0, scores 0.5, 0.9, 0.9 keep the second trial, all-zero scores keep none, and ineligible palettes are skipped |
| Selection.KeepBestTrial | covers2colors/convert.py:363-379 | the loop skips palettes with fewer than `n` colours and keeps the earliest trial with the top score when that score is above 0, else none |
| Selection.DistinctOptimalSelection | covers2colors/convert.py:299-325 | a cluster count below 1 is rejected; otherwise it returns the best trial of clustered pools, and fails iff no eligible score exceeds 0 |
| Selection.EuclideanTrial | covers2colors/convert.py:255-262 | `get_distinct_colors`: the `n` cluster centres of the pool `Selection.ReclusterPool` chooses; `Selection.DistinctOptimalSelection` keeps the best of them |
| Selection.HueTrial | covers2colors/convert.py:336-346 | `get_hue_distinct_colors` on the pool of lines 370-372: every hue centre snapped to the pool; `Selection.HueTrialFromPalette` states what it holds |
| Selection.HueTrialFromPalette | covers2colors/convert.py:336-346 | a hue trial has one colour per centre, each from the palette and nearest in hue to its centre among the pool |
| Selection.HueDistinctOptimalSelection | covers2colors/convert.py:361-382 | a cluster count below 1 is rejected; otherwise it returns the best hue trial by hue score, and raises iff no eligible score exceeds 0 |
| Selection.SingleHueScoresZero | covers2colors/convert.py:331-334 | colours of one hue score 0, so they are never kept |
| Selection.OptimalColormaps | covers2colors/convert.py:218-235 | one fitted palette and inertia per count 2..max in order; the knee is asked of the counts and inertias; the palette is chosen iff the knee is one of the counts tried |
| Paths.NormPath | covers2colors/convert.py:506 | `str(Path(p))`; `Paths.NormPathExamples` and `NormPathIdempotent` state what it does |
| Paths.NormPathExamples | covers2colors/convert.py:506 | `./a` becomes `a`, `o//p` becomes `o/p`, `o/p/` becomes `o/p`, and `.` stays `.` |
| Paths.SplitJoin | covers2colors/convert.py:544 | splitting joined slash-free segments at the slashes gives the segments back |
| Paths.NormPathIdempotent | covers2colors/convert.py:544 | `Path(str(Path(p)))` spells the same path: normalising twice is normalising once |
| Cli.FirstDash | covers2colors/cli.py:68-69 | `"-" in args` and `args.index("-")`: none iff no token is a lone dash, otherwise the first lone dash |
| Cli.IsDashMeansDash | covers2colors/cli.py:68 | a token is a lone dash iff it equals `"-"` |
| Cli.FirstOption | covers2colors/cli.py:74-78 | the album tokens run up to the first token starting with `-`, or to the end |
| Cli.SplitAlbum | covers2colors/cli.py:72-78 | the loop collects the album tokens up to the first token starting with `-`, and the options from there on |
| Cli.Join | covers2colors/cli.py:81 | `" ".join(tokens)`; `Cli.JoinTwo` shows it on two tokens |
| Cli.Assemble | covers2colors/cli.py:79-83 | the command line built from the artist tokens, the album tokens and the options when both names have tokens, else argv unchanged; part of `Cli.Rewritten` |
| Cli.Rewritten | covers2colors/cli.py:67-83 | the rewritten command line; `Cli.RewriteCharacterised` pins it down for every split, and `Cli.RewriteArgv` computes it with the loop |
| Cli.RewriteArgv | covers2colors/cli.py:67-83 | the rewrite step computes the rewritten command line |
| Cli.RewriteCharacterised | covers2colors/cli.py:67-83 | split the arguments as: artist tokens with no lone dash, the dash, album tokens with no option, then options that start with an option (or are empty); any such split gives `[argv0, join(artist), join(album)] + options` when both names have tokens, and the command line unchanged otherwise |
| Cli.NoDashUnchanged | covers2colors/cli.py:68 | without a lone `-` argument nothing changes |
| Cli.RewriteJoinsNames | covers2colors/cli.py:79-83 | `Pink Floyd - The Wall --hue` becomes the two joined names followed by the option |
| Cli.RewriteNeedsAlbum | covers2colors/cli.py:79 | a dash followed directly by an option (no album tokens) leaves the command line alone |
| Cli.JoinTwo | covers2colors/cli.py:81 | `" ".join` of two tokens puts one space between them |
| Cli.Dispatch | covers2colors/cli.py:8-83 | `list` or `delete` as the first argument selects that command before any rewrite; everything else goes to the create command with the rewritten command line |

## Left out

- Clustering is left out: `MiniBatchKMeans` in `generate_cmap`, `KMeans` in `get_distinct_colors` and `get_hue_distinct_colors`, and `KneeLocator`. These are randomised floating-point library calls, so their results are function parameters (`fit`, `cluster`, `centers`, `knee`).
- Colour conversions are left out: `colorsys.rgb_to_hsv`, `mpl.colors.rgb2hex` and `to_rgb`, the sort by hue, and the 1e-6 nudge in `generate_cmap`. These are floating-point numerics and library formatting. Colours are given as HSV triples of reals, and hexcodes as strings.
- The Euclidean spread score `np.sum(squareform(pdist(...)))` is left out: it involves square roots. It is a function parameter `score`.
- The colour-blindness check `colorblind_friendly` and the `is_colorblind_friendly` flag are left out: the module they come from is not part of this model.
- File and directory I/O is state. This covers JSON reading and writing, `mkdir`, `unlink` and `stat`. The index, the sheet's existence and the hexcode files are fields of `PaletteStore`, and modification times are integer parameters.
- Some file-system failures are left out:
  - an index write that fails;
  - an `unlink` failure, which the source ignores anyway;
  - files changed by another process.
- The drawing inside `create_palettes_pdf` is left out because it is plotting only. The model returns the pages it would draw.
- Image loading and the cover-art lookup are left out (the `CoverPalette` constructor, `covers2colors/album_art.py`, `remove_transparent`, `display_with_colorbar`, `preview_palette`). They are network and image I/O, and the constructor takes the resolved image URL.
- `covers2colors/__init__.py` is not part of this model.
- `load_palette_by_name` and `load_palette(path)` are not modelled as operations of their own. `load_palette(path)` appears only as the file lookup of `LoadPaletteById`.
- Index entries are assumed to hold every key that `save_palette` writes. Only `id` may be absent.
  - A JSON `null` id, or an entry lacking `artist`, `album` or `image_url`, is not modelled. Such an entry would make `entry.get(...)` fall back or `max` fail.
  - The file a palette is loaded from may hold any JSON. The model reads it as a hexcode list or as unparsable.
- Store.CoverPalette.LoadPaletteById: `entry.get("image_url", self.image_path)` and its siblings are modelled as plain field reads, because entries always hold those keys here.
- The command-line parsers and interaction are left out: argparse for `list`, `delete` and the create command, opening the PDF viewer, `input()`, and printing. `Cli.Dispatch` returns the command and its arguments instead of running it.
- Selection.FilterColors: with a flag set and an empty palette the source raises `IndexError` (`np.array([])` is one-dimensional, so `hsv[:, 2]` and `hsv[:, 1]` at lines 148-152 fail), while `Selection.FilteredColors` and `Selection.FilterColors` return the empty palette. In the source no generator reaches this case, because every candidate palette comes from a clustering with at least two clusters. The model's generators take the candidate palettes as a parameter, and for them an empty candidate gives the empty pool.
- Paths.NormPath models POSIX `pathlib` only: Windows drive letters and backslashes are not modelled. Paths are compared as normalised strings, so a relative and an absolute spelling of one file (`a.json` and `/home/u/a.json`), or two names joined by a symbolic link, are different keys of the file map. `..` is kept as a segment, as pathlib keeps it.
- Selection.OptimalColormaps: the hexcodes that `generate_cmap` writes on each iteration are not modelled. Every one of them is overwritten after the loop, and the model returns the chosen palette (or none) that the overwrite is based on.
- Selection.DistinctOptimalSelection and Selection.HueDistinctOptimalSelection take the candidate palettes in cluster-count order, as `Selection.OptimalColormaps` returns them. The setting of `self.hexcodes` from the chosen palette, as hex strings, is left out with the colour formatting above.
- Selection.DistinctOptimalSelection and Selection.HueDistinctOptimalSelection: the library's own checks are modelled only as the rejection of a cluster count below 1. The pool always has at least as many colours as clusters asked for (`Selection.ReclusterPool`).
