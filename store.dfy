/** The file-backed catalog of `convert.py`: `index.json`, the external
    hexcode files written by `save_palette`, and `palettes.pdf`. Files are
    fields of a store object; a modification time is the integer `now`
    passed to the operation that writes the file. */
module Store {
  import opened Wrappers
  import opened Sequences
  import opened Catalog
  import opened Paths

  /** What `index.json` holds on disk. */
  datatype IndexFile = Absent | Malformed | Document(entries: seq<Entry>)

  /** What a hexcode file written by `save_palette` holds when read back. */
  datatype PaletteFile = HexcodeList(hexcodes: seq<string>) | Unparsable

  /** The exceptions of the catalog operations. */
  datatype StoreError =
    | NoHexcodes           // ValueError: no palette has been generated to save
    | NoSavedPalettes      // FileNotFoundError: the index is empty
    | IdNotFound           // FileNotFoundError: no entry has the id
    | PaletteDataMissing   // FileNotFoundError: entry has neither hexcodes nor a path
    | PaletteFileNotFound  // FileNotFoundError from load_palette
    | InvalidPaletteFile   // ValueError from load_palette

  /** `_load_index` reads a missing or malformed document as an empty index. */
  function Parsed(f: IndexFile): seq<Entry> {
    if f.Document? then f.entries else []
  }

  /** `Path(path) if path else None`, spelled as `str` of the `Path`: an
      empty string is no path, any other is normalised as pathlib does.
      Two spellings of one file name the same key of the file map. */
  function ExternalPath(path: Option<string>): Option<string> {
    if path.Some? && path.value != "" then Some(NormPath(path.value)) else None
  }

  /** Where an entry's hexcodes come from when a palette is loaded by id:
      the embedded list if it is non-empty, else the external file. */
  function ResolveHexcodes(e: Entry, files: map<string, PaletteFile>): Result<seq<string>, StoreError> {
    if |e.hexcodes| > 0 then Success(e.hexcodes)
    else if ExternalPath(e.path).None? then Failure(PaletteDataMissing)
    else if ExternalPath(e.path).value !in files then Failure(PaletteFileNotFound)
    else match files[ExternalPath(e.path).value]
      case HexcodeList(h) => Success(h)
      case Unparsable => Failure(InvalidPaletteFile)
  }

  /** The files after `Path(palette_path).unlink()` for the entry's path,
      when it has one; a missing file is left alone like the ignored OSError. */
  function WithoutFile(files: map<string, PaletteFile>, e: Entry): map<string, PaletteFile> {
    var p := ExternalPath(e.path);
    if p.Some? then files - {p.value} else files
  }

  /** Only the entry's own file goes: every other file keeps its contents. */
  lemma WithoutFileRemovesOnlyItsPath(files: map<string, PaletteFile>, e: Entry)
    ensures ExternalPath(e.path).Some? ==> ExternalPath(e.path).value !in WithoutFile(files, e)
    ensures forall k :: k in WithoutFile(files, e) <==> k in files && (ExternalPath(e.path).None? || k != ExternalPath(e.path).value)
    ensures forall k :: k in WithoutFile(files, e) ==> WithoutFile(files, e)[k] == files[k]
  {
  }

  /** The path `save_palette` records names the file it wrote: loading the
      entry reads that file, and deleting it unlinks that file. */
  lemma RecordedPathReopens(path: Option<string>, e: Entry, files: map<string, PaletteFile>, h: seq<string>)
    requires ExternalPath(path).Some? && e.path == ExternalPath(path) && e.hexcodes == []
    ensures ExternalPath(e.path) == ExternalPath(path)
    ensures ResolveHexcodes(e, files[ExternalPath(path).value := HexcodeList(h)]) == Success(h)
    ensures ExternalPath(path).value !in WithoutFile(files[ExternalPath(path).value := HexcodeList(h)], e)
  {
    NormPathIdempotent(path.value);
  }

  /** The result of `create_palettes_pdf`: None, the cached sheet, or a new sheet. */
  datatype SheetResult = NoPalettes | Reused | Rendered(pages: seq<seq<Entry>>)

  /** Entries per sheet page. */
  const SheetPageSize: nat := 10

  /** The id `save_palette` gives the next palette: one more than the largest
      id of the backfilled index. */
  function NextId(data: seq<Entry>): int {
    MaxId(Backfilled(data)) + 1
  }

  /** The index `delete_palette(pid)` writes when some entry has `pid`. */
  function Deleted(data: seq<Entry>, pid: int): seq<Entry> {
    Filter(Backfilled(data), IdIsNot(pid))
  }

  /** The entry `save_palette` appends. */
  function NewEntry(id: int, artist: string, album: string, imageUrl: string,
                    hexcodes: seq<string>, path: Option<string>): Entry
  {
    Entry(Some(id), artist, album, |hexcodes|, imageUrl, hexcodes, path)
  }

  /** The id `save_palette` assigns is larger than every id in the index, and
      an index with unique ids keeps them unique after the append. */
  lemma {:induction false} SaveAssignsFreshId(data: seq<Entry>, e: Entry)
    requires e.id == Some(MaxId(data) + 1)
    ensures forall i :: 0 <= i < |data| ==> IdOrZero(data[i]) < MaxId(data) + 1
    ensures |data| == 0 ==> MaxId(data) + 1 == 1
    ensures UniqueIds(data) ==> UniqueIds(data + [e])
  {
    if UniqueIds(data) {
      var d := data + [e];
      forall i, j | 0 <= i < j < |d| && d[i].id.Some?
        ensures d[i].id != d[j].id
      {
        if j == |data| {
          assert IdOrZero(d[i]) == d[i].id.value;
        }
      }
    }
  }

  class PaletteStore {
    /** `index.json`. */
    var index: IndexFile
    /** The modification time of `index.json`. */
    var indexMtime: int
    /** The modification time of `palettes.pdf`; None when it does not exist. */
    var sheetMtime: Option<int>
    /** The hexcode files written through `save_palette(path)`. */
    var files: map<string, PaletteFile>

    constructor ()
      ensures index == Absent && sheetMtime == None && files == map[]
    {
      index := Absent;
      indexMtime := 0;
      sheetMtime := None;
      files := map[];
    }

    /** `_load_index(assign_ids)`: the index is rewritten only when the
        backfill gave some entry an id. */
    method LoadIndex(assignIds: bool, now: int) returns (data: seq<Entry>)
      modifies this`index, this`indexMtime
      ensures data == if assignIds then Backfilled(Parsed(old(index))) else Parsed(old(index))
      ensures if assignIds && HasMissingId(Parsed(old(index)))
              then index == Document(data) && indexMtime == now
              else index == old(index) && indexMtime == old(indexMtime)
    {
      data := Parsed(index);
      if assignIds {
        var updated;
        data, updated := BackfillIds(data);
        if updated {
          index := Document(data);
          indexMtime := now;
        }
      }
    }

    /** `delete_palette(palette_id)`: drops every entry with the id and
        deletes the file recorded by the last of them, ignoring failures. */
    method DeletePalette(pid: int, now: int) returns (removed: bool)
      modifies this`index, this`indexMtime, this`files
      ensures var data := Backfilled(Parsed(old(index)));
              removed == LastWithId(data, pid).Some?
      ensures removed ==> index == Document(Deleted(Parsed(old(index)), pid)) && indexMtime == now
      ensures var data := Backfilled(Parsed(old(index)));
              removed ==> files == WithoutFile(old(files), LastWithId(data, pid).value)
      ensures !removed ==> files == old(files)
      ensures !removed ==>
                if HasMissingId(Parsed(old(index)))
                then index == Document(Backfilled(Parsed(old(index)))) && indexMtime == now
                else index == old(index) && indexMtime == old(indexMtime)
    {
      var data := LoadIndex(true, now);
      if |data| == 0 {
        return false;
      }
      var remaining, removedEntry := RemoveId(data, pid);
      if removedEntry.None? {
        return false;
      }
      index := Document(remaining);
      indexMtime := now;
      files := WithoutFile(files, removedEntry.value);
      removed := true;
    }

    /** `list_palettes(page, per_page)`. */
    method ListPalettes(page: int, perPage: int, now: int) returns (r: seq<Entry>)
      modifies this`index, this`indexMtime
      ensures r == ListPage(Backfilled(Parsed(old(index))), page, perPage)
      ensures if HasMissingId(Parsed(old(index)))
              then index == Document(Backfilled(Parsed(old(index)))) && indexMtime == now
              else index == old(index) && indexMtime == old(indexMtime)
    {
      var data := LoadIndex(true, now);
      if |data| == 0 {
        return [];
      }
      r := Window(SortById(data), page, perPage);
    }

    /** `find_palettes_by_color_count(n_colors, page, per_page)`. */
    method FindPalettesByColorCount(n: int, page: int, perPage: int, now: int) returns (r: seq<Entry>)
      modifies this`index, this`indexMtime
      ensures r == ColorCountPage(Backfilled(Parsed(old(index))), n, page, perPage)
      ensures if HasMissingId(Parsed(old(index)))
              then index == Document(Backfilled(Parsed(old(index)))) && indexMtime == now
              else index == old(index) && indexMtime == old(indexMtime)
    {
      var data := LoadIndex(true, now);
      if |data| == 0 {
        return [];
      }
      var matches := Filter(data, HasColorCount(n));
      r := Window(SortById(matches), page, perPage);
    }

    /** `create_palettes_pdf(force)`: the cached sheet is reused when it is
        not older than the index; otherwise the index is rendered in pages
        of ten, in stored order. */
    method CreatePalettesPdf(force: bool, now: int) returns (r: SheetResult)
      modifies this`index, this`indexMtime, this`sheetMtime
      ensures var data := Backfilled(Parsed(old(index)));
              && (if HasMissingId(Parsed(old(index)))
                  then index == Document(data) && indexMtime == now
                  else index == old(index) && indexMtime == old(indexMtime))
              && (|data| == 0 ==> r == NoPalettes && sheetMtime == old(sheetMtime))
              && (|data| > 0 && !force && old(sheetMtime).Some? && old(sheetMtime).value >= indexMtime ==>
                    r == Reused && sheetMtime == old(sheetMtime))
              && (|data| > 0 && (force || old(sheetMtime).None? || old(sheetMtime).value < indexMtime) ==>
                    && r.Rendered? && sheetMtime == Some(now)
                    && Flatten(r.pages) == data
                    && (forall k :: 0 <= k < |r.pages| ==> 0 < |r.pages[k]| <= SheetPageSize)
                    && (forall k :: 0 <= k < |r.pages| - 1 ==> |r.pages[k]| == SheetPageSize))
    {
      var data := LoadIndex(true, now);
      if |data| == 0 {
        return NoPalettes;
      }
      if !force && sheetMtime.Some? {
        if sheetMtime.value >= indexMtime {
          return Reused;
        }
      }
      var pages := Paginate(data, SheetPageSize);
      sheetMtime := Some(now);
      r := Rendered(pages);
    }
  }

  /** The object whose hexcodes `save_palette` stores and `load_palette_by_id` sets. */
  class CoverPalette {
    var artist: string
    var album: string
    /** The cover-art URL. */
    var imagePath: string
    /** None until a palette is generated or loaded. */
    var hexcodes: Option<seq<string>>

    /** Resolving the cover art and decoding the image are not modelled: the
        resolved URL is given. */
    constructor (artist: string, album: string, imagePath: string)
      ensures this.artist == artist && this.album == album && this.imagePath == imagePath
      ensures hexcodes == None
    {
      this.artist := artist;
      this.album := album;
      this.imagePath := imagePath;
      hexcodes := None;
    }

    /** `save_palette(path)`: without hexcodes it fails and changes nothing;
        otherwise it appends one entry with id `max + 1` and returns that id.
        `writeOk` is whether writing the hexcode file to `path` succeeds. */
    method SavePalette(store: PaletteStore, path: Option<string>, writeOk: bool, now: int)
      returns (r: Result<int, StoreError>)
      modifies store
      ensures hexcodes.None? || hexcodes.value == [] ==> r == Failure(NoHexcodes) && unchanged(store)
      ensures hexcodes.Some? && hexcodes.value != [] ==>
                var id := NextId(Parsed(old(store.index)));
                var recorded := if ExternalPath(path).Some? && writeOk then ExternalPath(path) else None;
                && r == Success(id)
                && store.index == Document(Backfilled(Parsed(old(store.index))) +
                                           [NewEntry(id, artist, album, imagePath, hexcodes.value, recorded)])
                && store.indexMtime == now
                && store.sheetMtime == old(store.sheetMtime)
                && store.files == if recorded.Some?
                                  then old(store.files)[recorded.value := HexcodeList(hexcodes.value)]
                                  else old(store.files)
    {
      if hexcodes.None? || hexcodes.value == [] {
        return Failure(NoHexcodes);
      }
      var data := store.LoadIndex(true, now);
      var nextId := MaxId(data) + 1;
      var jsonPath := ExternalPath(path);
      if jsonPath.Some? {
        if writeOk {
          store.files := store.files[jsonPath.value := HexcodeList(hexcodes.value)];
        } else {
          jsonPath := None;
        }
      }
      var metadata := NewEntry(nextId, artist, album, imagePath, hexcodes.value, jsonPath);
      store.index := Document(data + [metadata]);
      store.indexMtime := now;
      r := Success(nextId);
    }

    /** `load_palette_by_id(palette_id)`: takes the first entry with the id,
        its embedded hexcodes if any, else the hexcodes of its file. */
    method LoadPaletteById(store: PaletteStore, pid: int, now: int) returns (r: Result<(), StoreError>)
      modifies this, store`index, store`indexMtime
      ensures var data := Backfilled(Parsed(old(store.index)));
              && (if HasMissingId(Parsed(old(store.index)))
                  then store.index == Document(data) && store.indexMtime == now
                  else store.index == old(store.index) && store.indexMtime == old(store.indexMtime))
              && (|data| == 0 ==> r == Failure(NoSavedPalettes) && unchanged(this))
              && (|data| > 0 && FirstWithId(data, pid).None? ==> r == Failure(IdNotFound) && unchanged(this))
              && (|data| > 0 && FirstWithId(data, pid).Some? ==>
                    var e := data[FirstWithId(data, pid).value];
                    var hex := ResolveHexcodes(e, store.files);
                    && (hex.Failure? ==> r == Failure(hex.error) && unchanged(this))
                    && (hex.Success? ==>
                          && r == Success(())
                          && hexcodes == Some(hex.value) && imagePath == e.imageUrl
                          && artist == e.artist && album == e.album))
    {
      var data := store.LoadIndex(true, now);
      if |data| == 0 {
        return Failure(NoSavedPalettes);
      }
      var k := FindEntry(data, pid);
      if k.None? {
        return Failure(IdNotFound);
      }
      var entry := data[k.value];
      var hex := ResolveHexcodes(entry, store.files);
      if hex.Failure? {
        return Failure(hex.error);
      }
      hexcodes := Some(hex.value);
      imagePath := entry.imageUrl;
      artist := entry.artist;
      album := entry.album;
      r := Success(());
    }
  }

  /** Three saves on an empty index give ids 1, 2 and 3; after deleting 2
      the next save gets 4, but after deleting 3 it gets 3 again: the next id
      is one more than the largest id still present. */
  lemma SaveDeleteSave(e: Entry)
    ensures var e1, e2, e3 := e.(id := Some(1)), e.(id := Some(2)), e.(id := Some(3));
            && NextId([]) == 1 && Backfilled([]) + [e1] == [e1]
            && NextId([e1]) == 2 && Backfilled([e1]) + [e2] == [e1, e2]
            && NextId([e1, e2]) == 3 && Backfilled([e1, e2]) + [e3] == [e1, e2, e3]
            && Deleted([e1, e2, e3], 2) == [e1, e3] && NextId([e1, e3]) == 4
            && Deleted([e1, e2, e3], 3) == [e1, e2] && NextId([e1, e2]) == 3
  {
    var e1, e2, e3 := e.(id := Some(1)), e.(id := Some(2)), e.(id := Some(3));
    SavesCountUp(e1, e2, e3);
    DeleteOne(e1, e2, e3);
    SaveAfterDelete(e1, e2, e3);
  }

  /** An index whose only id is negative gets no backfill, and the next
      save continues from that negative maximum. */
  lemma NegativeMaxNextId(e: Entry)
    requires e.id == Some(-5)
    ensures Backfilled([e]) == [e] && NextId([e]) == -4
  {
    BackfillIdempotent([e]);
  }

  lemma SavesCountUp(e1: Entry, e2: Entry, e3: Entry)
    requires e1.id == Some(1) && e2.id == Some(2) && e3.id == Some(3)
    ensures NextId([]) == 1 && Backfilled([]) + [e1] == [e1]
    ensures NextId([e1]) == 2 && Backfilled([e1]) + [e2] == [e1, e2]
    ensures NextId([e1, e2]) == 3 && Backfilled([e1, e2]) + [e3] == [e1, e2, e3]
  {
    AppendFresh([], e1);
    assert [] + [e1] == [e1];
    AppendFresh([e1], e2);
    assert [e1] + [e2] == [e1, e2];
    AppendFresh([e1, e2], e3);
  }

  lemma SaveAfterDelete(e1: Entry, e2: Entry, e3: Entry)
    requires e1.id == Some(1) && e2.id == Some(2) && e3.id == Some(3)
    ensures NextId([e1, e3]) == 4 && NextId([e1, e2]) == 3
  {
    AppendFresh([e1], e3);
    assert [e1] + [e3] == [e1, e3];
    BackfillIdempotent([e1, e3]);
    AppendFresh([e1], e2);
    assert [e1] + [e2] == [e1, e2];
    BackfillIdempotent([e1, e2]);
  }

  /** Appending an entry whose id exceeds the maximum to an index whose
      entries all have ids: the index is already backfilled, and the new
      maximum is that id. */
  lemma AppendFresh(data: seq<Entry>, x: Entry)
    requires AllHaveIds(data) && x.id.Some? && x.id.value > MaxId(data)
    ensures Backfilled(data) == data
    ensures AllHaveIds(data + [x]) && MaxId(data + [x]) == x.id.value
  {
    BackfillIdempotent(data);
    var d := data + [x];
    assert d[|data|] == x;
    assert forall i :: 0 <= i < |data| ==> d[i] == data[i];
  }

  /** Deleting id 2, or id 3, from the index of ids 1, 2, 3. */
  lemma DeleteOne(e1: Entry, e2: Entry, e3: Entry)
    requires e1.id == Some(1) && e2.id == Some(2) && e3.id == Some(3)
    ensures Deleted([e1, e2, e3], 2) == [e1, e3] && Deleted([e1, e2, e3], 3) == [e1, e2]
  {
    BackfillIdempotent([e1, e2, e3]);
    assert [e1, e2, e3][1..] == [e2, e3];
    assert [e2, e3][1..] == [e3];
    assert [e3][1..] == [];
    var p, q := IdIsNot(2), IdIsNot(3);
    assert p(e1) && !p(e2) && p(e3);
    assert q(e1) && q(e2) && !q(e3);
    assert Filter([e3], p) == [e3];
    assert Filter([e2, e3], p) == [e3];
    assert Filter([e1, e2, e3], p) == [e1] + Filter([e2, e3], p);
    assert Filter([e3], q) == [];
    assert Filter([e2, e3], q) == [e2];
    assert Filter([e1, e2, e3], q) == [e1] + Filter([e2, e3], q);
  }

  /** Appending an entry with an id no earlier entry has: the lookup by that
      id finds the appended entry. */
  lemma {:induction false} FirstWithIdAppended(data: seq<Entry>, x: Entry, pid: int)
    requires forall i :: 0 <= i < |data| ==> data[i].id != Some(pid)
    requires x.id == Some(pid)
    ensures FirstWithId(data + [x], pid) == Some(|data|)
  {
    if |data| > 0 {
      assert (data + [x])[1..] == data[1..] + [x];
      FirstWithIdAppended(data[1..], x, pid);
    }
  }

  /** The index a save writes needs no backfill when it is read again, and
      its first entry with the new id is the one the save appended. */
  lemma SavedIndexReloads(data: seq<Entry>, x: Entry)
    requires x.id == Some(NextId(data))
    ensures var saved := Backfilled(data) + [x];
            && !HasMissingId(saved) && Backfilled(saved) == saved
            && FirstWithId(saved, NextId(data)) == Some(|data|)
  {
    var b := Backfilled(data);
    BackfillAssignsIds(data);
    assert AllHaveIds(b + [x]) by {
      assert forall i :: 0 <= i < |b| ==> (b + [x])[i] == b[i];
      assert (b + [x])[|b|] == x;
    }
    BackfillIdempotent(b + [x]);
    assert forall i :: 0 <= i < |b| ==> b[i].id != Some(NextId(data)) by {
      forall i | 0 <= i < |b|
        ensures b[i].id != Some(NextId(data))
      {
        assert IdOrZero(b[i]) == b[i].id.value <= MaxId(b);
      }
    }
    FirstWithIdAppended(b, x, NextId(data));
  }

  /** `save_palette` followed by `load_palette_by_id` with the id it returned:
      the loading palette gets back the saved hexcodes, artist, album and
      cover URL, and the stored entry records as many colours as hexcodes. */
  method SaveThenLoad(store: PaletteStore, saved: CoverPalette, loaded: CoverPalette,
                      path: Option<string>, writeOk: bool, now: int)
    returns (r: Result<int, StoreError>, l: Result<(), StoreError>)
    modifies store, loaded
    ensures old(saved.hexcodes).None? || old(saved.hexcodes).value == [] ==> r == Failure(NoHexcodes)
    ensures old(saved.hexcodes).Some? && old(saved.hexcodes).value != [] ==>
              && r.Success? && l == Success(())
              && store.index.Document? && |store.index.entries| > 0
              && store.index.entries[|store.index.entries| - 1].id == Some(r.value)
              && store.index.entries[|store.index.entries| - 1].nColors == |old(saved.hexcodes).value|
              && loaded.hexcodes == old(saved.hexcodes)
              && loaded.artist == old(saved.artist) && loaded.album == old(saved.album)
              && loaded.imagePath == old(saved.imagePath)
  {
    ghost var data := Parsed(store.index);
    r := saved.SavePalette(store, path, writeOk, now);
    if r.Failure? {
      l := Failure(r.error);
      return;
    }
    ghost var entries := store.index.entries;
    ghost var x := entries[|data|];
    assert entries == Backfilled(data) + [x];
    SavedIndexReloads(data, x);
    assert x.hexcodes == saved.hexcodes.value;
    assert |x.hexcodes| > 0;
    l := loaded.LoadPaletteById(store, r.value, now);
  }

  /** A sheet rendered once is reused until the index is written again. */
  method SheetIsCached() returns (first: SheetResult, second: SheetResult, third: SheetResult)
    ensures first.Rendered? && second == Reused && third.Rendered?
  {
    var store := new PaletteStore();
    var palette := new CoverPalette("artist", "album", "cover");
    palette.hexcodes := Some(["#102030"]);
    var e := NewEntry(1, "artist", "album", "cover", ["#102030"], None);
    AppendFresh([], e);
    var a := palette.SavePalette(store, None, false, 1);
    assert store.index == Document([] + [e]);
    first := store.CreatePalettesPdf(false, 2);
    second := store.CreatePalettesPdf(false, 3);
    var b := palette.SavePalette(store, None, false, 4);
    third := store.CreatePalettesPdf(false, 5);
  }
}
