/** The palette catalog's list logic: the entries of `index.json` as a
    sequence of records, id backfill, removal by id, the id-sorted
    paginated views, the page chunks of the catalog sheet and the lookup
    by id. The state that holds the index lives in module Store. */
module Catalog {
  import opened Wrappers
  import opened Sequences

  /** One palette entry of `index.json`. `id` is None when the key is absent
      (entries written before ids existed); `path` is None for JSON null. */
  datatype Entry = Entry(
    id: Option<int>,
    artist: string,
    album: string,
    nColors: int,
    imageUrl: string,
    hexcodes: seq<string>,
    path: Option<string>)

  /** `entry.get("id", 0)`: the id used for comparisons and sorting. */
  function IdOrZero(e: Entry): int {
    e.id.GetOr(0)
  }

  /** `max([entry.get("id", 0) for entry in data], default=0)`. */
  function MaxId(data: seq<Entry>): (m: int)
    ensures forall i :: 0 <= i < |data| ==> IdOrZero(data[i]) <= m
    ensures |data| == 0 ==> m == 0
    ensures |data| > 0 ==> exists i :: 0 <= i < |data| && IdOrZero(data[i]) == m
  {
    if |data| == 0 then 0
    else if |data| == 1 then IdOrZero(data[0])
    else
      var rest := MaxId(data[1..]);
      assert forall i :: 1 <= i < |data| ==> data[i] == data[1..][i - 1];
      if IdOrZero(data[0]) >= rest then IdOrZero(data[0]) else rest
  }

  predicate HasMissingId(data: seq<Entry>) {
    exists i :: 0 <= i < |data| && data[i].id.None?
  }

  predicate AllHaveIds(data: seq<Entry>) {
    forall i :: 0 <= i < |data| ==> data[i].id.Some?
  }

  /** No two entries carry the same id (entries without an id are ignored). */
  predicate UniqueIds(data: seq<Entry>) {
    forall i, j :: 0 <= i < j < |data| && data[i].id.Some? ==> data[i].id != data[j].id
  }

  /** The number of entries of `s` without an id. */
  function MissingCount(s: seq<Entry>): nat {
    if |s| == 0 then 0
    else MissingCount(s[..|s| - 1]) + (if s[|s| - 1].id.None? then 1 else 0)
  }

  /** The id the backfill gives to `data[i]` when it has none: one more than
      the maximum, plus the number of id-less entries met before it. */
  function AssignedId(data: seq<Entry>, i: nat): int
    requires i <= |data|
  {
    MaxId(data) + MissingCount(data[..i]) + 1
  }

  /** The index after `_load_index(assign_ids=True)`. */
  function Backfilled(data: seq<Entry>): (r: seq<Entry>)
    ensures |r| == |data|
  {
    seq(|data|, i requires 0 <= i < |data| => BackfilledAt(data, i))
  }

  /** The entry at `i` after the backfill. */
  function BackfilledAt(data: seq<Entry>, i: nat): Entry
    requires i < |data|
  {
    if data[i].id.Some? then data[i] else data[i].(id := Some(AssignedId(data, i)))
  }

  /** A sequence that agrees with the backfill entry by entry is the backfill. */
  lemma BackfilledFromEntries(data: seq<Entry>, out: seq<Entry>)
    requires |out| == |data| && forall k :: 0 <= k < |data| ==> out[k] == BackfilledAt(data, k)
    ensures out == Backfilled(data)
  {
  }

  /** Entries with an id are untouched and every entry ends with one: the
      id-less entry at `i` gets the maximum plus the number of id-less entries
      before it, plus one. */
  lemma BackfillAssignsIds(data: seq<Entry>)
    ensures AllHaveIds(Backfilled(data))
    ensures forall i :: 0 <= i < |data| && data[i].id.Some? ==> Backfilled(data)[i] == data[i]
    ensures forall i :: 0 <= i < |data| && data[i].id.None? ==>
              Backfilled(data)[i] == data[i].(id := Some(AssignedId(data, i)))
  {
  }

  lemma {:induction false} MissingCountPositive(s: seq<Entry>)
    ensures MissingCount(s) > 0 <==> HasMissingId(s)
  {
    if |s| > 0 {
      var init := s[..|s| - 1];
      MissingCountPositive(init);
      if HasMissingId(init) {
        var i :| 0 <= i < |init| && init[i].id.None?;
        assert s[i].id.None?;
      }
      if HasMissingId(s) && s[|s| - 1].id.Some? {
        var i :| 0 <= i < |s| && s[i].id.None?;
        assert init[i].id.None?;
      }
    }
  }

  /** An id-less entry at `i` makes every longer prefix count at least one more. */
  lemma {:induction false} MissingCountGrows(s: seq<Entry>, i: nat, j: nat)
    requires i < j <= |s| && s[i].id.None?
    ensures MissingCount(s[..j]) >= MissingCount(s[..i]) + 1
    decreases j
  {
    assert s[..j][..j - 1] == s[..j - 1];
    if j > i + 1 {
      MissingCountGrows(s, i, j - 1);
    }
  }

  /** Every id the backfill assigns is at least 1 and larger than every id
      already present: an id-less entry counts as 0, so the maximum the
      backfill starts from is never negative. */
  lemma BackfillAssignsAfterMax(data: seq<Entry>, i: nat)
    requires i < |data| && data[i].id.None?
    ensures MaxId(data) >= 0
    ensures AssignedId(data, i) >= 1
    ensures forall j :: 0 <= j < |data| && data[j].id.Some? ==> data[j].id.value < AssignedId(data, i)
  {
    assert IdOrZero(data[i]) == 0;
  }

  /** Backfill keeps ids unique: fresh ids are above the maximum and
      strictly increase in encounter order. */
  lemma {:induction false} BackfillKeepsIdsUnique(data: seq<Entry>)
    requires UniqueIds(data)
    ensures UniqueIds(Backfilled(data))
  {
    var r := Backfilled(data);
    forall i, j | 0 <= i < j < |r|
      ensures r[i].id != r[j].id
    {
      if data[i].id.None? && data[j].id.None? {
        MissingCountGrows(data, i, j);
      } else if data[i].id.None? {
        BackfillAssignsAfterMax(data, i);
      } else if data[j].id.None? {
        BackfillAssignsAfterMax(data, j);
      }
    }
  }

  /** An index whose entries all have ids is left as it is, so backfilling
      twice is the same as once. */
  lemma BackfillIdempotent(data: seq<Entry>)
    ensures AllHaveIds(data) ==> Backfilled(data) == data
    ensures Backfilled(Backfilled(data)) == Backfilled(data)
  {
  }

  /** The loop of `_load_index`: id-less entries get `next_id += 1` in turn.
      `updated` tells whether the index must be rewritten. */
  method BackfillIds(data: seq<Entry>) returns (out: seq<Entry>, updated: bool)
    ensures out == Backfilled(data)
    ensures updated <==> HasMissingId(data)
  {
    var nextId := MaxId(data);
    updated := false;
    out := [];
    var i := 0;
    while i < |data|
      invariant 0 <= i <= |data| && |out| == i
      invariant forall k :: 0 <= k < i ==> out[k] == BackfilledAt(data, k)
      invariant nextId == MaxId(data) + MissingCount(data[..i])
      invariant updated <==> MissingCount(data[..i]) > 0
    {
      BackfillStep(data, i, nextId);
      var entry := data[i];
      if entry.id.None? {
        nextId := nextId + 1;
        entry := entry.(id := Some(nextId));
        updated := true;
      }
      BackfilledSnoc(data, out, entry);
      out := out + [entry];
      i := i + 1;
    }
    assert data[..i] == data;
    BackfilledFromEntries(data, out);
    MissingCountPositive(data);
  }

  /** One step of the backfill loop: with `nextId` one below the id the entry
      at `i` would get, the step yields that entry and counts it. */
  lemma BackfillStep(data: seq<Entry>, i: nat, nextId: int)
    requires i < |data| && nextId == MaxId(data) + MissingCount(data[..i])
    ensures MissingCount(data[..i + 1]) == MissingCount(data[..i]) + (if data[i].id.None? then 1 else 0)
    ensures BackfilledAt(data, i) == if data[i].id.None? then data[i].(id := Some(nextId + 1)) else data[i]
  {
    MissingCountStep(data, i);
    assert AssignedId(data, i) == nextId + 1;
  }

  /** The entry-by-entry agreement extends by the next backfilled entry. */
  lemma BackfilledSnoc(data: seq<Entry>, out: seq<Entry>, entry: Entry)
    requires |out| < |data| && entry == BackfilledAt(data, |out|)
    requires forall k :: 0 <= k < |out| ==> out[k] == BackfilledAt(data, k)
    ensures forall k :: 0 <= k < |out| + 1 ==> (out + [entry])[k] == BackfilledAt(data, k)
  {
  }

  lemma MissingCountStep(data: seq<Entry>, i: nat)
    requires i < |data|
    ensures MissingCount(data[..i + 1]) == MissingCount(data[..i]) + (if data[i].id.None? then 1 else 0)
  {
    assert data[..i + 1][..i] == data[..i];
  }

  // ----- delete_palette -----

  /** `entry.get("id") != palette_id`. */
  function IdIsNot(pid: int): Entry -> bool {
    (e: Entry) => e.id != Some(pid)
  }

  /** The last entry carrying `pid`: the one `delete_palette` keeps in `removed_entry`. */
  function LastWithId(data: seq<Entry>, pid: int): (r: Option<Entry>)
    ensures r.None? <==> forall i :: 0 <= i < |data| ==> data[i].id != Some(pid)
    ensures r.Some? ==> r.value in data && r.value.id == Some(pid)
  {
    if |data| == 0 then None
    else if data[|data| - 1].id == Some(pid) then Some(data[|data| - 1])
    else
      var r := LastWithId(data[..|data| - 1], pid);
      assert forall i :: 0 <= i < |data| - 1 ==> data[i] == data[..|data| - 1][i];
      r
  }

  /** No entry after index `i` carries `pid`. */
  predicate NoneAfter(data: seq<Entry>, pid: int, i: int) {
    forall j :: 0 <= j < |data| && i < j ==> data[j].id != Some(pid)
  }

  /** `x` sits in `data` at an index after which no entry carries `pid`. */
  predicate LastOccurrence(data: seq<Entry>, pid: int, x: Entry) {
    exists i :: 0 <= i < |data| && data[i] == x && NoneAfter(data, pid, i)
  }

  /** No entry after the one `LastWithId` reports carries `pid`. */
  lemma {:induction false} LastWithIdIsLast(data: seq<Entry>, pid: int)
    requires LastWithId(data, pid).Some?
    ensures LastOccurrence(data, pid, LastWithId(data, pid).value)
  {
    var n := |data| - 1;
    var x := LastWithId(data, pid).value;
    if data[n].id != Some(pid) {
      var init := data[..n];
      assert LastWithId(init, pid) == LastWithId(data, pid);
      LastWithIdIsLast(init, pid);
      var i :| 0 <= i < n && init[i] == x && NoneAfter(init, pid, i);
      NoneAfterExtends(data, pid, i);
    } else {
      assert NoneAfter(data, pid, n);
    }
  }

  lemma NoneAfterExtends(data: seq<Entry>, pid: int, i: nat)
    requires i < |data| - 1 && data[|data| - 1].id != Some(pid) && NoneAfter(data[..|data| - 1], pid, i)
    ensures LastOccurrence(data, pid, data[i])
  {
    var init := data[..|data| - 1];
    assert forall j :: i < j < |data| - 1 ==> data[j] == init[j];
    assert NoneAfter(data, pid, i);
  }

  /** The loop of `delete_palette`: every entry with `pid` is dropped and the
      others are kept in order; the last dropped entry is reported. */
  method RemoveId(data: seq<Entry>, pid: int) returns (remaining: seq<Entry>, removed: Option<Entry>)
    ensures remaining == Filter(data, IdIsNot(pid))
    ensures removed == LastWithId(data, pid)
  {
    remaining := [];
    removed := None;
    for i := 0 to |data|
      invariant remaining == Filter(data[..i], IdIsNot(pid))
      invariant removed == LastWithId(data[..i], pid)
    {
      assert data[..i + 1] == data[..i] + [data[i]];
      assert data[..i + 1][..i] == data[..i];
      FilterSnoc(data[..i], data[i], IdIsNot(pid));
      if data[i].id == Some(pid) {
        removed := Some(data[i]);
      } else {
        remaining := remaining + [data[i]];
      }
    }
    assert data[..|data|] == data;
  }

  /** What `delete_palette` leaves: exactly the entries without `pid`, in the
      original order, and it removes something iff some entry has `pid`. */
  lemma RemovalKeepsOthers(data: seq<Entry>, pid: int)
    ensures LastWithId(data, pid).Some? <==> exists i :: 0 <= i < |data| && data[i].id == Some(pid)
    ensures Subsequence(Filter(data, IdIsNot(pid)), data)
    ensures forall e :: e in Filter(data, IdIsNot(pid)) <==> e in data && e.id != Some(pid)
  {
    FilterIsSubsequence(data, IdIsNot(pid));
    FilterMembers(data, IdIsNot(pid));
  }

  // ----- sorting by id (`data.sort(key=lambda d: d.get("id", 0))`) -----

  predicate SortedById(s: seq<Entry>) {
    forall i, j :: 0 <= i < j < |s| ==> IdOrZero(s[i]) <= IdOrZero(s[j])
  }

  /** Inserts `x` before the first element whose id is not smaller, which
      keeps equal ids in their original order. */
  function InsertById(x: Entry, s: seq<Entry>): seq<Entry> {
    if |s| == 0 then [x]
    else if IdOrZero(x) <= IdOrZero(s[0]) then [x] + s
    else [s[0]] + InsertById(x, s[1..])
  }

  /** Python's stable sort by `entry.get("id", 0)`, as an insertion sort. */
  function SortById(s: seq<Entry>): seq<Entry> {
    if |s| == 0 then [] else InsertById(s[0], SortById(s[1..]))
  }

  /** Entries with id key `k`. */
  function HasIdKey(k: int): Entry -> bool {
    (e: Entry) => IdOrZero(e) == k
  }

  lemma {:induction false} InsertByIdMultiset(x: Entry, s: seq<Entry>)
    ensures multiset(InsertById(x, s)) == multiset(s) + multiset{x}
  {
    if |s| > 0 && IdOrZero(x) > IdOrZero(s[0]) {
      InsertByIdMultiset(x, s[1..]);
      assert s == [s[0]] + s[1..];
    }
  }

  lemma {:induction false} InsertByIdSorted(x: Entry, s: seq<Entry>)
    requires SortedById(s)
    ensures SortedById(InsertById(x, s))
  {
    if |s| > 0 && IdOrZero(x) > IdOrZero(s[0]) {
      InsertByIdSorted(x, s[1..]);
      InsertByIdMultiset(x, s[1..]);
      var t := InsertById(x, s[1..]);
      forall j | 0 <= j < |t|
        ensures IdOrZero(s[0]) <= IdOrZero(t[j])
      {
        assert t[j] in multiset(t);
        assert t[j] == x || t[j] in multiset(s[1..]);
      }
    }
  }

  /** The sort returns the same entries, ordered by id. */
  lemma {:induction false} SortByIdCorrect(s: seq<Entry>)
    ensures SortedById(SortById(s))
    ensures multiset(SortById(s)) == multiset(s)
  {
    if |s| > 0 {
      SortByIdCorrect(s[1..]);
      InsertByIdSorted(s[0], SortById(s[1..]));
      InsertByIdMultiset(s[0], SortById(s[1..]));
      assert s == [s[0]] + s[1..];
    }
  }

  lemma {:induction false} InsertByIdStable(x: Entry, s: seq<Entry>, k: int)
    ensures Filter(InsertById(x, s), HasIdKey(k)) ==
            (if IdOrZero(x) == k then [x] else []) + Filter(s, HasIdKey(k))
  {
    if |s| > 0 && IdOrZero(x) > IdOrZero(s[0]) {
      InsertByIdStable(x, s[1..], k);
      assert ([s[0]] + InsertById(x, s[1..]))[1..] == InsertById(x, s[1..]);
    } else if |s| > 0 {
      assert ([x] + s)[1..] == s;
    }
  }

  /** The sort is stable: entries sharing an id keep their relative order. */
  lemma {:induction false} SortByIdStable(s: seq<Entry>, k: int)
    ensures Filter(SortById(s), HasIdKey(k)) == Filter(s, HasIdKey(k))
  {
    if |s| > 0 {
      SortByIdStable(s[1..], k);
      InsertByIdStable(s[0], SortById(s[1..]), k);
    }
  }

  /** Sorting an index already in id order changes nothing. */
  lemma {:induction false} SortedByIdUnchanged(s: seq<Entry>)
    requires SortedById(s)
    ensures SortById(s) == s
  {
    if |s| > 0 {
      SortedByIdUnchanged(s[1..]);
    }
  }

  /** Filtering and inserting commute on sorted input. */
  lemma {:induction false} FilterInsertById(x: Entry, t: seq<Entry>, p: Entry -> bool)
    requires SortedById(t)
    ensures Filter(InsertById(x, t), p) == if p(x) then InsertById(x, Filter(t, p)) else Filter(t, p)
  {
    if |t| > 0 {
      if IdOrZero(x) <= IdOrZero(t[0]) {
        FilterInsertFront(x, t, p);
      } else {
        FilterInsertById(x, t[1..], p);
        FilterInsertLater(x, t, p);
      }
    }
  }

  lemma FilterInsertFront(x: Entry, t: seq<Entry>, p: Entry -> bool)
    requires SortedById(t) && |t| > 0 && IdOrZero(x) <= IdOrZero(t[0])
    ensures Filter(InsertById(x, t), p) == if p(x) then InsertById(x, Filter(t, p)) else Filter(t, p)
  {
    assert InsertById(x, t) == [x] + t;
    assert ([x] + t)[1..] == t;
    var ft := Filter(t, p);
    if p(x) && |ft| > 0 {
      FilterMembers(t, p);
      assert ft[0] in ft;
      var j :| 0 <= j < |t| && t[j] == ft[0];
      assert IdOrZero(t[0]) <= IdOrZero(t[j]);
      assert InsertById(x, ft) == [x] + ft;
    }
  }

  lemma FilterInsertLater(x: Entry, t: seq<Entry>, p: Entry -> bool)
    requires |t| > 0 && IdOrZero(x) > IdOrZero(t[0])
    requires Filter(InsertById(x, t[1..]), p) == if p(x) then InsertById(x, Filter(t[1..], p)) else Filter(t[1..], p)
    ensures Filter(InsertById(x, t), p) == if p(x) then InsertById(x, Filter(t, p)) else Filter(t, p)
  {
    var rest := InsertById(x, t[1..]);
    var ft := Filter(t[1..], p);
    var head: seq<Entry> := if p(t[0]) then [t[0]] else [];
    assert InsertById(x, t) == [t[0]] + rest;
    assert ([t[0]] + rest)[1..] == rest;
    assert Filter(InsertById(x, t), p) == head + Filter(rest, p);
    assert Filter(t, p) == head + ft;
    if p(x) && p(t[0]) {
      calc {
        InsertById(x, Filter(t, p));
        InsertById(x, [t[0]] + ft);
        { assert ([t[0]] + ft)[0] == t[0]; assert ([t[0]] + ft)[1..] == ft; }
        [t[0]] + InsertById(x, ft);
      }
    }
  }

  /** Sorting the matches is the same as taking the matches of the sorted index. */
  lemma {:induction false} SortFilterCommute(s: seq<Entry>, p: Entry -> bool)
    ensures SortById(Filter(s, p)) == Filter(SortById(s), p)
  {
    if |s| > 0 {
      SortFilterCommute(s[1..], p);
      SortByIdCorrect(s[1..]);
      FilterInsertById(s[0], SortById(s[1..]), p);
      if !p(s[0]) {
        assert Filter(s, p) == Filter(s[1..], p);
      }
    }
  }

  // ----- list_palettes / find_palettes_by_color_count -----

  /** `max(0, (page - 1) * per_page)`. */
  function PageStart(page: int, perPage: int): nat {
    if (page - 1) * perPage < 0 then 0 else (page - 1) * perPage
  }

  /** `data[start:start + per_page]` with Python slicing. */
  function Window(s: seq<Entry>, page: int, perPage: int): seq<Entry> {
    PySlice(s, PageStart(page, perPage), PageStart(page, perPage) + perPage)
  }

  /** For a non-negative page size the window is the clamped slice that
      starts at `start`: at most `perPage` entries, empty past the end. */
  lemma WindowBounds(s: seq<Entry>, page: int, perPage: int)
    requires perPage >= 0
    ensures var start := PageStart(page, perPage);
            && |Window(s, page, perPage)| <= perPage
            && (start >= |s| ==> Window(s, page, perPage) == [])
            && (start < |s| ==>
                  Window(s, page, perPage) == s[start..if start + perPage < |s| then start + perPage else |s|])
  {
  }

  /** A negative page size makes the end bound negative, which Python reads
      from the end: page 1 then lists all but the last `-perPage` entries. */
  lemma WindowNegativePageSize(s: seq<Entry>, perPage: int)
    requires perPage < 0 && |s| + perPage >= 0
    ensures Window(s, 1, perPage) == s[..|s| + perPage]
  {
  }

  /** `w` is the slice of `s` that starts at `lo`. */
  predicate RunAt(w: seq<Entry>, s: seq<Entry>, lo: int) {
    0 <= lo && lo + |w| <= |s| && w == s[lo..lo + |w|]
  }

  /** Every window is a contiguous slice of the sequence it is taken from,
      for every page and page size. */
  lemma WindowIsRun(s: seq<Entry>, page: int, perPage: int)
    ensures exists lo :: RunAt(Window(s, page, perPage), s, lo)
  {
    var w := Window(s, page, perPage);
    var lo, hi := SliceBound(PageStart(page, perPage), |s|), SliceBound(PageStart(page, perPage) + perPage, |s|);
    if lo < hi {
      assert w == s[lo..hi];
      assert RunAt(w, s, lo);
    } else {
      assert RunAt(w, s, 0);
    }
  }

  /** The window of an id-sorted sequence is id-sorted and is a run of it. */
  lemma WindowSorted(s: seq<Entry>, page: int, perPage: int)
    requires SortedById(s)
    ensures SortedById(Window(s, page, perPage))
    ensures exists lo :: RunAt(Window(s, page, perPage), s, lo)
    ensures Subsequence(Window(s, page, perPage), s)
  {
    var w := Window(s, page, perPage);
    var lo, hi := SliceBound(PageStart(page, perPage), |s|), SliceBound(PageStart(page, perPage) + perPage, |s|);
    WindowIsRun(s, page, perPage);
    if lo < hi {
      assert w == s[lo..hi];
      assert forall i :: 0 <= i < |w| ==> w[i] == s[lo + i];
      SliceIsSubsequence(s, lo, hi);
    }
  }

  /** `list_palettes(page, per_page)` on the loaded index (empty index: `[]`). */
  function ListPage(data: seq<Entry>, page: int, perPage: int): seq<Entry> {
    if |data| == 0 then [] else Window(SortById(data), page, perPage)
  }

  /** `entry.get("n_colors") == n_colors`. */
  function HasColorCount(n: int): Entry -> bool {
    (e: Entry) => e.nColors == n
  }

  /** `find_palettes_by_color_count(n, page, per_page)` on the loaded index. */
  function ColorCountPage(data: seq<Entry>, n: int, page: int, perPage: int): seq<Entry> {
    if |data| == 0 then [] else Window(SortById(Filter(data, HasColorCount(n))), page, perPage)
  }

  /** The search pages through the id-sorted listing restricted to palettes
      of `n` colours: every result has `n` colours, results are in id order,
      and there are at most `perPage` of them. */
  lemma ColorCountPageIsFilteredListing(data: seq<Entry>, n: int, page: int, perPage: int)
    ensures ColorCountPage(data, n, page, perPage) ==
            (if |data| == 0 then [] else Window(Filter(SortById(data), HasColorCount(n)), page, perPage))
    ensures forall e :: e in ColorCountPage(data, n, page, perPage) ==> e.nColors == n && e in data
    ensures SortedById(ColorCountPage(data, n, page, perPage))
    ensures perPage >= 0 ==> |ColorCountPage(data, n, page, perPage)| <= perPage
  {
    var m := Filter(data, HasColorCount(n));
    SortFilterCommute(data, HasColorCount(n));
    FilterMembers(data, HasColorCount(n));
    if |data| > 0 {
      SortedWindow(m, page, perPage);
    }
  }

  /** A window of the sorted `s`: id-sorted, entries of `s`, at most `perPage`. */
  lemma SortedWindow(s: seq<Entry>, page: int, perPage: int)
    ensures SortedById(Window(SortById(s), page, perPage))
    ensures forall e :: e in Window(SortById(s), page, perPage) ==> e in s
    ensures perPage >= 0 ==> |Window(SortById(s), page, perPage)| <= perPage
  {
    var w := Window(SortById(s), page, perPage);
    SortByIdCorrect(s);
    WindowSorted(SortById(s), page, perPage);
    forall e | e in w
      ensures e in s
    {
      SubsequenceMembers(w, SortById(s), e);
      assert e in multiset(SortById(s));
    }
    if perPage >= 0 {
      WindowBounds(SortById(s), page, perPage);
    }
  }

  /** The listing: entries from the index, in id order, at most `perPage`. */
  lemma ListPageProperties(data: seq<Entry>, page: int, perPage: int)
    ensures SortedById(ListPage(data, page, perPage))
    ensures forall e :: e in ListPage(data, page, perPage) ==> e in data
    ensures perPage >= 0 ==> |ListPage(data, page, perPage)| <= perPage
  {
    if |data| > 0 {
      SortedWindow(data, page, perPage);
    }
  }

  // ----- create_palettes_pdf paging -----

  /** The concatenation of the pages. */
  function Flatten(pages: seq<seq<Entry>>): seq<Entry> {
    if |pages| == 0 then [] else Flatten(pages[..|pages| - 1]) + pages[|pages| - 1]
  }

  /** `for i in range(0, len(data), per_page): chunk = data[i : i + per_page]`:
      the pages are non-empty runs of `size` consecutive entries (the last
      may be shorter) that together give back the index in order. */
  method Paginate(data: seq<Entry>, size: nat) returns (pages: seq<seq<Entry>>)
    requires size > 0
    ensures Flatten(pages) == data
    ensures forall k :: 0 <= k < |pages| ==> 0 < |pages[k]| <= size
    ensures forall k :: 0 <= k < |pages| - 1 ==> |pages[k]| == size
  {
    pages := [];
    var i := 0;
    while i < |data|
      invariant i == |pages| * size
      invariant Flatten(pages) == data[..Clamp(i, |data|)]
      invariant forall k :: 0 <= k < |pages| ==> 0 < |pages[k]| <= size
      invariant forall k :: 0 <= k < |pages| - 1 ==> |pages[k]| == size
      invariant i <= |data| ==> forall k :: 0 <= k < |pages| ==> |pages[k]| == size
    {
      var end := Clamp(i + size, |data|);
      var chunk := data[i..end];
      PageStep(data, pages, i, end);
      assert (|pages| + 1) * size == |pages| * size + size;
      pages := pages + [chunk];
      i := i + size;
    }
    assert data[..Clamp(i, |data|)] == data;
  }

  /** `min(i, n)`. */
  function Clamp(i: int, n: nat): nat {
    if i < 0 then 0 else if i < n then i else n
  }

  /** Appending the chunk `data[i:end]` extends the flattened prefix to `end`. */
  lemma PageStep(data: seq<Entry>, pages: seq<seq<Entry>>, i: nat, end: nat)
    requires i <= end <= |data| && Flatten(pages) == data[..i]
    ensures Flatten(pages + [data[i..end]]) == data[..end]
  {
    assert (pages + [data[i..end]])[..|pages|] == pages;
    assert data[..i] + data[i..end] == data[..end];
  }

  // ----- load_palette_by_id -----

  /** The first entry whose id is `pid`, if any. */
  function FirstWithId(data: seq<Entry>, pid: int): (r: Option<nat>)
    ensures r.None? <==> forall i :: 0 <= i < |data| ==> data[i].id != Some(pid)
    ensures r.Some? ==> r.value < |data| && data[r.value].id == Some(pid)
                        && forall i :: 0 <= i < r.value ==> data[i].id != Some(pid)
  {
    if |data| == 0 then None
    else if data[0].id == Some(pid) then Some(0)
    else
      match FirstWithId(data[1..], pid)
      case None => None
      case Some(k) => Some(k + 1)
  }

  /** The loop of `load_palette_by_id`: it stops at the first entry whose id is `pid`. */
  method FindEntry(data: seq<Entry>, pid: int) returns (k: Option<nat>)
    ensures k == FirstWithId(data, pid)
    ensures k.Some? ==> data[k.value].id == Some(pid)
  {
    for i := 0 to |data|
      invariant forall j :: 0 <= j < i ==> data[j].id != Some(pid)
    {
      if data[i].id == Some(pid) {
        return Some(i);
      }
    }
    return None;
  }
}
