/** The listing merger behind `get_metadata_for_all` and the legacy
    `get_all`: the object listing is (in the current repository) sorted by
    recency, cut to one page, and joined to the metadata rows by object key
    (current repository) or by the key's last path component (legacy). */
module Listing {
  import opened Values
  import opened Seqs
  import opened Metadata
  import opened Objects
  import opened ObjectPath

  // ---------------------------------------------------------------- sorting by recency

  /** The sort key: `Option` orders `None` below every timestamp. */
  function Recency(e: ListEntry): int
  {
    if e.lastModified.Some? then e.lastModified.value else -1
  }

  predicate NewestFirst(s: seq<ListEntry>)
  {
    forall i, j :: 0 <= i < j < |s| ==> Recency(s[i]) >= Recency(s[j])
  }

  /** `e` placed before the first entry that is not newer than it. */
  function InsertByRecency(e: ListEntry, s: seq<ListEntry>): (r: seq<ListEntry>)
    ensures |r| == |s| + 1
    ensures multiset(r) == multiset(s) + multiset{e}
    ensures r[0] == e || (|s| > 0 && r[0] == s[0])
    ensures NewestFirst(s) ==> NewestFirst(r)
  {
    if |s| == 0 then [e]
    else if Recency(s[0]) <= Recency(e) then
      if NewestFirst(s) then ConsNewestFirst(e, s); [e] + s
      else [e] + s
    else
      var rest := InsertByRecency(e, s[1..]);
      assert s == [s[0]] + s[1..];
      if NewestFirst(s) then ConsNewestFirst(s[0], rest); [s[0]] + rest
      else [s[0]] + rest
  }

  /** A newest-first sequence stays so when an entry at least as new as its
      head goes in front. */
  lemma ConsNewestFirst(x: ListEntry, s: seq<ListEntry>)
    requires NewestFirst(s)
    requires |s| > 0 ==> Recency(x) >= Recency(s[0])
    ensures NewestFirst([x] + s)
  {
    var r := [x] + s;
    forall i, j | 0 <= i < j < |r| ensures Recency(r[i]) >= Recency(r[j]) {
      if i == 0 && j > 1 {
        assert Recency(s[0]) >= Recency(s[j - 1]);
      }
    }
  }

  /** `objects.sort_by(|a, b| b.last_modified.cmp(&a.last_modified))`: newest
      first, entries without a timestamp last, a stable sort. */
  function SortByRecency(s: seq<ListEntry>): (r: seq<ListEntry>)
    ensures |r| == |s|
    ensures multiset(r) == multiset(s)
    ensures NewestFirst(r)
  {
    if |s| == 0 then []
    else
      assert s == [s[0]] + s[1..];
      InsertByRecency(s[0], SortByRecency(s[1..]))
  }

  function WithRecency(r: int): ListEntry -> bool
  {
    (e: ListEntry) => Recency(e) == r
  }

  lemma {:induction false} InsertKeepsTies(e: ListEntry, s: seq<ListEntry>, r: int)
    ensures Filter(InsertByRecency(e, s), WithRecency(r))
            == if Recency(e) == r then [e] + Filter(s, WithRecency(r)) else Filter(s, WithRecency(r))
  {
    if |s| > 0 && Recency(s[0]) > Recency(e) {
      InsertKeepsTies(e, s[1..], r);
      assert ([s[0]] + InsertByRecency(e, s[1..]))[1..] == InsertByRecency(e, s[1..]);
    } else if |s| > 0 {
      assert ([e] + s)[1..] == s;
    }
  }

  /** The sort is stable: entries with the same timestamp (or none) keep
      their listing order. */
  lemma {:induction false} SortIsStable(s: seq<ListEntry>, r: int)
    ensures Filter(SortByRecency(s), WithRecency(r)) == Filter(s, WithRecency(r))
  {
    if |s| > 0 {
      SortIsStable(s[1..], r);
      InsertKeepsTies(s[0], SortByRecency(s[1..]), r);
    }
  }

  // ---------------------------------------------------------------- the key map

  /** `image_map`: each row under its derived object key; a later row with
      the same key replaces an earlier one (`HashMap::insert`). */
  function KeyMap(basePath: string, rows: seq<Image>): (m: map<string, Image>)
    ensures forall k :: k in m ==> GetObjectPath(basePath, m[k].id, m[k].name) == k && m[k] in rows
  {
    if |rows| == 0 then map[]
    else
      var last := rows[|rows| - 1];
      var m := KeyMap(basePath, rows[..|rows| - 1]);
      m[GetObjectPath(basePath, last.id, last.name) := last]
  }

  /** The loop that fills `image_map`. */
  method BuildImageMap(basePath: string, rows: seq<Image>) returns (m: map<string, Image>)
    ensures m == KeyMap(basePath, rows)
  {
    m := map[];
    for i := 0 to |rows|
      invariant m == KeyMap(basePath, rows[..i])
    {
      assert rows[..i + 1][..i] == rows[..i];
      var image := rows[i];
      m := m[GetObjectPath(basePath, image.id, image.name) := image];
    }
    assert rows[..|rows|] == rows;
  }

  function ImageKey(basePath: string, x: Image): string
  {
    GetObjectPath(basePath, x.id, x.name)
  }

  /** With distinct image ids that hold no dot, no two rows share a key, so
      every row is found under its own key. */
  lemma {:induction false} KeyMapFindsEveryRow(basePath: string, rows: seq<Image>)
    requires forall i :: 0 <= i < |rows| ==> '.' !in rows[i].id
    requires forall i, j :: 0 <= i < j < |rows| ==> rows[i].id != rows[j].id
    ensures forall i :: 0 <= i < |rows| ==> FoundUnderOwnKey(basePath, KeyMap(basePath, rows), rows[i])
  {
    if |rows| > 0 {
      var n := |rows| - 1;
      var init, last := rows[..n], rows[n];
      assert rows == init + [last];
      KeyMapFindsEveryRow(basePath, init);
      forall i | 0 <= i < n ensures FoundUnderOwnKey(basePath, KeyMap(basePath, rows), rows[i]) {
        assert init[i] == rows[i];
        KeyMapKeepsOthers(basePath, init, last, rows[i]);
      }
    }
  }

  predicate FoundUnderOwnKey(basePath: string, m: map<string, Image>, x: Image)
  {
    ImageKey(basePath, x) in m && m[ImageKey(basePath, x)] == x
  }

  /** Registering a row leaves every row with another dot-free id where it was. */
  lemma KeyMapKeepsOthers(basePath: string, init: seq<Image>, x: Image, y: Image)
    requires '.' !in x.id && '.' !in y.id && x.id != y.id
    requires FoundUnderOwnKey(basePath, KeyMap(basePath, init), y)
    ensures FoundUnderOwnKey(basePath, KeyMap(basePath, init + [x]), y)
  {
    assert (init + [x])[..|init|] == init;
    KeysSeparateImages(basePath, y.id, y.name, x.id, x.name);
  }

  // ---------------------------------------------------------------- pagination

  /** A u32 result that wraps around. */
  function WrapU32(x: int): (r: nat)
    ensures r < U32_LIMIT
    ensures 0 <= x < U32_LIMIT ==> r == x
  {
    x % U32_LIMIT
  }

  /** The slice bounds of one page and whether more follow. */
  datatype Window = Window(start: nat, end: nat, hasMore: bool)

  /** `start = ((page - 1) * limit) as usize` (a u32 product, which wraps in a
      release build), `end = min(start + limit, total)`; slicing with
      `start > end` panics. */
  function PageWindow(total: nat, page: u32, limit: u32): (r: Result<Window>)
    requires 1 <= page && 1 <= limit <= 100
  {
    var start := WrapU32((page as int - 1) * limit as int);
    var end := if start + limit as int <= total then start + limit as int else total;
    if start > end then Err(SlicePanic) else Ok(Window(start, end, end < total))
  }

  /** What the page arithmetic promises: the slice lies within the listing,
      holds at most `limit` entries (fewer only on the last page), `has_more`
      says whether entries follow, and only a page starting past the end
      fails. Without wrap-around the start is `(page - 1) * limit`. */
  lemma PageWindowSpec(total: nat, page: u32, limit: u32)
    requires 1 <= page && 1 <= limit <= 100
    ensures var start := WrapU32((page as int - 1) * limit as int);
      && (PageWindow(total, page, limit).Err? <==> start > total)
      && (PageWindow(total, page, limit).Ok? ==>
            var w := PageWindow(total, page, limit).value;
            && w.start == start && w.start <= w.end <= total
            && w.end - w.start <= limit as int
            && (w.end - w.start == limit as int || w.end == total)
            && (w.hasMore <==> w.end < total))
    ensures (page as int - 1) * limit as int < U32_LIMIT ==>
      PageWindow(total, page, limit).Ok? ==> PageWindow(total, page, limit).value.start == (page as int - 1) * limit as int
  {
    MulStep(page as int, limit as int);
  }

  /** Pages tile the listing: when a page says more follow, the next page
      starts where it ended (as long as the product does not wrap). */
  lemma NextPageContinues(total: nat, page: u32, limit: u32)
    requires 1 <= page < 0xFFFF_FFFF && 1 <= limit <= 100
    requires page as int * limit as int < U32_LIMIT
    requires PageWindow(total, page, limit).Ok? && PageWindow(total, page, limit).value.hasMore
    ensures PageWindow(total, page + 1, limit).Ok?
    ensures PageWindow(total, page + 1, limit).value.start == PageWindow(total, page, limit).value.end
  {
    var p, l := page as int, limit as int;
    var a, b := (p - 1) * l, p * l;
    MulStep(p, l);
    assert WrapU32(a) == a && WrapU32(b) == b;
    assert page + 1 - 1 == page;
  }

  lemma MulStep(p: int, l: int)
    requires p >= 1 && l >= 0
    ensures p * l == (p - 1) * l + l && (p - 1) * l >= 0
  {
  }

  /** A huge page number wraps the u32 product back into the listing: with
      25 objects, page 42949674 of 100 starts at object 4. */
  lemma HugePageWraps()
    ensures PageWindow(25, 42949674, 100) == Ok(Window(4, 25, false))
  {
    assert WrapU32((42949674 - 1) * 100) == 4;
  }

  /** Asking for a page past the end aborts the request: with 25 objects and
      10 per page, page 4 starts at 30. */
  lemma PagePastEndPanics()
    ensures PageWindow(25, 4, 10) == Err(SlicePanic)
  {
  }

  // ---------------------------------------------------------------- the joins

  function InMap(m: map<string, Image>): ListEntry -> bool
  {
    (e: ListEntry) => e.key.Some? && e.key.value in m
  }

  /** The `filter_map`: for each entry whose key is in the map, that image. */
  function JoinByKey(entries: seq<ListEntry>, m: map<string, Image>): (r: seq<Image>)
    ensures |r| <= |entries|
  {
    if |entries| == 0 then []
    else
      var rest := JoinByKey(entries[1..], m);
      if InMap(m)(entries[0]) then [m[entries[0].key.value]] + rest else rest
  }

  /** The join lines up with the entries it keeps: the i-th image is the one
      registered under the i-th kept entry's key. */
  lemma {:induction false} JoinFollowsKeptEntries(entries: seq<ListEntry>, m: map<string, Image>)
    ensures var kept := Filter(entries, InMap(m));
      && |JoinByKey(entries, m)| == |kept|
      && forall i :: 0 <= i < |kept| ==> kept[i].key.Some? && kept[i].key.value in m
                                         && JoinByKey(entries, m)[i] == m[kept[i].key.value]
  {
    if |entries| > 0 {
      var e, tail := entries[0], entries[1..];
      JoinFollowsKeptEntries(tail, m);
      var kept, kt := Filter(entries, InMap(m)), Filter(tail, InMap(m));
      var joined, jt := JoinByKey(entries, m), JoinByKey(tail, m);
      if InMap(m)(e) {
        assert kept == [e] + kt && joined == [m[e.key.value]] + jt;
        forall i | 0 < i < |kept|
          ensures kept[i].key.Some? && kept[i].key.value in m && joined[i] == m[kept[i].key.value]
        {
          assert kept[i] == kt[i - 1] && joined[i] == jt[i - 1];
        }
      } else {
        assert kept == kt && joined == jt;
      }
    }
  }

  /** A filtered sequence keeps its order. */
  lemma {:induction false} FilterKeepsNewestFirst(s: seq<ListEntry>, keep: ListEntry -> bool)
    requires NewestFirst(s)
    ensures NewestFirst(Filter(s, keep))
  {
    if |s| > 0 {
      var tail := s[1..];
      assert NewestFirst(tail) by {
        forall i, j | 0 <= i < j < |tail| ensures Recency(tail[i]) >= Recency(tail[j]) {
          assert tail[i] == s[i + 1] && tail[j] == s[j + 1];
        }
      }
      FilterKeepsNewestFirst(tail, keep);
      var rt := Filter(tail, keep);
      if keep(s[0]) {
        forall j | 0 <= j < |rt| ensures Recency(s[0]) >= Recency(rt[j]) {
          assert rt[j] in tail;
          var m :| 0 <= m < |tail| && tail[m] == rt[j];
          assert tail[m] == s[m + 1];
        }
        assert Filter(s, keep) == [s[0]] + rt;
      }
    }
  }

  datatype ImageList = ImageList(images: seq<Image>, total: nat, hasMore: bool)

  /** The body of `get_metadata_for_all` after the two reads: sort, page,
      join by derived key. */
  function MergeListing(basePath: string, objects: seq<ListEntry>, rows: seq<Image>, page: u32, limit: u32): Result<ImageList>
    requires 1 <= page && 1 <= limit <= 100
  {
    var sorted := SortByRecency(objects);
    match PageWindow(|objects|, page, limit)
    case Err(e) => Err(e)
    case Ok(w) => Ok(ImageList(JoinByKey(sorted[w.start..w.end], KeyMap(basePath, rows)), |objects|, w.hasMore))
  }

  /** The page of the sorted listing that a call reads. */
  function PageOf(objects: seq<ListEntry>, page: u32, limit: u32): seq<ListEntry>
    requires 1 <= page && 1 <= limit <= 100
    requires PageWindow(|objects|, page, limit).Ok?
  {
    var w := PageWindow(|objects|, page, limit).value;
    SortByRecency(objects)[w.start..w.end]
  }

  /** Counts: `total` is the number of listed objects whatever the page and
      the matches, at most `limit` images come back, and `has_more` holds
      exactly when objects follow the page. */
  lemma MergeCounts(basePath: string, objects: seq<ListEntry>, rows: seq<Image>, page: u32, limit: u32)
    requires 1 <= page && 1 <= limit <= 100
    ensures var r := MergeListing(basePath, objects, rows, page, limit);
      && (r.Err? <==> PageWindow(|objects|, page, limit).Err?)
      && (r.Ok? ==>
            && r.value.total == |objects|
            && |r.value.images| <= limit as int
            && (r.value.hasMore <==> PageWindow(|objects|, page, limit).value.end < |objects|))
  {
    PageWindowSpec(|objects|, page, limit);
  }

  /** A page of the sorted listing is itself newest first. */
  lemma PageIsNewestFirst(objects: seq<ListEntry>, page: u32, limit: u32)
    requires 1 <= page && 1 <= limit <= 100
    requires PageWindow(|objects|, page, limit).Ok?
    ensures NewestFirst(PageOf(objects, page, limit))
  {
    var w := PageWindow(|objects|, page, limit).value;
    var sorted := SortByRecency(objects);
    var window := PageOf(objects, page, limit);
    forall i, j | 0 <= i < j < |window| ensures Recency(window[i]) >= Recency(window[j]) {
      assert window[i] == sorted[w.start + i] && window[j] == sorted[w.start + j];
    }
  }

  /** Content and order: the images are those of the page's objects whose
      key is some row's derived key, one per such object, newest object
      first; objects without a matching row are dropped. */
  lemma MergeContentAndOrder(basePath: string, objects: seq<ListEntry>, rows: seq<Image>, page: u32, limit: u32)
    requires 1 <= page && 1 <= limit <= 100
    requires MergeListing(basePath, objects, rows, page, limit).Ok?
    ensures var images := MergeListing(basePath, objects, rows, page, limit).value.images;
            var kept := Filter(PageOf(objects, page, limit), InMap(KeyMap(basePath, rows)));
      && |images| == |kept|
      && NewestFirst(kept)
      && (forall e :: e in kept <==> e in PageOf(objects, page, limit)
                                     && e.key.Some? && exists x :: x in rows && e.key.value == ImageKey(basePath, x))
      && (forall i :: 0 <= i < |images| ==> images[i] in rows && kept[i].key == Some(ImageKey(basePath, images[i])))
  {
    var m := KeyMap(basePath, rows);
    var window := PageOf(objects, page, limit);
    assert MergeListing(basePath, objects, rows, page, limit).value.images == JoinByKey(window, m);
    JoinFollowsKeptEntries(window, m);
    PageIsNewestFirst(objects, page, limit);
    FilterKeepsNewestFirst(window, InMap(m));
    KeyMapMembers(basePath, rows);
  }

  /** A key is in the map exactly when some row derives it. */
  lemma {:induction false} KeyMapMembers(basePath: string, rows: seq<Image>)
    ensures forall k :: k in KeyMap(basePath, rows) <==> exists x :: x in rows && k == ImageKey(basePath, x)
  {
    if |rows| > 0 {
      var init := rows[..|rows| - 1];
      KeyMapMembers(basePath, init);
      assert rows == init + [rows[|rows| - 1]];
    }
  }

  // ---------------------------------------------------------------- the legacy join

  /** The legacy `image_map`: rows by name, a later row replacing an earlier. */
  function NameMap(rows: seq<Image>): (m: map<string, Image>)
    ensures forall k :: k in m ==> m[k].name == k && m[k] in rows
    ensures forall k :: k in m <==> exists x :: x in rows && x.name == k
  {
    if |rows| == 0 then map[]
    else
      var last := rows[|rows| - 1];
      var init := rows[..|rows| - 1];
      var m := NameMap(init);
      assert rows == init + [last];
      m[last.name := last]
  }

  /** The loop that fills the legacy `image_map`. */
  method BuildNameMap(rows: seq<Image>) returns (m: map<string, Image>)
    ensures m == NameMap(rows)
  {
    m := map[];
    for i := 0 to |rows|
      invariant m == NameMap(rows[..i])
    {
      assert rows[..i + 1][..i] == rows[..i];
      m := m[rows[i].name := rows[i]];
    }
    assert rows[..|rows|] == rows;
  }

  function NamedIn(m: map<string, Image>): ListEntry -> bool
  {
    (e: ListEntry) => e.key.Some? && FileName(e.key.value).Some? && FileName(e.key.value).value in m
  }

  /** The legacy `filter_map`: an entry yields the row named by its key's
      last path component. */
  function JoinByFileName(entries: seq<ListEntry>, m: map<string, Image>): (r: seq<Image>)
    ensures |r| <= |entries|
  {
    if |entries| == 0 then []
    else
      var rest := JoinByFileName(entries[1..], m);
      if NamedIn(m)(entries[0]) then [m[FileName(entries[0].key.value).value]] + rest else rest
  }

  lemma {:induction false} FileNameJoinFollowsKeptEntries(entries: seq<ListEntry>, m: map<string, Image>)
    ensures var kept := Filter(entries, NamedIn(m));
      && |JoinByFileName(entries, m)| == |kept|
      && forall i :: 0 <= i < |kept| ==>
           && kept[i].key.Some? && FileName(kept[i].key.value).Some? && FileName(kept[i].key.value).value in m
           && JoinByFileName(entries, m)[i] == m[FileName(kept[i].key.value).value]
  {
    if |entries| > 0 {
      var e, tail := entries[0], entries[1..];
      FileNameJoinFollowsKeptEntries(tail, m);
      var kept, kt := Filter(entries, NamedIn(m)), Filter(tail, NamedIn(m));
      var joined, jt := JoinByFileName(entries, m), JoinByFileName(tail, m);
      if NamedIn(m)(e) {
        assert kept == [e] + kt && joined == [m[FileName(e.key.value).value]] + jt;
        forall i | 0 < i < |kept|
          ensures && kept[i].key.Some? && FileName(kept[i].key.value).Some?
                  && FileName(kept[i].key.value).value in m
                  && joined[i] == m[FileName(kept[i].key.value).value]
        {
          assert kept[i] == kt[i - 1] && joined[i] == jt[i - 1];
        }
      } else {
        assert kept == kt && joined == jt;
      }
    }
  }

  /** The body of the legacy `get_all` after the two reads: no sort, page,
      join by file name. */
  function LegacyMerge(objects: seq<ListEntry>, rows: seq<Image>, page: u32, limit: u32): Result<ImageList>
    requires 1 <= page && 1 <= limit <= 100
  {
    match PageWindow(|objects|, page, limit)
    case Err(e) => Err(e)
    case Ok(w) => Ok(ImageList(JoinByFileName(objects[w.start..w.end], NameMap(rows)), |objects|, w.hasMore))
  }

  /** The legacy listing: same counts as the current one; the images follow
      the listing order of the page's objects, and each is the row whose
      name is its object's last path component. */
  lemma LegacyMergeSpec(objects: seq<ListEntry>, rows: seq<Image>, page: u32, limit: u32)
    requires 1 <= page && 1 <= limit <= 100
    ensures var r := LegacyMerge(objects, rows, page, limit);
      && (r.Err? <==> PageWindow(|objects|, page, limit).Err?)
      && (r.Ok? ==>
            var w := PageWindow(|objects|, page, limit).value;
            var kept := Filter(objects[w.start..w.end], NamedIn(NameMap(rows)));
            && r.value.total == |objects|
            && |r.value.images| <= limit as int
            && (r.value.hasMore <==> w.end < |objects|)
            && |r.value.images| == |kept|
            && forall i :: 0 <= i < |kept| ==>
                 r.value.images[i] in rows && kept[i].key.Some?
                 && FileName(kept[i].key.value) == Some(r.value.images[i].name))
  {
    PageWindowSpec(|objects|, page, limit);
    if PageWindow(|objects|, page, limit).Ok? {
      var w := PageWindow(|objects|, page, limit).value;
      FileNameJoinFollowsKeptEntries(objects[w.start..w.end], NameMap(rows));
    }
  }
}
