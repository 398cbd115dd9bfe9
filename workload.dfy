/** StorageFragmentationTest's mutable state and its workload: the seeding
    loop, `replaceVertices`, `reUseVertices`, `getRandomRecord`, `getData`,
    `addContent` and `testFragmentation`. The graph database is a map from
    vertex id to the length of its text property, with a counter as its
    supply of fresh ids. */
module Workload {
  import opened Wrappers
  import opened Config
  import opened Reduction
  import opened Population
  import opened SizeProbe
  import opened Report

  /** What `RandomStringUtils.randomAlphanumeric` produces. It only records
      that guarantee of the random text; no proof depends on it. */
  predicate Alphanumeric(t: string)
  {
    forall i :: 0 <= i < |t| ==>
      ('a' <= t[i] <= 'z') || ('A' <= t[i] <= 'Z') || ('0' <= t[i] <= '9')
  }

  /** The cache lists every live vertex exactly once, with its text length. */
  predicate StoreMatches(ids: seq<RecordInfo>, store: map<RecordId, int>)
  {
    DistinctIds(ids) && store.Keys == IdSet(ids) &&
    forall k :: 0 <= k < |ids| ==> ids[k].id in store && store[ids[k].id] == ids[k].textSize
  }

  /** Deleting (or rewriting) the vertex of entry `k` in the store while
      dropping that entry from the cache and appending `x` keeps the two in
      agreement. */
  lemma StoreAfterTrade(ids: seq<RecordInfo>, store: map<RecordId, int>, k: nat, x: RecordInfo)
    requires StoreMatches(ids, store) && k < |ids|
    requires x.id == ids[k].id || x.id !in IdSet(ids)
    ensures StoreMatches(RemoveAt(ids, k) + [x], (store - {ids[k].id})[x.id := x.textSize])
  {
    IdsAfterTrade(ids, k, x);
    var r := RemoveAt(ids, k) + [x];
    var st := (store - {ids[k].id})[x.id := x.textSize];
    forall j | 0 <= j < |r| ensures r[j].id in st && st[r[j].id] == r[j].textSize {
      if j < |r| - 1 {
        var j' := if j < k then j else j + 1;
        assert r[j] == ids[j'] && j' != k;
        assert r[j].id != x.id by {
          assert r[|r| - 1] == x;
        }
      }
    }
  }

  /** Appending a vertex under the next fresh id, with a size in range, to
      store and cache keeps them in agreement and the ids below the new
      next id. */
  lemma StoreAfterAppend(ids: seq<RecordInfo>, store: map<RecordId, int>, next: RecordId, size: int)
    requires StoreMatches(ids, store) && IdsBelow(ids, next) && SizesInRange(ids)
    requires 1 <= size <= INITIAL_TEXT_SIZE
    ensures var r := ids + [RecordInfo(next, size)];
      StoreMatches(r, store[next := size]) && IdsBelow(r, next + 1) && SizesInRange(r)
  {
    var r := ids + [RecordInfo(next, size)];
    assert forall k :: 0 <= k < |ids| ==> r[k] == ids[k];
    assert r[|ids|] == RecordInfo(next, size);
    assert next !in IdSet(ids);
    assert IdSet(r) == IdSet(ids) + {next};
  }

  /** What the class keeps true of its cache, its store and its id supply. */
  predicate Consistent(ids: seq<RecordInfo>, store: map<RecordId, int>, next: RecordId)
  {
    StoreMatches(ids, store) && IdsBelow(ids, next) && SizesInRange(ids)
  }

  /** One cycle of `replaceVertices` on the cache and the store. */
  lemma ReplaceCycle(ids: seq<RecordInfo>, store: map<RecordId, int>, next: RecordId, k: nat, s: Settings)
    requires Consistent(ids, store, next) && ValidSettings(s) && k < |ids|
    ensures var size := ReduceSize(s, ids[k].textSize);
      1 <= size <= INITIAL_TEXT_SIZE &&
      Consistent(ReplaceAt(ids, k, next, s), (store - {ids[k].id})[next := size], next + 1)
  {
    ReduceSizeBounds(s, ids[k].textSize);
    ReplaceAtBelow(ids, k, next, s);
    StoreAfterTrade(ids, store, k, RecordInfo(next, ReduceSize(s, ids[k].textSize)));
    TradeShrinks(ids, k, next, s);
  }

  /** One cycle of `reUseVertices` on the cache and the store: the vertex's
      text is first cleared (length 0), then rewritten. */
  lemma ReuseCycle(ids: seq<RecordInfo>, store: map<RecordId, int>, next: RecordId, k: nat, s: Settings)
    requires Consistent(ids, store, next) && ValidSettings(s) && k < |ids|
    ensures var size := ReduceSize(s, ids[k].textSize);
      1 <= size <= INITIAL_TEXT_SIZE &&
      Consistent(ReuseAt(ids, k, s), store[ids[k].id := 0][ids[k].id := size], next)
  {
    var size := ReduceSize(s, ids[k].textSize);
    ReduceSizeBounds(s, ids[k].textSize);
    StoreAfterTrade(ids, store, k, RecordInfo(ids[k].id, size));
    assert (store - {ids[k].id})[ids[k].id := size] == store[ids[k].id := 0][ids[k].id := size];
    TradeShrinks(ids, k, ids[k].id, s);
    TradeBelow(ids, k, RecordInfo(ids[k].id, size), next);
  }

  /** The entries the seeding loop appends when the store's next id is
      `next`. */
  function Seeded(next: RecordId, count: nat): (r: seq<RecordInfo>)
    ensures |r| == count
  {
    seq(count, i requires 0 <= i < count => RecordInfo(next + i, INITIAL_TEXT_SIZE))
  }

  class StorageFragmentationTest {
    const settings: Settings
    /** The text `RandomStringUtils.randomAlphanumeric(INITIAL_TEXT_SIZE)`
        returns when `content` is first needed. */
    const randomText: string
    var ids: seq<RecordInfo>
    var content: Option<string>
    /** The graph database: the text length of every live vertex. */
    var store: map<RecordId, int>
    /** The id the database gives the next vertex it creates. */
    var nextId: RecordId

    ghost predicate ContentValid()
      reads this
    {
      |randomText| == INITIAL_TEXT_SIZE && (content.Some? ==> content.value == randomText)
    }

    ghost predicate Valid()
      reads this
    {
      ContentValid() && ValidSettings(settings) && Consistent(ids, store, nextId)
    }

    /** `setupDB`: an empty database and an empty cache. */
    constructor (settings: Settings, randomText: string)
      requires ValidSettings(settings)
      requires |randomText| == INITIAL_TEXT_SIZE && Alphanumeric(randomText)
      ensures Valid()
      ensures this.settings == settings && this.randomText == randomText
      ensures ids == [] && content == None && store == map[] && nextId == 0
    {
      this.settings := settings;
      this.randomText := randomText;
      ids := [];
      content := None;
      store := map[];
      nextId := 0;
    }

    /** `getData(size)`: creates the content on first use and returns its
        first `size` characters; `substring` throws (None) for a size
        outside `[0, content.length()]`. */
    method GetData(size: int) returns (data: Option<string>)
      requires ContentValid()
      modifies this`content
      ensures ContentValid() && content == Some(randomText)
      ensures data.Some? <==> 0 <= size <= INITIAL_TEXT_SIZE
      ensures data.Some? ==> |data.value| == size && data.value == randomText[..size]
    {
      if content == None {
        content := Some(randomText);
      }
      if 0 <= size <= |content.value| {
        data := Some(content.value[..size]);
      } else {
        data := None;
      }
    }

    /** `addContent(tx, size)`: a new vertex whose text is `getData(size)`. */
    method AddContent(size: int) returns (id: RecordId)
      requires ContentValid() && 0 <= size <= INITIAL_TEXT_SIZE
      modifies this`content, this`store, this`nextId
      ensures ContentValid() && content == Some(randomText)
      ensures id == old(nextId) && nextId == id + 1
      ensures store == old(store)[id := size]
    {
      if content == None {
        content := Some(randomText);
      }
      id := nextId;
      nextId := nextId + 1;
      var data := GetData(size);
      store := store[id := |data.value|];
    }

    /** `getRandomRecord()` for the draw `u` of `Math.random()`; on an empty
        cache `ids.get(0)` throws (None). */
    function GetRandomRecord(u: real): (r: Option<RecordInfo>)
      requires 0.0 <= u < 1.0
      reads this
      ensures r.Some? <==> |ids| > 0
      ensures r.Some? ==> r.value in ids
    {
      if |ids| == 0 then None else Some(ids[RandomIndex(u, |ids|)])
    }

    /** The first loop of `testFragmentation`: `VERTEX_COUNT` vertices with
        text of the initial size, each appended to the cache. */
    method SeedVertices()
      requires Valid()
      modifies this
      ensures Valid()
      ensures ids == old(ids) + Seeded(old(nextId), settings.vertexCount)
      ensures nextId == old(nextId) + settings.vertexCount
    {
      for i := 0 to settings.vertexCount
        invariant Valid()
        invariant ids == old(ids) + Seeded(old(nextId), i)
        invariant nextId == old(nextId) + i
      {
        StoreAfterAppend(ids, store, nextId, INITIAL_TEXT_SIZE);
        var v := AddContent(INITIAL_TEXT_SIZE);
        ids := ids + [RecordInfo(v, INITIAL_TEXT_SIZE)];
        assert Seeded(old(nextId), i + 1) == Seeded(old(nextId), i) + [RecordInfo(v, INITIAL_TEXT_SIZE)];
      }
    }

    /** `replaceVertices()`: `DELETE_CREATE_OPS` cycles, the i-th drawing
        `rands[i]`, each deleting the picked vertex and creating one with the
        reduced size; returns the number of deletions. */
    method ReplaceVertices(rands: seq<real>) returns (deletedRecords: int)
      requires Valid() && |ids| > 0
      requires RandomDraws(rands) && |rands| == settings.deleteCreateOps
      modifies this
      ensures Valid()
      ensures deletedRecords == settings.deleteCreateOps
      ensures ids == ReplaceRun(old(ids), rands, old(nextId), settings)
      ensures nextId == old(nextId) + |rands|
    {
      deletedRecords := 0;
      for i := 0 to settings.deleteCreateOps
        invariant Valid() && |ids| == |old(ids)|
        invariant ids == ReplaceRun(old(ids), rands[..i], old(nextId), settings)
        invariant nextId == old(nextId) + i
        invariant deletedRecords == i
      {
        var info := GetRandomRecord(rands[i]).value;
        ghost var k := RandomIndex(rands[i], |ids|);
        ghost var before, next := ids, nextId;
        ReplaceCycle(ids, store, nextId, k, settings);
        RemoveFirstIsRemoveAt(ids, k);
        var size := ReduceSize(settings, info.textSize);
        // 1. delete the picked vertex
        store := store - {info.id};
        ghost var storeMid := store;
        deletedRecords := deletedRecords + 1;
        ids := RemoveFirst(ids, info);
        // 2. create its replacement with the reduced text size
        var added := AddContent(size);
        ids := ids + [RecordInfo(added, size)];
        assert ids == ReplaceAt(before, k, next, settings);
        assert store == storeMid[next := size];
        assert Consistent(ids, store, nextId);
        assert RandomDraws(rands[..i]);
        ReplaceRunStep(old(ids), rands, i, old(nextId), settings, before, k, next);
      }
      assert rands[..|rands|] == rands;
    }

    /** `reUseVertices()`: `DELETE_CREATE_OPS` cycles, each clearing the
        picked vertex and writing the reduced text into it; returns 0, as
        nothing is deleted. */
    method ReUseVertices(rands: seq<real>) returns (deletedRecords: int)
      requires Valid() && |ids| > 0
      requires RandomDraws(rands) && |rands| == settings.deleteCreateOps
      modifies this
      ensures Valid()
      ensures deletedRecords == 0
      ensures ids == ReuseRun(old(ids), rands, settings)
      ensures nextId == old(nextId)
    {
      for i := 0 to settings.deleteCreateOps
        invariant Valid() && |ids| == |old(ids)|
        invariant ids == ReuseRun(old(ids), rands[..i], settings)
        invariant nextId == old(nextId)
      {
        ReuseRunStep(old(ids), rands, i, settings);
        var info := GetRandomRecord(rands[i]).value;
        ghost var k := RandomIndex(rands[i], |ids|);
        ghost var before := ids;
        ReuseCycle(ids, store, nextId, k, settings);
        RemoveFirstIsRemoveAt(ids, k);
        var size := ReduceSize(settings, info.textSize);
        // 1. clear the picked vertex: it keeps its id and loses its text
        store := store[info.id := 0];
        ghost var storeMid := store;
        ids := RemoveFirst(ids, info);
        // 2. write the reduced text into the same vertex
        var data := GetData(size);
        store := store[info.id := |data.value|];
        ids := ids + [RecordInfo(info.id, size)];
        assert ids == ReuseAt(before, k, settings);
        assert store == storeMid[info.id := size];
        assert Consistent(ids, store, nextId);
      }
      assert rands[..|rands|] == rands;
      deletedRecords := 0;
    }

    /** `testFragmentation()`: seeds the vertices, measures the folder,
        runs the configured strategy, measures again and computes the
        report. `filesBefore` and `filesAfter` are the folder listings at
        the two measurements, `walBefore` and `walAfter` the WAL sizes. */
    method TestFragmentation(rands: seq<real>, filesBefore: seq<FileEntry>, walBefore: int,
                             filesAfter: seq<FileEntry>, walAfter: int)
      returns (report: FragmentationReport)
      requires Valid() && ids == [] && store == map[] && nextId == 0 && settings.vertexCount > 0
      requires RandomDraws(rands) && |rands| == settings.deleteCreateOps
      modifies this
      ensures Valid() && |ids| == settings.vertexCount
      ensures report == MakeReport(TotalLength(filesBefore), TotalLength(filesAfter),
                                   if settings.reuseVertex then 0 else settings.deleteCreateOps)
      ensures settings.reuseVertex ==>
                ids == ReuseRun(Seeded(0, settings.vertexCount), rands, settings)
      ensures !settings.reuseVertex ==>
                ids == ReplaceRun(Seeded(0, settings.vertexCount), rands, settings.vertexCount, settings)
    {
      SeedVertices();
      ghost var seeded, next := ids, nextId;
      assert seeded == Seeded(0, settings.vertexCount);
      assert next == settings.vertexCount;
      var _, initialSize := PrintDbSize(filesBefore, walBefore);
      var deletedRecords;
      if settings.reuseVertex {
        deletedRecords := ReUseVertices(rands);
        assert ids == ReuseRun(seeded, rands, settings);
      } else {
        deletedRecords := ReplaceVertices(rands);
        assert ids == ReplaceRun(seeded, rands, next, settings);
      }
      var _, finalSize := PrintDbSize(filesAfter, walAfter);
      assert deletedRecords == if settings.reuseVertex then 0 else settings.deleteCreateOps;
      assert initialSize == TotalLength(filesBefore) && finalSize == TotalLength(filesAfter);
      report := MakeReport(initialSize, finalSize, deletedRecords);
    }
  }
}
