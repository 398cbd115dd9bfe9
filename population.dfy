/** The benchmark's cache `ids` of `(id, textSize)` pairs and what one cycle
    of each mutation strategy does to it, stated on values. */
module Population {
  import opened Config
  import opened Reduction

  /** The identifier the graph store gives a vertex. */
  type RecordId = int

  /** `RecordInfo`: a vertex and the length of the text it holds. */
  datatype RecordInfo = RecordInfo(id: RecordId, textSize: int)

  /** `(int) (Math.random() * n)` for a draw `u` of `Math.random()`. */
  function RandomIndex(u: real, n: nat): (k: int)
    requires 0.0 <= u < 1.0 && n > 0
    ensures 0 <= k < n
  {
    assert u * n as real < n as real by {
      assert n as real - u * n as real == (1.0 - u) * n as real;
    }
    (u * n as real).Floor
  }

  /** Every value is a possible result of `Math.random()`. */
  predicate RandomDraws(rands: seq<real>)
  {
    forall i :: 0 <= i < |rands| ==> 0.0 <= rands[i] < 1.0
  }

  function RemoveAt(s: seq<RecordInfo>, k: nat): seq<RecordInfo>
    requires k < |s|
  {
    s[..k] + s[k + 1..]
  }

  /** `List.remove(Object)`: drops the first element equal to `x`, if any. */
  function RemoveFirst(s: seq<RecordInfo>, x: RecordInfo): seq<RecordInfo>
  {
    if s == [] then []
    else if s[0] == x then s[1..]
    else [s[0]] + RemoveFirst(s[1..], x)
  }

  predicate DistinctIds(s: seq<RecordInfo>)
  {
    forall i, j :: 0 <= i < j < |s| ==> s[i].id != s[j].id
  }

  function IdSet(s: seq<RecordInfo>): set<RecordId>
  {
    set k | 0 <= k < |s| :: s[k].id
  }

  /** Every cached size is a length `getData` can cut from the content. */
  predicate SizesInRange(s: seq<RecordInfo>)
  {
    forall k :: 0 <= k < |s| ==> 1 <= s[k].textSize <= INITIAL_TEXT_SIZE
  }

  /** The sum of the cached text sizes. */
  function TotalSize(s: seq<RecordInfo>): int
  {
    if s == [] then 0 else TotalSize(s[..|s| - 1]) + s[|s| - 1].textSize
  }

  lemma {:induction false} TotalSizeAppend(a: seq<RecordInfo>, b: seq<RecordInfo>)
    ensures TotalSize(a + b) == TotalSize(a) + TotalSize(b)
    decreases |b|
  {
    if b == [] {
      assert a + b == a;
    } else {
      assert (a + b)[..|a + b| - 1] == a + b[..|b| - 1];
      TotalSizeAppend(a, b[..|b| - 1]);
    }
  }

  /** With distinct ids the first element equal to the one at `k` is the one
      at `k`, so `ids.remove(info)` removes exactly the picked entry. */
  lemma {:induction false} RemoveFirstIsRemoveAt(s: seq<RecordInfo>, k: nat)
    requires DistinctIds(s) && k < |s|
    ensures RemoveFirst(s, s[k]) == RemoveAt(s, k)
  {
    if k > 0 {
      assert s[0] != s[k];
      assert DistinctIds(s[1..]) by {
        forall i, j | 0 <= i < j < |s[1..]| ensures s[1..][i].id != s[1..][j].id {
          assert s[1..][i] == s[i + 1] && s[1..][j] == s[j + 1];
        }
      }
      RemoveFirstIsRemoveAt(s[1..], k - 1);
      assert s[1..][k - 1] == s[k];
      assert [s[0]] + RemoveAt(s[1..], k - 1) == RemoveAt(s, k);
    }
  }

  /** `replaceVertices`, one cycle: the picked entry is dropped and the new
      vertex, under a new id and with the reduced size, is appended. */
  function ReplaceAt(ids: seq<RecordInfo>, k: nat, newId: RecordId, s: Settings): seq<RecordInfo>
    requires k < |ids|
  {
    RemoveAt(ids, k) + [RecordInfo(newId, ReduceSize(s, ids[k].textSize))]
  }

  /** `reUseVertices`, one cycle: the picked entry is dropped and re-added
      under the same id with the reduced size. */
  function ReuseAt(ids: seq<RecordInfo>, k: nat, s: Settings): seq<RecordInfo>
    requires k < |ids|
  {
    RemoveAt(ids, k) + [RecordInfo(ids[k].id, ReduceSize(s, ids[k].textSize))]
  }

  /** Dropping entry `k` and appending `x` keeps the cardinality and every
      other entry: as multisets one `ids[k]` is traded for one `x`. */
  lemma TradeEntry(ids: seq<RecordInfo>, k: nat, x: RecordInfo)
    requires k < |ids|
    ensures |RemoveAt(ids, k) + [x]| == |ids|
    ensures multiset(RemoveAt(ids, k) + [x]) == multiset(ids) - multiset{ids[k]} + multiset{x}
  {
    assert ids == ids[..k] + [ids[k]] + ids[k + 1..];
  }

  /** The ids after dropping entry `k` and appending one with id `newId`. */
  lemma IdsAfterTrade(ids: seq<RecordInfo>, k: nat, x: RecordInfo)
    requires DistinctIds(ids) && k < |ids|
    requires x.id == ids[k].id || x.id !in IdSet(ids)
    ensures DistinctIds(RemoveAt(ids, k) + [x])
    ensures IdSet(RemoveAt(ids, k) + [x]) == IdSet(ids) - {ids[k].id} + {x.id}
  {
    var r := RemoveAt(ids, k) + [x];
    // position of r's entries in ids
    assert forall i :: 0 <= i < k ==> r[i] == ids[i];
    assert forall i :: k <= i < |r| - 1 ==> r[i] == ids[i + 1];
    forall i, j | 0 <= i < j < |r| ensures r[i].id != r[j].id {
      var i' := if i < k then i else i + 1;
      if j < |r| - 1 {
        var j' := if j < k then j else j + 1;
        assert r[i] == ids[i'] && r[j] == ids[j'];
      } else {
        assert r[i] == ids[i'] && i' != k;
        assert ids[i'].id in IdSet(ids);
      }
    }
    forall id | id in IdSet(ids) - {ids[k].id} + {x.id} ensures id in IdSet(r) {
      if id != x.id {
        var m :| 0 <= m < |ids| && ids[m].id == id;
        assert m != k;
        var m' := if m < k then m else m - 1;
        assert r[m'] == ids[m];
      } else {
        assert r[|r| - 1] == x;
      }
    }
    forall id | id in IdSet(r) ensures id in IdSet(ids) - {ids[k].id} + {x.id} {
      var m :| 0 <= m < |r| && r[m].id == id;
      if m < |r| - 1 {
        var m' := if m < k then m else m + 1;
        assert r[m] == ids[m'] && m' != k;
      }
    }
  }

  /** The replace cycle keeps the cardinality, keeps the ids distinct, retires
      the picked id and brings in the new one. */
  lemma ReplaceAtEffect(ids: seq<RecordInfo>, k: nat, newId: RecordId, s: Settings)
    requires DistinctIds(ids) && k < |ids| && newId !in IdSet(ids)
    ensures var r := ReplaceAt(ids, k, newId, s);
      |r| == |ids| && DistinctIds(r) &&
      IdSet(r) == IdSet(ids) - {ids[k].id} + {newId} &&
      multiset(r) == multiset(ids) - multiset{ids[k]} + multiset{RecordInfo(newId, ReduceSize(s, ids[k].textSize))}
  {
    var x := RecordInfo(newId, ReduceSize(s, ids[k].textSize));
    TradeEntry(ids, k, x);
    IdsAfterTrade(ids, k, x);
  }

  /** The reuse cycle keeps the cardinality and the set of ids. */
  lemma ReuseAtEffect(ids: seq<RecordInfo>, k: nat, s: Settings)
    requires DistinctIds(ids) && k < |ids|
    ensures var r := ReuseAt(ids, k, s);
      |r| == |ids| && DistinctIds(r) && IdSet(r) == IdSet(ids) &&
      multiset(r) == multiset(ids) - multiset{ids[k]} + multiset{RecordInfo(ids[k].id, ReduceSize(s, ids[k].textSize))}
  {
    var x := RecordInfo(ids[k].id, ReduceSize(s, ids[k].textSize));
    TradeEntry(ids, k, x);
    IdsAfterTrade(ids, k, x);
    assert ids[k].id in IdSet(ids);
  }

  /** A cycle of either strategy keeps every size in `[1, INITIAL_TEXT_SIZE]`
      and does not grow the sum of the cached sizes. */
  lemma {:induction false} TradeShrinks(ids: seq<RecordInfo>, k: nat, id: RecordId, s: Settings)
    requires ValidSettings(s) && SizesInRange(ids) && k < |ids|
    ensures var r := RemoveAt(ids, k) + [RecordInfo(id, ReduceSize(s, ids[k].textSize))];
      SizesInRange(r) &&
      TotalSize(r) == TotalSize(ids) - ids[k].textSize + ReduceSize(s, ids[k].textSize) &&
      TotalSize(r) <= TotalSize(ids)
  {
    var x := RecordInfo(id, ReduceSize(s, ids[k].textSize));
    var r := RemoveAt(ids, k) + [x];
    ReduceSizeBounds(s, ids[k].textSize);
    assert forall i :: 0 <= i < k ==> r[i] == ids[i];
    assert forall i :: k <= i < |r| - 1 ==> r[i] == ids[i + 1];
    assert ids == ids[..k] + ([ids[k]] + ids[k + 1..]);
    TotalSizeAppend(ids[..k], [ids[k]] + ids[k + 1..]);
    TotalSizeAppend([ids[k]], ids[k + 1..]);
    TotalSizeAppend(ids[..k], ids[k + 1..]);
    TotalSizeAppend(RemoveAt(ids, k), [x]);
    assert TotalSize([ids[k]]) == ids[k].textSize by {
      assert [ids[k]][..0] == [];
    }
    assert TotalSize([x]) == x.textSize by {
      assert [x][..0] == [];
    }
  }

  /** The cache after the replace cycles drawn by `rands`, the i-th new
      vertex getting id `next + i`. */
  function ReplaceRun(ids: seq<RecordInfo>, rands: seq<real>, next: RecordId, s: Settings): (r: seq<RecordInfo>)
    requires |ids| > 0 && RandomDraws(rands)
    ensures |r| == |ids|
  {
    if rands == [] then ids
    else
      var m := |rands| - 1;
      var prev := ReplaceRun(ids, rands[..m], next, s);
      ReplaceAt(prev, RandomIndex(rands[m], |prev|), next + m, s)
  }

  /** The cache after the reuse cycles drawn by `rands`. */
  function ReuseRun(ids: seq<RecordInfo>, rands: seq<real>, s: Settings): (r: seq<RecordInfo>)
    requires |ids| > 0 && RandomDraws(rands)
    ensures |r| == |ids|
  {
    if rands == [] then ids
    else
      var prev := ReuseRun(ids, rands[..|rands| - 1], s);
      ReuseAt(prev, RandomIndex(rands[|rands| - 1], |prev|), s)
  }

  /** A replace run one draw longer is one more replace cycle. */
  lemma ReplaceRunStep(ids: seq<RecordInfo>, rands: seq<real>, i: nat, next: RecordId, s: Settings,
                        prev: seq<RecordInfo>, k: nat, newId: RecordId)
    requires |ids| > 0 && RandomDraws(rands) && i < |rands|
    requires RandomDraws(rands[..i]) && prev == ReplaceRun(ids, rands[..i], next, s)
    requires k == RandomIndex(rands[i], |ids|) && newId == next + i
    ensures RandomDraws(rands[..i + 1])
    ensures ReplaceRun(ids, rands[..i + 1], next, s) == ReplaceAt(prev, k, newId, s)
  {
    assert rands[..i + 1][..i] == rands[..i];
  }

  /** A reuse run one draw longer is one more reuse cycle. */
  lemma ReuseRunStep(ids: seq<RecordInfo>, rands: seq<real>, i: nat, s: Settings)
    requires |ids| > 0 && RandomDraws(rands) && i < |rands|
    ensures RandomDraws(rands[..i]) && RandomDraws(rands[..i + 1])
    ensures ReuseRun(ids, rands[..i + 1], s)
            == ReuseAt(ReuseRun(ids, rands[..i], s), RandomIndex(rands[i], |ids|), s)
  {
    assert rands[..i + 1][..i] == rands[..i];
  }

  /** All ids lie below `bound`. */
  predicate IdsBelow(s: seq<RecordInfo>, bound: RecordId)
  {
    forall k :: 0 <= k < |s| ==> s[k].id < bound
  }

  /** Dropping an entry and appending one below `bound` keeps all ids below
      `bound`. */
  lemma TradeBelow(ids: seq<RecordInfo>, k: nat, x: RecordInfo, bound: RecordId)
    requires k < |ids| && IdsBelow(ids, bound) && x.id < bound
    ensures IdsBelow(RemoveAt(ids, k) + [x], bound)
  {
    var r := RemoveAt(ids, k) + [x];
    assert forall i :: 0 <= i < k ==> r[i] == ids[i];
    assert forall i :: k <= i < |r| - 1 ==> r[i] == ids[i + 1];
  }

  /** The replace cycle with a fresh id above all others keeps the ids
      below the next fresh one. */
  lemma ReplaceAtBelow(ids: seq<RecordInfo>, k: nat, newId: RecordId, s: Settings)
    requires k < |ids| && IdsBelow(ids, newId)
    ensures newId !in IdSet(ids)
    ensures IdsBelow(ReplaceAt(ids, k, newId, s), newId + 1)
  {
    TradeBelow(ids, k, RecordInfo(newId, ReduceSize(s, ids[k].textSize)), newId + 1);
  }

  /** Over a whole replace run every size stays in range and the total
      cached size does not grow. */
  lemma {:induction false} ReplaceRunShrinks(ids: seq<RecordInfo>, rands: seq<real>, next: RecordId, s: Settings)
    requires |ids| > 0 && RandomDraws(rands) && ValidSettings(s) && SizesInRange(ids)
    ensures SizesInRange(ReplaceRun(ids, rands, next, s))
    ensures TotalSize(ReplaceRun(ids, rands, next, s)) <= TotalSize(ids)
  {
    if rands != [] {
      var m := |rands| - 1;
      assert RandomDraws(rands[..m]);
      ReplaceRunShrinks(ids, rands[..m], next, s);
      var prev := ReplaceRun(ids, rands[..m], next, s);
      TradeShrinks(prev, RandomIndex(rands[m], |prev|), next + m, s);
    }
  }

  /** Over a whole replace run the ids stay distinct and below the next
      fresh id. */
  lemma {:induction false} ReplaceRunFresh(ids: seq<RecordInfo>, rands: seq<real>, next: RecordId, s: Settings)
    requires |ids| > 0 && RandomDraws(rands)
    requires DistinctIds(ids) && IdsBelow(ids, next)
    ensures DistinctIds(ReplaceRun(ids, rands, next, s))
    ensures IdsBelow(ReplaceRun(ids, rands, next, s), next + |rands|)
  {
    if rands != [] {
      var m := |rands| - 1;
      assert RandomDraws(rands[..m]);
      ReplaceRunFresh(ids, rands[..m], next, s);
      var prev := ReplaceRun(ids, rands[..m], next, s);
      var k := RandomIndex(rands[m], |prev|);
      var newId := next + m;
      assert IdsBelow(prev, newId);
      ReplaceAtBelow(prev, k, newId, s);
      ReplaceAtEffect(prev, k, newId, s);
      assert ReplaceRun(ids, rands, next, s) == ReplaceAt(prev, k, newId, s);
      assert newId + 1 == next + |rands|;
    }
  }

  /** Over a whole replace run the cache keeps its size, its ids stay
      distinct and below the next fresh id, every size stays in range and
      the total cached size does not grow. */
  lemma ReplaceRunInvariant(ids: seq<RecordInfo>, rands: seq<real>, next: RecordId, s: Settings)
    requires |ids| > 0 && RandomDraws(rands) && ValidSettings(s)
    requires DistinctIds(ids) && IdsBelow(ids, next) && SizesInRange(ids)
    ensures var r := ReplaceRun(ids, rands, next, s);
      |r| == |ids| && DistinctIds(r) && IdsBelow(r, next + |rands|) && SizesInRange(r) &&
      TotalSize(r) <= TotalSize(ids)
  {
    ReplaceRunShrinks(ids, rands, next, s);
    ReplaceRunFresh(ids, rands, next, s);
  }

  /** Over a whole reuse run the cache keeps its size and its set of ids,
      every size stays in range and the total cached size does not grow. */
  lemma {:induction false} ReuseRunInvariant(ids: seq<RecordInfo>, rands: seq<real>, s: Settings)
    requires |ids| > 0 && RandomDraws(rands) && ValidSettings(s)
    requires DistinctIds(ids) && SizesInRange(ids)
    ensures var r := ReuseRun(ids, rands, s);
      DistinctIds(r) && IdSet(r) == IdSet(ids) && SizesInRange(r) &&
      TotalSize(r) <= TotalSize(ids)
  {
    if rands != [] {
      var m := |rands| - 1;
      assert RandomDraws(rands[..m]);
      ReuseRunInvariant(ids, rands[..m], s);
      var prev := ReuseRun(ids, rands[..m], s);
      var k := RandomIndex(rands[m], |prev|);
      ReuseAtEffect(prev, k, s);
      TradeShrinks(prev, k, prev[k].id, s);
    }
  }
}
