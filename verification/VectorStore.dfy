/** The vector store of src/cache/sqlite-vec-store.ts: three tables sharing row ids that together are one
    map from id to vector and metadata, nearest-neighbour search with post-filtering, and the overscan
    search of src/embedding/embed.ts on top. Vectors are opaque; distances are real numbers. */
module VectorStore {
  import opened Options
  import opened Positions

  datatype Metadata = Metadata(url: string, contentHash: string, modelId: string, extra: map<string, string>)

  datatype Record<Id, V> = Record(id: Id, vector: V, metadata: Metadata)

  datatype Entry<V> = Entry(vector: V, metadata: Metadata)

  /** vec_id_map, vec_documents and vec_metadata, and the next AUTOINCREMENT row id. */
  datatype Tables<Id, V> = Tables(idMap: map<nat, Id>, docs: map<nat, V>, meta: map<nat, Metadata>, nextRow: nat)

  // ---------------------------------------------------------------- three tables as one map

  /** The tables list the same rows, no external id twice, and row ids are never reused. */
  ghost predicate Valid<Id, V>(t: Tables<Id, V>) {
    && t.idMap.Keys == t.docs.Keys == t.meta.Keys
    && (forall r, q :: r in t.idMap && q in t.idMap && t.idMap[r] == t.idMap[q] ==> r == q)
    && (forall r :: r in t.idMap ==> r < t.nextRow)
  }

  ghost predicate HasId<Id, V>(t: Tables<Id, V>, id: Id) {
    exists r :: r in t.idMap && t.idMap[r] == id
  }

  /** The tables hold exactly the entries of m. */
  ghost predicate Denotes<Id, V>(t: Tables<Id, V>, m: map<Id, Entry<V>>)
    requires Valid(t)
  {
    && (forall r :: r in t.idMap ==> t.idMap[r] in m && m[t.idMap[r]] == Entry(t.docs[r], t.meta[r]))
    && (forall id :: id in m ==> HasId(t, id))
  }

  /** The tables denote one map and no other. */
  lemma {:induction false} DenotesOneMap<Id, V>(t: Tables<Id, V>, m: map<Id, Entry<V>>, n: map<Id, Entry<V>>)
    requires Valid(t) && Denotes(t, m) && Denotes(t, n)
    ensures m == n
  {
    forall id | id in m
      ensures id in n && n[id] == m[id]
    {
      assert HasId(t, id);
    }
    forall id | id in n
      ensures id in m
    {
      assert HasId(t, id);
    }
  }

  function PutAll<Id, V>(m: map<Id, Entry<V>>, records: seq<Record<Id, V>>): map<Id, Entry<V>> {
    if records == [] then m
    else
      var last := records[|records| - 1];
      PutAll(m, records[..|records| - 1])[last.id := Entry(last.vector, last.metadata)]
  }

  function RemoveAll<Id, V>(m: map<Id, Entry<V>>, ids: seq<Id>): map<Id, Entry<V>> {
    if ids == [] then m else RemoveAll(m, ids[..|ids| - 1]) - {ids[|ids| - 1]}
  }

  /** Some record carries this id. */
  predicate Mentions<Id(==), V>(records: seq<Record<Id, V>>, id: Id) {
    exists k :: 0 <= k < |records| && records[k].id == id
  }

  lemma {:induction false} PutAllInTwo<Id, V>(m: map<Id, Entry<V>>, first: seq<Record<Id, V>>, second: seq<Record<Id, V>>)
    ensures PutAll(m, first + second) == PutAll(PutAll(m, first), second)
  {
    if second == [] {
      assert first + second == first;
    } else {
      var n := |second| - 1;
      PutAllInTwo(m, first, second[..n]);
      assert (first + second)[..|first + second| - 1] == first + second[..n];
    }
  }

  /** A batch touches the ids it mentions and no other. */
  lemma {:induction false} PutAllTouches<Id, V>(m: map<Id, Entry<V>>, records: seq<Record<Id, V>>, id: Id)
    ensures id in PutAll(m, records) <==> id in m || Mentions(records, id)
    ensures id in m && !Mentions(records, id) ==> PutAll(m, records)[id] == m[id]
  {
    if records != [] {
      var n := |records| - 1;
      PutAllTouches(m, records[..n], id);
      assert records[n].id == id ==> Mentions(records, id);
      if Mentions(records[..n], id) {
        var k :| 0 <= k < n && records[..n][k].id == id;
        assert records[k].id == id;
      }
    }
  }

  /** After a batch an id maps to its last record in the batch. */
  lemma LastRecordWins<Id, V>(m: map<Id, Entry<V>>, before: seq<Record<Id, V>>, record: Record<Id, V>, after: seq<Record<Id, V>>)
    requires !Mentions(after, record.id)
    ensures var stored := PutAll(m, before + [record] + after);
      record.id in stored && stored[record.id] == Entry(record.vector, record.metadata)
  {
    PutAllInTwo(m, before + [record], after);
    assert (before + [record])[..|before|] == before;
    PutAllTouches(PutAll(m, before + [record]), after, record.id);
  }

  /** Deleting removes exactly the listed ids. */
  lemma {:induction false} RemovedExactly<Id, V>(m: map<Id, Entry<V>>, ids: seq<Id>, id: Id)
    ensures id in RemoveAll(m, ids) <==> id in m && id !in ids
    ensures id in RemoveAll(m, ids) ==> RemoveAll(m, ids)[id] == m[id]
  {
    if ids != [] {
      RemovedExactly(m, ids[..|ids| - 1], id);
      assert ids == ids[..|ids| - 1] + [ids[|ids| - 1]];
    }
  }

  /** The rows the two tables share hold the same ids, and u has every row of t. */
  lemma IdsStay<Id, V>(t: Tables<Id, V>, u: Tables<Id, V>, id: Id)
    requires HasId(t, id) && forall r :: r in t.idMap ==> r in u.idMap && u.idMap[r] == t.idMap[r]
    ensures HasId(u, id)
  {
    var r :| r in t.idMap && t.idMap[r] == id;
    assert r in u.idMap && u.idMap[r] == id;
  }

  lemma UpdateKeepsValid<Id, V>(t: Tables<Id, V>, r: nat, vector: V, metadata: Metadata)
    requires Valid(t) && r in t.idMap
    ensures Valid(t.(docs := t.docs[r := vector], meta := t.meta[r := metadata]))
  {
    assert t.docs[r := vector].Keys == t.docs.Keys && t.meta[r := metadata].Keys == t.meta.Keys;
  }

  /** Storing under an existing row. */
  lemma UpdateRow<Id, V>(t: Tables<Id, V>, m: map<Id, Entry<V>>, r: nat, vector: V, metadata: Metadata)
    requires Valid(t) && Denotes(t, m) && r in t.idMap
    ensures var u := t.(docs := t.docs[r := vector], meta := t.meta[r := metadata]);
      Valid(u) && Denotes(u, m[t.idMap[r] := Entry(vector, metadata)])
  {
    hide HasId;
    UpdateKeepsValid(t, r, vector, metadata);
    var u := t.(docs := t.docs[r := vector], meta := t.meta[r := metadata]);
    forall id | id in m
      ensures HasId(u, id)
    {
      IdsStay(t, u, id);
    }
  }

  lemma InsertKeepsValid<Id, V>(t: Tables<Id, V>, id: Id, vector: V, metadata: Metadata)
    requires Valid(t) && !HasId(t, id)
    ensures var r := t.nextRow;
      && Valid(Tables(t.idMap[r := id], t.docs[r := vector], t.meta[r := metadata], r + 1))
      && HasId(Tables(t.idMap[r := id], t.docs[r := vector], t.meta[r := metadata], r + 1), id)
  {
    var r := t.nextRow;
    var u := Tables(t.idMap[r := id], t.docs[r := vector], t.meta[r := metadata], r + 1);
    assert u.idMap.Keys == t.idMap.Keys + {r} && u.docs.Keys == t.docs.Keys + {r} && u.meta.Keys == t.meta.Keys + {r};
    assert u.idMap[r] == id;
  }

  /** Storing under a new row. */
  lemma InsertRow<Id, V>(t: Tables<Id, V>, m: map<Id, Entry<V>>, id: Id, vector: V, metadata: Metadata)
    requires Valid(t) && Denotes(t, m) && !HasId(t, id)
    ensures var r := t.nextRow;
      var u := Tables(t.idMap[r := id], t.docs[r := vector], t.meta[r := metadata], r + 1);
      r !in t.idMap && r !in t.docs && Valid(u) && Denotes(u, m[id := Entry(vector, metadata)])
  {
    InsertKeepsValid(t, id, vector, metadata);
    var r := t.nextRow;
    var u := Tables(t.idMap[r := id], t.docs[r := vector], t.meta[r := metadata], r + 1);
    assert forall q :: q in t.idMap ==> t.idMap[q] != id;
    hide HasId;
    forall x | x in m
      ensures HasId(u, x)
    {
      IdsStay(t, u, x);
    }
  }

  /** Removing a row, with the metadata row that goes with it. */
  lemma {:induction false} DeleteRow<Id, V>(t: Tables<Id, V>, m: map<Id, Entry<V>>, r: nat)
    requires Valid(t) && Denotes(t, m) && r in t.idMap
    ensures var u := Tables(t.idMap - {r}, t.docs - {r}, t.meta - {r}, t.nextRow);
      Valid(u) && Denotes(u, m - {t.idMap[r]})
  {
    var u := Tables(t.idMap - {r}, t.docs - {r}, t.meta - {r}, t.nextRow);
    assert u.idMap.Keys == t.idMap.Keys - {r} && u.docs.Keys == t.docs.Keys - {r} && u.meta.Keys == t.meta.Keys - {r};
    assert Valid(u);
    forall x | x in m - {t.idMap[r]}
      ensures HasId(u, x)
    {
      var q :| q in t.idMap && t.idMap[q] == x;
      assert q in u.idMap && u.idMap[q] == x;
    }
  }

  /** As many rows as ids. */
  lemma {:induction false} SizeIsCardinality<Id, V>(t: Tables<Id, V>, m: map<Id, Entry<V>>)
    requires Valid(t) && Denotes(t, m)
    ensures |t.idMap| == |m|
    decreases |t.idMap|
  {
    if t.idMap.Keys == {} {
      assert t.idMap == map[];
      assert m.Keys == {};
    } else {
      var r :| r in t.idMap;
      var u := Tables(t.idMap - {r}, t.docs - {r}, t.meta - {r}, t.nextRow);
      DeleteRow(t, m, r);
      RemoveOneKey(t.idMap, r);
      RemoveOneKey(m, t.idMap[r]);
      SizeIsCardinality(u, m - {t.idMap[r]});
    }
  }

  lemma RemoveOneKey<K, T>(m: map<K, T>, k: K)
    requires k in m
    ensures |m - {k}| == |m| - 1
  {
    assert (m - {k}).Keys == m.Keys - {k};
  }

  // ---------------------------------------------------------------- filtering

  datatype Filter = Filter(url: Option<string>, contentHash: Option<string>, modelId: Option<string>, extra: Option<map<string, string>>)

  /** Every field the filter sets must match; extra fields must all be present and equal. */
  predicate MatchesFilter(meta: Metadata, filter: Filter) {
    && (filter.url.Some? ==> meta.url == filter.url.value)
    && (filter.contentHash.Some? ==> meta.contentHash == filter.contentHash.value)
    && (filter.modelId.Some? ==> meta.modelId == filter.modelId.value)
    && (filter.extra.Some? ==> forall k :: k in filter.extra.value ==> k in meta.extra && meta.extra[k] == filter.extra.value[k])
  }

  predicate Passes(meta: Metadata, filter: Option<Filter>) {
    filter.None? || MatchesFilter(meta, filter.value)
  }

  /** A filter asks each of its fields separately, an unset field asks nothing, and the filter made of some metadata
      finds exactly the metadata with the same url, hash and model and at least the same extra fields. */
  lemma FiltersByField(meta: Metadata, filter: Filter, wanted: Metadata)
    ensures MatchesFilter(meta, filter) <==>
      && MatchesFilter(meta, Filter(filter.url, None, None, None)) && MatchesFilter(meta, Filter(None, filter.contentHash, None, None))
      && MatchesFilter(meta, Filter(None, None, filter.modelId, None)) && MatchesFilter(meta, Filter(None, None, None, filter.extra))
    ensures MatchesFilter(meta, Filter(None, None, None, None))
    ensures MatchesFilter(meta, Filter(Some(wanted.url), Some(wanted.contentHash), Some(wanted.modelId), Some(wanted.extra))) <==>
      meta.url == wanted.url && meta.contentHash == wanted.contentHash && meta.modelId == wanted.modelId && wanted.extra.Items <= meta.extra.Items
  {
    var own := Filter(Some(wanted.url), Some(wanted.contentHash), Some(wanted.modelId), Some(wanted.extra));
    if MatchesFilter(meta, own) {
      forall item | item in wanted.extra.Items
        ensures item in meta.extra.Items
      {
        assert item.0 in wanted.extra;
      }
    } else if wanted.extra.Items <= meta.extra.Items {
      forall k | k in wanted.extra
        ensures k in meta.extra && meta.extra[k] == wanted.extra[k]
      {
        assert (k, wanted.extra[k]) in wanted.extra.Items;
      }
    }
  }

  // ---------------------------------------------------------------- search

  datatype Hit<Id> = Hit(id: Id, score: real, metadata: Metadata)

  type Distance = x: real | x >= 0.0 witness 0.0

  function Score(distance: Distance): real {
    1.0 / (1.0 + distance)
  }

  lemma CloserScoresHigher(a: Distance, b: Distance)
    requires a <= b
    ensures 1.0 >= Score(a) >= Score(b) > 0.0
  {
    Reciprocal(a);
    Reciprocal(b);
    var x, y := Score(a), Score(b);
    if x < y {
      NotPositive(x - y, a);
      NotPositive(a - b, y);
    }
  }

  lemma Reciprocal(a: Distance)
    ensures Score(a) > 0.0 && Score(a) + Score(a) * a == 1.0 && Score(a) <= 1.0
  {
    var x := Score(a);
    assert x * (1.0 + a) == 1.0;
    if x <= 0.0 {
      NotPositive(x, 1.0 + a);
    }
    NotPositive(-x, a);
  }

  lemma NotPositive(p: real, q: real)
    requires p <= 0.0 && q >= 0.0
    ensures p * q <= 0.0
  {
  }

  /** An order the index may return rows in: every row once, nearest first. */
  ghost predicate IsRanking<Id, V>(t: Tables<Id, V>, distance: V -> Distance, ranking: seq<nat>) {
    && (forall r :: r in ranking <==> r in t.docs)
    && (forall i, j :: 0 <= i < j < |ranking| ==> ranking[i] != ranking[j])
    && (forall i, j ::
          0 <= i < j < |ranking| && ranking[i] in t.docs && ranking[j] in t.docs ==>
            distance(t.docs[ranking[i]]) <= distance(t.docs[ranking[j]]))
  }

  ghost predicate Rows<Id, V>(t: Tables<Id, V>, rows: seq<nat>) {
    forall k :: 0 <= k < |rows| ==> rows[k] in t.idMap && rows[k] in t.docs && rows[k] in t.meta
  }

  function HitAt<Id, V>(t: Tables<Id, V>, distance: V -> Distance, r: nat): Hit<Id>
    requires r in t.idMap && r in t.docs && r in t.meta
  {
    Hit(t.idMap[r], Score(distance(t.docs[r])), t.meta[r])
  }

  /** The hits of the rows that pass the filter, in order. */
  function HitsOf<Id, V>(t: Tables<Id, V>, distance: V -> Distance, rows: seq<nat>, filter: Option<Filter>): seq<Hit<Id>>
    requires Rows(t, rows)
  {
    if rows == [] then []
    else
      var last := rows[|rows| - 1];
      HitsOf(t, distance, rows[..|rows| - 1], filter)
      + if Passes(t.meta[last], filter) then [HitAt(t, distance, last)] else []
  }

  function Take<T>(s: seq<T>, n: int): seq<T> {
    if n <= 0 then [] else if n >= |s| then s else s[..n]
  }

  /** How many neighbours are asked for. */
  function KnnLimit(limit: int, filter: Option<Filter>): int {
    if filter.Some? then (if limit * 5 >= 50 then limit * 5 else 50) else limit
  }

  /** What a search answers when the index orders the rows by `ranking`. */
  ghost function Answer<Id, V>(t: Tables<Id, V>, distance: V -> Distance, ranking: seq<nat>, limit: int, filter: Option<Filter>): seq<Hit<Id>>
    requires Valid(t) && IsRanking(t, distance, ranking)
  {
    RankedRows(t, distance, ranking);
    Take(HitsOf(t, distance, Take(ranking, KnnLimit(limit, filter)), filter), limit)
  }

  /** The whole collection in ranking order, filtered. */
  ghost function FullRanking<Id, V>(t: Tables<Id, V>, distance: V -> Distance, ranking: seq<nat>, filter: Option<Filter>): seq<Hit<Id>>
    requires Valid(t) && IsRanking(t, distance, ranking)
  {
    RankedRows(t, distance, ranking);
    HitsOf(t, distance, ranking, filter)
  }

  lemma RankedRows<Id, V>(t: Tables<Id, V>, distance: V -> Distance, ranking: seq<nat>)
    requires Valid(t) && IsRanking(t, distance, ranking)
    ensures Rows(t, ranking)
  {
    forall k | 0 <= k < |ranking|
      ensures ranking[k] in t.docs
    {
      assert ranking[k] in ranking;
    }
  }

  /** Hits of a longer list start with the hits of a shorter one. */
  lemma {:induction false} HitsPrefix<Id, V>(t: Tables<Id, V>, distance: V -> Distance, rows: seq<nat>, filter: Option<Filter>, n: nat)
    requires Rows(t, rows) && n <= |rows|
    ensures HitsOf(t, distance, rows[..n], filter) <= HitsOf(t, distance, rows, filter)
    decreases |rows|
  {
    if n < |rows| {
      var front := rows[..|rows| - 1];
      HitsPrefix(t, distance, front, filter, n);
      assert front[..n] == rows[..n];
    } else {
      assert rows[..n] == rows;
    }
  }

  lemma {:induction false} UnfilteredHits<Id, V>(t: Tables<Id, V>, distance: V -> Distance, rows: seq<nat>)
    requires Rows(t, rows)
    ensures |HitsOf(t, distance, rows, None)| == |rows|
    ensures forall k :: 0 <= k < |rows| ==> HitsOf(t, distance, rows, None)[k] == HitAt(t, distance, rows[k])
  {
    if rows != [] {
      UnfilteredHits(t, distance, rows[..|rows| - 1]);
    }
  }

  /** Every filtered hit comes from some row, and later hits from later rows. */
  lemma {:induction false} HitSource<Id, V>(t: Tables<Id, V>, distance: V -> Distance, rows: seq<nat>, filter: Option<Filter>, h: nat) returns (k: nat)
    requires Rows(t, rows) && h < |HitsOf(t, distance, rows, filter)|
    ensures k < |rows| && HitsOf(t, distance, rows, filter)[h] == HitAt(t, distance, rows[k]) && Passes(t.meta[rows[k]], filter)
    ensures h == |HitsOf(t, distance, rows[..k], filter)|
  {
    var n := |rows| - 1;
    var front := rows[..n];
    if h < |HitsOf(t, distance, front, filter)| {
      k := HitSource(t, distance, front, filter, h);
      assert front[..k] == rows[..k];
    } else {
      k := n;
    }
  }

  /** The rows at the listed positions, in order, are those that pass. */
  ghost predicate PassingAt<Id, V>(t: Tables<Id, V>, rows: seq<nat>, filter: Option<Filter>, at: seq<nat>)
    requires Rows(t, rows)
  {
    && Increasing(at, |rows|)
    && (forall k :: 0 <= k < |rows| ==> (Passes(t.meta[rows[k]], filter) <==> k in at))
  }

  /** The hits are those of the rows at the listed positions, in order. */
  ghost predicate HitsAt<Id, V>(t: Tables<Id, V>, distance: V -> Distance, rows: seq<nat>, hits: seq<Hit<Id>>, at: seq<nat>)
    requires Rows(t, rows)
  {
    && |hits| == |at|
    && (forall i :: 0 <= i < |at| ==> at[i] < |rows| && hits[i] == HitAt(t, distance, rows[at[i]]))
  }

  lemma PassingGrows<Id, V>(t: Tables<Id, V>, rows: seq<nat>, filter: Option<Filter>, at: seq<nat>, n: nat)
    requires Rows(t, rows) && n + 1 == |rows| && PassingAt(t, rows[..n], filter, at)
    ensures PassingAt(t, rows, filter, Extended(at, n, Passes(t.meta[rows[n]], filter)))
  {
    hide Passes;
    ExtendedIncreases(at, n, Passes(t.meta[rows[n]], filter));
    hide Increasing;
    assert forall k :: 0 <= k < n ==> rows[..n][k] == rows[k];
  }

  lemma HitsGrow<Id, V>(t: Tables<Id, V>, distance: V -> Distance, rows: seq<nat>, hits: seq<Hit<Id>>, at: seq<nat>, n: nat, picked: bool)
    requires Rows(t, rows) && n + 1 == |rows| && HitsAt(t, distance, rows[..n], hits, at)
    ensures HitsAt(t, distance, rows, hits + if picked then [HitAt(t, distance, rows[n])] else [], Extended(at, n, picked))
  {
    hide HitAt;
  }

  /** The hits are those of the passing rows and no other, in the order of the rows. */
  lemma {:induction false} HitsOfPassing<Id, V>(t: Tables<Id, V>, distance: V -> Distance, rows: seq<nat>, filter: Option<Filter>) returns (at: seq<nat>)
    requires Rows(t, rows)
    ensures PassingAt(t, rows, filter, at) && HitsAt(t, distance, rows, HitsOf(t, distance, rows, filter), at)
  {
    if rows == [] {
      at := [];
    } else {
      hide Passes, PassingAt, HitsAt;
      var n := |rows| - 1;
      var front := HitsOfPassing(t, distance, rows[..n], filter);
      at := Extended(front, n, Passes(t.meta[rows[n]], filter));
      PassingGrows(t, rows, filter, front, n);
      HitsGrow(t, distance, rows, HitsOf(t, distance, rows[..n], filter), front, n, Passes(t.meta[rows[n]], filter));
    }
  }

  /** Scores never rise along a filtered or unfiltered ranking, and no id appears twice. */
  lemma HitsDescend<Id, V>(t: Tables<Id, V>, distance: V -> Distance, ranking: seq<nat>, filter: Option<Filter>, g: nat, h: nat)
    requires Valid(t) && IsRanking(t, distance, ranking)
    requires g < h < |FullRanking(t, distance, ranking, filter)|
    ensures FullRanking(t, distance, ranking, filter)[g].score >= FullRanking(t, distance, ranking, filter)[h].score
    ensures FullRanking(t, distance, ranking, filter)[g].id != FullRanking(t, distance, ranking, filter)[h].id
  {
    hide Valid;
    RankedRows(t, distance, ranking);
    var i := HitSource(t, distance, ranking, filter, g);
    var j := HitSource(t, distance, ranking, filter, h);
    if j <= i {
      assert ranking[..i][..j] == ranking[..j];
      HitsPrefix(t, distance, ranking[..i], filter, j);
    }
    CloserScoresHigher(distance(t.docs[ranking[i]]), distance(t.docs[ranking[j]]));
    DifferentRows(t, ranking[i], ranking[j]);
  }

  lemma DifferentRows<Id, V>(t: Tables<Id, V>, r: nat, q: nat)
    requires Valid(t) && r in t.idMap && q in t.idMap && r != q
    ensures t.idMap[r] != t.idMap[q]
  {
  }

  lemma {:induction false} DistinctCount(rows: seq<nat>, rowSet: set<nat>)
    requires forall r :: r in rows <==> r in rowSet
    requires forall i, j :: 0 <= i < j < |rows| ==> rows[i] != rows[j]
    ensures |rows| == |rowSet|
  {
    if rows == [] {
      assert rowSet == {};
    } else {
      var n := |rows| - 1;
      var front := rows[..n];
      assert rows == front + [rows[n]];
      forall r
        ensures r in front <==> r in rowSet - {rows[n]}
      {
        if r in front {
          var k :| 0 <= k < n && front[k] == r;
          assert rows[k] == r;
        }
      }
      DistinctCount(front, rowSet - {rows[n]});
    }
  }

  /** Unfiltered search: the nearest min(limit, size) entries. Everything it leaves out is no nearer than
      everything it returns. */
  lemma UnfilteredSearch<Id, V>(t: Tables<Id, V>, m: map<Id, Entry<V>>, distance: V -> Distance, ranking: seq<nat>, limit: nat)
    requires Valid(t) && Denotes(t, m) && IsRanking(t, distance, ranking)
    ensures var answer := Answer(t, distance, ranking, limit, None);
      && |answer| == (if limit <= |m| then limit else |m|)
      && answer <= FullRanking(t, distance, ranking, None)
      && (forall id, k ::
            id in m && 0 <= k < |answer| && (forall h :: 0 <= h < |answer| ==> answer[h].id != id) ==>
              answer[k].score >= Score(distance(m[id].vector)))
  {
    hide Valid, Denotes, IsRanking;
    RankedRows(t, distance, ranking);
    RankingSize(t, m, distance, ranking);
    var knn := Take(ranking, limit);
    var answer := Answer(t, distance, ranking, limit, None);
    UnfilteredHits(t, distance, knn);
    HitsPrefix(t, distance, ranking, None, |knn|);
    assert ranking[..|knn|] == knn;
    forall id, k | id in m && 0 <= k < |answer| && (forall h :: 0 <= h < |answer| ==> answer[h].id != id)
      ensures answer[k].score >= Score(distance(m[id].vector))
    {
      var j := RankOf(t, m, distance, ranking, id);
      UnfilteredHits(t, distance, ranking);
      var full := FullRanking(t, distance, ranking, None);
      assert full[j].id == id;
      assert j >= |answer|;
      HitsDescend(t, distance, ranking, None, k, j);
    }
  }

  lemma RankingSize<Id, V>(t: Tables<Id, V>, m: map<Id, Entry<V>>, distance: V -> Distance, ranking: seq<nat>)
    requires Valid(t) && Denotes(t, m) && IsRanking(t, distance, ranking)
    ensures |ranking| == |m|
  {
    SizeIsCardinality(t, m);
    DistinctCount(ranking, t.docs.Keys);
  }

  /** Every stored id has a place in the ranking, with its own vector and metadata. */
  lemma RankOf<Id, V>(t: Tables<Id, V>, m: map<Id, Entry<V>>, distance: V -> Distance, ranking: seq<nat>, id: Id) returns (k: nat)
    requires Valid(t) && Denotes(t, m) && IsRanking(t, distance, ranking) && id in m
    ensures Rows(t, ranking) && k < |ranking|
    ensures HitAt(t, distance, ranking[k]) == Hit(id, Score(distance(m[id].vector)), m[id].metadata)
  {
    RankedRows(t, distance, ranking);
    assert HasId(t, id);
    var r :| r in t.idMap && t.idMap[r] == id;
    assert r in ranking;
    k :| 0 <= k < |ranking| && ranking[k] == r;
  }

  /** Every hit returned is a stored entry that passes the filter, with its own score. */
  lemma HitsAreStored<Id, V>(t: Tables<Id, V>, m: map<Id, Entry<V>>, distance: V -> Distance, ranking: seq<nat>, limit: int, filter: Option<Filter>, h: nat)
    requires Valid(t) && Denotes(t, m) && IsRanking(t, distance, ranking)
    requires h < |Answer(t, distance, ranking, limit, filter)|
    ensures var hit := Answer(t, distance, ranking, limit, filter)[h];
      && hit.id in m && Passes(m[hit.id].metadata, filter)
      && hit == Hit(hit.id, Score(distance(m[hit.id].vector)), m[hit.id].metadata)
  {
    RankedRows(t, distance, ranking);
    hide IsRanking, Valid, Passes, HitsOf;
    var rows := Take(ranking, KnnLimit(limit, filter));
    var k := HitSource(t, distance, rows, filter, h);
    assert t.idMap[rows[k]] in m;
  }

  /** Filtered search: a prefix of the filtered full ranking, at most `limit` long. */
  lemma FilteredSearchIsPrefix<Id, V>(t: Tables<Id, V>, distance: V -> Distance, ranking: seq<nat>, limit: int, filter: Option<Filter>)
    requires Valid(t) && IsRanking(t, distance, ranking)
    ensures Answer(t, distance, ranking, limit, filter) <= FullRanking(t, distance, ranking, filter)
    ensures |Answer(t, distance, ranking, limit, filter)| <= if limit < 0 then 0 else limit
  {
    hide Valid, IsRanking, HitsOf;
    RankedRows(t, distance, ranking);
    var knn := Take(ranking, KnnLimit(limit, filter));
    HitsPrefix(t, distance, ranking, filter, |knn|);
    assert ranking[..|knn|] == knn;
  }

  // ---------------------------------------------------------------- when over-fetching is enough

  /** For every store of `size` rows, every ranking and every filter, the search misses nothing. */
  ghost predicate NeverMisses(size: nat, limit: nat) {
    forall t: Tables<nat, nat>, distance: nat -> Distance, ranking: seq<nat>, filter: Filter
      | Valid(t) && |t.idMap| == size && IsRanking(t, distance, ranking)
      :: Answer(t, distance, ranking, limit, Some(filter)) == Take(FullRanking(t, distance, ranking, Some(filter)), limit)
  }

  lemma SmallStoreMissesNothing<Id, V>(t: Tables<Id, V>, distance: V -> Distance, ranking: seq<nat>, limit: nat, filter: Option<Filter>)
    requires Valid(t) && IsRanking(t, distance, ranking)
    requires |t.idMap| <= KnnLimit(limit, filter)
    ensures Answer(t, distance, ranking, limit, filter) == Take(FullRanking(t, distance, ranking, filter), limit)
  {
    assert |t.docs.Keys| == |t.idMap.Keys|;
    DistinctCount(ranking, t.docs.Keys);
  }

  const EMPTY_META := Metadata("", "", "", map[])

  const WANTED_META := Metadata("wanted", "", "", map[])

  function UpTo(n: nat): (s: seq<nat>)
    ensures |s| == n && forall k :: 0 <= k < n ==> s[k] == k
  {
    if n == 0 then [] else UpTo(n - 1) + [n - 1]
  }

  /** n rows, all equally far, of which only the last one passes. */
  function LastWanted(n: nat): Tables<nat, nat> {
    Tables(
      map r | r in UpTo(n) :: r,
      map r | r in UpTo(n) :: 0,
      map r | r in UpTo(n) :: if r == n - 1 then WANTED_META else EMPTY_META,
      n)
  }

  const WANTED := Some(Filter(Some("wanted"), None, None, None))

  const ORIGIN: nat -> Distance := v => 0.0

  lemma InUpTo(n: nat, r: nat)
    ensures r in UpTo(n) <==> r < n
  {
    if r < n {
      assert UpTo(n)[r] == r;
    }
  }

  lemma LastWantedIsValid(n: nat)
    ensures Valid(LastWanted(n)) && IsRanking(LastWanted(n), ORIGIN, UpTo(n)) && |LastWanted(n).idMap| == n
  {
    hide UpTo;
    var t := LastWanted(n);
    assert t.idMap.Keys == t.docs.Keys == t.meta.Keys;
    forall r | r in t.idMap
      ensures r < n
    {
      InUpTo(n, r);
    }
    assert Valid(t);
    DistinctCount(UpTo(n), t.docs.Keys);
    assert |t.idMap.Keys| == |t.docs.Keys|;
  }

  lemma WantedAt(n: nat, r: nat)
    requires r < n
    ensures var t := LastWanted(n);
      r in t.idMap && r in t.docs && r in t.meta && (Passes(t.meta[r], WANTED) <==> r == n - 1)
  {
    InUpTo(n, r);
  }

  lemma {:induction false} NoneWantedBefore(n: nat, k: nat)
    requires k < n && Rows(LastWanted(n), UpTo(k))
    ensures HitsOf(LastWanted(n), ORIGIN, UpTo(k), WANTED) == []
  {
    if k > 0 {
      InUpTo(k, k - 1);
      var rows := UpTo(k);
      assert rows[..k - 1] == UpTo(k - 1);
      WantedAt(n, k - 1);
      assert rows[k - 1] == k - 1;
      hide UpTo, LastWanted, Passes;
      NoneWantedBefore(n, k - 1);
    }
  }

  /** Filtered search is certain to be complete exactly when the store holds at most
      max(5 * limit, 50) rows. */
  lemma OverfetchIsEnoughExactly(size: nat, limit: nat)
    requires limit > 0
    ensures NeverMisses(size, limit) <==> size <= (if limit * 5 >= 50 then limit * 5 else 50)
  {
    var knn := if limit * 5 >= 50 then limit * 5 else 50;
    if size <= knn {
      forall t: Tables<nat, nat>, distance: nat -> Distance, ranking: seq<nat>, filter: Filter
        | Valid(t) && |t.idMap| == size && IsRanking(t, distance, ranking)
        ensures Answer(t, distance, ranking, limit, Some(filter)) == Take(FullRanking(t, distance, ranking, Some(filter)), limit)
      {
        SmallStoreMissesNothing(t, distance, ranking, limit, Some(filter));
      }
    } else {
      LargeStoreMayMiss(size, limit, knn);
    }
  }

  /** The rows searched hold no wanted hit, the whole ranking holds one. */
  lemma WantedIsLast(size: nat, knn: nat)
    requires 0 < knn < size && Rows(LastWanted(size), UpTo(size))
    ensures Rows(LastWanted(size), Take(UpTo(size), knn))
    ensures HitsOf(LastWanted(size), ORIGIN, Take(UpTo(size), knn), WANTED) == []
    ensures HitsOf(LastWanted(size), ORIGIN, UpTo(size), WANTED) != []
  {
    var rows := UpTo(size);
    assert Take(rows, knn) == UpTo(knn);
    assert Rows(LastWanted(size), UpTo(knn)) by {
      hide LastWanted;
    }
    NoneWantedBefore(size, knn);
    WantedAt(size, size - 1);
    assert rows[|rows| - 1] == size - 1;
    hide UpTo, LastWanted, Passes;
    assert Passes(LastWanted(size).meta[rows[|rows| - 1]], WANTED);
  }

  lemma LargeStoreMayMiss(size: nat, limit: nat, knn: nat)
    requires limit > 0 && knn == KnnLimit(limit, WANTED) && size > knn
    ensures !NeverMisses(size, limit)
  {
    hide Valid, IsRanking, LastWanted, HitsOf, UpTo, Passes;
    var t, ranking := LastWanted(size), UpTo(size);
    LastWantedIsValid(size);
    RankedRows(t, ORIGIN, ranking);
    WantedIsLast(size, knn);
    assert Answer(t, ORIGIN, ranking, limit, WANTED) == [];
    assert Take(FullRanking(t, ORIGIN, ranking, WANTED), limit) != [];
  }

  // ---------------------------------------------------------------- the store

  class SqliteVecStore<Id(==), V> {
    var idMap: map<nat, Id>
    var docs: map<nat, V>
    var meta: map<nat, Metadata>
    var nextRow: nat

    /** What the three tables denote. */
    ghost var Contents: map<Id, Entry<V>>

    ghost function State(): Tables<Id, V>
      reads this
    {
      Tables(idMap, docs, meta, nextRow)
    }

    ghost predicate Sound()
      reads this
    {
      Valid(State()) && Denotes(State(), Contents)
    }

    constructor ()
      ensures Sound() && Contents == map[]
    {
      idMap, docs, meta, nextRow := map[], map[], map[], 1;
      Contents := map[];
    }

    /** SELECT rowid FROM vec_id_map WHERE external_id = ? */
    method SelectRow(id: Id) returns (row: Option<nat>)
      ensures row.None? <==> !HasId(State(), id)
      ensures row.Some? ==> row.value in idMap && idMap[row.value] == id
    {
      if r :| r in idMap && idMap[r] == id {
        row := Some(r);
      } else {
        row := None;
      }
    }

    /** INSERT INTO vec_documents: the virtual table refuses a row id it already has. */
    method InsertDoc(row: nat, vector: V)
      requires row !in docs
      modifies this`docs
      ensures docs == old(docs)[row := vector]
    {
      docs := docs[row := vector];
    }

    method UpsertOne(record: Record<Id, V>)
      requires Sound()
      modifies this
      ensures Sound()
      ensures Contents == old(Contents)[record.id := Entry(record.vector, record.metadata)]
    {
      hide Valid, Denotes;
      ghost var before := State();
      var existing := SelectRow(record.id);
      var row;
      if existing.Some? {
        row := existing.value;
        UpdateRow(before, Contents, row, record.vector, record.metadata);
        docs := docs - {row};
      } else {
        InsertRow(before, Contents, record.id, record.vector, record.metadata);
        row := nextRow;
        idMap := idMap[row := record.id];
        nextRow := nextRow + 1;
      }
      InsertDoc(row, record.vector);
      meta := meta[row := record.metadata];
      assert docs == before.docs[row := record.vector];
      Contents := Contents[record.id := Entry(record.vector, record.metadata)];
    }

    /** The last record of a batch wins for its id; the tables stay one map. */
    method Upsert(records: seq<Record<Id, V>>)
      requires Sound()
      modifies this
      ensures Sound() && Contents == PutAll(old(Contents), records)
    {
      hide Valid, Denotes;
      if |records| == 0 {
        return;
      }
      for k := 0 to |records|
        invariant Sound() && Contents == PutAll(old(Contents), records[..k])
      {
        assert records[..k + 1][..k] == records[..k];
        UpsertOne(records[k]);
      }
      assert records[..|records|] == records;
    }

    method DeleteOne(id: Id)
      requires Sound()
      modifies this
      ensures Sound() && Contents == old(Contents) - {id}
    {
      hide Valid, Denotes;
      ghost var before := State();
      var existing := SelectRow(id);
      if existing.None? {
        UnknownId(before, Contents, id);
        return;
      }
      DeleteRow(before, Contents, existing.value);
      docs := docs - {existing.value};
      idMap := idMap - {existing.value};
      meta := meta - {existing.value};
      Contents := Contents - {id};
    }

    method Delete(ids: seq<Id>)
      requires Sound()
      modifies this
      ensures Sound() && Contents == RemoveAll(old(Contents), ids)
    {
      hide Valid, Denotes;
      if |ids| == 0 {
        return;
      }
      for k := 0 to |ids|
        invariant Sound() && Contents == RemoveAll(old(Contents), ids[..k])
      {
        assert ids[..k + 1][..k] == ids[..k];
        DeleteOne(ids[k]);
      }
      assert ids[..|ids|] == ids;
    }

    method Size() returns (count: nat)
      requires Sound()
      ensures count == |Contents|
    {
      SizeIsCardinality(State(), Contents);
      count := |idMap|;
    }

    /** Nearest first; `ranking` is the order the index would return all rows in. */
    method Search(distance: V -> Distance, limit: int, filter: Option<Filter>, ranking: seq<nat>) returns (results: seq<Hit<Id>>)
      requires Sound() && IsRanking(State(), distance, ranking)
      ensures results == Answer(State(), distance, ranking, limit, filter)
    {
      NoHits(State(), distance, filter);
      hide Valid, Denotes, IsRanking, Passes, HitsOf;
      RankedRows(State(), distance, ranking);
      if limit <= 0 {
        return [];
      }
      var knnLimit := KnnLimit(limit, filter);
      var candidates := Take(ranking, knnLimit);
      if |candidates| == 0 {
        return [];
      }
      results := [];
      for k := 0 to |candidates|
        invariant Rows(State(), candidates)
        invariant results == HitsOf(State(), distance, candidates[..k], filter)
        invariant |results| < limit
      {
        var row := candidates[k];
        HitsNext(State(), distance, candidates, filter, k);
        var metadata := meta[row];
        if !Passes(metadata, filter) {
          continue;
        }
        results := results + [Hit(idMap[row], Score(distance(docs[row])), metadata)];
        if |results| >= limit {
          HitsPrefix(State(), distance, candidates, filter, k + 1);
          return;
        }
      }
      assert candidates[..|candidates|] == candidates;
    }

    /** findSimilar over this store once the query vector is known. */
    method FindSimilar(distance: V -> Distance, topK: int, exclude: set<Id>, ranking: seq<nat>) returns (results: seq<Similar<Id>>)
      requires Sound() && IsRanking(State(), distance, ranking)
      ensures forall i :: 0 <= i < |results| ==> results[i].url !in exclude
      ensures topK >= 1 ==> FirstOutside(results, FullRanking(State(), distance, ranking, None), exclude, topK)
      ensures topK >= 1 ==>
        |results| == if topK <= |Contents.Keys - exclude| then topK else |Contents.Keys - exclude|
      ensures topK < 1 ==>
        FirstOutside(results, Take(FullRanking(State(), distance, ranking, None), Overscan(topK, |exclude|)), exclude, 1)
      ensures topK >= 1 ==> results == Take(Kept(FullRanking(State(), distance, ranking, None), exclude), topK)
      ensures topK < 1 ==>
        results == Take(Kept(Take(FullRanking(State(), distance, ranking, None), Overscan(topK, |exclude|)), exclude), 1)
    {
      NothingKept(exclude);
      hide Valid, Denotes, IsRanking, HitsOf, FirstOutside, Kept, Overscan;
      var overscan := Overscan(topK, |exclude|);
      var hits := Search(distance, overscan, None, ranking);
      ghost var all := FullRanking(State(), distance, ranking, None);
      UnfilteredAnswer(State(), distance, ranking, overscan);
      results := [];
      for k := 0 to |hits|
        invariant results == Kept(hits[..k], exclude)
        invariant |results| < topK || results == []
      {
        KeptNext(hits, exclude, k);
        if hits[k].id in exclude {
          continue;
        }
        results := results + [Similar(hits[k].id, hits[k].score)];
        if |results| >= topK {
          FoundEarly(hits, exclude, k + 1, topK);
          break;
        }
      }
      assert hits[..|hits|] == hits;
      assert results == Found(hits, topK, exclude);
      FoundIsFirst(State(), Contents, distance, ranking, topK, exclude);
    }
  }

  lemma NoHits<Id, V>(t: Tables<Id, V>, distance: V -> Distance, filter: Option<Filter>)
    ensures HitsOf(t, distance, [], filter) == []
  {
  }

  lemma HitsNext<Id, V>(t: Tables<Id, V>, distance: V -> Distance, rows: seq<nat>, filter: Option<Filter>, k: nat)
    requires Rows(t, rows) && k < |rows|
    ensures HitsOf(t, distance, rows[..k + 1], filter) ==
      if Passes(t.meta[rows[k]], filter) then HitsOf(t, distance, rows[..k], filter) + [HitAt(t, distance, rows[k])]
      else HitsOf(t, distance, rows[..k], filter)
  {
    assert rows[..k + 1][..k] == rows[..k];
  }

  /** A row id is known for every stored id. */
  lemma UnknownId<Id, V>(t: Tables<Id, V>, m: map<Id, Entry<V>>, id: Id)
    requires Valid(t) && Denotes(t, m) && !HasId(t, id)
    ensures m - {id} == m
  {
  }

  // ---------------------------------------------------------------- overscan

  datatype Similar<Id> = Similar(url: Id, score: real)

  function Overscan(topK: int, excluded: nat): int {
    if excluded > 0 then (if topK + excluded >= topK * 2 then topK + excluded else topK * 2) else topK
  }

  /** The hits whose ids are not excluded. */
  function Kept<Id(==)>(hits: seq<Hit<Id>>, exclude: set<Id>): seq<Similar<Id>> {
    if hits == [] then []
    else
      var last := hits[|hits| - 1];
      Kept(hits[..|hits| - 1], exclude) + if last.id in exclude then [] else [Similar(last.id, last.score)]
  }

  lemma NothingKept<Id>(exclude: set<Id>)
    ensures Kept([], exclude) == []
  {
  }

  lemma KeptNext<Id>(hits: seq<Hit<Id>>, exclude: set<Id>, k: nat)
    requires k < |hits|
    ensures Kept(hits[..k + 1], exclude) ==
      if hits[k].id in exclude then Kept(hits[..k], exclude) else Kept(hits[..k], exclude) + [Similar(hits[k].id, hits[k].score)]
  {
    assert hits[..k + 1][..k] == hits[..k];
  }

  /** The loop stops after the first kept hit even when topK is below one. */
  function Found<Id(==)>(hits: seq<Hit<Id>>, topK: int, exclude: set<Id>): seq<Similar<Id>> {
    Take(Kept(hits, exclude), if topK < 1 then 1 else topK)
  }

  /** The positions of the hits that are not excluded. */
  ghost function Outside<Id>(hits: seq<Hit<Id>>, exclude: set<Id>): set<nat> {
    set k | 0 <= k < |hits| && hits[k].id !in exclude
  }

  /** The results name the hits at the listed positions with their scores. */
  ghost predicate ReadAt<Id>(results: seq<Similar<Id>>, hits: seq<Hit<Id>>, at: seq<nat>) {
    && |results| == |at|
    && (forall i :: 0 <= i < |at| ==> at[i] < |hits| && results[i] == Similar(hits[at[i]].id, hits[at[i]].score))
  }

  /** The first `limit` hits that are not excluded, in order, or all of them when there are fewer. */
  ghost predicate FirstOutside<Id>(results: seq<Similar<Id>>, hits: seq<Hit<Id>>, exclude: set<Id>, limit: nat) {
    exists at :: FirstOf(at, Outside(hits, exclude), limit, |hits|) && ReadAt(results, hits, at)
  }

  /** There is only one such list. */
  lemma FirstOutsideIsUnique<Id>(r: seq<Similar<Id>>, s: seq<Similar<Id>>, hits: seq<Hit<Id>>, exclude: set<Id>, limit: nat)
    requires FirstOutside(r, hits, exclude, limit) && FirstOutside(s, hits, exclude, limit)
    ensures r == s
  {
    hide FirstOf;
    var a :| FirstOf(a, Outside(hits, exclude), limit, |hits|) && ReadAt(r, hits, a);
    var b :| FirstOf(b, Outside(hits, exclude), limit, |hits|) && ReadAt(s, hits, b);
    FirstOfIsUnique(a, b, Outside(hits, exclude), limit, |hits|);
  }

  /** And it names no excluded id. */
  lemma NoneExcluded<Id>(results: seq<Similar<Id>>, hits: seq<Hit<Id>>, exclude: set<Id>, limit: nat)
    requires FirstOutside(results, hits, exclude, limit)
    ensures |results| <= limit && forall i :: 0 <= i < |results| ==> results[i].url !in exclude
  {
  }

  lemma {:induction false} KeptPositions<Id>(hits: seq<Hit<Id>>, exclude: set<Id>) returns (at: seq<nat>)
    ensures Increasing(at, |hits|) && ReadAt(Kept(hits, exclude), hits, at)
    ensures forall k :: k in Outside(hits, exclude) <==> k in at
  {
    if hits == [] {
      at := [];
    } else {
      hide Increasing, ReadAt, Outside;
      var n := |hits| - 1;
      var picked := hits[n].id !in exclude;
      var front := KeptPositions(hits[..n], exclude);
      at := Extended(front, n, picked);
      ExtendedIncreases(front, n, picked);
      OutsideGrows(hits, exclude, n);
      ReadMore(Kept(hits[..n], exclude), hits, front, n, picked);
    }
  }

  lemma OutsideGrows<Id>(hits: seq<Hit<Id>>, exclude: set<Id>, n: nat)
    requires n + 1 == |hits|
    ensures forall k :: k in Outside(hits, exclude) <==> k in Outside(hits[..n], exclude) || (hits[n].id !in exclude && k == n)
  {
  }

  lemma ReadMore<Id>(results: seq<Similar<Id>>, hits: seq<Hit<Id>>, at: seq<nat>, n: nat, picked: bool)
    requires n + 1 == |hits| && ReadAt(results, hits[..n], at)
    ensures ReadAt(results + if picked then [Similar(hits[n].id, hits[n].score)] else [], hits, Extended(at, n, picked))
  {
  }

  /** What is kept of a list, cut to the limit, is its first hits outside the excluded ones. */
  lemma FirstKept<Id>(hits: seq<Hit<Id>>, exclude: set<Id>, limit: nat)
    ensures FirstOutside(Take(Kept(hits, exclude), limit), hits, exclude, limit)
  {
    hide Kept, Outside, FirstOf;
    var all := KeptPositions(hits, exclude);
    FirstOfAll(all, Outside(hits, exclude), limit, |hits|);
    assert ReadAt(Take(Kept(hits, exclude), limit), hits, all[..if limit < |all| then limit else |all|]);
  }

  ghost function Ids<Id>(hits: seq<Hit<Id>>): set<Id> {
    set k | 0 <= k < |hits| :: hits[k].id
  }

  /** With distinct ids, as many hits are kept as there are ids outside the excluded ones. */
  lemma {:induction false} KeptCount<Id>(hits: seq<Hit<Id>>, ids: set<Id>, exclude: set<Id>)
    requires DistinctIds(hits) && Ids(hits) == ids
    ensures |Kept(hits, exclude)| == |ids - exclude|
  {
    if hits == [] {
      assert ids - exclude == {};
    } else {
      var n := |hits| - 1;
      var front, last := hits[..n], hits[n].id;
      forall id
        ensures id in Ids(front) <==> id in ids - {last}
      {
        if id in ids - {last} {
          var k :| 0 <= k < |hits| && hits[k].id == id;
          assert front[k].id == id;
        }
      }
      KeptCount(front, ids - {last}, exclude);
      assert last in ids;
      if last in exclude {
        assert ids - exclude == ids - {last} - exclude;
      } else {
        assert ids - exclude == (ids - {last} - exclude) + {last};
      }
    }
  }

  /** The full ranking lists exactly the stored ids. */
  lemma RankedIds<Id, V>(t: Tables<Id, V>, m: map<Id, Entry<V>>, distance: V -> Distance, ranking: seq<nat>)
    requires Valid(t) && Denotes(t, m) && IsRanking(t, distance, ranking)
    ensures Ids(FullRanking(t, distance, ranking, None)) == m.Keys
  {
    RankedRows(t, distance, ranking);
    UnfilteredHits(t, distance, ranking);
    hide HitsOf, IsRanking, Valid;
    var all := FullRanking(t, distance, ranking, None);
    forall id | id in m
      ensures id in Ids(all)
    {
      var k := RankOf(t, m, distance, ranking, id);
      assert all[k].id == id;
    }
  }

  /** What is found in the overscan is what the full ranking has. */
  lemma FoundIsFirst<Id, V>(t: Tables<Id, V>, m: map<Id, Entry<V>>, distance: V -> Distance, ranking: seq<nat>, topK: int, exclude: set<Id>)
    requires Valid(t) && Denotes(t, m) && IsRanking(t, distance, ranking)
    ensures var all := FullRanking(t, distance, ranking, None);
      var found := Found(Take(all, Overscan(topK, |exclude|)), topK, exclude);
      && (topK >= 1 ==> found == Take(Kept(all, exclude), topK) && FirstOutside(found, all, exclude, topK))
      && (topK >= 1 ==> |found| == if topK <= |m.Keys - exclude| then topK else |m.Keys - exclude|)
      && (topK < 1 ==> FirstOutside(found, Take(all, Overscan(topK, |exclude|)), exclude, 1))
      && (forall i :: 0 <= i < |found| ==> found[i].url !in exclude)
  {
    var all := FullRanking(t, distance, ranking, None);
    if topK >= 1 {
      DistinctRanking(t, distance, ranking);
      OverscanSuffices(all, topK, exclude);
      FirstKept(all, exclude, topK);
      RankedIds(t, m, distance, ranking);
      KeptCount(all, m.Keys, exclude);
      NoneExcluded(Take(Kept(all, exclude), topK), all, exclude, topK);
    } else {
      var hits := Take(all, Overscan(topK, |exclude|));
      FirstKept(hits, exclude, 1);
      NoneExcluded(Found(hits, topK, exclude), hits, exclude, 1);
    }
  }

  ghost predicate DistinctIds<Id>(hits: seq<Hit<Id>>) {
    forall i, j :: 0 <= i < j < |hits| ==> hits[i].id != hits[j].id
  }

  lemma {:induction false} KeptPrefix<Id>(hits: seq<Hit<Id>>, exclude: set<Id>, n: nat)
    requires n <= |hits|
    ensures Kept(hits[..n], exclude) <= Kept(hits, exclude)
    decreases |hits|
  {
    if n < |hits| {
      var front := hits[..|hits| - 1];
      KeptPrefix(front, exclude, n);
      assert front[..n] == hits[..n];
    } else {
      assert hits[..n] == hits;
    }
  }

  lemma FoundEarly<Id>(hits: seq<Hit<Id>>, exclude: set<Id>, n: nat, topK: int)
    requires n <= |hits| && |Kept(hits[..n], exclude)| == if topK < 1 then 1 else topK
    ensures Kept(hits[..n], exclude) == Found(hits, topK, exclude)
  {
    KeptPrefix(hits, exclude, n);
  }

  lemma {:induction false} KeptIgnores<Id>(hits: seq<Hit<Id>>, exclude: set<Id>, id: Id)
    requires forall k :: 0 <= k < |hits| ==> hits[k].id != id
    ensures Kept(hits, exclude) == Kept(hits, exclude - {id})
  {
    if hits != [] {
      KeptIgnores(hits[..|hits| - 1], exclude, id);
      assert hits[|hits| - 1].id != id;
    }
  }

  /** With distinct ids, exclusion drops at most as many hits as there are excluded ids. */
  lemma {:induction false} FewAreDropped<Id>(hits: seq<Hit<Id>>, exclude: set<Id>)
    requires DistinctIds(hits)
    ensures |Kept(hits, exclude)| >= |hits| - |exclude|
  {
    if hits != [] {
      var n := |hits| - 1;
      var front, last := hits[..n], hits[n];
      if last.id in exclude {
        KeptIgnores(front, exclude, last.id);
        FewAreDropped(front, exclude - {last.id});
      } else {
        FewAreDropped(front, exclude);
      }
    }
  }

  /** Searching only the overscan gives the first topK of the full ranking without the excluded ids. */
  lemma OverscanSuffices<Id>(all: seq<Hit<Id>>, topK: int, exclude: set<Id>)
    requires topK >= 1 && DistinctIds(all)
    ensures Found(Take(all, Overscan(topK, |exclude|)), topK, exclude) == Take(Kept(all, exclude), topK)
  {
    var n := Overscan(topK, |exclude|);
    if n < |all| {
      var hits := all[..n];
      FewAreDropped(hits, exclude);
      KeptPrefix(all, exclude, n);
    }
  }

  lemma DistinctRanking<Id, V>(t: Tables<Id, V>, distance: V -> Distance, ranking: seq<nat>)
    requires Valid(t) && IsRanking(t, distance, ranking)
    ensures DistinctIds(FullRanking(t, distance, ranking, None))
  {
    var all := FullRanking(t, distance, ranking, None);
    forall i, j | 0 <= i < j < |all|
      ensures all[i].id != all[j].id
    {
      HitsDescend(t, distance, ranking, None, i, j);
    }
  }

  lemma UnfilteredAnswer<Id, V>(t: Tables<Id, V>, distance: V -> Distance, ranking: seq<nat>, limit: int)
    requires Valid(t) && IsRanking(t, distance, ranking)
    ensures Answer(t, distance, ranking, limit, None) == Take(FullRanking(t, distance, ranking, None), limit)
  {
    hide Valid, IsRanking;
    RankedRows(t, distance, ranking);
    var knn := Take(ranking, limit);
    UnfilteredHits(t, distance, knn);
    UnfilteredHits(t, distance, ranking);
  }

  /** For every list of hits with distinct ids the overscan gives what the full ranking gives. */
  ghost predicate OverscanAlwaysExact(topK: int, exclude: set<nat>) {
    forall all: seq<Hit<nat>> | DistinctIds(all)
      :: Found(Take(all, Overscan(topK, |exclude|)), topK, exclude) == Take(Kept(all, exclude), topK)
  }

  lemma {:induction false} SomeIdOutside(exclude: set<nat>) returns (id: nat)
    ensures forall x :: x in exclude ==> x < id
  {
    if exclude == {} {
      id := 0;
    } else {
      var x :| x in exclude;
      var above := SomeIdOutside(exclude - {x});
      id := if x < above then above else x + 1;
      forall y | y in exclude
        ensures y < id
      {
        assert y == x || y in exclude - {x};
      }
    }
  }

  /** Below topK = 1 the loop can still return one hit, unless the overscan is empty too. */
  lemma OverscanExactExactly(topK: int, exclude: set<nat>)
    ensures OverscanAlwaysExact(topK, exclude) <==> topK >= 1 || topK + |exclude| <= 0
  {
    if topK >= 1 {
      forall all: seq<Hit<nat>> | DistinctIds(all)
        ensures Found(Take(all, Overscan(topK, |exclude|)), topK, exclude) == Take(Kept(all, exclude), topK)
      {
        OverscanSuffices(all, topK, exclude);
      }
    } else if topK + |exclude| > 0 {
      var id := SomeIdOutside(exclude);
      var all := [Hit(id, 1.0, EMPTY_META)];
      assert DistinctIds(all);
      assert Take(all, Overscan(topK, |exclude|)) == all;
      assert all[..0] == [];
      assert Kept(all, exclude) == [Similar(id, 1.0)];
      assert Found(all, topK, exclude) != Take(Kept(all, exclude), topK);
    }
  }
}
