/**
 * The in-memory R-tree spatial database: a feature cache keyed by feature id
 * and a tree of (rectangle, id) entries, with the indexing pipeline that fills
 * both and the point-in-polygon query pipeline that reads them. The query's
 * concurrent fan-out is modelled as one sequential pass over the candidates.
 */
module Database {
  import opened Wrappers
  import opened Errors
  import opened Config
  import opened Rects

  /** spr.StandardPlacesResult, the summary record a query returns. */
  type Spr

  /** The cached GeoJSON geometry a containment test runs against. */
  type Geometry

  /** filter.Filter, an opaque predicate on summary records. */
  type Filter

  /** cache.SPRCacheItem: its SPR() and Geometry() accessors may fail (None). */
  datatype CacheItem = CacheItem(spr: Option<Spr>, geometry: Option<Geometry>)

  /** go-cache's NoExpiration, the expiration every cache write here passes. */
  const NoExpiration: int := -1

  /** One go-cache item: the stored value and the expiration it was set with. */
  datatype CacheEntry = CacheEntry(item: CacheItem, expiration: int)

  type Cache = map<string, CacheEntry>

  /**
   * wof_geojson.Feature as IndexFeature uses it: its id, the outcome of
   * BoundingBoxes() and the outcome of cache.NewSPRCacheItem(f).
   */
  datatype Feature = Feature(id: string, bboxes: Option<seq<BBox>>, item: Option<CacheItem>)

  /** RTreeSpatialIndex, one entry of the tree. */
  datatype Entry = Entry(bounds: Rect, id: string)

  /** filter.FilterSPR: whether a filter lets a summary record through. */
  type FilterRule = (Filter, Spr) -> bool

  /** geo.GeoJSONGeometryContainsCoord. */
  type ContainsRule = (Geometry, Point) -> bool

  // ---------------------------------------------------------------------------
  // Indexing

  /**
   * The entries IndexFeature inserts for a feature's boxes: one per box, in
   * order, up to (not including) the first box whose rectangle cannot be built.
   */
  function IndexedEntries(id: string, boxes: seq<BBox>, ok: LengthsRule): (es: seq<Entry>)
    ensures |es| <= |boxes|
    ensures forall k | 0 <= k < |es| :: BoxRect(boxes[k], ok).Ok? && es[k] == Entry(BoxRect(boxes[k], ok).value, id)
    ensures |es| < |boxes| ==> BoxRect(boxes[|es|], ok).Err?
  {
    if boxes == [] then []
    else match BoxRect(boxes[0], ok)
      case Err(_) => []
      case Ok(rect) => [Entry(rect, id)] + IndexedEntries(id, boxes[1..], ok)
  }

  /** What IndexFeature returns once the cache item is written: the first rectangle error in strict mode, else nothing. */
  function IndexOutcome(id: string, boxes: seq<BBox>, strict: bool, ok: LengthsRule): (r: Option<Error>)
    ensures !strict ==> r == None
    ensures strict ==> (r == None <==> |IndexedEntries(id, boxes, ok)| == |boxes|)
    ensures r.Some? ==>
      var n := |IndexedEntries(id, boxes, ok)|;
      n < |boxes| && r.value == BoxRect(boxes[n], ok).error
    ensures r.Some? ==> exists k | 0 <= k < |boxes| :: r.value == RectError(boxes[k].max.x - boxes[k].min.x, boxes[k].max.y - boxes[k].min.y)
  {
    var n := |IndexedEntries(id, boxes, ok)|;
    if n < |boxes| && strict then Some(BoxRect(boxes[n], ok).error) else None
  }

  // ---------------------------------------------------------------------------
  // Searching

  /** rtreego's SearchIntersect over the tree's entries (in insertion order). */
  function Intersecting(entries: seq<Entry>, probe: Rect): seq<Entry>
  {
    if entries == [] then []
    else (if Intersects(entries[0].bounds, probe) then [entries[0]] else []) + Intersecting(entries[1..], probe)
  }

  /** The search returns each intersecting entry as often as the tree holds it, and nothing else. */
  lemma {:induction false} IntersectingCount(entries: seq<Entry>, probe: Rect, e: Entry)
    ensures multiset(Intersecting(entries, probe))[e] == if Intersects(e.bounds, probe) then multiset(entries)[e] else 0
  {
    if entries != [] {
      IntersectingCount(entries[1..], probe, e);
      assert entries == [entries[0]] + entries[1..];
    }
  }

  lemma IntersectingMembers(entries: seq<Entry>, probe: Rect)
    ensures forall e :: e in Intersecting(entries, probe) <==> e in entries && Intersects(e.bounds, probe)
  {
    forall e
      ensures e in Intersecting(entries, probe) <==> e in entries && Intersects(e.bounds, probe)
    {
      IntersectingCount(entries, probe, e);
    }
  }

  // ---------------------------------------------------------------------------
  // Evaluating candidates

  /** retrieveSPRCacheItem: the cached item, or "Invalid cache ID" on a miss. */
  function RetrieveSPRCacheItem(cache: Cache, id: string): (r: Result<CacheItem, Error>)
    ensures r.Ok? <==> id in cache
    ensures r.Ok? ==> r.value == cache[id].item
    ensures r.Err? ==> r.error == InvalidCacheId
  {
    if id in cache then Ok(cache[id].item) else Err(InvalidCacheId)
  }

  /**
   * The loop over the filters in inflateResultsWithChannels: the index of the
   * first filter that rejects the record, or None when all of them pass.
   */
  method ApplyFilters(filters: seq<Filter>, s: Spr, passes: FilterRule) returns (rejectedBy: Option<nat>)
    ensures rejectedBy.None? <==> forall j | 0 <= j < |filters| :: passes(filters[j], s)
    ensures rejectedBy.Some? ==>
      && rejectedBy.value < |filters|
      && !passes(filters[rejectedBy.value], s)
      && forall j | 0 <= j < rejectedBy.value :: passes(filters[j], s)
  {
    var i := 0;
    while i < |filters|
      invariant 0 <= i <= |filters|
      invariant forall j | 0 <= j < i :: passes(filters[j], s)
    {
      if !passes(filters[i], s) {
        return Some(i);
      }
      i := i + 1;
    }
    return None;
  }

  /**
   * What one candidate id yields when it is evaluated: its summary record when
   * it survives the cache lookup, SPR(), every filter, Geometry() and the
   * containment test, in that order; None when any of them drops it.
   */
  function Evaluate(cache: Cache, id: string, c: Point, filters: seq<Filter>, passes: FilterRule, contains: ContainsRule): (r: Option<Spr>)
    ensures r.Some? <==>
      && id in cache
      && cache[id].item.spr.Some?
      && (forall j | 0 <= j < |filters| :: passes(filters[j], cache[id].item.spr.value))
      && cache[id].item.geometry.Some?
      && contains(cache[id].item.geometry.value, c)
    ensures r.Some? ==> r == cache[id].item.spr
  {
    match RetrieveSPRCacheItem(cache, id)
    case Err(_) => None
    case Ok(fc) =>
      match fc.spr
      case None => None
      case Some(s) =>
        if exists j | 0 <= j < |filters| :: !passes(filters[j], s) then None
        else match fc.geometry
          case None => None
          case Some(g) => if contains(g, c) then Some(s) else None
  }

  /** The ids of a list of entries. */
  function Ids(rows: seq<Entry>): set<string>
  {
    set e | e in rows :: e.id
  }

  /**
   * What the query emits for a candidate list: `results[i]` is what candidate
   * id `ids[i]` yields; each id at most once; only ids of candidates; and every
   * candidate id that survives evaluation is among them. Order is free.
   */
  ghost predicate Emitted(cache: Cache, rows: seq<Entry>, c: Point, filters: seq<Filter>, passes: FilterRule,
                          contains: ContainsRule, results: seq<Spr>, ids: seq<string>)
  {
    && |ids| == |results|
    && (forall i | 0 <= i < |ids| :: Evaluate(cache, ids[i], c, filters, passes, contains) == Some(results[i]))
    && (forall i, j | 0 <= i < j < |ids| :: ids[i] != ids[j])
    && (forall i | 0 <= i < |ids| :: ids[i] in Ids(rows))
    && (forall e | e in rows && Evaluate(cache, e.id, c, filters, passes, contains).Some? :: e.id in ids)
  }

  /** The distinct candidate ids that survive evaluation. */
  ghost function Survivors(cache: Cache, rows: seq<Entry>, c: Point, filters: seq<Filter>, passes: FilterRule,
                           contains: ContainsRule): set<string>
  {
    set x | x in Ids(rows) && Evaluate(cache, x, c, filters, passes, contains).Some?
  }

  // ---------------------------------------------------------------------------
  // The database

  class RTreeSpatialDatabase {
    const strict: bool
    /** The go-cache default expiration and cleanup interval, in nanoseconds. */
    const defaultExpiration: int
    const cleanupInterval: int
    /** The rule rtreego.NewRect applies to side lengths. */
    const lengthsOk: LengthsRule
    /** The tree's entries, in insertion order. */
    var entries: seq<Entry>
    var cache: Cache

    /**
     * Every entry's id has a cache item (the item is written before any of the
     * feature's rectangles is inserted), and every item was stored with
     * NoExpiration, the only expiration setSPRCacheItem ever passes.
     */
    ghost predicate Valid()
      reads this
    {
      && (forall e | e in entries :: e.id in cache)
      && (forall id | id in cache :: cache[id].expiration == NoExpiration)
    }

    constructor (config: Config, lengthsOk: LengthsRule)
      ensures Valid()
      ensures strict == config.strict
      ensures defaultExpiration == config.defaultExpiration && cleanupInterval == config.cleanupInterval
      ensures this.lengthsOk == lengthsOk
      ensures entries == [] && cache == map[]
    {
      strict := config.strict;
      defaultExpiration := config.defaultExpiration;
      cleanupInterval := config.cleanupInterval;
      this.lengthsOk := lengthsOk;
      entries := [];
      cache := map[];
    }

    method Close() returns (err: Option<Error>)
      ensures err == None
    {
      return None;
    }

    /** setSPRCacheItem: build the item and store it under the feature's id, never expiring. */
    method SetSPRCacheItem(f: Feature) returns (err: Option<Error>)
      requires Valid()
      modifies this`cache
      ensures Valid()
      ensures f.item.None? ==> err == Some(CacheItemError) && cache == old(cache)
      ensures f.item.Some? ==> err == None && cache == old(cache)[f.id := CacheEntry(f.item.value, NoExpiration)]
    {
      if f.item.None? {
        return Some(CacheItemError);
      }
      cache := cache[f.id := CacheEntry(f.item.value, NoExpiration)];
      return None;
    }

    /**
     * IndexFeature: write the cache item, then insert one entry per bounding
     * box in order; the first box whose rectangle cannot be built ends the
     * call, with its error in strict mode and without one otherwise.
     */
    method IndexFeature(f: Feature) returns (err: Option<Error>)
      requires Valid()
      modifies this
      ensures Valid()
      ensures f.bboxes.None? ==> err == Some(BoundingBoxError) && entries == old(entries) && cache == old(cache)
      ensures f.bboxes.Some? && f.item.None? ==> err == Some(CacheItemError) && entries == old(entries) && cache == old(cache)
      ensures f.bboxes.Some? && f.item.Some? ==>
        && cache == old(cache)[f.id := CacheEntry(f.item.value, NoExpiration)]
        && entries == old(entries) + IndexedEntries(f.id, f.bboxes.value, lengthsOk)
        && err == IndexOutcome(f.id, f.bboxes.value, strict, lengthsOk)
    {
      if f.bboxes.None? {
        return Some(BoundingBoxError);
      }
      var bboxes := f.bboxes.value;
      err := SetSPRCacheItem(f);
      if err.Some? {
        return;
      }
      err := InsertBoxes(f.id, bboxes);
    }

    /**
     * The loop of IndexFeature over the bounding boxes: insert one entry per
     * box, in order, stopping at the first rectangle that cannot be built.
     */
    method InsertBoxes(id: string, bboxes: seq<BBox>) returns (err: Option<Error>)
      requires Valid() && id in cache
      modifies this`entries
      ensures Valid()
      ensures entries == old(entries) + IndexedEntries(id, bboxes, lengthsOk)
      ensures err == IndexOutcome(id, bboxes, strict, lengthsOk)
    {
      ghost var indexed := IndexedEntries(id, bboxes, lengthsOk);
      var i := 0;
      while i < |bboxes|
        invariant i <= |indexed|
        invariant entries == old(entries) + indexed[..i]
        invariant Valid()
      {
        var sw, ne := bboxes[i].min, bboxes[i].max;
        var rect := NewRect(Point(sw.x, sw.y), ne.x - sw.x, ne.y - sw.y, lengthsOk);
        assert rect == BoxRect(bboxes[i], lengthsOk);
        if rect.Err? {
          assert i == |indexed|;
          assert indexed[..i] == indexed;
          if strict {
            return Some(rect.error);
          }
          return None;
        }
        assert i < |indexed| && indexed[i] == Entry(rect.value, id);
        entries := entries + [Entry(rect.value, id)];
        assert indexed[..i + 1] == indexed[..i] + [indexed[i]];
        i := i + 1;
      }
      assert indexed[..i] == indexed;
      return None;
    }

    /** getIntersectsByCoord: search the tree with the probe anchored at the coordinate. */
    function GetIntersectsByCoord(c: Point): (r: Result<seq<Entry>, Error>)
      reads this
      ensures r.Err? <==> !lengthsOk(ProbeSide, ProbeSide)
      ensures r.Err? ==> r.error == RectError(ProbeSide, ProbeSide)
      ensures r.Ok? ==> forall e :: multiset(r.value)[e] ==
                                    (if Intersects(e.bounds, ProbeRect(c, lengthsOk).value) then multiset(entries)[e] else 0)
    {
      match ProbeRect(c, lengthsOk)
      case Err(e) => Err(e)
      case Ok(probe) =>
        IntersectingCountAll(entries, probe);
        Ok(Intersecting(entries, probe))
    }

    /**
     * inflateResultsWithChannels, run sequentially: skip ids already seen,
     * mark the id seen, then emit the record if the candidate survives
     * evaluation.
     */
    method InflateResults(possible: seq<Entry>, c: Point, filters: seq<Filter>, passes: FilterRule, contains: ContainsRule)
      returns (results: seq<Spr>, ghost ids: seq<string>)
      ensures Emitted(cache, possible, c, filters, passes, contains, results, ids)
      ensures |results| == |Survivors(cache, possible, c, filters, passes, contains)|
      ensures forall s | s in results :: exists e | e in possible :: Evaluate(cache, e.id, c, filters, passes, contains) == Some(s)
    {
      var seen: set<string> := {};
      results, ids := [], [];
      var i := 0;
      while i < |possible|
        invariant 0 <= i <= |possible|
        invariant |ids| == |results|
        invariant forall k | 0 <= k < |ids| :: Evaluate(cache, ids[k], c, filters, passes, contains) == Some(results[k])
        invariant forall k, j | 0 <= k < j < |ids| :: ids[k] != ids[j]
        invariant forall k | 0 <= k < |ids| :: ids[k] in seen
        invariant seen <= Ids(possible)
        invariant forall k | 0 <= k < i :: possible[k].id in seen
        invariant forall id | id in seen && Evaluate(cache, id, c, filters, passes, contains).Some? :: id in ids
      {
        var sp := possible[i];
        var id := sp.id;
        if id !in seen {
          seen := seen + {id};
          var fc := RetrieveSPRCacheItem(cache, id);
          if fc.Ok? && fc.value.spr.Some? {
            var s := fc.value.spr.value;
            var rejectedBy := ApplyFilters(filters, s, passes);
            if rejectedBy.None? && fc.value.geometry.Some? && contains(fc.value.geometry.value, c) {
              results, ids := results + [s], ids + [id];
            }
          }
        }
        i := i + 1;
      }
      EmittedRecords(cache, possible, c, filters, passes, contains, results, ids);
    }

    /**
     * PointInPolygon without its channels: the probe's error, or the records
     * emitted for the entries the probe intersects.
     */
    method PointInPolygon(c: Point, filters: seq<Filter>, passes: FilterRule, contains: ContainsRule)
      returns (r: Result<seq<Spr>, Error>, ghost ids: seq<string>)
      ensures r.Err? <==> !lengthsOk(ProbeSide, ProbeSide)
      ensures r.Err? ==> r.error == RectError(ProbeSide, ProbeSide)
      ensures r.Ok? ==>
        Emitted(cache, Intersecting(entries, ProbeRect(c, lengthsOk).value), c, filters, passes, contains, r.value, ids)
      ensures r.Ok? ==>
        |r.value| == |Survivors(cache, Intersecting(entries, ProbeRect(c, lengthsOk).value), c, filters, passes, contains)|
    {
      var rows := GetIntersectsByCoord(c);
      if rows.Err? {
        return Err(rows.error), [];
      }
      var results;
      results, ids := InflateResults(rows.value, c, filters, passes, contains);
      return Ok(results), ids;
    }
  }

  lemma IntersectingCountAll(entries: seq<Entry>, probe: Rect)
    ensures forall e :: multiset(Intersecting(entries, probe))[e] ==
                         (if Intersects(e.bounds, probe) then multiset(entries)[e] else 0)
  {
    forall e
      ensures multiset(Intersecting(entries, probe))[e] == if Intersects(e.bounds, probe) then multiset(entries)[e] else 0
    {
      IntersectingCount(entries, probe, e);
    }
  }

  // ---------------------------------------------------------------------------
  // Properties of the query

  /** A sequence without repetitions holds each of its elements exactly once. */
  lemma {:induction false} DistinctCount(s: seq<string>, x: string)
    requires forall i, j | 0 <= i < j < |s| :: s[i] != s[j]
    ensures multiset(s)[x] == if x in s then 1 else 0
  {
    if s != [] {
      DistinctCount(s[1..], x);
      assert s == [s[0]] + s[1..];
      assert s[0] !in s[1..] by {
        forall i | 0 <= i < |s[1..]| ensures s[1..][i] != s[0] {
          assert s[1..][i] == s[i + 1];
        }
      }
    }
  }

  /**
   * The emitted ids are exactly the ids of the candidates that survive
   * evaluation, each emitted once. They depend on the candidate list only
   * through its set of ids, so neither the order in which the tree returns
   * candidates nor how many parts of a feature it returns changes them.
   */
  lemma EmittedIds(cache: Cache, rows: seq<Entry>, c: Point, filters: seq<Filter>, passes: FilterRule,
                   contains: ContainsRule, results: seq<Spr>, ids: seq<string>, x: string)
    requires Emitted(cache, rows, c, filters, passes, contains, results, ids)
    ensures multiset(ids)[x] == if x in Ids(rows) && Evaluate(cache, x, c, filters, passes, contains).Some? then 1 else 0
  {
    DistinctCount(ids, x);
    if x in ids {
      var i :| 0 <= i < |ids| && ids[i] == x;
      assert Evaluate(cache, ids[i], c, filters, passes, contains) == Some(results[i]);
    }
    if x in Ids(rows) && Evaluate(cache, x, c, filters, passes, contains).Some? {
      var e :| e in rows && e.id == x;
    }
  }

  /** Taking element j out of a sequence takes one copy of it out of its multiset. */
  lemma RemoveAt<T>(s: seq<T>, j: nat)
    requires j < |s|
    ensures multiset(s) == multiset(s[..j] + s[j + 1..]) + multiset{s[j]}
  {
    assert s == s[..j] + [s[j]] + s[j + 1..];
  }

  lemma Cancel<T>(a: multiset<T>, b: multiset<T>, x: T)
    requires a + multiset{x} == b + multiset{x}
    ensures a == b
  {
    forall y ensures a[y] == b[y] {
      assert (a + multiset{x})[y] == (b + multiset{x})[y];
    }
  }

  /**
   * Records paired pointwise with ids by an evaluation `rec`: when the ids of
   * two such pairings are the same multiset, so are the records.
   */
  lemma {:induction false} RecordsPermute(rec: string -> Option<Spr>, ids: seq<string>, results: seq<Spr>,
                                          ids': seq<string>, results': seq<Spr>)
    requires |ids| == |results| && |ids'| == |results'|
    requires forall i | 0 <= i < |ids| :: rec(ids[i]) == Some(results[i])
    requires forall i | 0 <= i < |ids'| :: rec(ids'[i]) == Some(results'[i])
    requires multiset(ids) == multiset(ids')
    ensures multiset(results) == multiset(results')
    decreases |ids|
  {
    if ids == [] {
      assert |ids'| == |multiset(ids')| == 0;
    } else {
      var x := ids[0];
      assert x in multiset(ids');
      var j :| 0 <= j < |ids'| && ids'[j] == x;
      var rest := ids'[..j] + ids'[j + 1..];
      var restResults := results'[..j] + results'[j + 1..];
      RemoveAt(ids, 0);
      RemoveAt(ids', j);
      RemoveAt(results, 0);
      RemoveAt(results', j);
      assert ids[..0] + ids[1..] == ids[1..];
      assert results[..0] + results[1..] == results[1..];
      Cancel(multiset(ids[1..]), multiset(rest), x);
      forall i | 0 <= i < |rest|
        ensures rec(rest[i]) == Some(restResults[i])
      {
        if i < j {
          assert rest[i] == ids'[i] && restResults[i] == results'[i];
        } else {
          assert rest[i] == ids'[i + 1] && restResults[i] == results'[i + 1];
        }
      }
      forall i | 0 <= i < |ids[1..]|
        ensures rec(ids[1..][i]) == Some(results[1..][i])
      {
        assert ids[1..][i] == ids[i + 1] && results[1..][i] == results[i + 1];
      }
      RecordsPermute(rec, ids[1..], results[1..], rest, restResults);
      assert results[0] == results'[j] by {
        assert rec(ids[0]) == Some(results[0]) && rec(ids'[j]) == Some(results'[j]);
      }
    }
  }

  /** Two queries whose candidates carry the same ids emit the same ids, each once, and the same records. */
  lemma EmittedUpToOrder(cache: Cache, rows: seq<Entry>, rows': seq<Entry>, c: Point, filters: seq<Filter>,
                         passes: FilterRule, contains: ContainsRule,
                         results: seq<Spr>, ids: seq<string>, results': seq<Spr>, ids': seq<string>)
    requires Ids(rows) == Ids(rows')
    requires Emitted(cache, rows, c, filters, passes, contains, results, ids)
    requires Emitted(cache, rows', c, filters, passes, contains, results', ids')
    ensures multiset(ids) == multiset(ids')
    ensures |results| == |results'|
    ensures multiset(results) == multiset(results')
  {
    forall x ensures multiset(ids)[x] == multiset(ids')[x] {
      EmittedIds(cache, rows, c, filters, passes, contains, results, ids, x);
      EmittedIds(cache, rows', c, filters, passes, contains, results', ids', x);
    }
    assert multiset(ids) == multiset(ids');
    assert |ids| == |multiset(ids)| == |multiset(ids')| == |ids'|;
    RecordsPermute(x => Evaluate(cache, x, c, filters, passes, contains), ids, results, ids', results');
  }

  /**
   * The query emits one record per surviving candidate id, and each record is
   * what some candidate yields.
   */
  lemma EmittedRecords(cache: Cache, rows: seq<Entry>, c: Point, filters: seq<Filter>, passes: FilterRule,
                       contains: ContainsRule, results: seq<Spr>, ids: seq<string>)
    requires Emitted(cache, rows, c, filters, passes, contains, results, ids)
    ensures |results| == |Survivors(cache, rows, c, filters, passes, contains)|
    ensures forall s | s in results :: exists e | e in rows :: Evaluate(cache, e.id, c, filters, passes, contains) == Some(s)
  {
    var survivors := Survivors(cache, rows, c, filters, passes, contains);
    forall x ensures multiset(ids)[x] == multiset(survivors)[x] {
      EmittedIds(cache, rows, c, filters, passes, contains, results, ids, x);
    }
    assert multiset(ids) == multiset(survivors);
    assert |ids| == |multiset(ids)| == |multiset(survivors)| == |survivors|;
    forall s | s in results ensures exists e | e in rows :: Evaluate(cache, e.id, c, filters, passes, contains) == Some(s) {
      var i :| 0 <= i < |results| && results[i] == s;
      assert ids[i] in Ids(rows);
      var e :| e in rows && e.id == ids[i];
      assert Evaluate(cache, e.id, c, filters, passes, contains) == Some(s);
    }
  }

  /**
   * While every tree entry has a cache item (RTreeSpatialDatabase.Valid), no
   * candidate of any probe misses the cache.
   */
  lemma CandidatesAreCached(entries: seq<Entry>, cache: Cache, probe: Rect)
    requires forall e | e in entries :: e.id in cache
    ensures forall e | e in Intersecting(entries, probe) :: RetrieveSPRCacheItem(cache, e.id).Ok?
  {
    IntersectingMembers(entries, probe);
  }

  /**
   * After IndexFeature has cached a feature and inserted a box that holds the
   * coordinate, a query at that coordinate whose filters all pass the
   * feature's record, and whose geometry contains the coordinate, emits the
   * feature exactly once, with its record.
   */
  lemma IndexedPointIsFound(entries: seq<Entry>, cache: Cache, f: Feature, ok: LengthsRule, k: nat, c: Point,
                            filters: seq<Filter>, passes: FilterRule, contains: ContainsRule,
                            results: seq<Spr>, ids: seq<string>)
    requires f.bboxes.Some? && f.item.Some?
    requires k < |IndexedEntries(f.id, f.bboxes.value, ok)| && InBox(c, f.bboxes.value[k])
    requires ok(ProbeSide, ProbeSide)
    requires f.item.value.spr.Some? && f.item.value.geometry.Some?
    requires forall j | 0 <= j < |filters| :: passes(filters[j], f.item.value.spr.value)
    requires contains(f.item.value.geometry.value, c)
    requires Emitted(cache[f.id := CacheEntry(f.item.value, NoExpiration)],
                     Intersecting(entries + IndexedEntries(f.id, f.bboxes.value, ok), ProbeRect(c, ok).value),
                     c, filters, passes, contains, results, ids)
    ensures multiset(ids)[f.id] == 1
    ensures f.item.value.spr.value in results
  {
    var cache' := cache[f.id := CacheEntry(f.item.value, NoExpiration)];
    var boxes := f.bboxes.value;
    var added := IndexedEntries(f.id, boxes, ok);
    var all := entries + added;
    var probe := ProbeRect(c, ok).value;
    var rows := Intersecting(all, probe);
    ProbeFindsBox(c, boxes[k], ok);
    assert all[|entries| + k] == added[k];
    IntersectingMembers(all, probe);
    assert added[k] in rows;
    assert Evaluate(cache', f.id, c, filters, passes, contains).Some?;
    EmittedIds(cache', rows, c, filters, passes, contains, results, ids, f.id);
    var j :| 0 <= j < |ids| && ids[j] == f.id;
    assert Evaluate(cache', ids[j], c, filters, passes, contains) == Some(results[j]);
  }

  /**
   * NewRTreeSpatialDatabase: `u` is the query of the parsed URI (None when
   * url.Parse failed). A bad numeric parameter fails construction.
   */
  method NewRTreeSpatialDatabase(u: Option<Query>, lengthsOk: LengthsRule)
    returns (db: RTreeSpatialDatabase?, err: Option<Error>)
    ensures u.None? ==> db == null && err == Some(UrlError)
    ensures u.Some? && ParseConfig(u.value).Err? ==> db == null && err == Some(ParseConfig(u.value).error)
    ensures u.Some? && ParseConfig(u.value).Ok? ==>
      && err == None && db != null && fresh(db) && db.Valid()
      && db.strict == ParseConfig(u.value).value.strict
      && db.defaultExpiration == ParseConfig(u.value).value.defaultExpiration
      && db.cleanupInterval == ParseConfig(u.value).value.cleanupInterval
      && db.lengthsOk == lengthsOk
      && db.entries == [] && db.cache == map[]
  {
    if u.None? {
      return null, Some(UrlError);
    }
    var config := ParseConfig(u.value);
    if config.Err? {
      return null, Some(config.error);
    }
    db := new RTreeSpatialDatabase(config.value, lengthsOk);
    err := None;
  }
}
