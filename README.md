# R-tree spatial database of go-whosonfirst-spatial-rtree, in Dafny

This project models the in-memory R-tree spatial database of
`go-whosonfirst-spatial-rtree` (`database.go`). The database owns two things:

- a feature cache, mapping a feature id to its cache item (summary record and geometry);
- an R-tree of entries, each a rectangle tagged with a feature id.

The model covers four pieces.

- **Construction** (`Config`): the query parameters of the construction URI.
  `strict` is false only for the exact value `"false"`. `default_expiration`
  and `cleanup_interval` are 0 when absent. Otherwise they are an integer
  number of seconds, read by Go's `strconv.Atoi` (optional sign, decimal
  digits, int64 range). The value is converted by `time.Duration(n) * time.Second`,
  which wraps around in int64. A non-integer value fails construction.
- **Geometry** (`Rects`): bounding boxes, the rtreego rectangles built from
  them (origin at the south-west corner, side lengths `ne - sw`), the probe
  rectangle of a point query, and rectangle intersection. The probe is
  anchored at the coordinate with side 0.0001; it is not centred on it.
- **Indexing** (`Database.RTreeSpatialDatabase.IndexFeature`): the cache item
  is written under the feature id with no expiration. Then one entry per
  bounding box is inserted, in order. The first box whose rectangle cannot be
  built ends the call: strict mode returns that error, non-strict mode
  returns none. In both modes the remaining boxes are not inserted.
- **Querying** (`PointInPolygon`, `InflateResults`): the probe's candidates
  are evaluated one after another. A "seen" set drops repeated ids. A
  candidate is dropped on a cache miss, when its record or geometry cannot
  be read, when a filter rejects it (filters run in order and stop at the
  first rejection), or when its geometry does not contain the coordinate.
  The survivors are emitted.

The tree is a sequence of entries in insertion order. The query's
properties are stated so that they do not depend on the order in which the
tree returns candidates (`EmittedIds`, `EmittedUpToOrder`).

The class invariant `Valid` says two things:

- every tree entry's id has a cache item, because the item is written before any rectangle is inserted;
- every cache item was stored with no expiration.

Under `Valid` no candidate misses the cache (`CandidatesAreCached`).

Abstractions:

- The side-length rule of `rtreego.NewRect` is a parameter (`LengthsRule`), because the library is not part of this model.
- `filter.FilterSPR` and `geo.GeoJSONGeometryContainsCoord` are parameters (`FilterRule`, `ContainsRule`).
- Summary records, geometries and filters are opaque types.
- The results of `f.BoundingBoxes()`, `cache.NewSPRCacheItem(f)`, `SPR()` and `Geometry()` are fields of the feature and the cache item. `None` stands for the error.
- `url.Parse` is modelled by its result: a query, or `None` for a parse error.
- Rectangle overlap follows rtreego: on each axis the open extents must overlap, so touching edges do not count. The rtreego source is not part of this model.

Behaviour of the code worth knowing, which the model follows:

- Non-strict mode stops at the first bad rectangle: `database.go:159-160` logs that it is skipping and returns `nil`, so no later box of the feature is inserted.
- The probe is anchored at the coordinate, not centred on it (`database.go:309-310`).
- The cache is keyed by `f.Id()` alone (`database.go:418`, `database.go:424`), so two features with the same id share one cache item.
- `strconv.Atoi` accepts negative durations, and the model keeps them.

## Model

| member | source | states |
|---|---|---|
| `Config.Atoi` | database.go:82 | an accepted string is an optional sign followed only by digits, with at least one digit; its value is an int64; a leading '-' gives a value <= 0 and anything else a value >= 0 |
| `Config.AtoiItoa` | database.go:82-88 | every int64 written in decimal is read back by Atoi as itself |
| `Config.Seconds` | database.go:88 | the duration is always an int64 congruent to n seconds in nanoseconds modulo 2^64, and exactly n seconds in nanoseconds when that fits in int64 |
| `Config.SecondsLargestExact` | database.go:99 | 9223372036 seconds is still exact; 9223372037 seconds wraps around to a negative duration |
| `Config.ParseConfig` | database.go:66-100 | with parameters read by `Get` (`url.Values.Get`: first value or ""), construction fails exactly when a present duration parameter is not an Atoi integer, with default_expiration checked first; strict is false only for "false"; absent durations are 0, present ones n seconds; an empty query gives strict with both durations 0 |
| `Config.ParseConfigQueryFor` | database.go:68-100 | any strict flag and any int64 second counts written into the query are read back unchanged |
| `Rects.BoxRect` | database.go:144-151 | the rectangle (built by `NewRect`, `rtreego.NewRect`) exists exactly when the library accepts the lengths (ne - sw); its origin is the box's south-west corner and its far corner the north-east corner; otherwise the error carries those lengths |
| `Rects.ProbeRect` | database.go:306-314 | the probe exists exactly when the library accepts side 0.0001; it is anchored at (x, y) and reaches (x + 0.0001, y + 0.0001); otherwise the error is returned |
| `Rects.ProbeWindow` | database.go:306-310 | a box is a candidate exactly when the point lies strictly between the box's south-west corner minus the probe side and its north-east corner |
| `Rects.ProbeFindsBox` | database.go:306-310 | a point inside a box (south-west edges included) always finds that box |
| `Database.IndexedEntries` | database.go:142-173 | entry k is the rectangle of box k tagged with the feature id, for every box before the first one whose rectangle cannot be built; nothing from that box on is inserted |
| `Database.IndexOutcome` | database.go:151-161 | non-strict mode never reports an error; strict mode reports one exactly when some box was not inserted, and it is the rectangle error of the first box whose rectangle cannot be built |
| `Database.IntersectingCount` | database.go:319-326 | the search (`Intersecting`, rtreego's `SearchIntersect` under the overlap test `Rects.Intersects`) returns each entry whose rectangle intersects the probe as many times as the tree holds it, and no other entry |
| `Database.IntersectingMembers` | database.go:324 | an entry is a candidate exactly when it is in the tree and intersects the probe |
| `Database.RetrieveSPRCacheItem` | database.go:422-431 | a lookup succeeds exactly when the id is cached and returns its item; a miss is the "Invalid cache ID" error |
| `Database.ApplyFilters` | database.go:379-387 | no rejection exactly when every filter passes; otherwise the index of the first rejecting filter, with all earlier filters passing |
| `Database.Evaluate` | database.go:365-403 | a candidate yields a record exactly when its id is cached, its record and geometry can be read, every filter passes the record and the geometry contains the coordinate; the record is then the cached one |
| `Database.EmittedIds` | database.go:351-363 | each candidate id that survives evaluation is emitted exactly once, and no other id is emitted |
| `Database.EmittedUpToOrder` | database.go:335-363 | candidate lists with the same ids, in any order and with any repetitions, emit the same ids and the same records (equal as multisets) |
| `Database.EmittedRecords` | database.go:398-403 | the query emits exactly as many records as there are surviving candidate ids, and every record is the one some candidate yields |
| `Database.CandidatesAreCached` | database.go:136-171 | while every entry's id is cached, no candidate of any probe misses the cache |
| `Database.IndexedPointIsFound` | database_test.go:123-146 | after indexing, a point inside an inserted box of the feature is emitted exactly once, with the feature's record, when the filters and the containment test accept it |
| `Database.RTreeSpatialDatabase.constructor` | database.go:102-116 | a new database is valid, empty (no entries, no cache items) and has the parsed strict flag and durations |
| `Database.RTreeSpatialDatabase.Close` | database.go:121-124 | closing never fails |
| `Database.RTreeSpatialDatabase.SetSPRCacheItem` | database.go:410-420 | keeps Valid; if the cache item cannot be built, the error is returned and the cache is unchanged; otherwise the item is stored under the feature id with NoExpiration, and no other key changes |
| `Database.RTreeSpatialDatabase.IndexFeature` | database.go:126-176 | keeps Valid; a bounding-box or cache-item error is returned with tree and cache unchanged; otherwise the cache gains the item, the tree gains exactly IndexedEntries after its old entries, and the result is IndexOutcome |
| `Database.RTreeSpatialDatabase.InsertBoxes` | database.go:142-173 | keeps Valid while it inserts exactly IndexedEntries after the old entries and returns IndexOutcome |
| `Database.RTreeSpatialDatabase.GetIntersectsByCoord` | database.go:304-326 | fails exactly when the probe cannot be built; otherwise returns each tree entry intersecting the probe as often as the tree holds it, and nothing else |
| `Database.RTreeSpatialDatabase.InflateResults` | database.go:328-408 | the records emitted for a candidate list: each emitted id is a candidate's, emitted once, with the record Evaluate gives it; every surviving candidate id is emitted; there is one record per surviving id, and each record is what some candidate yields |
| `Database.RTreeSpatialDatabase.PointInPolygon` | database.go:178-233 | the probe's error, or the records emitted for the tree entries intersecting the probe anchored at the coordinate, one per surviving feature id |
| `Database.NewRTreeSpatialDatabase` | database.go:58-119 | a URL error or a parameter error gives no database; otherwise a fresh valid empty database carrying the parsed settings |

## Left out

- Goroutines, channels, `sync.WaitGroup` and the mutexes (`database.go:178-233`, `database.go:335-407`): the query is one sequential pass. Its result is the sequence of emitted records.
- The check-then-act race on the "seen" map (`database.go:353-363`): two workers could both pass the check and evaluate the same id. At-most-once emission holds only for the sequential model.
- Context cancellation (`database.go:194-195`, `database.go:344-349`), which returns no results and no error: no clock or scheduler is modelled.
- Errors sent by workers on `err_ch`: no worker in `database.go` sends one, so the model never produces such an error.
- `PointInPolygonCandidates` and `PointInPolygonCandidatesWithChannels` (`database.go:235-302`): the second reads fields that `RTreeSpatialIndex` does not have and sends an undefined variable. As written it would report every entry returned by `GetIntersectsByCoord` as a candidate.
- `RemoveFeature`: `database.go` does not define it. The remove-then-query test (`database_test.go:148-165`) is not modelled.
- rtreego internals (`NewTree(2, 25, 50)`, node splitting): the tree is a sequence of entries searched by overlap. The order of search results is not modelled.
- go-cache expiry and cleanup sweeps: the cache is a plain map. The two durations are stored but never act.
- The logger calls, the `database.RegisterSpatialDatabase` registration, and the `strconv` and `time` packages, which are not part of this model; `Config.Atoi` and `Config.Seconds` follow Go's documented behaviour on a 64-bit platform.
- Floating point: coordinates are exact reals, so rounding in `ne - sw` and in the probe's far corner is not modelled.
- The Polygon/MultiPolygon gate of the command-line indexer (`cmd/query/main.go:105-110`): `IndexFeature` accepts any feature.
