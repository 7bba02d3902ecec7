/** The query cache and the performance monitor of the filter command: the
    key a query is cached under, a time-to-live cache as a state machine
    driven by an explicit clock, and the counters and timings the monitor
    keeps. */
module Cache {
  import opened Wrappers

  // ---------------------------------------------------------------------
  // Text order
  // ---------------------------------------------------------------------

  /** `a` sorts strictly before `b` in `String` order: character by
      character, a proper prefix first. Code-point order is the order of
      the UTF-8 bytes, so this is the byte order Rust compares by. */
  predicate Below(a: string, b: string)
    decreases |a|
  {
    |b| > 0 && (|a| == 0 || a[0] < b[0] || (a[0] == b[0] && Below(a[1..], b[1..])))
  }

  lemma {:induction false} BelowIrreflexive(a: string)
    ensures !Below(a, a)
    decreases |a|
  {
    if |a| > 0 {
      BelowIrreflexive(a[1..]);
    }
  }

  lemma {:induction false} BelowAsymmetric(a: string, b: string)
    requires Below(a, b)
    ensures !Below(b, a)
    decreases |a|
  {
    if |a| > 0 && a[0] == b[0] {
      BelowAsymmetric(a[1..], b[1..]);
    }
  }

  /** Two different texts are ordered one way or the other. */
  lemma {:induction false} BelowTotal(a: string, b: string)
    requires a != b
    ensures Below(a, b) || Below(b, a)
    decreases |a|
  {
    if |a| > 0 && |b| > 0 && a[0] == b[0] {
      assert a == [a[0]] + a[1..] && b == [b[0]] + b[1..];
      BelowTotal(a[1..], b[1..]);
    }
  }

  lemma {:induction false} BelowTransitive(a: string, b: string, c: string)
    requires Below(a, b) && Below(b, c)
    ensures Below(a, c)
    decreases |a|
  {
    if |a| > 0 && a[0] == b[0] && b[0] == c[0] {
      BelowTransitive(a[1..], b[1..], c[1..]);
    }
  }

  // ---------------------------------------------------------------------
  // Cache keys
  // ---------------------------------------------------------------------

  /** One parameter of a cached operation. The parameters come from a map,
      so their keys are distinct; the order a map yields them in is
      arbitrary, and a parameter list here is that order. */
  datatype Param = Param(key: string, value: string)

  predicate DistinctKeys(ps: seq<Param>) {
    forall i, j :: 0 <= i < j < |ps| ==> ps[i].key != ps[j].key
  }

  /** Keys strictly ascending. */
  predicate Ascending(ps: seq<Param>) {
    forall i, j :: 0 <= i < j < |ps| ==> Below(ps[i].key, ps[j].key)
  }

  /** Put `x` into an ascending list whose keys all differ from its key. */
  function Insert(x: Param, s: seq<Param>): (r: seq<Param>)
    requires Ascending(s)
    requires forall k :: 0 <= k < |s| ==> s[k].key != x.key
    ensures multiset(r) == multiset(s) + multiset{x}
    ensures Ascending(r)
  {
    if |s| == 0 then [x]
    else if Below(x.key, s[0].key) then
      assert forall k :: 0 < k < |s| ==> Below(s[0].key, s[k].key);
      InsertFront(x, s);
      [x] + s
    else
      BelowTotal(x.key, s[0].key);
      var rest := Insert(x, s[1..]);
      assert s == [s[0]] + s[1..];
      InsertAfter(s[0], x, s[1..], rest);
      [s[0]] + rest
  }

  lemma InsertFront(x: Param, s: seq<Param>)
    requires Ascending(s) && |s| > 0 && Below(x.key, s[0].key)
    ensures Ascending([x] + s)
  {
    forall k | 0 < k < |s|
      ensures Below(x.key, s[k].key)
    {
      BelowTransitive(x.key, s[0].key, s[k].key);
    }
  }

  lemma InsertAfter(h: Param, x: Param, s: seq<Param>, rest: seq<Param>)
    requires Ascending([h] + s) && Ascending(rest) && Below(h.key, x.key)
    requires multiset(rest) == multiset(s) + multiset{x}
    ensures Ascending([h] + rest)
  {
    forall k | 0 <= k < |rest|
      ensures Below(h.key, rest[k].key)
    {
      assert rest[k] in multiset(rest);
      if rest[k] != x {
        assert rest[k] in multiset(s);
        var j :| 0 <= j < |s| && s[j] == rest[k];
        assert ([h] + s)[0] == h && ([h] + s)[j + 1] == s[j];
      }
    }
  }

  /** The parameters in ascending key order, as the key builder sorts them. */
  function SortByKey(ps: seq<Param>): (r: seq<Param>)
    requires DistinctKeys(ps)
    ensures multiset(r) == multiset(ps)
    ensures Ascending(r)
  {
    if |ps| == 0 then []
    else
      var rest := SortByKey(ps[1..]);
      KeysAvoid(ps, rest);
      assert ps == [ps[0]] + ps[1..];
      Insert(ps[0], rest)
  }

  /** A list holding the parameters after the first has none of the first's key. */
  lemma KeysAvoid(ps: seq<Param>, rest: seq<Param>)
    requires |ps| > 0 && DistinctKeys(ps) && multiset(rest) == multiset(ps[1..])
    ensures forall k :: 0 <= k < |rest| ==> rest[k].key != ps[0].key
  {
    forall k | 0 <= k < |rest|
      ensures rest[k].key != ps[0].key
    {
      assert rest[k] in multiset(ps[1..]);
      var j :| 0 <= j < |ps[1..]| && ps[1..][j] == rest[k];
      assert ps[j + 1] == rest[k];
    }
  }

  /** `_key=value`: how one parameter shows in a key. */
  function Segment(p: Param): string {
    "_" + p.key + "=" + p.value
  }

  /** The segments of the parameters, in list order. */
  function ParamText(ps: seq<Param>): string {
    if |ps| == 0 then "" else Segment(ps[0]) + ParamText(ps[1..])
  }

  /** The key a query is cached under: the operation name followed by
      `_key=value` for every parameter in ascending key order. */
  function CacheKey(operation: string, ps: seq<Param>): (key: string)
    requires DistinctKeys(ps)
    ensures |ps| == 0 ==> key == operation
    ensures |key| >= |operation| && key[..|operation|] == operation
  {
    operation + ParamText(SortByKey(ps))
  }

  /** Two lists in ascending key order holding the same parameters are the
      same list. */
  lemma {:induction false} AscendingUnique(a: seq<Param>, b: seq<Param>)
    requires Ascending(a) && Ascending(b) && multiset(a) == multiset(b)
    ensures a == b
    decreases |a|
  {
    if |a| > 0 {
      HeadsAgree(a, b);
      assert a == [a[0]] + a[1..] && b == [b[0]] + b[1..];
      assert multiset(a[1..]) == multiset(a) - multiset{a[0]};
      assert multiset(b[1..]) == multiset(b) - multiset{b[0]};
      AscendingUnique(a[1..], b[1..]);
    } else {
      assert |multiset(b)| == 0;
    }
  }

  /** Two non-empty ascending lists with the same parameters start alike. */
  lemma HeadsAgree(a: seq<Param>, b: seq<Param>)
    requires Ascending(a) && Ascending(b) && multiset(a) == multiset(b) && |a| > 0
    ensures |b| > 0 && a[0] == b[0]
  {
    assert a[0] in multiset(b);
    assert b[0] in multiset(a);
    if a[0] != b[0] {
      var i :| 0 <= i < |a| && a[i] == b[0];
      var j :| 0 <= j < |b| && b[j] == a[0];
      BelowAsymmetric(a[0].key, b[0].key);
    }
  }

  /** The key does not depend on the order the parameters come in. */
  lemma KeyIgnoresOrder(operation: string, ps: seq<Param>, qs: seq<Param>)
    requires DistinctKeys(ps) && DistinctKeys(qs) && multiset(ps) == multiset(qs)
    ensures CacheKey(operation, ps) == CacheKey(operation, qs)
  {
    AscendingUnique(SortByKey(ps), SortByKey(qs));
  }

  /** `t` occurs in `s` at position `i`. */
  predicate OccursAt(s: string, t: string, i: int) {
    0 <= i <= |s| - |t| && s[i..i + |t|] == t
  }

  /** `t` occurs in `s`. */
  ghost predicate Contains(s: string, t: string) {
    exists i :: OccursAt(s, t, i)
  }

  lemma OccursLater(a: string, s: string, t: string, i: int)
    requires OccursAt(s, t, i)
    ensures OccursAt(a + s, t, |a| + i)
  {
    assert (a + s)[|a| + i..|a| + i + |t|] == s[i..i + |t|];
  }

  lemma {:induction false} ParamTextHolds(ps: seq<Param>, k: nat)
    requires k < |ps|
    ensures Contains(ParamText(ps), Segment(ps[k]))
    decreases k
  {
    var here := Segment(ps[0]);
    var rest := ParamText(ps[1..]);
    assert ParamText(ps) == here + rest;
    if k == 0 {
      assert OccursAt(ParamText(ps), here, 0);
    } else {
      ParamTextHolds(ps[1..], k - 1);
      var i :| OccursAt(rest, Segment(ps[k]), i);
      OccursLater(here, rest, Segment(ps[k]), i);
    }
  }

  /** Every parameter appears in the key as `_key=value`. */
  lemma KeyHoldsEveryParam(operation: string, ps: seq<Param>, k: nat)
    requires DistinctKeys(ps) && k < |ps|
    ensures Contains(CacheKey(operation, ps), Segment(ps[k]))
  {
    var sorted := SortByKey(ps);
    assert ps[k] in multiset(sorted);
    var j :| 0 <= j < |sorted| && sorted[j] == ps[k];
    ParamTextHolds(sorted, j);
    var i :| OccursAt(ParamText(sorted), Segment(ps[k]), i);
    OccursLater(operation, ParamText(sorted), Segment(ps[k]), i);
  }

  // ---------------------------------------------------------------------
  // Performance monitor
  // ---------------------------------------------------------------------

  /** Recorded query durations (whole milliseconds) by query name, and the
      cache hit and miss counters. */
  datatype Monitor = Monitor(queryTimes: map<string, seq<nat>>, hits: nat, misses: nat)

  const NEW_MONITOR := Monitor(map[], 0, 0)

  /** Append one duration to the query's list, starting the list if needed. */
  function RecordQuery(m: Monitor, name: string, millis: nat): (r: Monitor)
    ensures name in r.queryTimes
    ensures r.queryTimes[name] == (if name in m.queryTimes then m.queryTimes[name] else []) + [millis]
    ensures forall q :: q in m.queryTimes && q != name ==> q in r.queryTimes && r.queryTimes[q] == m.queryTimes[q]
    ensures r.queryTimes.Keys == m.queryTimes.Keys + {name}
    ensures r.hits == m.hits && r.misses == m.misses
  {
    var before := if name in m.queryTimes then m.queryTimes[name] else [];
    m.(queryTimes := m.queryTimes[name := before + [millis]])
  }

  function Sum(ds: seq<nat>): nat {
    if |ds| == 0 then 0 else ds[0] + Sum(ds[1..])
  }

  /** The names in the statistics map: `<query>_avg_ms`, `<query>_count`,
      `cache_hits` and `cache_misses`. */
  datatype StatKey = Avg(query: string) | Count(query: string) | Hits | Misses

  function StatName(k: StatKey): string {
    match k
    case Avg(q) => q + "_avg_ms"
    case Count(q) => q + "_count"
    case Hits => "cache_hits"
    case Misses => "cache_misses"
  }

  /** Different statistics never share a name, so a map keyed by statistic
      is the program's map keyed by name. */
  lemma StatNamesDistinct(k1: StatKey, k2: StatKey)
    requires k1 != k2
    ensures StatName(k1) != StatName(k2)
  {
    var n1 := StatName(k1);
    var n2 := StatName(k2);
    if k1.Avg? && k2.Avg? {
      assert n1[..|n1| - 7] == k1.query && n2[..|n2| - 7] == k2.query;
    } else if k1.Count? && k2.Count? {
      assert n1[..|n1| - 6] == k1.query && n2[..|n2| - 6] == k2.query;
    } else if k1.Count? || k2.Count? {
      assert n1[|n1| - 1] != n2[|n2| - 1];
    } else {
      assert n1[|n1| - 2] != n2[|n2| - 2];
    }
  }

  predicate Timed(m: Monitor, q: string) {
    q in m.queryTimes && |m.queryTimes[q]| > 0
  }

  /** The statistics: for each query with recordings its mean time and its
      number of recordings, then the two cache counters. Averages are exact
      here; the program computes them in floating point. */
  function GetStats(m: Monitor): (stats: map<StatKey, real>)
    ensures Hits in stats && stats[Hits] == m.hits as real
    ensures Misses in stats && stats[Misses] == m.misses as real
  {
    (AvgStats(m) + CountStats(m))[Hits := m.hits as real][Misses := m.misses as real]
  }

  function Mean(ds: seq<nat>): real
    requires |ds| > 0
  {
    Sum(ds) as real / |ds| as real
  }

  function AvgStats(m: Monitor): (avgs: map<StatKey, real>)
    ensures forall k :: k in avgs ==> k.Avg?
  {
    map q | q in m.queryTimes.Keys && Timed(m, q) :: Avg(q) := Mean(m.queryTimes[q])
  }

  function CountStats(m: Monitor): (counts: map<StatKey, real>)
    ensures forall k :: k in counts ==> k.Count?
  {
    map q | q in m.queryTimes.Keys && Timed(m, q) :: Count(q) := |m.queryTimes[q]| as real
  }

  /** A timed query has a mean, and nothing else is in the averages. */
  lemma AvgStat(m: Monitor, q: string)
    ensures Avg(q) in AvgStats(m) <==> Timed(m, q)
    ensures Timed(m, q) ==> AvgStats(m)[Avg(q)] == Mean(m.queryTimes[q])
    ensures Count(q) !in AvgStats(m)
  {
  }

  /** A timed query has a count, and nothing else is in the counts. */
  lemma CountStat(m: Monitor, q: string)
    ensures Count(q) in CountStats(m) <==> Timed(m, q)
    ensures Timed(m, q) ==> CountStats(m)[Count(q)] == |m.queryTimes[q]| as real
    ensures Avg(q) !in CountStats(m)
  {
  }

  /** A query has statistics exactly when it has recordings: their number
      and their mean. */
  lemma QueryStats(m: Monitor, q: string)
    ensures Count(q) in GetStats(m) <==> Timed(m, q)
    ensures Avg(q) in GetStats(m) <==> Timed(m, q)
    ensures Timed(m, q) ==> GetStats(m)[Count(q)] == |m.queryTimes[q]| as real
    ensures Timed(m, q) ==> GetStats(m)[Avg(q)] == Mean(m.queryTimes[q])
  {
    var avgs := AvgStats(m);
    var counts := CountStats(m);
    AvgStat(m, q);
    CountStat(m, q);
  }

  /** Recordings in the order they happen: query name and duration. */
  datatype Timing = Timing(name: string, millis: nat)

  function Replay(m: Monitor, ts: seq<Timing>): Monitor
    decreases |ts|
  {
    if |ts| == 0 then m else Replay(RecordQuery(m, ts[0].name, ts[0].millis), ts[1..])
  }

  function Occurrences(ts: seq<Timing>, q: string): nat {
    if |ts| == 0 then 0 else (if ts[0].name == q then 1 else 0) + Occurrences(ts[1..], q)
  }

  /** Replaying recordings adds one duration per recording of the name. */
  lemma {:induction false} ReplayCounts(m: Monitor, ts: seq<Timing>, q: string)
    ensures q in Replay(m, ts).queryTimes <==> q in m.queryTimes || Occurrences(ts, q) > 0
    ensures var before := if q in m.queryTimes then |m.queryTimes[q]| else 0;
            q in Replay(m, ts).queryTimes ==> |Replay(m, ts).queryTimes[q]| == before + Occurrences(ts, q)
    ensures Replay(m, ts).hits == m.hits && Replay(m, ts).misses == m.misses
    decreases |ts|
  {
    if |ts| > 0 {
      ReplayCounts(RecordQuery(m, ts[0].name, ts[0].millis), ts[1..], q);
    }
  }

  /** Starting from a fresh monitor, the reported count of a query equals
      the number of times it was recorded. */
  lemma CountIsRecordings(ts: seq<Timing>, q: string)
    requires Occurrences(ts, q) > 0
    ensures Count(q) in GetStats(Replay(NEW_MONITOR, ts))
    ensures GetStats(Replay(NEW_MONITOR, ts))[Count(q)] == Occurrences(ts, q) as real
  {
    ReplayCounts(NEW_MONITOR, ts, q);
    QueryStats(Replay(NEW_MONITOR, ts), q);
  }

  // ---------------------------------------------------------------------
  // Time-to-live cache
  // ---------------------------------------------------------------------

  /** Cached text, the clock reading when it was stored and how long it
      stays valid, in the clock's unit. */
  datatype Entry = Entry(data: string, timestamp: int, ttl: nat)

  datatype QueryCache = QueryCache(entries: map<string, Entry>, monitor: Monitor)

  predicate Live(e: Entry, now: int) {
    now < e.timestamp + e.ttl
  }

  /** A lookup's answer and the cache after it. */
  datatype Lookup = Lookup(value: Option<string>, cache: QueryCache)

  /** Look up `key` at clock reading `now`: a live entry is a hit and gives
      its data; an expired entry is removed; anything but a hit counts as a
      miss. */
  function Get(c: QueryCache, key: string, now: int): (r: Lookup)
    ensures r.value.Some? <==> key in c.entries && Live(c.entries[key], now)
    ensures r.value.Some? ==> r.value.value == c.entries[key].data && r.cache.entries == c.entries
    ensures r.value.None? ==> key !in r.cache.entries
    ensures forall k :: k != key ==> (k in r.cache.entries <==> k in c.entries)
    ensures forall k :: k != key && k in c.entries ==> r.cache.entries[k] == c.entries[k]
    ensures r.value.Some? ==> r.cache.monitor == c.monitor.(hits := c.monitor.hits + 1)
    ensures r.value.None? ==> r.cache.monitor == c.monitor.(misses := c.monitor.misses + 1)
  {
    if key in c.entries && Live(c.entries[key], now) then
      Lookup(Some(c.entries[key].data), c.(monitor := c.monitor.(hits := c.monitor.hits + 1)))
    else
      Lookup(None, QueryCache(c.entries - {key}, c.monitor.(misses := c.monitor.misses + 1)))
  }

  /** Store `data` under `key` from clock reading `now`, replacing what was
      there. */
  function Set(c: QueryCache, key: string, data: string, ttl: nat, now: int): (r: QueryCache)
    ensures key in r.entries && r.entries[key] == Entry(data, now, ttl)
    ensures r.entries.Keys == c.entries.Keys + {key}
    ensures forall k :: k in c.entries && k != key ==> r.entries[k] == c.entries[k]
    ensures r.monitor == c.monitor
  {
    c.(entries := c.entries[key := Entry(data, now, ttl)])
  }

  /** Drop every entry; the counters stay. */
  function Clear(c: QueryCache): (r: QueryCache)
    ensures |r.entries| == 0 && r.monitor == c.monitor
  {
    c.(entries := map[])
  }

  /** Every lookup moves exactly one of the two counters, by one. */
  lemma GetCountsOnce(c: QueryCache, key: string, now: int)
    ensures var m := Get(c, key, now).cache.monitor;
            m.hits + m.misses == c.monitor.hits + c.monitor.misses + 1
            && m.queryTimes == c.monitor.queryTimes
  {
  }

  /** What was stored is found again until its time runs out. */
  lemma GetAfterSet(c: QueryCache, key: string, data: string, ttl: nat, stored: int, now: int)
    requires stored <= now < stored + ttl
    ensures Get(Set(c, key, data, ttl, stored), key, now).value == Some(data)
  {
  }

  /** Once its time has run out the entry is gone: the lookup misses and
      removes it, and a later lookup misses too. */
  lemma ExpiredIsRemoved(c: QueryCache, key: string, data: string, ttl: nat, stored: int, now: int, later: int)
    requires now >= stored + ttl
    ensures var r := Get(Set(c, key, data, ttl, stored), key, now);
            && r.value == None
            && key !in r.cache.entries
            && Get(r.cache, key, later).value == None
  {
  }

  /** Storing twice under one key keeps only the second. */
  lemma SetOverwrites(c: QueryCache, key: string, d1: string, d2: string, t1: nat, t2: nat, n1: int, n2: int)
    ensures Set(Set(c, key, d1, t1, n1), key, d2, t2, n2) == Set(c, key, d2, t2, n2)
  {
  }

  /** After clearing, every lookup misses. */
  lemma ClearedMisses(c: QueryCache, key: string, now: int)
    ensures Get(Clear(c), key, now).value == None
  {
  }
}
